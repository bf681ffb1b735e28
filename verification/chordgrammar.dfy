/**
 * The chord-symbol pattern shared by the chord analysis, the worshipchords
 * formatter and the request handlers:
 *
 *     [A-G][#b]?(?:maj|min|m|sus|aug|dim|add)?\d*(?:/[A-G][#b]?)?
 *
 * A match is searched the way Go's regexp (leftmost-first) explores it: every
 * optional part is tried present before absent, the quality alternatives in
 * the order written, and the digit run longest first. What may follow the
 * match depends on where the pattern is used (`Anchor`).
 */
module ChordGrammar {
  import opened Wrappers
  import opened Text
  import opened Numbers

  predicate IsRootLetter(c: char) { 'A' <= c <= 'G' }
  predicate IsAccidental(c: char) { c == '#' || c == 'b' }

  /** The quality alternatives in the order the pattern lists them. */
  const Qualities: seq<string> := ["maj", "min", "m", "sus", "aug", "dim", "add"]

  datatype Bass = NoBass | Bass(root: char, accidental: Option<char>)

  /** One way of reading a chord symbol: the parts the pattern's groups consume. */
  datatype ChordSymbol = ChordSymbol(root: char, accidental: Option<char>, quality: string, digits: string, bass: Bass)

  predicate WellFormed(c: ChordSymbol) {
    && IsRootLetter(c.root)
    && (c.accidental.Some? ==> IsAccidental(c.accidental.value))
    && (c.quality == "" || c.quality in Qualities)
    && AllDigits(c.digits)
    && (c.bass.Bass? ==> IsRootLetter(c.bass.root) && (c.bass.accidental.Some? ==> IsAccidental(c.bass.accidental.value)))
  }

  function OptChar(o: Option<char>): string {
    if o.Some? then [o.value] else []
  }

  function SpellBass(b: Bass): string {
    match b
    case NoBass => []
    case Bass(r, a) => ['/', r] + OptChar(a)
  }

  /** The text of a chord symbol. */
  function Spell(c: ChordSymbol): string {
    [c.root] + OptChar(c.accidental) + c.quality + c.digits + SpellBass(c.bass)
  }

  /** What must hold right after a match. */
  datatype Anchor =
    | CloseBracket  // `\[ ... \]`: a closing bracket follows
    | WordBoundary  // `\b ... \b`: an ASCII word boundary follows
    | EndOfText     // `^ ... $`: the text ends

  /** Go's `\b`: exactly one side of position `e` is an ASCII word character. */
  predicate BoundaryAt(s: string, e: nat)
    requires e <= |s|
  {
    (e > 0 && IsWordChar(s[e - 1])) != (e < |s| && IsWordChar(s[e]))
  }

  predicate Accepts(s: string, e: nat, a: Anchor)
    requires e <= |s|
  {
    match a
    case CloseBracket => e < |s| && s[e] == ']'
    case WordBoundary => BoundaryAt(s, e)
    case EndOfText => e == |s|
  }

  datatype ChordMatch = ChordMatch(symbol: ChordSymbol, end: nat)

  /** A match found at `i`: the symbol is spelled by `s[i..end]` and the anchor holds after it. */
  predicate ValidMatch(s: string, i: nat, a: Anchor, m: ChordMatch) {
    && i <= m.end <= |s|
    && WellFormed(m.symbol)
    && s[i..m.end] == Spell(m.symbol)
    && Accepts(s, m.end, a)
  }

  /**
   * The first match of the chord pattern that starts exactly at `i`, in Go's
   * priority order. What the match spells is stated by `MatchSound`.
   */
  function MatchAt(s: string, i: nat, a: Anchor): (r: Option<ChordMatch>)
    ensures r.Some? ==> i < r.value.end <= |s| && Accepts(s, r.value.end, a)
  {
    if i < |s| && IsRootLetter(s[i]) then
      var withAcc :=
        if i + 1 < |s| && IsAccidental(s[i + 1]) then TryQualities(s, i, Some(s[i + 1]), 0, a) else None;
      withAcc.OrElse(TryQualities(s, i, None, 0, a))
    else None
  }

  /** Quality alternatives from the `k`-th on, then the empty quality. */
  function TryQualities(s: string, i: nat, acc: Option<char>, k: nat, a: Anchor): (r: Option<ChordMatch>)
    requires k <= |Qualities|
    requires i + 1 + |OptChar(acc)| <= |s|
    decreases |Qualities| - k
    ensures r.Some? ==> i < r.value.end <= |s| && Accepts(s, r.value.end, a)
  {
    if k == |Qualities| then
      AfterQuality(s, i, acc, "", a)
    else
      var here :=
        if StartsAt(s, i + 1 + |OptChar(acc)|, Qualities[k]) then AfterQuality(s, i, acc, Qualities[k], a) else None;
      here.OrElse(TryQualities(s, i, acc, k + 1, a))
  }

  function AfterQuality(s: string, i: nat, acc: Option<char>, q: string, a: Anchor): (r: Option<ChordMatch>)
    requires i + 1 + |OptChar(acc)| + |q| <= |s|
    ensures r.Some? ==> i < r.value.end <= |s| && Accepts(s, r.value.end, a)
  {
    var p := i + 1 + |OptChar(acc)| + |q|;
    DigitsDown(s, i, acc, q, p, DigitRunEnd(s, p), a)
  }

  /** The end of the longest run of ASCII digits starting at `p`. */
  function DigitRunEnd(s: string, p: nat): (e: nat)
    requires p <= |s|
    decreases |s| - p
    ensures p <= e <= |s|
    ensures forall j :: p <= j < e ==> IsDigit(s[j])
    ensures e < |s| ==> !IsDigit(s[e])
  {
    if p < |s| && IsDigit(s[p]) then DigitRunEnd(s, p + 1) else p
  }

  /** The digits `s[p..e]`, longest first, then shorter runs. */
  function DigitsDown(s: string, i: nat, acc: Option<char>, q: string, p: nat, e: nat, a: Anchor): (r: Option<ChordMatch>)
    requires i < p <= e <= |s|
    decreases e
    ensures r.Some? ==> i < r.value.end <= |s| && Accepts(s, r.value.end, a)
  {
    var here := BassAt(s, ChordSymbol(s[i], acc, q, s[p..e], NoBass), e, a);
    if e > p then here.OrElse(DigitsDown(s, i, acc, q, p, e - 1, a)) else here
  }

  /** The optional `/[A-G][#b]?` part at `e`: with accidental, without, then absent. */
  function BassAt(s: string, c: ChordSymbol, e: nat, a: Anchor): (r: Option<ChordMatch>)
    requires e <= |s|
    ensures r.Some? ==> e <= r.value.end <= |s| && Accepts(s, r.value.end, a)
  {
    if e + 2 < |s| && s[e] == '/' && IsRootLetter(s[e + 1]) && IsAccidental(s[e + 2]) && Accepts(s, e + 3, a) then
      Some(ChordMatch(c.(bass := Bass(s[e + 1], Some(s[e + 2]))), e + 3))
    else if e + 1 < |s| && s[e] == '/' && IsRootLetter(s[e + 1]) && Accepts(s, e + 2, a) then
      Some(ChordMatch(c.(bass := Bass(s[e + 1], None)), e + 2))
    else if Accepts(s, e, a) then
      Some(ChordMatch(c, e))
    else None
  }

  // ---------------------------------------------------------------------------
  // Soundness: every match spells a well-formed chord symbol
  // ---------------------------------------------------------------------------

  lemma BassSound(s: string, i: nat, c: ChordSymbol, e: nat, a: Anchor)
    requires WellFormed(c) && c.bass == NoBass
    requires i <= e <= |s| && s[i..e] == Spell(c)
    ensures BassAt(s, c, e, a).Some? ==> ValidMatch(s, i, a, BassAt(s, c, e, a).value)
  {
    var r := BassAt(s, c, e, a);
    if r.Some? && r.value.end > e {
      var n := r.value.end;
      var b := r.value.symbol.bass;
      assert r.value.symbol == c.(bass := b);
      assert s[e..n] == SpellBass(b);
      SpellAddBass(c, b);
      assert s[i..n] == s[i..e] + s[e..n];
    }
  }

  /** Adding a bass note to a chord without one appends its spelling. */
  lemma SpellAddBass(c: ChordSymbol, b: Bass)
    requires c.bass == NoBass
    ensures Spell(c.(bass := b)) == Spell(c) + SpellBass(b)
  {
    assert Spell(c) == [c.root] + OptChar(c.accidental) + c.quality + c.digits;
  }

  lemma {:induction false} DigitsSound(s: string, i: nat, acc: Option<char>, q: string, p: nat, e: nat, a: Anchor)
    requires i < p <= e <= |s| && IsRootLetter(s[i])
    requires acc.Some? ==> IsAccidental(acc.value)
    requires q == "" || q in Qualities
    requires s[i..p] == [s[i]] + OptChar(acc) + q
    requires forall j :: p <= j < e ==> IsDigit(s[j])
    decreases e
    ensures DigitsDown(s, i, acc, q, p, e, a).Some? ==> ValidMatch(s, i, a, DigitsDown(s, i, acc, q, p, e, a).value)
  {
    DigitsSlice(s, p, e);
    var c := ChordSymbol(s[i], acc, q, s[p..e], NoBass);
    assert s[i..e] == s[i..p] + s[p..e];
    BassSound(s, i, c, e, a);
    if e > p {
      DigitsSound(s, i, acc, q, p, e - 1, a);
    }
  }

  lemma AfterQualitySound(s: string, i: nat, acc: Option<char>, q: string, a: Anchor)
    requires i + 1 + |OptChar(acc)| + |q| <= |s| && IsRootLetter(s[i])
    requires acc.Some? ==> IsAccidental(acc.value)
    requires q == "" || q in Qualities
    requires s[i..i + 1 + |OptChar(acc)| + |q|] == [s[i]] + OptChar(acc) + q
    ensures AfterQuality(s, i, acc, q, a).Some? ==> ValidMatch(s, i, a, AfterQuality(s, i, acc, q, a).value)
  {
    var p := i + 1 + |OptChar(acc)| + |q|;
    var e := DigitRunEnd(s, p);
    assert AfterQuality(s, i, acc, q, a) == DigitsDown(s, i, acc, q, p, e, a);
    DigitsSound(s, i, acc, q, p, e, a);
  }

  /** A match of the quality search is the continuation after one alternative that fits (or after the empty quality). */
  lemma {:induction false} QualityOrigin(s: string, i: nat, acc: Option<char>, k: nat, a: Anchor) returns (q: string)
    requires k <= |Qualities| && i + 1 + |OptChar(acc)| <= |s|
    requires TryQualities(s, i, acc, k, a).Some?
    decreases |Qualities| - k
    ensures q == "" || (q in Qualities && StartsAt(s, i + 1 + |OptChar(acc)|, q))
    ensures i + 1 + |OptChar(acc)| + |q| <= |s|
    ensures TryQualities(s, i, acc, k, a) == AfterQuality(s, i, acc, q, a)
  {
    if k == |Qualities| {
      q := "";
    } else {
      QualityChoice(s, i, acc, k, a);
      if StartsAt(s, i + 1 + |OptChar(acc)|, Qualities[k]) && TryQualities(s, i, acc, k, a) == AfterQuality(s, i, acc, Qualities[k], a) {
        q := Qualities[k];
      } else {
        q := QualityOrigin(s, i, acc, k + 1, a);
      }
    }
  }

  /** A match from the `k`-th alternative on comes from that alternative, when it fits, or from the later ones. */
  lemma QualityChoice(s: string, i: nat, acc: Option<char>, k: nat, a: Anchor)
    requires k < |Qualities| && i + 1 + |OptChar(acc)| <= |s|
    ensures TryQualities(s, i, acc, k, a).Some? ==>
      || (StartsAt(s, i + 1 + |OptChar(acc)|, Qualities[k]) && TryQualities(s, i, acc, k, a) == AfterQuality(s, i, acc, Qualities[k], a))
      || TryQualities(s, i, acc, k, a) == TryQualities(s, i, acc, k + 1, a)
  {
  }

  /** A match at `i` is the quality search after the root and, when the first branch succeeds, its accidental. */
  lemma MatchOrigin(s: string, i: nat, a: Anchor) returns (acc: Option<char>)
    requires MatchAt(s, i, a).Some?
    ensures i < |s| && IsRootLetter(s[i])
    ensures acc.Some? ==> i + 1 < |s| && IsAccidental(acc.value) && s[i + 1] == acc.value
    ensures i + 1 + |OptChar(acc)| <= |s|
    ensures MatchAt(s, i, a) == TryQualities(s, i, acc, 0, a)
  {
    if i + 1 < |s| && IsAccidental(s[i + 1]) && TryQualities(s, i, Some(s[i + 1]), 0, a).Some? {
      acc := Some(s[i + 1]);
    } else {
      acc := None;
    }
  }

  /** Soundness of the matcher: a match spells a well-formed chord symbol and the anchor holds after it. */
  lemma MatchSound(s: string, i: nat, a: Anchor)
    ensures MatchAt(s, i, a).Some? ==> ValidMatch(s, i, a, MatchAt(s, i, a).value)
  {
    if MatchAt(s, i, a).Some? {
      var acc := MatchOrigin(s, i, a);
      var q := QualityOrigin(s, i, acc, 0, a);
      PrefixSpelled(s, i, acc, q);
      AfterQualitySound(s, i, acc, q, a);
    }
  }

  /** The text before the digits reads root, accidental and quality. */
  lemma PrefixSpelled(s: string, i: nat, acc: Option<char>, q: string)
    requires i + 1 + |OptChar(acc)| + |q| <= |s|
    requires acc.Some? ==> s[i + 1] == acc.value
    requires q == "" || StartsAt(s, i + 1 + |OptChar(acc)|, q)
    ensures s[i..i + 1 + |OptChar(acc)| + |q|] == [s[i]] + OptChar(acc) + q
  {
    var p := i + 1 + |OptChar(acc)|;
    assert s[i..p] == [s[i]] + OptChar(acc) by {
      if acc.Some? {
        assert s[i..p] == [s[i], s[i + 1]];
      }
    }
    assert s[i..p + |q|] == s[i..p] + s[p..p + |q|];
  }

  // ---------------------------------------------------------------------------
  // Completeness: a spelled chord followed by a stop is found as itself
  // ---------------------------------------------------------------------------

  /** A character after which the pattern cannot be extended. */
  predicate Stops(ch: char) { !IsWordChar(ch) && ch != '#' && ch != '/' }

  /** Offsets of the parts of a spelled chord. */
  function QualityStart(c: ChordSymbol): nat { 1 + |OptChar(c.accidental)| }
  function DigitsStart(c: ChordSymbol): nat { QualityStart(c) + |c.quality| }
  function BassStart(c: ChordSymbol): nat { DigitsStart(c) + |c.digits| }

  /** `c` is spelled at `i` and the text stops right after it. */
  predicate SpelledAt(s: string, i: nat, c: ChordSymbol) {
    && WellFormed(c)
    && StartsAt(s, i, Spell(c))
    && (i + |Spell(c)| == |s| || Stops(s[i + |Spell(c)|]))
  }

  lemma SliceAt(s: string, i: nat, t: string, x: nat, y: nat)
    requires StartsAt(s, i, t) && x <= y <= |t|
    ensures s[i + x..i + y] == t[x..y]
  {
    forall k | 0 <= k < y - x ensures s[i + x..i + y][k] == t[x..y][k] {
      assert t[x + k] == s[i..i + |t|][x + k];
    }
  }

  lemma SpellParts(c: ChordSymbol)
    ensures |Spell(c)| == BassStart(c) + |SpellBass(c.bass)|
    ensures Spell(c)[0] == c.root
    ensures Spell(c)[..QualityStart(c)] == [c.root] + OptChar(c.accidental)
    ensures Spell(c)[..DigitsStart(c)] == [c.root] + OptChar(c.accidental) + c.quality
    ensures Spell(c)[QualityStart(c)..DigitsStart(c)] == c.quality
    ensures Spell(c)[DigitsStart(c)..BassStart(c)] == c.digits
    ensures Spell(c)[..BassStart(c)] == Spell(c.(bass := NoBass))
    ensures Spell(c)[BassStart(c)..] == SpellBass(c.bass)
  {
  }

  /** Where the parts of a chord spelled at `i` lie in the text. */
  lemma Layout(s: string, i: nat, c: ChordSymbol)
    requires StartsAt(s, i, Spell(c))
    ensures |Spell(c)| == BassStart(c) + |SpellBass(c.bass)|
    ensures s[i] == c.root
    ensures s[i..i + QualityStart(c)] == [c.root] + OptChar(c.accidental)
    ensures s[i..i + DigitsStart(c)] == [c.root] + OptChar(c.accidental) + c.quality
    ensures s[i + QualityStart(c)..i + DigitsStart(c)] == c.quality
    ensures s[i + DigitsStart(c)..i + BassStart(c)] == c.digits
    ensures s[i..i + BassStart(c)] == Spell(c.(bass := NoBass))
    ensures s[i + BassStart(c)..i + |Spell(c)|] == SpellBass(c.bass)
  {
    LayoutHead(s, i, c);
    LayoutTail(s, i, c);
  }

  lemma LayoutHead(s: string, i: nat, c: ChordSymbol)
    requires StartsAt(s, i, Spell(c))
    ensures |Spell(c)| == BassStart(c) + |SpellBass(c.bass)|
    ensures s[i] == c.root
    ensures s[i..i + QualityStart(c)] == [c.root] + OptChar(c.accidental)
    ensures s[i..i + DigitsStart(c)] == [c.root] + OptChar(c.accidental) + c.quality
  {
    var t := Spell(c);
    SpellParts(c);
    SliceAt(s, i, t, 0, 1);
    assert s[i] == s[i..i + 1][0];
    SliceAt(s, i, t, 0, QualityStart(c));
    SliceAt(s, i, t, 0, DigitsStart(c));
    assert t[0..QualityStart(c)] == t[..QualityStart(c)];
    assert t[0..DigitsStart(c)] == t[..DigitsStart(c)];
  }

  lemma LayoutTail(s: string, i: nat, c: ChordSymbol)
    requires StartsAt(s, i, Spell(c))
    ensures |Spell(c)| == BassStart(c) + |SpellBass(c.bass)|
    ensures s[i + QualityStart(c)..i + DigitsStart(c)] == c.quality
    ensures s[i + DigitsStart(c)..i + BassStart(c)] == c.digits
    ensures s[i..i + BassStart(c)] == Spell(c.(bass := NoBass))
    ensures s[i + BassStart(c)..i + |Spell(c)|] == SpellBass(c.bass)
  {
    var t := Spell(c);
    SpellParts(c);
    SliceAt(s, i, t, QualityStart(c), DigitsStart(c));
    SliceAt(s, i, t, DigitsStart(c), BassStart(c));
    SliceAt(s, i, t, 0, BassStart(c));
    SliceAt(s, i, t, BassStart(c), |t|);
    assert t[0..BassStart(c)] == t[..BassStart(c)];
    assert t[BassStart(c)..|t|] == t[BassStart(c)..];
  }

  /** Where a quality alternative sits in the pattern's order; the empty quality comes last. */
  function QualityRank(q: string): (k: nat)
    ensures k <= |Qualities|
    ensures q in Qualities ==> k < |Qualities| && Qualities[k] == q
  {
    if q == "maj" then 0 else if q == "min" then 1 else if q == "m" then 2
    else if q == "sus" then 3 else if q == "aug" then 4 else if q == "dim" then 5
    else if q == "add" then 6 else 7
  }

  lemma NotStartsAt(s: string, p: nat, w: string, j: nat)
    requires j < |w| && (p + j >= |s| || s[p + j] != w[j])
    ensures !StartsAt(s, p, w)
  {
    if p + |w| <= |s| {
      assert s[p..p + |w|][j] == s[p + j];
    }
  }

  /** The character after the quality cannot begin a quality or be an accidental. */
  lemma AfterQualityChar(s: string, i: nat, c: ChordSymbol)
    requires SpelledAt(s, i, c)
    ensures var p := i + DigitsStart(c); p == |s| || IsDigit(s[p]) || s[p] == '/' || Stops(s[p])
  {
    Layout(s, i, c);
    var p := i + DigitsStart(c);
    if |c.digits| > 0 {
      assert s[p] == s[p..i + BassStart(c)][0];
    } else if c.bass.Bass? {
      assert s[p] == s[p..i + |Spell(c)|][0];
    }
  }

  lemma NoEarlierQuality(s: string, i: nat, c: ChordSymbol, k: nat)
    requires SpelledAt(s, i, c)
    requires k < QualityRank(c.quality)
    ensures !StartsAt(s, i + QualityStart(c), Qualities[k])
  {
    Layout(s, i, c);
    AfterQualityChar(s, i, c);
    var d := i + DigitsStart(c);
    assert d == |s| || !IsLower(s[d]);
    NoEarlierAt(s, i + QualityStart(c), c.quality, d, k);
  }

  /** The quality text `q` at `p`, followed by no lower-case letter, starts no alternative ranked before it. */
  lemma NoEarlierAt(s: string, p: nat, q: string, d: nat, k: nat)
    requires p + |q| == d <= |s| && s[p..d] == q
    requires d == |s| || !IsLower(s[d])
    requires (q == "" || q in Qualities) && k < QualityRank(q)
    ensures !StartsAt(s, p, Qualities[k])
  {
    QualityOrder(q, k);
    var w := Qualities[k];
    if |q| == 0 {
      NotStartsAt(s, p, w, 0);
    } else {
      assert s[p] == q[0] by { assert s[p] == s[p..d][0]; }
      if q[0] != w[0] {
        NotStartsAt(s, p, w, 0);
      } else if |q| == 1 {
        NotStartsAt(s, p, w, 1);
      } else {
        assert s[p + 1] == q[1] by { assert s[p + 1] == s[p..d][1]; }
        NotStartsAt(s, p, w, 1);
      }
    }
  }

  /**
   * An alternative listed before a quality starts with a lower-case letter and
   * differs from it within its first two characters; one listed before "m" has
   * a lower-case second letter.
   */
  lemma QualityOrder(q: string, k: nat)
    requires (q == "" || q in Qualities) && k < QualityRank(q)
    ensures |Qualities[k]| >= 1 && IsLower(Qualities[k][0])
    ensures |q| == 1 ==> |Qualities[k]| >= 2 && IsLower(Qualities[k][1])
    ensures |q| <= 1 || q[0] != Qualities[k][0] || (|Qualities[k]| >= 2 && q[1] != Qualities[k][1])
  {
    var w := Qualities[k];
    assert w == ["maj", "min", "m", "sus", "aug", "dim", "add"][k];
    assert q in {"", "maj", "min", "m", "sus", "aug", "dim", "add"};
  }

  lemma BassFound(s: string, i: nat, c: ChordSymbol, a: Anchor, e: nat)
    requires SpelledAt(s, i, c) && e == i + |Spell(c)| && Accepts(s, e, a)
    ensures i + BassStart(c) <= |s|
    ensures BassAt(s, c.(bass := NoBass), i + BassStart(c), a) == Some(ChordMatch(c, e))
  {
    Layout(s, i, c);
    var b := i + BassStart(c);
    var t := s[b..e];
    assert e == |s| || (s[e] != '/' && !IsAccidental(s[e]));
    match c.bass
    case NoBass =>
      assert e == b;
    case Bass(r, None) =>
      assert t == ['/', r] && e == b + 2;
      assert s[b] == t[0] && s[b + 1] == t[1];
      assert c.(bass := NoBass).(bass := Bass(s[b + 1], None)) == c;
    case Bass(r, Some(x)) =>
      assert t == ['/', r, x] && e == b + 3;
      assert s[b] == t[0] && s[b + 1] == t[1] && s[b + 2] == t[2];
      assert c.(bass := NoBass).(bass := Bass(s[b + 1], Some(s[b + 2]))) == c;
  }

  /** The digit run after the quality is exactly the chord's digits. */
  lemma DigitRun(s: string, i: nat, c: ChordSymbol)
    requires SpelledAt(s, i, c)
    ensures i + BassStart(c) <= |s|
    ensures DigitRunEnd(s, i + DigitsStart(c)) == i + BassStart(c)
  {
    Layout(s, i, c);
    var p, e := i + DigitsStart(c), i + BassStart(c);
    DigitsIn(s, p, e, c.digits);
    assert e == |s| || !IsDigit(s[e]) by {
      if c.bass.Bass? {
        assert s[e] == s[e..i + |Spell(c)|][0];
      }
    }
    DigitRunExact(s, p, e);
  }

  lemma DigitsIn(s: string, p: nat, e: nat, d: string)
    requires p <= e <= |s| && s[p..e] == d && AllDigits(d)
    ensures forall j :: p <= j < e ==> IsDigit(s[j])
  {
    forall j | p <= j < e ensures IsDigit(s[j]) {
      assert s[j] == d[j - p];
    }
  }

  /** A run of digits ended by a non-digit is the longest run. */
  lemma DigitRunExact(s: string, p: nat, e: nat)
    requires p <= e <= |s| && (forall j :: p <= j < e ==> IsDigit(s[j]))
    requires e == |s| || !IsDigit(s[e])
    ensures DigitRunEnd(s, p) == e
  {
  }

  /** After the chord's quality, the longest digit run and the bass part give the chord itself. */
  lemma DigitsFound(s: string, i: nat, c: ChordSymbol, a: Anchor, e: nat)
    requires SpelledAt(s, i, c) && e == i + |Spell(c)| && Accepts(s, e, a)
    ensures i + DigitsStart(c) <= |s|
    ensures AfterQuality(s, i, c.accidental, c.quality, a).Some?
    ensures AfterQuality(s, i, c.accidental, c.quality, a).value == ChordMatch(c, e)
  {
    DigitRun(s, i, c);
    BassFound(s, i, c, a, e);
    WithoutBass(s, i, c);
    DigitsThenBass(s, i, c, a, e);
  }

  lemma DigitsThenBass(s: string, i: nat, c: ChordSymbol, a: Anchor, e: nat)
    requires i + BassStart(c) <= |s|
    requires DigitRunEnd(s, i + DigitsStart(c)) == i + BassStart(c)
    requires BassAt(s, c.(bass := NoBass), i + BassStart(c), a) == Some(ChordMatch(c, e))
    requires ChordSymbol(s[i], c.accidental, c.quality, s[i + DigitsStart(c)..i + BassStart(c)], NoBass) == c.(bass := NoBass)
    ensures AfterQuality(s, i, c.accidental, c.quality, a) == Some(ChordMatch(c, e))
  {
    assert i + DigitsStart(c) == i + 1 + |OptChar(c.accidental)| + |c.quality|;
    LongestDigitsFirst(s, i, c.accidental, c.quality, i + BassStart(c), a, ChordMatch(c, e));
  }

  /** The symbol read off the text before the bass part is the chord without its bass. */
  lemma WithoutBass(s: string, i: nat, c: ChordSymbol)
    requires StartsAt(s, i, Spell(c))
    ensures i + BassStart(c) <= |s|
    ensures ChordSymbol(s[i], c.accidental, c.quality, s[i + DigitsStart(c)..i + BassStart(c)], NoBass) == c.(bass := NoBass)
  {
    Layout(s, i, c);
  }

  /** The longest digit run is tried first: when the bass part matches after it, that is the result. */
  lemma LongestDigitsFirst(s: string, i: nat, acc: Option<char>, q: string, e: nat, a: Anchor, m: ChordMatch)
    requires i + 1 + |OptChar(acc)| + |q| <= e <= |s|
    requires DigitRunEnd(s, i + 1 + |OptChar(acc)| + |q|) == e
    requires BassAt(s, ChordSymbol(s[i], acc, q, s[i + 1 + |OptChar(acc)| + |q|..e], NoBass), e, a) == Some(m)
    ensures AfterQuality(s, i, acc, q, a).Some? && AfterQuality(s, i, acc, q, a).value == m
  {
  }

  /**
   * The alternatives from `k` up to rank `r` do not fit, the one at rank `r`
   * (the empty quality when `r` is past the list) does, and the rest of the
   * pattern then matches as `m`: the search over the qualities returns `m`.
   */
  lemma {:induction false} QualitiesFrom(s: string, i: nat, acc: Option<char>, k: nat, r: nat, q: string, a: Anchor, m: ChordMatch)
    requires k <= r <= |Qualities|
    requires q == if r < |Qualities| then Qualities[r] else ""
    requires i + 1 + |OptChar(acc)| + |q| <= |s|
    requires forall j :: k <= j < r ==> !StartsAt(s, i + 1 + |OptChar(acc)|, Qualities[j])
    requires r < |Qualities| ==> StartsAt(s, i + 1 + |OptChar(acc)|, q)
    requires AfterQuality(s, i, acc, q, a).Some? && AfterQuality(s, i, acc, q, a).value == m
    decreases r - k
    ensures TryQualities(s, i, acc, k, a).Some? && TryQualities(s, i, acc, k, a).value == m
  {
    if k < r {
      QualitySkipped(s, i, acc, k, a);
      QualitiesFrom(s, i, acc, k + 1, r, q, a, m);
    }
  }

  /** An alternative that does not fit is passed over. */
  lemma QualitySkipped(s: string, i: nat, acc: Option<char>, k: nat, a: Anchor)
    requires k < |Qualities| && i + 1 + |OptChar(acc)| <= |s|
    requires !StartsAt(s, i + 1 + |OptChar(acc)|, Qualities[k])
    ensures TryQualities(s, i, acc, k, a) == TryQualities(s, i, acc, k + 1, a)
  {
  }

  /** The search over the quality alternatives returns the chord spelled at `i`. */
  lemma QualitiesFound(s: string, i: nat, c: ChordSymbol, a: Anchor, e: nat)
    requires SpelledAt(s, i, c) && e == i + |Spell(c)| && Accepts(s, e, a)
    ensures i + QualityStart(c) <= |s|
    ensures TryQualities(s, i, c.accidental, 0, a).Some? && TryQualities(s, i, c.accidental, 0, a).value == ChordMatch(c, e)
  {
    QualitySpelled(s, i, c);
    DigitsFound(s, i, c, a, e);
    var r := QualityRank(c.quality);
    forall j | 0 <= j < r ensures !StartsAt(s, i + QualityStart(c), Qualities[j]) {
      NoEarlierQuality(s, i, c, j);
    }
    QualitiesFrom(s, i, c.accidental, 0, r, c.quality, a, ChordMatch(c, e));
  }

  /** A spelled chord's quality stands at its quality offset. */
  lemma QualitySpelled(s: string, i: nat, c: ChordSymbol)
    requires StartsAt(s, i, Spell(c))
    ensures i + DigitsStart(c) <= |s| && StartsAt(s, i + QualityStart(c), c.quality)
  {
    Layout(s, i, c);
  }

  /**
   * Completeness of the matcher: wherever a well-formed chord symbol is spelled
   * and the text stops after it, the matcher reports exactly that symbol,
   * provided the anchor accepts its end.
   */
  lemma MatchSpelled(s: string, i: nat, c: ChordSymbol, a: Anchor)
    requires SpelledAt(s, i, c) && Accepts(s, i + |Spell(c)|, a)
    ensures MatchAt(s, i, a).Some? && MatchAt(s, i, a).value == ChordMatch(c, i + |Spell(c)|)
  {
    AccidentalStep(s, i, c);
    QualitiesFound(s, i, c, a, i + |Spell(c)|);
  }

  /** The accidental branch taken first is right: an accidental follows the root exactly when the chord has one. */
  lemma AccidentalStep(s: string, i: nat, c: ChordSymbol)
    requires SpelledAt(s, i, c)
    ensures i < |s| && s[i] == c.root
    ensures c.accidental.Some? ==> i + 1 < |s| && s[i + 1] == c.accidental.value
    ensures c.accidental.None? ==> !(i + 1 < |s| && IsAccidental(s[i + 1]))
  {
    Layout(s, i, c);
    AfterQualityChar(s, i, c);
    if c.accidental.Some? {
      assert s[i + 1] == s[i..i + 2][1];
    } else if |c.quality| > 0 {
      assert QualityStart(c) == 1;
      assert s[i + 1..i + DigitsStart(c)] == c.quality;
      assert s[i + 1] == c.quality[0] by { assert s[i + 1] == s[i + 1..i + DigitsStart(c)][0]; }
    }
  }

  // ---------------------------------------------------------------------------
  // The three uses of the pattern
  // ---------------------------------------------------------------------------

  /** `^CHORD$` applied to a whole token. */
  predicate IsChordToken(w: string) {
    MatchAt(w, 0, EndOfText).Some?
  }

  /** A token matches `^CHORD$` exactly when it is the spelling of a well-formed chord symbol. */
  lemma ChordTokenIff(w: string)
    ensures IsChordToken(w) <==> exists c :: WellFormed(c) && Spell(c) == w
  {
    MatchSound(w, 0, EndOfText);
    if exists c :: WellFormed(c) && Spell(c) == w {
      var c :| WellFormed(c) && Spell(c) == w;
      assert w[0..|w|] == w;
      MatchSpelled(w, 0, c, EndOfText);
    }
    if IsChordToken(w) {
      var m := MatchAt(w, 0, EndOfText).value;
      assert w[0..m.end] == w;
    }
  }

  // ---------------------------------------------------------------------------
  // Scanning a text: the searches are written against the matcher's end
  // positions, `find(k)` being where the match that starts at `k` ends
  // ---------------------------------------------------------------------------

  /** Every end that `find` reports lies after its start and no further than `last`. */
  ghost predicate EndsWithin(s: string, find: nat -> Option<nat>, last: int) {
    forall k: nat :: k <= |s| && find(k).Some? ==> k < find(k).value <= last
  }

  /**
   * FindAllStringSubmatch with `\[(CHORD)\]`: at an opening bracket where a
   * chord closed by `]` starts, its text is taken and the search resumes after
   * the closing bracket; anywhere else it moves on by one character.
   */
  function BracketScan(s: string, close: nat -> Option<nat>, i: nat): seq<string>
    requires i <= |s| && EndsWithin(s, close, |s| - 1)
    decreases |s| - i
  {
    if i == |s| then []
    else if s[i] == '[' && close(i + 1).Some? then
      [s[i + 1..close(i + 1).value]] + BracketScan(s, close, close(i + 1).value + 1)
    else BracketScan(s, close, i + 1)
  }

  /** Where the chord pattern starting at `k` ends in front of a closing bracket. */
  function BracketClose(s: string): nat -> Option<nat> {
    k => CloseEnd(s, k)
  }

  function CloseEnd(s: string, k: nat): (r: Option<nat>)
    ensures r.Some? ==> k < r.value < |s|
  {
    match MatchAt(s, k, CloseBracket) case Some(m) => Some(m.end) case None => None
  }

  lemma BracketCloseWithin(s: string)
    ensures EndsWithin(s, BracketClose(s), |s| - 1)
  {
  }

  /** The chord texts written between brackets, left to right. */
  function Bracketed(s: string): seq<string>
  {
    BracketCloseWithin(s);
    BracketScan(s, BracketClose(s), 0)
  }

  /** A text that spells a well-formed chord symbol. */
  ghost predicate ChordText(t: string) {
    exists c :: WellFormed(c) && Spell(c) == t
  }

  ghost predicate AllChordTexts(r: seq<string>) {
    forall k :: 0 <= k < |r| ==> ChordText(r[k])
  }

  lemma ChordTextsCons(x: string, rest: seq<string>)
    requires ChordText(x) && AllChordTexts(rest)
    ensures AllChordTexts([x] + rest)
  {
    forall k | 0 <= k < |rest| + 1 ensures ChordText(([x] + rest)[k]) {
      if k > 0 {
        assert ([x] + rest)[k] == rest[k - 1];
      }
    }
  }

  /** Every end `close` reports closes a chord text. */
  ghost predicate ClosesChordTexts(s: string, close: nat -> Option<nat>) {
    forall k: nat :: k <= |s| && close(k).Some? && k <= close(k).value <= |s| ==> ChordText(s[k..close(k).value])
  }

  /** When every end `close` reports closes a chord text, the scan returns only chord texts. */
  lemma {:induction false} ScanSound(s: string, close: nat -> Option<nat>, i: nat)
    requires i <= |s| && EndsWithin(s, close, |s| - 1) && ClosesChordTexts(s, close)
    decreases |s| - i
    ensures AllChordTexts(BracketScan(s, close, i))
  {
    if i < |s| {
      if s[i] == '[' && close(i + 1).Some? {
        var e := close(i + 1).value;
        ClosedChordText(s, close, i + 1);
        ScanSound(s, close, e + 1);
        ScanTakesChordText(s, close, i, e);
      } else {
        ScanSound(s, close, i + 1);
        ScanMovesOn(s, close, i);
      }
    }
  }

  /** Away from an opening bracket that `close` closes, the scan moves on by one character. */
  lemma ScanMovesOn(s: string, close: nat -> Option<nat>, i: nat)
    requires i < |s| && EndsWithin(s, close, |s| - 1)
    requires !(s[i] == '[' && close(i + 1).Some?)
    ensures BracketScan(s, close, i) == BracketScan(s, close, i + 1)
  {
  }

  /** The text the scan takes at an opening bracket is a chord text. */
  lemma ScanTakesChordText(s: string, close: nat -> Option<nat>, i: nat, e: nat)
    requires i < |s| && s[i] == '[' && close(i + 1) == Some(e)
    requires EndsWithin(s, close, |s| - 1) && i + 1 < e < |s|
    requires ChordText(s[i + 1..e]) && AllChordTexts(BracketScan(s, close, e + 1))
    ensures AllChordTexts(BracketScan(s, close, i))
  {
    ChordTextsCons(s[i + 1..e], BracketScan(s, close, e + 1));
  }

  lemma ClosedChordText(s: string, close: nat -> Option<nat>, k: nat)
    requires ClosesChordTexts(s, close) && EndsWithin(s, close, |s| - 1)
    requires k <= |s| && close(k).Some?
    ensures k < close(k).value < |s| && ChordText(s[k..close(k).value])
  {
  }


  /** Every end the matcher reports closes a chord text. */
  lemma CloseSpells(s: string)
    ensures ClosesChordTexts(s, BracketClose(s))
  {
    forall k: nat | k <= |s| && BracketClose(s)(k).Some? && k <= BracketClose(s)(k).value <= |s|
      ensures ChordText(s[k..BracketClose(s)(k).value])
    {
      MatchSound(s, k, CloseBracket);
      var m := MatchAt(s, k, CloseBracket).value;
      assert WellFormed(m.symbol) && Spell(m.symbol) == s[k..m.end];
    }
  }

  /** Soundness of the bracket search: every text it returns spells a well-formed chord symbol. */
  lemma BracketedSound(s: string)
    ensures AllChordTexts(Bracketed(s))
  {
    BracketCloseWithin(s);
    CloseSpells(s);
    ScanSound(s, BracketClose(s), 0);
  }

  /** A stretch of text without an opening bracket contributes nothing. */
  lemma {:induction false} ScanSkip(s: string, close: nat -> Option<nat>, i: nat, j: nat)
    requires i <= j <= |s| && EndsWithin(s, close, |s| - 1)
    requires forall k :: i <= k < j ==> s[k] != '['
    decreases j - i
    ensures BracketScan(s, close, i) == BracketScan(s, close, j)
  {
    if i < j {
      ScanSkip(s, close, i + 1, j);
    }
  }

  /** A text without an opening bracket has no bracketed chord. */
  lemma NoOpenNoChords(s: string)
    requires '[' !in s
    ensures Bracketed(s) == []
  {
    BracketCloseWithin(s);
    ScanSkip(s, BracketClose(s), 0, |s|);
  }

  /** A chord sheet: text without brackets, then `[chord]`, repeated, then a bracket-free tail. */
  datatype Piece = Piece(text: string, chord: ChordSymbol)

  function Sheet(ps: seq<Piece>, tail: string): string {
    if |ps| == 0 then tail
    else ps[0].text + "[" + Spell(ps[0].chord) + "]" + Sheet(ps[1..], tail)
  }

  function Spellings(ps: seq<Piece>): (r: seq<string>)
    ensures |r| == |ps|
    ensures forall k :: 0 <= k < |ps| ==> r[k] == Spell(ps[k].chord)
  {
    if |ps| == 0 then [] else [Spell(ps[0].chord)] + Spellings(ps[1..])
  }

  predicate NoOpenBracket(t: string) { forall k :: 0 <= k < |t| ==> t[k] != '[' }

  /** Layout of one piece inside the text. */
  lemma PieceAt(s: string, i: nat, p: Piece, rest: string)
    requires i <= |s| && s[i..] == p.text + "[" + Spell(p.chord) + "]" + rest
    ensures i + |p.text| + |Spell(p.chord)| + 2 <= |s|
    ensures forall k :: i <= k < i + |p.text| ==> s[k] == p.text[k - i]
    ensures s[i + |p.text|] == '['
    ensures StartsAt(s, i + |p.text| + 1, Spell(p.chord))
    ensures s[i + |p.text| + 1 + |Spell(p.chord)|] == ']'
    ensures s[i + |p.text| + |Spell(p.chord)| + 2..] == rest
  {
    var t := s[i..];
    var a := p.text;
    var n := |Spell(p.chord)|;
    BracketedParts(a, Spell(p.chord), rest);
    forall k | i <= k < i + |a| ensures s[k] == a[k - i] {
      assert s[k] == t[k - i] == t[..|a|][k - i];
    }
    assert s[i + |a|] == t[|a|];
    assert s[i + |a| + 1 + n] == t[|a| + 1 + n];
    SliceOfSuffix(s, i, |a| + 1, |a| + 1 + n);
    SliceOfSuffix(s, i, |a| + n + 2, |a| + n + 2);
  }

  /** The parts of a text, a bracketed chord and a rest, by position. */
  lemma BracketedParts(a: string, b: string, rest: string)
    ensures var t := a + "[" + b + "]" + rest;
      && |t| == |a| + |b| + 2 + |rest|
      && t[..|a|] == a
      && t[|a|] == '['
      && t[|a| + 1..|a| + 1 + |b|] == b
      && t[|a| + 1 + |b|] == ']'
      && t[|a| + |b| + 2..] == rest
  {
    var t := a + "[" + b + "]" + rest;
    var u := a + "[" + b;
    assert t == u + ("]" + rest);
    assert t[..|u|] == u;
    assert u[..|a|] == a && u[|a|] == '[' && u[|a| + 1..] == b;
  }

  /** `close` finds every well-formed chord that is spelled at `k` and closed by a bracket, as itself. */
  ghost predicate ClosesChords(s: string, close: nat -> Option<nat>) {
    forall k: nat, c :: SpelledAt(s, k, c) && k + |Spell(c)| < |s| && s[k + |Spell(c)|] == ']' ==>
      close(k) == Some(k + |Spell(c)|)
  }

  /** Completeness of the scan: on a chord sheet it returns exactly the sheet's chords, in order. */
  lemma {:induction false} ScanSheet(s: string, close: nat -> Option<nat>, i: nat, ps: seq<Piece>, tail: string)
    requires i <= |s| && s[i..] == Sheet(ps, tail)
    requires EndsWithin(s, close, |s| - 1) && ClosesChords(s, close)
    requires forall k :: 0 <= k < |ps| ==> WellFormed(ps[k].chord) && NoOpenBracket(ps[k].text)
    requires NoOpenBracket(tail)
    decreases |ps|
    ensures BracketScan(s, close, i) == Spellings(ps)
  {
    if |ps| == 0 {
      forall k | i <= k < |s| ensures s[k] != '[' {
        assert s[k] == tail[k - i];
      }
      ScanSkip(s, close, i, |s|);
    } else {
      var e := ScanPiece(s, close, i, ps[0], Sheet(ps[1..], tail));
      ScanSheet(s, close, e, ps[1..], tail);
    }
  }

  /** One piece of a sheet: its chord is returned and the scan resumes after the closing bracket. */
  lemma ScanPiece(s: string, close: nat -> Option<nat>, i: nat, p: Piece, rest: string) returns (e: nat)
    requires i <= |s| && s[i..] == p.text + "[" + Spell(p.chord) + "]" + rest
    requires EndsWithin(s, close, |s| - 1) && ClosesChords(s, close)
    requires WellFormed(p.chord) && NoOpenBracket(p.text)
    ensures e == i + |p.text| + |Spell(p.chord)| + 2 <= |s| && s[e..] == rest
    ensures BracketScan(s, close, i) == [Spell(p.chord)] + BracketScan(s, close, e)
  {
    PieceAt(s, i, p, rest);
    var j := i + |p.text|;
    e := j + |Spell(p.chord)| + 2;
    forall k | i <= k < j ensures s[k] != '[' {
      assert s[k] == p.text[k - i];
    }
    ScanTextThenChord(s, close, i, j, p.chord, e);
  }

  /** Text without `[` and then a bracketed chord: the scan yields the chord and resumes after the `]`. */
  lemma ScanTextThenChord(s: string, close: nat -> Option<nat>, i: nat, j: nat, c: ChordSymbol, e: nat)
    requires i <= j && e == j + |Spell(c)| + 2 <= |s| && s[j] == '[' && s[j + 1 + |Spell(c)|] == ']'
    requires forall k :: i <= k < j ==> s[k] != '['
    requires WellFormed(c) && StartsAt(s, j + 1, Spell(c))
    requires EndsWithin(s, close, |s| - 1) && ClosesChords(s, close)
    ensures BracketScan(s, close, i) == [Spell(c)] + BracketScan(s, close, e)
  {
    ScanSkip(s, close, i, j);
    ScanChord(s, close, j, c);
  }

  /** At `[` followed by a well-formed chord and `]`, the scan takes the chord and resumes after the `]`. */
  lemma ScanChord(s: string, close: nat -> Option<nat>, j: nat, c: ChordSymbol)
    requires j + |Spell(c)| + 2 <= |s| && s[j] == '[' && s[j + 1 + |Spell(c)|] == ']'
    requires WellFormed(c) && StartsAt(s, j + 1, Spell(c))
    requires EndsWithin(s, close, |s| - 1) && ClosesChords(s, close)
    ensures BracketScan(s, close, j) == [Spell(c)] + BracketScan(s, close, j + |Spell(c)| + 2)
  {
    var n := |Spell(c)|;
    assert Stops(s[j + 1 + n]);
    assert SpelledAt(s, j + 1, c);
    assert close(j + 1) == Some(j + 1 + n);
  }

  /** The matcher finds every bracketed well-formed chord as itself. */
  lemma CloseFindsChords(s: string)
    ensures ClosesChords(s, BracketClose(s))
  {
    forall k: nat, c | SpelledAt(s, k, c) && k + |Spell(c)| < |s| && s[k + |Spell(c)|] == ']'
      ensures BracketClose(s)(k) == Some(k + |Spell(c)|)
    {
      BracketCloseAt(s, k, c);
    }
  }

  lemma BracketCloseAt(s: string, k: nat, c: ChordSymbol)
    requires SpelledAt(s, k, c) && k + |Spell(c)| < |s| && s[k + |Spell(c)|] == ']'
    ensures BracketClose(s)(k) == Some(k + |Spell(c)|)
  {
    CloseFound(s, k, c, k + |Spell(c)|);
    assert BracketClose(s)(k) == CloseEnd(s, k);
  }

  lemma CloseFound(s: string, k: nat, c: ChordSymbol, e: nat)
    requires SpelledAt(s, k, c) && e == k + |Spell(c)| && e < |s| && s[e] == ']'
    ensures CloseEnd(s, k) == Some(e)
  {
    MatchSpelled(s, k, c, CloseBracket);
    CloseFrom(s, k);
  }

  lemma CloseFrom(s: string, k: nat)
    requires MatchAt(s, k, CloseBracket).Some?
    ensures CloseEnd(s, k) == Some(MatchAt(s, k, CloseBracket).value.end)
  {
  }

  /** Completeness of the bracket search: it returns exactly the chords of a sheet, in order. */
  lemma BracketedSheet(ps: seq<Piece>, tail: string)
    requires forall k :: 0 <= k < |ps| ==> WellFormed(ps[k].chord) && NoOpenBracket(ps[k].text)
    requires NoOpenBracket(tail)
    ensures Bracketed(Sheet(ps, tail)) == Spellings(ps)
  {
    var s := Sheet(ps, tail);
    BracketCloseWithin(s);
    CloseFindsChords(s);
    assert s[0..] == s;
    ScanSheet(s, BracketClose(s), 0, ps, tail);
  }

  /** `\bCHORD\b` can match at `i` only where a word boundary precedes. */
  function BoundaryMatch(s: string, i: nat): (r: Option<ChordMatch>)
    requires i <= |s|
    ensures r.Some? ==> i < r.value.end <= |s|
  {
    if BoundaryAt(s, i) then MatchAt(s, i, WordBoundary) else None
  }

  /** Go's MatchString / a non-empty FindAllString with the `\b` pattern. */
  predicate HasBoundaryChord(s: string) {
    exists i :: 0 <= i <= |s| && BoundaryMatch(s, i).Some?
  }

  /**
   * ReplaceAllString with `[$1]`: each match, found left to right and
   * resuming at its end, is put between brackets; other characters are
   * copied.
   */
  function WrapScan(s: string, find: nat -> Option<nat>, i: nat): string
    requires i <= |s| && EndsWithin(s, find, |s|)
    decreases |s| - i
  {
    if i == |s| then []
    else if find(i).Some? then "[" + s[i..find(i).value] + "]" + WrapScan(s, find, find(i).value)
    else [s[i]] + WrapScan(s, find, i + 1)
  }

  /** Where the `\bCHORD\b` match starting at `k` ends. */
  function BoundaryEnd(s: string): nat -> Option<nat> {
    (k: nat) => if k <= |s| then (match BoundaryMatch(s, k) case Some(m) => Some(m.end) case None => None) else None
  }

  lemma BoundaryEndWithin(s: string)
    ensures EndsWithin(s, BoundaryEnd(s), |s|)
  {
  }

  /** ReplaceAllString with `\bCHORD\b` and `[$1]`. */
  function WrapChords(s: string): string {
    BoundaryEndWithin(s);
    WrapScan(s, BoundaryEnd(s), 0)
  }

  function Keep(ch: char): string {
    if ch == '[' || ch == ']' then [] else [ch]
  }

  /** The text with every bracket character removed. */
  function Unbracket(t: string): (r: string)
    ensures |r| <= |t|
  {
    if |t| == 0 then [] else Keep(t[0]) + Unbracket(t[1..])
  }

  lemma {:induction false} UnbracketAppend(a: string, b: string)
    decreases |a|
    ensures Unbracket(a + b) == Unbracket(a) + Unbracket(b)
  {
    if |a| > 0 {
      assert (a + b)[0] == a[0];
      assert (a + b)[1..] == a[1..] + b;
      UnbracketAppend(a[1..], b);
      assert Unbracket(a + b) == Keep(a[0]) + Unbracket(a[1..] + b);
    } else {
      assert a + b == b;
    }
  }

  predicate NoBrackets(t: string) { forall k :: 0 <= k < |t| ==> t[k] != '[' && t[k] != ']' }

  lemma {:induction false} UnbracketPlain(t: string)
    requires NoBrackets(t)
    decreases |t|
    ensures Unbracket(t) == t
  {
    if |t| > 0 {
      UnbracketPlain(t[1..]);
    }
  }

  lemma UnbracketWrapped(mid: string, rest: string)
    requires NoBrackets(mid)
    ensures Unbracket("[" + mid + "]" + rest) == mid + Unbracket(rest)
  {
    var t := "[" + mid + "]" + rest;
    assert t == "[" + (mid + ("]" + rest));
    assert Unbracket(t) == Unbracket(mid + ("]" + rest));
    UnbracketAppend(mid, "]" + rest);
    UnbracketPlain(mid);
    assert Unbracket("]" + rest) == Unbracket(rest);
  }

  lemma SliceNoBrackets(s: string, i: nat, j: nat)
    requires i <= j <= |s| && NoBrackets(s)
    ensures NoBrackets(s[i..j])
  {
    forall k | 0 <= k < j - i ensures s[i..j][k] != '[' && s[i..j][k] != ']' {
      assert s[i..j][k] == s[i + k];
    }
  }

  lemma {:induction false} ScanUnbracket(s: string, find: nat -> Option<nat>, i: nat)
    requires i <= |s| && EndsWithin(s, find, |s|) && NoBrackets(s)
    decreases |s| - i
    ensures Unbracket(WrapScan(s, find, i)) == s[i..]
  {
    if i < |s| {
      if find(i).Some? {
        ScanUnbracket(s, find, find(i).value);
        UnbracketFound(s, find, i, find(i).value);
      } else {
        ScanUnbracket(s, find, i + 1);
        UnbracketSkipped(s, find, i);
      }
    }
  }

  /** One wrapped match: removing its brackets gives back the matched text. */
  lemma UnbracketFound(s: string, find: nat -> Option<nat>, i: nat, e: nat)
    requires i < |s| && EndsWithin(s, find, |s|) && NoBrackets(s) && find(i) == Some(e)
    requires Unbracket(WrapScan(s, find, e)) == s[e..]
    ensures Unbracket(WrapScan(s, find, i)) == s[i..]
  {
    var rest := WrapScan(s, find, e);
    assert WrapScan(s, find, i) == "[" + s[i..e] + "]" + rest;
    SliceNoBrackets(s, i, e);
    UnbracketWrapped(s[i..e], rest);
    SuffixSplit(s, i, e);
  }

  /** One copied character: removing the brackets keeps it. */
  lemma UnbracketSkipped(s: string, find: nat -> Option<nat>, i: nat)
    requires i < |s| && EndsWithin(s, find, |s|) && NoBrackets(s) && find(i).None?
    requires Unbracket(WrapScan(s, find, i + 1)) == s[i + 1..]
    ensures Unbracket(WrapScan(s, find, i)) == s[i..]
  {
    var rest := WrapScan(s, find, i + 1);
    assert WrapScan(s, find, i) == [s[i]] + rest;
    UnbracketAppend([s[i]], rest);
    assert s[i..] == [s[i]] + s[i + 1..];
  }


  /** Wrapping only inserts brackets: removing them from the output gives the input back. */
  lemma WrapUnbracket(s: string)
    requires NoBrackets(s)
    ensures Unbracket(WrapChords(s)) == s
  {
    BoundaryEndWithin(s);
    ScanUnbracket(s, BoundaryEnd(s), 0);
  }

  lemma {:induction false} ScanKeepsOut(s: string, find: nat -> Option<nat>, i: nat, c: char)
    requires i <= |s| && EndsWithin(s, find, |s|) && c != '[' && c != ']'
    requires forall j :: i <= j < |s| ==> s[j] != c
    decreases |s| - i
    ensures c !in WrapScan(s, find, i)
  {
    if i < |s| {
      if find(i).Some? {
        ScanKeepsOut(s, find, find(i).value, c);
        assert c !in s[i..find(i).value];
      } else {
        ScanKeepsOut(s, find, i + 1, c);
      }
    }
  }

  /** Wrapping adds only brackets: a character other than a bracket that the text lacks stays absent. */
  lemma WrapKeepsOut(s: string, c: char)
    requires c != '[' && c != ']' && c !in s
    ensures c !in WrapChords(s)
  {
    BoundaryEndWithin(s);
    ScanKeepsOut(s, BoundaryEnd(s), 0, c);
  }

  lemma {:induction false} ScanNoMatch(s: string, find: nat -> Option<nat>, i: nat)
    requires i <= |s| && EndsWithin(s, find, |s|)
    requires forall j :: i <= j <= |s| ==> find(j).None?
    decreases |s| - i
    ensures WrapScan(s, find, i) == s[i..]
  {
    if i < |s| {
      ScanNoMatch(s, find, i + 1);
      assert s[i..] == [s[i]] + s[i + 1..];
    }
  }

  /** Without any `\b` chord match the text is returned unchanged. */
  lemma WrapNoChord(s: string)
    requires !HasBoundaryChord(s)
    ensures WrapChords(s) == s
  {
    BoundaryEndWithin(s);
    ScanNoMatch(s, BoundaryEnd(s), 0);
  }

  /** At the end of the text no quality alternative fits, so only the empty quality is tried. */
  lemma {:induction false} QualitiesAtEnd(s: string, i: nat, acc: Option<char>, k: nat, a: Anchor)
    requires k <= |Qualities|
    requires i + 1 + |OptChar(acc)| == |s|
    decreases |Qualities| - k
    ensures TryQualities(s, i, acc, k, a) == AfterQuality(s, i, acc, "", a)
  {
    if k < |Qualities| {
      QualitiesAtEnd(s, i, acc, k + 1, a);
    }
  }

  /** Every quality alternative starts with a lower-case letter. */
  lemma QualityStartsLower(k: nat)
    requires k < |Qualities|
    ensures |Qualities[k]| > 0 && IsLower(Qualities[k][0])
  {
  }

  lemma QualityNotAt(s: string, p: nat, k: nat)
    requires k < |Qualities| && p < |s| && !IsLower(s[p])
    ensures !StartsAt(s, p, Qualities[k])
  {
    var q := Qualities[k];
    QualityStartsLower(k);
    if p + |q| <= |s| {
      assert s[p..p + |q|][0] == s[p];
    }
  }

  /** Where the quality would start at a character that is not a lower-case letter, no alternative is taken. */
  lemma {:induction false} QualitiesAtNonLetter(s: string, i: nat, acc: Option<char>, k: nat, a: Anchor)
    requires k <= |Qualities|
    requires i + 1 + |OptChar(acc)| < |s| && !IsLower(s[i + 1 + |OptChar(acc)|])
    decreases |Qualities| - k
    ensures TryQualities(s, i, acc, k, a) == AfterQuality(s, i, acc, "", a)
  {
    if k < |Qualities| {
      QualityNotAt(s, i + 1 + |OptChar(acc)|, k);
      QualitySkipped(s, i, acc, k, a);
      QualitiesAtNonLetter(s, i, acc, k + 1, a);
    }
  }

  /**
   * A bare "C#" is wrapped as "[C]#": the closing `\b` fails between the
   * sharp and the end of the text, so the match backs off to "C".
   */
  lemma SharpOutsideBrackets()
    ensures WrapChords("C#") == "[C]#"
  {
    var s := "C#";
    SharpMatches();
    var f := BoundaryEnd(s);
    BoundaryEndWithin(s);
    assert f(0) == Some(1) && f(1).None?;
    assert WrapScan(s, f, 1) == "#";
    assert s[0..1] == "C";
    assert WrapScan(s, f, 0) == "[C]#";
  }

  /** In "C#" the `\b` pattern matches "C" at the start and nothing at the sharp. */
  lemma SharpMatches()
    ensures BoundaryMatch("C#", 0).Some? && BoundaryMatch("C#", 0).value.end == 1
    ensures BoundaryMatch("C#", 1).None?
  {
    var s := "C#";
    var c := ChordSymbol('C', None, "", "", NoBass);
    QualitiesAtEnd(s, 0, Some('#'), 0, WordBoundary);
    assert DigitRunEnd(s, 2) == 2;
    assert TryQualities(s, 0, Some('#'), 0, WordBoundary).None?;
    assert DigitRunEnd(s, 1) == 1;
    assert s[1..1] == "";
    assert AfterQuality(s, 0, None, "", WordBoundary) == Some(ChordMatch(c, 1));
    QualitiesAtNonLetter(s, 0, None, 0, WordBoundary);
    assert BoundaryMatch(s, 0) == Some(ChordMatch(c, 1));
    assert BoundaryMatch(s, 1).None?;
  }
}
