/**
 * Chord analysis: parsing a chord's root and quality class, the major-key table
 * with Nashville numerals, key detection by weighted scale matches, and the
 * per-song summary (unique chords, counts, progressions) with its text header.
 *
 * Float arithmetic is replaced by exact `real` arithmetic. Go map iteration
 * order, which decides ties in key detection, is an explicit parameter.
 */
module ChordAnalysis {
  import opened Wrappers
  import opened Text
  import opened Numbers
  import opened ChordGrammar

  /** Root ("" when unparsed), quality class and the cleaned text. */
  datatype Chord = Chord(root: string, quality: string, original: string)

  const Minor: string := "minor"
  const Major: string := "major"
  const Diminished: string := "diminished"
  const Augmented: string := "augmented"

  /** The quality class, decided in the order the source tries the classes. */
  function QualityType(q: string): (t: string)
    ensures t in {Minor, Major, Diminished, Augmented}
    ensures t == Minor <==> Contains(q, "m") && !Contains(q, "maj")
  {
    if Contains(q, "m") && !Contains(q, "maj") then Minor
    else if Contains(q, "dim") then Diminished
    else if Contains(q, "aug") then Augmented
    else Major
  }

  /** "dim" contains an "m", so a diminished quality without "maj" is classified minor. */
  lemma DimIsMinor(q: string)
    requires Contains(q, "dim") && !Contains(q, "maj")
    ensures QualityType(q) == Minor
  {
    var i := IndexFrom(q, "dim", 0).value;
    assert q[i + 2..i + 3] == q[i..i + 3][2..3];
    ContainsAt(q, "m", i + 2);
  }

  /** Consequently the diminished class is reached only when "maj" is present as well. */
  lemma DiminishedNeedsMaj(q: string)
    ensures QualityType(q) == Diminished ==> Contains(q, "dim") && Contains(q, "maj")
  {
    if Contains(q, "dim") && !Contains(q, "maj") {
      DimIsMinor(q);
    }
  }

  /** The text `^([A-G][#b]?)(.*?)$` can match: a root letter first and no newline after it. */
  predicate RootMatches(s: string) {
    |s| > 0 && IsRootLetter(s[0]) && '\n' !in s[1..]
  }

  function RootLength(s: string): (n: nat)
    requires |s| > 0
    ensures 1 <= n <= 2 && n <= |s|
  {
    if |s| > 1 && IsAccidental(s[1]) then 2 else 1
  }

  /** The text ParseChord works on: brackets trimmed from both ends, then surrounding spaces. */
  function CleanChordText(raw: string): string {
    TrimSpace(TrimChars(raw, "[]"))
  }

  /** Go ParseChord. */
  function ParseChord(raw: string): (ch: Chord)
    ensures ch.original == CleanChordText(raw)
    ensures ch.root != "" <==> RootMatches(ch.original)
    ensures ch.root != "" ==> HasPrefix(ch.original, ch.root) && IsRootLetter(ch.root[0]) && |ch.root| <= 2
    ensures ch.root != "" ==> ch.quality == QualityType(ch.original[|ch.root|..])
    ensures ch.root == "" ==> ch.quality == ""
  {
    var s := CleanChordText(raw);
    if RootMatches(s) then
      var n := RootLength(s);
      Chord(s[..n], QualityType(s[n..]), s)
    else Chord("", "", s)
  }

  lemma TrimCharsNoop(s: string, cutset: string)
    requires |s| == 0 || (s[0] !in cutset && s[|s| - 1] !in cutset)
    ensures TrimChars(s, cutset) == s
  {
    var f: char -> bool := c => c in cutset;
    if |s| > 0 {
      assert !f(s[0]) && !f(s[|s| - 1]);
      assert SpanWhile(s, f) == 0 && SpanWhileBack(s, f) == 0;
    }
    assert TrimLeftWhile(s, f) == s;
    assert TrimRightWhile(s, f) == s;
  }

  lemma TrimSpaceNoop(s: string)
    requires |s| == 0 || (!IsSpace(s[0]) && !IsSpace(s[|s| - 1]))
    ensures TrimSpace(s) == s
  {
    assert SpanWhile(s, IsSpace) == 0;
    assert s[0..] == s;
  }

  /** The text of a matched chord needs no cleaning: its ends are neither brackets nor spaces. */
  lemma CleanSpelled(c: ChordSymbol)
    requires WellFormed(c)
    ensures CleanChordText(Spell(c)) == Spell(c)
  {
    var t := Spell(c);
    SpellChar(c, 0);
    SpellChar(c, |t| - 1);
    ChordCharPlain(t[0]);
    ChordCharPlain(t[|t| - 1]);
    TrimCharsNoop(t, "[]");
    TrimSpaceNoop(t);
  }

  lemma ChordCharPlain(ch: char)
    requires IsWordChar(ch) || ch == '#' || ch == '/'
    ensures !IsSpace(ch) && ch !in "[]" && ch != '\n'
  {
  }

  lemma NoNewlineInSpell(c: ChordSymbol)
    requires WellFormed(c)
    ensures '\n' !in Spell(c)
  {
    forall k | 0 <= k < |Spell(c)| ensures Spell(c)[k] != '\n' {
      SpellChar(c, k);
    }
  }

  lemma SpellAfterRoot(c: ChordSymbol)
    ensures Spell(c)[QualityStart(c)..] == c.quality + c.digits + SpellBass(c.bass)
    ensures Spell(c)[..QualityStart(c)] == [c.root] + OptChar(c.accidental)
  {
    var t := Spell(c);
    assert t == ([c.root] + OptChar(c.accidental)) + (c.quality + c.digits + SpellBass(c.bass));
  }

  /** Parsing a matched chord: its root and accidental form the root, and the rest decides the class. */
  lemma ParseSpelled(c: ChordSymbol)
    requires WellFormed(c)
    ensures var ch := ParseChord(Spell(c));
      && ch.original == Spell(c)
      && ch.root == [c.root] + OptChar(c.accidental)
      && ch.quality == QualityType(c.quality + c.digits + SpellBass(c.bass))
  {
    CleanSpelled(c);
    SpelledRoot(c);
    SpellAfterRoot(c);
  }

  /** A chord spelling has a root the pattern accepts, and the root part ends where the quality starts. */
  lemma SpelledRoot(c: ChordSymbol)
    requires WellFormed(c)
    ensures RootMatches(Spell(c)) && RootLength(Spell(c)) == QualityStart(c)
  {
    var t := Spell(c);
    NoNewlineInSpell(c);
    SpellAfterRoot(c);
    assert t[0] == c.root by { assert t[..QualityStart(c)][0] == c.root; }
    assert '\n' !in t[1..];
    assert t[0..|t|] == t;
    AccidentalStep(t, 0, c);
  }

  /** Every character of a chord spelling is a letter, digit, `#` or `/`. */
  lemma SpellChar(c: ChordSymbol, k: nat)
    requires WellFormed(c) && k < |Spell(c)|
    ensures IsWordChar(Spell(c)[k]) || Spell(c)[k] == '#' || Spell(c)[k] == '/'
  {
    var t := Spell(c);
    SpellParts(c);
    if k >= BassStart(c) {
      assert t[k] == SpellBass(c.bass)[k - BassStart(c)];
    } else if k >= DigitsStart(c) {
      assert t[k] == c.digits[k - DigitsStart(c)];
    } else if k >= QualityStart(c) {
      assert t[k] == c.quality[k - QualityStart(c)];
      assert c.quality in Qualities;
    } else if k == 1 {
      assert t[k] == c.accidental.value;
    }
  }

  // ---------------------------------------------------------------------------
  // Normal forms and the key table
  // ---------------------------------------------------------------------------

  /** Go normalizeChordForKey: the root, with "m" appended for the minor class. */
  function ForKey(ch: Chord): (r: string)
    ensures HasPrefix(r, ch.root)
    ensures |r| == |ch.root| + 1 <==> ch.quality == Minor
    ensures |r| == |ch.root| <==> ch.quality != Minor
  {
    if ch.quality == Minor then ch.root + "m" else ch.root
  }

  /** A text of the form `[A-G][#b]?m?`. */
  predicate NormalForm(r: string) {
    && 1 <= |r| <= 3
    && IsRootLetter(r[0])
    && (|r| == 2 ==> IsAccidental(r[1]) || r[1] == 'm')
    && (|r| == 3 ==> IsAccidental(r[1]) && r[2] == 'm')
  }

  /** Go normalizeChord: the longest `[A-G][#b]?m?` prefix, or the text itself when there is none. */
  function NormalizeChord(s: string): (r: string)
    ensures (|s| > 0 && IsRootLetter(s[0])) ==> HasPrefix(s, r) && NormalForm(r)
    ensures (|s| > 0 && IsRootLetter(s[0])) ==> forall k :: |r| < k <= |s| ==> !NormalForm(s[..k])
    ensures !(|s| > 0 && IsRootLetter(s[0])) ==> r == s
  {
    if |s| > 0 && IsRootLetter(s[0]) then
      var n := RootLength(s);
      var m := if n < |s| && s[n] == 'm' then n + 1 else n;
      assert forall k :: m < k <= |s| ==> !NormalForm(s[..k]) by {
        forall k | m < k <= |s| ensures !NormalForm(s[..k]) {
          if k <= 3 {
            assert s[..k][1] == s[1];
            assert s[..k][k - 1] == s[k - 1];
          }
        }
      }
      s[..m]
    else s
  }

  /** Normalising twice changes nothing. */
  lemma NormalizeIdempotent(s: string)
    ensures NormalizeChord(NormalizeChord(s)) == NormalizeChord(s)
  {
    var r := NormalizeChord(s);
    if |s| > 0 && IsRootLetter(s[0]) {
      assert r[..|r|] == r;
      assert HasPrefix(r, NormalizeChord(r)) && NormalForm(NormalizeChord(r));
    }
  }

  predicate SameNormal(a: string, b: string) { NormalizeChord(a) == NormalizeChord(b) }

  /** The seven chords of each major key in the table, in scale order; None outside it. */
  function ScaleOf(key: string): (r: Option<seq<string>>)
    ensures r.Some? ==> |r.value| == 7 && r.value[0] == key
  {
    if key == "C" then Some(["C", "Dm", "Em", "F", "G", "Am", "Bdim"])
    else if key == "C#" then Some(["C#", "D#m", "E#m", "F#", "G#", "A#m", "B#dim"])
    else if key == "Db" then Some(["Db", "Ebm", "Fm", "Gb", "Ab", "Bbm", "Cdim"])
    else if key == "D" then Some(["D", "Em", "F#m", "G", "A", "Bm", "C#dim"])
    else if key == "D#" then Some(["D#", "E#m", "F##m", "G#", "A#", "B#m", "C##dim"])
    else if key == "Eb" then Some(["Eb", "Fm", "Gm", "Ab", "Bb", "Cm", "Ddim"])
    else if key == "E" then Some(["E", "F#m", "G#m", "A", "B", "C#m", "D#dim"])
    else if key == "F" then Some(["F", "Gm", "Am", "Bb", "C", "Dm", "Edim"])
    else if key == "F#" then Some(["F#", "G#m", "A#m", "B", "C#", "D#m", "E#dim"])
    else if key == "Gb" then Some(["Gb", "Abm", "Bbm", "Cb", "Db", "Ebm", "Fdim"])
    else if key == "G" then Some(["G", "Am", "Bm", "C", "D", "Em", "F#dim"])
    else if key == "G#" then Some(["G#", "A#m", "B#m", "C#", "D#", "E#m", "F##dim"])
    else if key == "Ab" then Some(["Ab", "Bbm", "Cm", "Db", "Eb", "Fm", "Gdim"])
    else if key == "A" then Some(["A", "Bm", "C#m", "D", "E", "F#m", "G#dim"])
    else if key == "A#" then Some(["A#", "B#m", "C##m", "D#", "E#", "F##m", "G##dim"])
    else if key == "Bb" then Some(["Bb", "Cm", "Dm", "Eb", "F", "Gm", "Adim"])
    else if key == "B" then Some(["B", "C#m", "D#m", "E", "F#", "G#m", "A#dim"])
    else None
  }

  predicate InTable(key: string) { ScaleOf(key).Some? }

  /** The keys of the table, in the order the source lists them. */
  const KeyNames: seq<string> := ["C", "C#", "Db", "D", "D#", "Eb", "E", "F", "F#", "Gb", "G", "G#", "Ab", "A", "A#", "Bb", "B"]

  /** The table holds exactly the listed keys. */
  lemma KeyNamesComplete(key: string)
    ensures InTable(key) <==> key in KeyNames
  {
  }

  const Numerals: seq<string> := ["I", "ii", "iii", "IV", "V", "vi", "vii\U{00B0}"]

  /** The first scale position, from `k` on, whose chord has the same normal form as `name`. */
  function ScaleIndexFrom(scale: seq<string>, name: string, k: nat): (r: Option<nat>)
    requires k <= |scale|
    decreases |scale| - k
    ensures r.Some? ==> k <= r.value < |scale| && SameNormal(name, scale[r.value])
    ensures r.Some? ==> forall j :: k <= j < r.value ==> !SameNormal(name, scale[j])
    ensures r.None? ==> forall j :: k <= j < |scale| ==> !SameNormal(name, scale[j])
  {
    if k == |scale| then None
    else if SameNormal(name, scale[k]) then Some(k)
    else ScaleIndexFrom(scale, name, k + 1)
  }

  /** The position of the first scale note naming the same pitch as `name`, if any. */
  function ScaleIndex(scale: seq<string>, name: string): (r: Option<nat>)
    ensures r.Some? ==> r.value < |scale| && SameNormal(name, scale[r.value])
    ensures r.Some? ==> forall j :: 0 <= j < r.value ==> !SameNormal(name, scale[j])
    ensures r.None? <==> forall j :: 0 <= j < |scale| ==> !SameNormal(name, scale[j])
  {
    ScaleIndexFrom(scale, name, 0)
  }

  lemma Maj7Has7(t: string)
    ensures Contains(t, "maj7") ==> Contains(t, "7")
  {
    if Contains(t, "maj7") {
      var i := IndexFrom(t, "maj7", 0).value;
      assert t[i + 3..i + 4] == t[i..i + 4][3..4];
      ContainsAt(t, "7", i + 3);
    }
  }

  /** The modifier appended to a numeral: at most one, by precedence. */
  function NumeralSuffix(original: string): (r: string)
    ensures r in {"", "7", "M7", "sus"}
    ensures r == "7" <==> Contains(original, "7") && !Contains(original, "maj7")
    ensures r == "M7" <==> Contains(original, "maj7")
    ensures r == "sus" <==> !Contains(original, "7") && Contains(original, "sus")
  {
    Maj7Has7(original);
    if Contains(original, "7") && !Contains(original, "maj7") then "7"
    else if Contains(original, "maj7") then "M7"
    else if Contains(original, "sus") then "sus"
    else ""
  }

  function Numeral(k: nat): (r: string)
    requires k < 7
    ensures |r| > 0 && r[0] != '?'
  {
    Numerals[k]
  }

  /** Go GetNashvilleNumber: "?" outside the table or the scale, else the numeral of the first matching degree. */
  function NashvilleNumber(ch: Chord, key: string): (r: string)
    ensures !InTable(key) ==> r == "?"
    ensures InTable(key) ==> (r == "?" <==> ScaleIndex(ScaleOf(key).value, ForKey(ch)).None?)
    ensures InTable(key) && r != "?" ==>
      r == Numeral(ScaleIndex(ScaleOf(key).value, ForKey(ch)).value) + NumeralSuffix(ch.original)
  {
    match ScaleOf(key)
    case None => "?"
    case Some(scale) =>
      match ScaleIndex(scale, ForKey(ch))
      case None => "?"
      case Some(k) =>
        var n := Numeral(k);
        assert (n + NumeralSuffix(ch.original))[0] == n[0];
        n + NumeralSuffix(ch.original)
  }

  /** The tonic of every key in the table is degree I. */
  lemma TonicIsOne(key: string, original: string)
    requires InTable(key)
    ensures NashvilleNumber(Chord(key, Major, original), key) == "I" + NumeralSuffix(original)
  {
    var scale := ScaleOf(key).value;
    assert SameNormal(key, scale[0]);
  }

  /**
   * Because "dim" is classified minor, a diminished chord never reaches the
   * diminished degree: in C, "Bdim" gets no numeral while a plain B major chord
   * is numbered as the seventh degree.
   */
  lemma DiminishedDegreeQuirk()
    ensures NashvilleNumber(Chord("B", Minor, "Bdim"), "C") == "?"
  {
    CScaleLow();
    CScaleHigh();
    assert ForKey(Chord("B", Minor, "Bdim")) == "Bm";
    assert NormalizeChord("Bm") == "Bm";
    var scale := ScaleOf("C").value;
    forall j | 0 <= j < |scale| ensures !SameNormal("Bm", scale[j]) {
      assert NormalizeChord(scale[j])[0] != 'B' || |NormalizeChord(scale[j])| == 1;
    }
  }

  /** The seventh degree is reached only by a chord parsed as major. */
  lemma SeventhDegreeMajor()
    ensures NashvilleNumber(Chord("B", Major, "B"), "C") == "vii\U{00B0}"
  {
    CScaleLow();
    CScaleHigh();
    assert ForKey(Chord("B", Major, "B")) == "B";
    assert NormalizeChord("B") == "B";
    var scale := ScaleOf("C").value;
    forall j | 0 <= j < 6 ensures !SameNormal("B", scale[j]) {
      assert NormalizeChord(scale[j])[0] != 'B';
    }
    assert SameNormal("B", scale[6]);
    assert ScaleIndex(scale, "B") == Some(6);
    assert !Contains("B", "7") && !Contains("B", "sus") && !Contains("B", "maj7");
  }

  /** Normal forms of the first four chords of C major. */
  lemma CScaleLow()
    ensures NormalizeChord("C") == "C" && NormalizeChord("Dm") == "Dm"
    ensures NormalizeChord("Em") == "Em" && NormalizeChord("F") == "F"
  {
    assert NormalizeChord("C") == "C";
    assert NormalizeChord("Dm") == "Dm";
    assert NormalizeChord("Em") == "Em";
  }

  /** Normal forms of the last three chords of C major: the diminished chord normalises to its root. */
  lemma CScaleHigh()
    ensures NormalizeChord("G") == "G" && NormalizeChord("Am") == "Am" && NormalizeChord("Bdim") == "B"
  {
    assert NormalizeChord("G") == "G";
    assert NormalizeChord("Am") == "Am";
  }

  /** A plain diminished chord is parsed as minor, so key detection counts it as its minor chord. */
  lemma DiminishedParsedMinor(c: ChordSymbol)
    requires WellFormed(c) && c.quality == "dim" && c.digits == "" && c.bass == NoBass
    ensures ParseChord(Spell(c)).quality == Minor
    ensures ForKey(ParseChord(Spell(c))) == [c.root] + OptChar(c.accidental) + "m"
  {
    ParseSpelled(c);
    DimSuffix(c);
    DimClass();
  }

  lemma DimSuffix(c: ChordSymbol)
    requires c.quality == "dim" && c.digits == "" && c.bass == NoBass
    ensures c.quality + c.digits + SpellBass(c.bass) == "dim"
  {
  }

  lemma DimClass()
    ensures QualityType("dim") == Minor
  {
    var q := "dim";
    assert StartsAt(q, 2, "m") by { assert q[2..3] == "m"; }
    ContainsAt(q, "m", 2);
    assert q != "maj" by { assert q[0] != "maj"[0]; }
    AbsentSameLength(q, "maj");
  }

  /** A needle as long as the text occurs in it only when it is the text. */
  lemma AbsentSameLength(s: string, p: string)
    requires |s| == |p| && s != p
    ensures !Contains(s, p)
  {
    assert s[0..|s|] == s;
  }

  // ---------------------------------------------------------------------------
  // Key detection
  // ---------------------------------------------------------------------------

  /** How many times `x` occurs in `xs`. */
  function Occurrences(xs: seq<string>, x: string): nat {
    if |xs| == 0 then 0
    else Occurrences(xs[..|xs| - 1], x) + (if xs[|xs| - 1] == x then 1 else 0)
  }

  lemma {:induction false} OccursPositive(xs: seq<string>, x: string)
    requires x in xs
    ensures Occurrences(xs, x) >= 1
  {
    if xs[|xs| - 1] != x {
      assert x in xs[..|xs| - 1];
      OccursPositive(xs[..|xs| - 1], x);
    }
  }

  /** The distinct elements of `xs` in first-occurrence order: the keys of a count map. */
  function Distinct(xs: seq<string>): (r: seq<string>)
    ensures forall x :: x in r <==> x in xs
    ensures forall i, j :: 0 <= i < j < |r| ==> r[i] != r[j]
  {
    if |xs| == 0 then []
    else
      var r := Distinct(xs[..|xs| - 1]);
      assert xs == xs[..|xs| - 1] + [xs[|xs| - 1]];
      if xs[|xs| - 1] in r then r else r + [xs[|xs| - 1]]
  }

  /** Degree weights: I counts 3, IV and V 2.5, vi 2, the others 1. */
  function Weight(k: nat): (w: real)
    ensures w >= 1.0
  {
    if k == 0 then 3.0 else if k == 3 || k == 4 then 2.5 else if k == 5 then 2.0 else 1.0
  }

  datatype Tally = Tally(score: real, matched: nat)

  /** Score and number of matched names for one scale; each name weighs its count. */
  function TallyOf(scale: seq<string>, names: seq<string>, xs: seq<string>): (t: Tally)
    requires forall n :: n in names ==> n in xs
    ensures t.matched <= |names|
    ensures t.score >= 0.0
    ensures t.matched > 0 <==> t.score > 0.0
    ensures t.matched == 0 <==> forall i :: 0 <= i < |names| ==> ScaleIndex(scale, names[i]).None?
  {
    if |names| == 0 then Tally(0.0, 0)
    else
      var rest := TallyOf(scale, names[1..], xs);
      NoneCons(scale, names);
      match ScaleIndex(scale, names[0])
      case None => rest
      case Some(k) =>
        OccursPositive(xs, names[0]);
        Tally(rest.score + Points(Occurrences(xs, names[0]), k), rest.matched + 1)
  }

  /** A name's contribution: its count times the weight of its scale position. */
  function Points(count: nat, k: nat): (w: real)
    requires count >= 1
    ensures w >= 1.0
  {
    ProductAtLeastOne(count as real, Weight(k));
    count as real * Weight(k)
  }

  /** No name has a scale position exactly when the first has none and no later one has. */
  lemma NoneCons(scale: seq<string>, names: seq<string>)
    requires |names| > 0
    ensures (forall i :: 0 <= i < |names| ==> ScaleIndex(scale, names[i]).None?) <==>
      ScaleIndex(scale, names[0]).None? && forall i :: 0 <= i < |names[1..]| ==> ScaleIndex(scale, names[1..][i]).None?
  {
    assert forall i :: 1 <= i < |names| ==> names[1..][i - 1] == names[i];
  }

  lemma ProductAtLeastOne(a: real, b: real)
    requires a >= 1.0 && b >= 1.0
    ensures a * b >= 1.0
  {
    assert a * b >= a * 1.0;
  }

  /** The normalised names counted for key detection, one per chord. */
  function ForKeys(chords: seq<Chord>): (r: seq<string>)
    ensures |r| == |chords| && forall i :: 0 <= i < |chords| ==> r[i] == ForKey(chords[i])
  {
    seq(|chords|, i requires 0 <= i < |chords| => ForKey(chords[i]))
  }

  /** A key's score: its tally scaled by the share of distinct names it matched; None when nothing matched. */
  function KeyScore(key: string, xs: seq<string>): (r: Option<real>)
    ensures r.Some? ==> InTable(key) && r.value > 0.0
  {
    match ScaleOf(key)
    case None => None
    case Some(scale) =>
      var names := Distinct(xs);
      var t := TallyOf(scale, names, xs);
      if t.matched > 0 then
        Some(Scaled(t.score, Share(t.matched, |names|)))
      else None
  }

  /** The fraction `m / n` of the distinct names matched. */
  function Share(m: nat, n: nat): (r: real)
    requires 0 < m <= n
    ensures 0.0 < r <= 1.0
  {
    m as real / n as real
  }

  /** A positive score scaled by a positive share stays positive. */
  function Scaled(score: real, share: real): (r: real)
    requires score > 0.0 && 0.0 < share <= 1.0
    ensures 0.0 < r <= score
  {
    score * share
  }

  /** Go map order of the table: every listed key appears and nothing else does. */
  predicate KeyOrder(order: seq<string>) {
    && (forall k :: k in order ==> InTable(k))
    && (forall i :: 0 <= i < |KeyNames| ==> KeyNames[i] in order)
  }

  datatype Best = Best(key: string, score: real)

  /** Membership in a non-empty sequence: in the prefix without the last element, or the last element. */
  lemma LastSplit(order: seq<string>)
    requires |order| > 0
    ensures forall x :: x in order <==> x in order[..|order| - 1] || x == order[|order| - 1]
  {
    assert order == order[..|order| - 1] + [order[|order| - 1]];
  }

  /** Only a key of the table scores, and no key of the table is empty. */
  lemma ScoredKeyNamed(k: string, xs: seq<string>)
    ensures KeyScore(k, xs).Some? ==> k != ""
  {
    if KeyScore(k, xs).Some? {
      assert ScaleOf(k).value[0] == k;
    }
  }

  /** The running maximum over `order`: a key replaces the best only with a strictly higher score. */
  function PickBest(order: seq<string>, xs: seq<string>): (b: Best)
    ensures b.score >= 0.0
    ensures b.key == "" ==> b.score == 0.0
    ensures b.key != "" ==> b.key in order && KeyScore(b.key, xs) == Some(b.score)
    ensures forall k :: k in order && KeyScore(k, xs).Some? ==> KeyScore(k, xs).value <= b.score
    ensures b.key == "" <==> forall k :: k in order ==> KeyScore(k, xs).None?
  {
    if |order| == 0 then Best("", 0.0)
    else
      var prev := PickBest(order[..|order| - 1], xs);
      var k := order[|order| - 1];
      LastSplit(order);
      ScoredKeyNamed(k, xs);
      match KeyScore(k, xs)
      case Some(sc) => if sc > prev.score then Best(k, sc) else prev
      case None => prev
  }

  /** The sum of all key scores (the keys of the score map). */
  function TotalScore(keys: seq<string>, xs: seq<string>): (t: real)
    ensures t >= 0.0
  {
    if |keys| == 0 then 0.0
    else
      var rest := TotalScore(keys[1..], xs);
      match KeyScore(keys[0], xs)
      case Some(sc) => sc + rest
      case None => rest
  }

  lemma {:induction false} TotalAtLeast(keys: seq<string>, xs: seq<string>, k: string)
    requires k in keys && KeyScore(k, xs).Some?
    ensures KeyScore(k, xs).value <= TotalScore(keys, xs)
  {
    if keys[0] != k {
      assert k in keys[1..];
      TotalAtLeast(keys[1..], xs, k);
    }
  }

  datatype KeyGuess = KeyGuess(key: string, confidence: real)

  /** Go DetectKey, with the table's iteration order as `order`. */
  function DetectKey(chords: seq<Chord>, order: seq<string>): (g: KeyGuess)
    requires KeyOrder(order)
    ensures |chords| == 0 ==> g == KeyGuess("", 0.0)
    ensures g.key != "" ==> InTable(g.key) && KeyScore(g.key, ForKeys(chords)).Some?
    ensures g.key != "" ==> forall k :: InTable(k) && KeyScore(k, ForKeys(chords)).Some? ==>
      KeyScore(k, ForKeys(chords)).value <= KeyScore(g.key, ForKeys(chords)).value
    ensures |chords| > 0 ==> (g.key == "" <==> forall k :: InTable(k) ==> KeyScore(k, ForKeys(chords)).None?)
    ensures 0.0 <= g.confidence <= 100.0
    ensures g.key != "" ==> g.confidence > 0.0
  {
    if |chords| == 0 then KeyGuess("", 0.0)
    else
      var xs := ForKeys(chords);
      var b := PickBest(order, xs);
      var total := TotalScore(KeyNames, xs);
      BestWithinTotal(order, xs);
      KeyGuess(b.key, if total > 0.0 then Percent(b.score, total) else 0.0)
  }

  /** Every table key is visited, and the best score is at most the total (and positive when a key won). */
  lemma BestWithinTotal(order: seq<string>, xs: seq<string>)
    requires KeyOrder(order)
    ensures forall k :: InTable(k) ==> k in order
    ensures PickBest(order, xs).score <= TotalScore(KeyNames, xs)
    ensures PickBest(order, xs).key != "" ==> InTable(PickBest(order, xs).key) && PickBest(order, xs).score > 0.0
  {
    forall k | InTable(k) ensures k in order {
      KeyNamesComplete(k);
    }
    var b := PickBest(order, xs);
    if b.key != "" {
      KeyNamesComplete(b.key);
      TotalAtLeast(KeyNames, xs, b.key);
    }
  }

  /** `part` as a percentage of `total`. */
  function Percent(part: real, total: real): (r: real)
    requires 0.0 <= part <= total && total > 0.0
    ensures 0.0 <= r <= 100.0
    ensures part > 0.0 ==> r > 0.0
  {
    assert part / total <= 1.0;
    part / total * 100.0
  }

  /**
   * When one key scores strictly highest, the detected key does not depend on
   * the table's iteration order.
   */
  lemma DetectKeyOrderIndependent(chords: seq<Chord>, o1: seq<string>, o2: seq<string>, top: string)
    requires KeyOrder(o1) && KeyOrder(o2)
    requires KeyScore(top, ForKeys(chords)).Some?
    requires forall k :: k != top && KeyScore(k, ForKeys(chords)).Some? ==>
      KeyScore(k, ForKeys(chords)).value < KeyScore(top, ForKeys(chords)).value
    ensures DetectKey(chords, o1) == DetectKey(chords, o2)
    ensures DetectKey(chords, o1).key == top
  {
  }

  // ---------------------------------------------------------------------------
  // Extraction
  // ---------------------------------------------------------------------------

  /** Go ExtractChords: every bracketed chord of the content, parsed, in order. */
  function ExtractChords(content: string): (r: seq<Chord>)
    ensures |r| == |Bracketed(content)|
    ensures forall k :: 0 <= k < |r| ==> r[k] == ParseChord(Bracketed(content)[k])
  {
    var b := Bracketed(content);
    seq(|b|, k requires 0 <= k < |b| => ParseChord(b[k]))
  }

  /** The original texts of a list of chords. */
  function Originals(chords: seq<Chord>): (r: seq<string>)
    ensures |r| == |chords| && forall k :: 0 <= k < |chords| ==> r[k] == chords[k].original
  {
    seq(|chords|, k requires 0 <= k < |chords| => chords[k].original)
  }

  /** Every extracted chord keeps the chord text as written and has a root. */
  lemma ExtractedSpelled(content: string, k: nat)
    requires k < |ExtractChords(content)|
    ensures exists c :: WellFormed(c) && ExtractChords(content)[k].original == Spell(c)
    ensures ExtractChords(content)[k].root != ""
  {
    BracketedSound(content);
    assert ChordText(Bracketed(content)[k]);
    var c :| WellFormed(c) && Spell(c) == Bracketed(content)[k];
    ParseSpelled(c);
  }

  /** Extraction from a chord sheet returns exactly its chords, in order, as written. */
  lemma ExtractSheet(ps: seq<Piece>, tail: string)
    requires forall k :: 0 <= k < |ps| ==> WellFormed(ps[k].chord) && NoOpenBracket(ps[k].text)
    requires NoOpenBracket(tail)
    ensures Originals(ExtractChords(Sheet(ps, tail))) == Spellings(ps)
  {
    BracketedSheet(ps, tail);
    forall k | 0 <= k < |ps| ensures ParseChord(Spell(ps[k].chord)).original == Spell(ps[k].chord) {
      ParseSpelled(ps[k].chord);
    }
  }

  // ---------------------------------------------------------------------------
  // Sorting the distinct chord names (Go sort.Strings: byte order, which for
  // UTF-8 is code point order)
  // ---------------------------------------------------------------------------

  predicate Below(a: string, b: string)
    decreases |a|
  {
    if |a| == 0 then |b| > 0
    else if |b| == 0 then false
    else if a[0] != b[0] then a[0] < b[0]
    else Below(a[1..], b[1..])
  }

  lemma {:induction false} BelowIrreflexive(a: string)
    ensures !Below(a, a)
    decreases |a|
  {
    if |a| > 0 {
      BelowIrreflexive(a[1..]);
    }
  }

  lemma {:induction false} BelowTransitive(a: string, b: string, c: string)
    requires Below(a, b) && Below(b, c)
    ensures Below(a, c)
    decreases |a|
  {
    if |a| > 0 && a[0] == b[0] && b[0] == c[0] {
      BelowTransitive(a[1..], b[1..], c[1..]);
    }
  }

  lemma {:induction false} BelowTotal(a: string, b: string)
    requires a != b
    ensures Below(a, b) || Below(b, a)
    decreases |a|
  {
    if |a| > 0 && |b| > 0 && a[0] == b[0] {
      assert a == [a[0]] + a[1..] && b == [b[0]] + b[1..];
      BelowTotal(a[1..], b[1..]);
    }
  }

  lemma {:induction false} BelowAsymmetric(a: string, b: string)
    ensures !(Below(a, b) && Below(b, a))
    decreases |a|
  {
    if |a| > 0 && |b| > 0 && a[0] == b[0] {
      BelowAsymmetric(a[1..], b[1..]);
    }
  }

  predicate StrictlySorted(xs: seq<string>) {
    forall i, j :: 0 <= i < j < |xs| ==> Below(xs[i], xs[j])
  }

  /** Insert `x` into an ordered list unless it is already there. */
  function Insert(x: string, xs: seq<string>): (r: seq<string>)
    ensures forall y :: y in r <==> y == x || y in xs
  {
    if |xs| == 0 then [x]
    else if x == xs[0] then xs
    else if Below(x, xs[0]) then [x] + xs
    else
      assert xs == [xs[0]] + xs[1..];
      [xs[0]] + Insert(x, xs[1..])
  }

  lemma TailSorted(xs: seq<string>)
    requires |xs| > 0 && StrictlySorted(xs)
    ensures StrictlySorted(xs[1..])
  {
    forall i, j | 0 <= i < j < |xs| - 1 ensures Below(xs[1..][i], xs[1..][j]) {
      assert xs[1..][i] == xs[i + 1] && xs[1..][j] == xs[j + 1];
    }
  }

  lemma {:induction false} InsertSorted(x: string, xs: seq<string>)
    requires StrictlySorted(xs)
    ensures StrictlySorted(Insert(x, xs))
  {
    if |xs| > 0 && x != xs[0] {
      if Below(x, xs[0]) {
        var r := [x] + xs;
        forall i, j | 0 <= i < j < |r| ensures Below(r[i], r[j]) {
          if i == 0 {
            if j > 1 {
              BelowTransitive(x, xs[0], xs[j - 1]);
            }
          } else {
            assert r[i] == xs[i - 1] && r[j] == xs[j - 1];
          }
        }
      } else {
        BelowTotal(x, xs[0]);
        var rest := xs[1..];
        TailSorted(xs);
        InsertSorted(x, rest);
        var big := Insert(x, rest);
        forall y | y in big ensures Below(xs[0], y) {
          if y != x {
            var k :| 0 <= k < |rest| && rest[k] == y;
            assert xs[k + 1] == y;
          }
        }
        var r := [xs[0]] + big;
        forall i, j | 0 <= i < j < |r| ensures Below(r[i], r[j]) {
          assert r[j] == big[j - 1];
          if i > 0 {
            assert r[i] == big[i - 1];
          }
        }
      }
    }
  }

  /** The distinct elements of `xs`, in ascending order. */
  function SortDistinct(xs: seq<string>): (r: seq<string>)
    ensures forall y :: y in r <==> y in xs
  {
    if |xs| == 0 then []
    else
      assert xs == xs[..|xs| - 1] + [xs[|xs| - 1]];
      Insert(xs[|xs| - 1], SortDistinct(xs[..|xs| - 1]))
  }

  lemma {:induction false} SortDistinctSorted(xs: seq<string>)
    ensures StrictlySorted(SortDistinct(xs))
  {
    if |xs| > 0 {
      SortDistinctSorted(xs[..|xs| - 1]);
      InsertSorted(xs[|xs| - 1], SortDistinct(xs[..|xs| - 1]));
    }
  }

  /** A strictly ordered list repeats nothing. */
  lemma SortedNoRepeats(xs: seq<string>)
    requires StrictlySorted(xs)
    ensures forall i, j :: 0 <= i < j < |xs| ==> xs[i] != xs[j]
  {
    forall i, j | 0 <= i < j < |xs| ensures xs[i] != xs[j] {
      BelowIrreflexive(xs[i]);
    }
  }

  lemma SameHead(a: seq<string>, b: seq<string>)
    requires |a| > 0 && |b| > 0 && StrictlySorted(a) && StrictlySorted(b)
    requires forall y :: y in a <==> y in b
    ensures a[0] == b[0]
  {
    assert b[0] in a && a[0] in b;
    var i :| 0 <= i < |a| && a[i] == b[0];
    var j :| 0 <= j < |b| && b[j] == a[0];
    assert a[0] == b[0] || Below(a[0], b[0]);
    assert b[0] == a[0] || Below(b[0], a[0]);
    BelowAsymmetric(a[0], b[0]);
  }

  lemma SameTail(a: seq<string>, b: seq<string>)
    requires |a| > 0 && |b| > 0 && StrictlySorted(a) && StrictlySorted(b)
    requires forall y :: y in a <==> y in b
    requires a[0] == b[0]
    ensures forall y :: y in a[1..] ==> y in b[1..]
  {
    forall y | y in a[1..] ensures y in b[1..] {
      var k :| 0 <= k < |a| - 1 && a[1..][k] == y;
      assert a[k + 1] == y;
      BelowIrreflexive(a[0]);
      assert y in b;
      var m :| 0 <= m < |b| && b[m] == y;
      assert b[1..][m - 1] == y;
    }
  }

  /** The ascending list of a set of names is unique: any two such lists are equal. */
  lemma {:induction false} SortedUnique(a: seq<string>, b: seq<string>)
    requires StrictlySorted(a) && StrictlySorted(b)
    requires forall y :: y in a <==> y in b
    ensures a == b
    decreases |a|
  {
    assert |a| == 0 <==> |b| == 0 by {
      assert |a| > 0 ==> a[0] in b;
      assert |b| > 0 ==> b[0] in a;
    }
    if |a| > 0 {
      SameHead(a, b);
      SameTail(a, b);
      SameTail(b, a);
      TailSorted(a);
      TailSorted(b);
      SortedUnique(a[1..], b[1..]);
      assert a == [a[0]] + a[1..] && b == [b[0]] + b[1..];
    }
  }

  // ---------------------------------------------------------------------------
  // Counting
  // ---------------------------------------------------------------------------

  lemma {:induction false} OccurrencesCons(y: string, xs: seq<string>, x: string)
    ensures Occurrences([y] + xs, x) == (if y == x then 1 else 0) + Occurrences(xs, x)
    decreases |xs|
  {
    if |xs| > 0 {
      assert ([y] + xs)[..|xs|] == [y] + xs[..|xs| - 1];
      OccurrencesCons(y, xs[..|xs| - 1], x);
    } else {
      assert ([y] + xs)[..0] == [];
    }
  }

  lemma {:induction false} OccurrencesAbsent(xs: seq<string>, x: string)
    requires x !in xs
    ensures Occurrences(xs, x) == 0
  {
    if |xs| > 0 {
      OccurrencesAbsent(xs[..|xs| - 1], x);
    }
  }

  lemma {:induction false} OccurrencesOnce(xs: seq<string>, x: string)
    requires x in xs
    requires forall i, j :: 0 <= i < j < |xs| ==> xs[i] != xs[j]
    ensures Occurrences(xs, x) == 1
  {
    var init := xs[..|xs| - 1];
    if xs[|xs| - 1] == x {
      OccurrencesAbsent(init, x);
    } else {
      assert x in init;
      OccurrencesOnce(init, x);
    }
  }

  /** The counts in `xs` of the names `names`, added up. */
  function SumOccurrences(names: seq<string>, xs: seq<string>): nat {
    if |names| == 0 then 0 else Occurrences(xs, names[0]) + SumOccurrences(names[1..], xs)
  }

  lemma {:induction false} SumOccurrencesNone(names: seq<string>)
    ensures SumOccurrences(names, []) == 0
  {
    if |names| > 0 {
      SumOccurrencesNone(names[1..]);
    }
  }

  lemma {:induction false} SumOccurrencesSnoc(names: seq<string>, xs: seq<string>, x: string)
    ensures SumOccurrences(names, xs + [x]) == SumOccurrences(names, xs) + Occurrences(names, x)
  {
    if |names| > 0 {
      assert (xs + [x])[..|xs|] == xs;
      SumOccurrencesSnoc(names[1..], xs, x);
      assert names == [names[0]] + names[1..];
      OccurrencesCons(names[0], names[1..], x);
    }
  }

  /** Counting every element of `xs` under the distinct names covering it counts each element once. */
  lemma {:induction false} SumOccurrencesLength(names: seq<string>, xs: seq<string>)
    requires forall i, j :: 0 <= i < j < |names| ==> names[i] != names[j]
    requires forall x :: x in xs ==> x in names
    ensures SumOccurrences(names, xs) == |xs|
  {
    if |xs| == 0 {
      SumOccurrencesNone(names);
    } else {
      var init := xs[..|xs| - 1];
      var x := xs[|xs| - 1];
      assert xs == init + [x];
      SumOccurrencesLength(names, init);
      SumOccurrencesSnoc(names, init, x);
      OccurrencesOnce(names, x);
    }
  }

  // ---------------------------------------------------------------------------
  // Progressions
  // ---------------------------------------------------------------------------

  datatype Progression = Progression(chord: string, nashville: string, count: nat)

  /** One progression per name, in the order of `names`. */
  function Listing(names: seq<string>, xs: seq<string>, key: string): (r: seq<Progression>)
    ensures |r| == |names|
    ensures forall k :: 0 <= k < |r| ==> r[k].chord == names[k]
  {
    if |names| == 0 then []
    else
      [Progression(names[0], NashvilleNumber(ParseChord(names[0]), key), Occurrences(xs, names[0]))]
        + Listing(names[1..], xs, key)
  }

  lemma {:induction false} ListingEntry(names: seq<string>, xs: seq<string>, key: string, k: nat)
    requires k < |names|
    ensures Listing(names, xs, key)[k]
      == Progression(names[k], NashvilleNumber(ParseChord(names[k]), key), Occurrences(xs, names[k]))
  {
    var rest := Listing(names[1..], xs, key);
    assert Listing(names, xs, key)[1..] == rest;
    if k > 0 {
      ListingEntry(names[1..], xs, key, k - 1);
      assert names[1..][k - 1] == names[k];
    }
  }

  function SumCounts(ps: seq<Progression>): nat {
    if |ps| == 0 then 0 else ps[0].count + SumCounts(ps[1..])
  }

  lemma {:induction false} ListingSum(names: seq<string>, xs: seq<string>, key: string)
    ensures SumCounts(Listing(names, xs, key)) == SumOccurrences(names, xs)
  {
    if |names| > 0 {
      ListingSum(names[1..], xs, key);
    }
  }

  predicate NonIncreasing(ps: seq<Progression>) {
    forall i, j :: 0 <= i < j < |ps| ==> ps[i].count >= ps[j].count
  }

  /** Put `p` before the first entry whose count is not larger. */
  function InsertByCount(p: Progression, ps: seq<Progression>): (r: seq<Progression>)
    ensures multiset(r) == multiset(ps) + multiset{p}
    ensures SumCounts(r) == SumCounts(ps) + p.count
  {
    if |ps| == 0 || ps[0].count <= p.count then
      assert ([p] + ps)[1..] == ps;
      [p] + ps
    else
      var r := [ps[0]] + InsertByCount(p, ps[1..]);
      assert ps == [ps[0]] + ps[1..];
      assert r[1..] == InsertByCount(p, ps[1..]);
      r
  }

  lemma {:induction false} InsertByCountOrdered(p: Progression, ps: seq<Progression>)
    requires NonIncreasing(ps)
    ensures NonIncreasing(InsertByCount(p, ps))
  {
    if |ps| == 0 || ps[0].count <= p.count {
      ConsOrdered(p, ps);
    } else {
      var rest := ps[1..];
      TailNonIncreasing(ps);
      InsertByCountOrdered(p, rest);
      HeadDominates(p, ps);
      var big := InsertByCount(p, rest);
      assert big[0] in big;
      ConsOrdered(ps[0], big);
    }
  }

  /** An entry at least as large as the head of an ordered list keeps it ordered. */
  lemma ConsOrdered(x: Progression, ps: seq<Progression>)
    requires NonIncreasing(ps) && (|ps| == 0 || x.count >= ps[0].count)
    ensures NonIncreasing([x] + ps)
  {
    var r := [x] + ps;
    forall i, j | 0 <= i < j < |r| ensures r[i].count >= r[j].count {
      assert r[j] == ps[j - 1];
      if i > 0 {
        assert r[i] == ps[i - 1];
      }
    }
  }

  lemma TailNonIncreasing(ps: seq<Progression>)
    requires |ps| > 0 && NonIncreasing(ps)
    ensures NonIncreasing(ps[1..])
  {
    forall i, j | 0 <= i < j < |ps| - 1 ensures ps[1..][i].count >= ps[1..][j].count {
      assert ps[1..][i] == ps[i + 1] && ps[1..][j] == ps[j + 1];
    }
  }

  lemma HeadDominates(p: Progression, ps: seq<Progression>)
    requires |ps| > 0 && NonIncreasing(ps) && ps[0].count > p.count
    ensures forall q :: q in InsertByCount(p, ps[1..]) ==> ps[0].count >= q.count
  {
    var rest := ps[1..];
    var big := InsertByCount(p, rest);
    forall q | q in big ensures ps[0].count >= q.count {
      assert q in multiset(big);
      if q != p {
        assert q in multiset(rest);
        var k :| 0 <= k < |rest| && rest[k] == q;
        assert ps[k + 1] == q;
      }
    }
  }

  /**
   * Most frequent first. Go's sort.Slice is not stable, so the order of equal
   * counts is unspecified there; the model inserts stably, and the lemmas about
   * it state only what every order satisfying the comparison shares.
   */
  function SortByCount(ps: seq<Progression>): (r: seq<Progression>)
    ensures multiset(r) == multiset(ps)
    ensures SumCounts(r) == SumCounts(ps)
    ensures |r| == |ps|
  {
    if |ps| == 0 then []
    else
      assert ps == [ps[0]] + ps[1..];
      var r := InsertByCount(ps[0], SortByCount(ps[1..]));
      assert |r| == |multiset(r)|;
      r
  }

  lemma {:induction false} SortByCountOrdered(ps: seq<Progression>)
    ensures NonIncreasing(SortByCount(ps))
  {
    if |ps| > 0 {
      SortByCountOrdered(ps[1..]);
      InsertByCountOrdered(ps[0], SortByCount(ps[1..]));
    }
  }

  // ---------------------------------------------------------------------------
  // Full analysis
  // ---------------------------------------------------------------------------

  datatype Analysis = Analysis(
    key: string,
    confidence: real,
    allChords: seq<Chord>,
    uniqueChords: seq<string>,
    progressions: seq<Progression>)

  /** Go AnalyzeChords, with the key table's iteration order as `order`. */
  function AnalyzeChords(content: string, order: seq<string>): (a: Analysis)
    requires KeyOrder(order)
    ensures forall y :: y in a.uniqueChords <==> y in Originals(a.allChords)
    ensures |a.progressions| == |a.uniqueChords|
    ensures SumCounts(a.progressions) == SumOccurrences(a.uniqueChords, Originals(a.allChords))
    ensures 0.0 <= a.confidence <= 100.0
  {
    var chords := ExtractChords(content);
    var names := Originals(chords);
    var unique := SortDistinct(names);
    var g := DetectKey(chords, order);
    ListingSum(unique, names, g.key);
    Analysis(g.key, g.confidence, chords, unique, SortByCount(Listing(unique, names, g.key)))
  }

  /**
   * The unique chords are the distinct chord texts in ascending order, the
   * progressions run from most to least frequent, and their counts add up to
   * the number of extracted chords.
   */
  lemma AnalysisShape(content: string, order: seq<string>)
    requires KeyOrder(order)
    ensures var a := AnalyzeChords(content, order);
      && StrictlySorted(a.uniqueChords)
      && NonIncreasing(a.progressions)
      && SumCounts(a.progressions) == |a.allChords|
  {
    var names := Originals(ExtractChords(content));
    var unique := SortDistinct(names);
    SortDistinctSorted(names);
    SortedNoRepeats(unique);
    SumOccurrencesLength(unique, names);
    SortByCountOrdered(Listing(unique, names, DetectKey(ExtractChords(content), order).key));
  }

  /** Each unique chord has one progression entry carrying its count and its numeral in the detected key. */
  lemma AnalysisEntries(content: string, order: seq<string>, k: nat)
    requires KeyOrder(order)
    requires k < |AnalyzeChords(content, order).uniqueChords|
    ensures var a := AnalyzeChords(content, order);
      var u := a.uniqueChords[k];
      Progression(u, NashvilleNumber(ParseChord(u), a.key), Occurrences(Originals(a.allChords), u)) in a.progressions
  {
    var a := AnalyzeChords(content, order);
    var names := Originals(a.allChords);
    var l := Listing(a.uniqueChords, names, a.key);
    ListingEntry(a.uniqueChords, names, a.key, k);
    assert l[k] in multiset(l);
  }

  /** The list of unique chords does not depend on how the count map is iterated. */
  lemma UniqueCanonical(content: string, order: seq<string>, listed: seq<string>)
    requires KeyOrder(order)
    requires StrictlySorted(listed)
    requires forall y :: y in listed <==> y in Originals(ExtractChords(content))
    ensures AnalyzeChords(content, order).uniqueChords == listed
  {
    SortDistinctSorted(Originals(ExtractChords(content)));
    SortedUnique(AnalyzeChords(content, order).uniqueChords, listed);
  }

  // ---------------------------------------------------------------------------
  // Header
  // ---------------------------------------------------------------------------

  /** `%.0f`: the nearest integer, ties to even. */
  function RoundHalfEven(x: real): (n: int)
    ensures -0.5 <= n as real - x <= 0.5
    ensures n as real - x == 0.5 || n as real - x == -0.5 ==> n % 2 == 0
  {
    var f := x.Floor;
    var frac := x - f as real;
    if frac > 0.5 then f + 1
    else if frac < 0.5 then f
    else if f % 2 == 0 then f
    else f + 1
  }

  function KeyLine(key: string, confidence: real): string {
    "Detected Key: " + key + " (" + IntToString(RoundHalfEven(confidence)) + "% confidence)"
  }

  function ProgressionLine(p: Progression): string {
    "  [" + p.chord + "] = " + p.nashville + " (used " + IntToString(p.count) + "x)"
  }

  function ProgressionLines(ps: seq<Progression>): (r: seq<string>)
    ensures |r| == |ps| && forall k :: 0 <= k < |ps| ==> r[k] == ProgressionLine(ps[k])
  {
    seq(|ps|, k requires 0 <= k < |ps| => ProgressionLine(ps[k]))
  }

  function HeaderLines(a: Analysis): seq<string> {
    [KeyLine(a.key, a.confidence), "", "Chord Progressions:"] + ProgressionLines(a.progressions) + [""]
  }

  /** Go FormatChordProgressionHeader: empty without progressions, else the header lines joined by newlines. */
  function FormatHeader(a: Analysis): (r: string)
    ensures r == "" <==> |a.progressions| == 0
  {
    if |a.progressions| == 0 then ""
    else
      var lines := HeaderLines(a);
      JoinCons(lines[0], lines[1..], "\n");
      assert lines == [lines[0]] + lines[1..];
      Join(lines, "\n")
  }

  lemma DigitsNoNewline(n: int)
    ensures '\n' !in IntToString(n)
  {
    var r := IntToString(n);
    if n < 0 {
      assert AllDigits(r[1..]);
      assert r == [r[0]] + r[1..];
    }
  }

  /** No header line contains a newline when the key and the progressions do not. */
  lemma HeaderLinesFree(a: Analysis)
    requires '\n' !in a.key
    requires forall k :: 0 <= k < |a.progressions| ==>
      '\n' !in a.progressions[k].chord && '\n' !in a.progressions[k].nashville
    ensures forall k :: 0 <= k < |HeaderLines(a)| ==> '\n' !in HeaderLines(a)[k]
  {
    var lines := HeaderLines(a);
    var mid := ProgressionLines(a.progressions);
    KeyLineFree(a.key, a.confidence);
    assert '\n' !in "Chord Progressions:";
    forall k | 0 <= k < |lines| ensures '\n' !in lines[k] {
      if k < 3 {
        assert lines[k] == [KeyLine(a.key, a.confidence), "", "Chord Progressions:"][k];
      } else if k < |lines| - 1 {
        assert lines[k] == mid[k - 3];
        ProgressionLineFree(a.progressions[k - 3]);
      } else {
        assert lines[k] == "";
      }
    }
  }

  lemma KeyLineFree(key: string, confidence: real)
    requires '\n' !in key
    ensures '\n' !in KeyLine(key, confidence)
  {
    DigitsNoNewline(RoundHalfEven(confidence));
  }

  lemma ProgressionLineFree(p: Progression)
    requires '\n' !in p.chord && '\n' !in p.nashville
    ensures '\n' !in ProgressionLine(p)
  {
    DigitsNoNewline(p.count);
  }

  /** Reading the header back line by line gives the key line, a blank, the title and one line per progression. */
  lemma HeaderLinesBack(a: Analysis)
    requires |a.progressions| > 0
    requires '\n' !in a.key
    requires forall k :: 0 <= k < |a.progressions| ==>
      '\n' !in a.progressions[k].chord && '\n' !in a.progressions[k].nashville
    ensures Split(FormatHeader(a), "\n") == HeaderLines(a)
  {
    HeaderLinesFree(a);
    SplitJoin(HeaderLines(a), '\n');
  }
}
