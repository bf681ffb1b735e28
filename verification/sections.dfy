/**
 * Section names ("Intro", "Verse 2", "Pre-Chorus", ...) as the scraper
 * recognises them: plain section lines in a worshipchords sheet, and
 * bracketed header lines `[Chorus]` that the OnSong converters rewrite to
 * `Chorus:`. Both use the same list of names; `Verse` and `Chorus` may carry
 * whitespace and a number.
 */
module Sections {
  import opened Wrappers
  import opened Text
  import opened Numbers

  /** The alternatives without a number, in the order the pattern lists them. */
  const FixedNames: seq<string> := [
    "Intro", "Pre-Chorus", "Bridge", "Instrumental", "Interlude", "Turnaround", "Outro",
    "Tag", "Ending", "Solo", "Break", "Refrain", "Coda", "Hook", "Vamp", "Outro Chorus"
  ]

  /** Text character `c` matches pattern character `x`, case-insensitively when `fold` is set. */
  predicate CharMatches(c: char, x: char, fold: bool) {
    if fold then GoFold(c, x) else c == x
  }

  /** `t` is the literal `w`, up to case when `fold` is set. */
  predicate Spelled(t: string, w: string, fold: bool) {
    |t| == |w| && forall k :: 0 <= k < |w| ==> CharMatches(t[k], w[k], fold)
  }

  /** `t` matches `w\s*\d*`: the word, a run of whitespace, then digits only. */
  predicate Numbered(t: string, w: string, fold: bool) {
    && |w| <= |t|
    && Spelled(t[..|w|], w, fold)
    && var r := t[|w|..];
       AllDigits(r[SpanWhile(r, IsReSpace)..])
  }

  /** `t` is one of the alternatives of the section pattern. */
  predicate SectionName(t: string, fold: bool) {
    || (exists k :: 0 <= k < |FixedNames| && Spelled(t, FixedNames[k], fold))
    || Numbered(t, "Verse", fold)
    || Numbered(t, "Chorus", fold)
  }

  /**
   * The worshipchords test `^(NAME)\s*$` on a right-trimmed line: case-sensitive,
   * anchored at both ends of the line.
   */
  predicate IsSectionLine(t: string) {
    SectionName(TrimRightWhile(t, IsReSpace), false)
  }

  lemma {:induction false} SpanWhileBackAtLeast(s: string, f: char -> bool, n: nat)
    requires n <= |s|
    requires forall j :: |s| - n <= j < |s| ==> f(s[j])
    decreases n
    ensures SpanWhileBack(s, f) >= n
  {
    if n > 0 {
      var init := s[..|s| - 1];
      forall j | |init| - (n - 1) <= j < |init| ensures f(init[j]) {
        assert init[j] == s[j];
      }
      SpanWhileBackAtLeast(init, f, n - 1);
    }
  }

  /** Dropping trailing whitespace from a `Verse`/`Chorus` name with no number keeps it a name. */
  lemma NumberedTrim(t: string, w: string, k: nat, m: nat)
    requires |w| > 0 && !IsReSpace(w[|w| - 1])
    requires m < k <= |t|
    requires Numbered(t[..k], w, false)
    requires forall j :: m <= j < |t| ==> IsReSpace(t[j])
    ensures Numbered(t[..m], w, false)
  {
    var n := t[..k];
    var r := n[|w|..];
    var p := SpanWhile(r, IsReSpace);
    assert n[..|w|] == w;
    assert t[|w| - 1] == w[|w| - 1];
    assert |w| <= m;
    assert IsReSpace(r[|r| - 1]) by { assert r[|r| - 1] == t[k - 1]; }
    assert AllDigits(r[p..]);
    assert p == |r|;
    var n2 := t[..m];
    var r2 := n2[|w|..];
    assert n2[..|w|] == w;
    forall j | 0 <= j < |r2| ensures IsReSpace(r2[j]) {
      assert r2[j] == r[j];
    }
    assert SpanWhile(r2, IsReSpace) == |r2|;
  }

  /** No fixed name ends in whitespace. */
  lemma FixedNamesEnd()
    ensures forall k :: 0 <= k < |FixedNames| ==> |FixedNames[k]| > 0 && !IsReSpace(FixedNames[k][|FixedNames[k]| - 1])
  {
  }

  /**
   * The line test agrees with the pattern `^(NAME)\s*$`: the line is a
   * section name followed by nothing but whitespace.
   */
  lemma SectionLineIff(t: string)
    ensures IsSectionLine(t) <==>
      exists k :: 0 <= k <= |t| && SectionName(t[..k], false) && forall j :: k <= j < |t| ==> IsReSpace(t[j])
  {
    var m := |t| - SpanWhileBack(t, IsReSpace);
    assert t[..m] == TrimRightWhile(t, IsReSpace);
    if IsSectionLine(t) {
      assert SectionName(t[..m], false) && forall j :: m <= j < |t| ==> IsReSpace(t[j]);
    }
    forall k | 0 <= k <= |t| && SectionName(t[..k], false) && (forall j :: k <= j < |t| ==> IsReSpace(t[j]))
      ensures IsSectionLine(t)
    {
      SpanWhileBackAtLeast(t, IsReSpace, |t| - k);
      NameTrim(t, k, m);
    }
  }

  /** A section name followed by whitespace stays a section name once that whitespace is cut. */
  lemma NameTrim(t: string, k: nat, m: nat)
    requires m <= k <= |t| && SectionName(t[..k], false)
    requires forall j :: m <= j < |t| ==> IsReSpace(t[j])
    ensures SectionName(t[..m], false)
  {
    if m < k {
      FixedNamesEnd();
      forall idx | 0 <= idx < |FixedNames| ensures !Spelled(t[..k], FixedNames[idx], false) {
        assert t[..k][k - 1] == t[k - 1];
      }
      if Numbered(t[..k], "Verse", false) {
        NumberedTrim(t, "Verse", k, m);
      } else {
        NumberedTrim(t, "Chorus", k, m);
      }
    }
  }

  lemma SpelledNoClose(t: string, w: string, fold: bool)
    requires Spelled(t, w, fold) && ']' !in w
    ensures ']' !in t
  {
    forall j | 0 <= j < |t| ensures t[j] != ']' {
      assert w[j] != ']';
    }
  }

  lemma NumberedNoClose(t: string, w: string, fold: bool)
    requires Numbered(t, w, fold) && ']' !in w
    ensures ']' !in t
  {
    SpelledNoClose(t[..|w|], w, fold);
    var r := t[|w|..];
    var p := SpanWhile(r, IsReSpace);
    assert ']' !in r[p..];
    assert r == r[..p] + r[p..];
    assert t == t[..|w|] + r;
  }

  lemma FixedNamesNoClose()
    ensures forall k :: 0 <= k < |FixedNames| ==> ']' !in FixedNames[k]
  {
  }

  /** Under the pattern's alphabet a section name never contains a closing bracket. */
  lemma NameHasNoClose(t: string, fold: bool)
    requires SectionName(t, fold)
    ensures ']' !in t
  {
    if exists k :: 0 <= k < |FixedNames| && Spelled(t, FixedNames[k], fold) {
      var k :| 0 <= k < |FixedNames| && Spelled(t, FixedNames[k], fold);
      FixedNamesNoClose();
      SpelledNoClose(t, FixedNames[k], fold);
    } else if Numbered(t, "Verse", fold) {
      NumberedNoClose(t, "Verse", fold);
    } else {
      NumberedNoClose(t, "Chorus", fold);
    }
  }

  /** `i` is the start of a line: the beginning of the text or just after a newline (`(?m)^`). */
  predicate LineStart(s: string, i: nat)
    requires i <= |s|
  {
    i == 0 || s[i - 1] == '\n'
  }

  /** `(?m)$`: the end of the text or just before a newline. */
  predicate LineEnd(s: string, e: nat)
    requires e <= |s|
  {
    e == |s| || s[e] == '\n'
  }

  /**
   * `(?mi)^\[(NAME)\]\s*$` can match `s[i..end]` with the closing bracket at
   * `close`: the name between the brackets, then only whitespace up to a line end.
   */
  predicate HeaderMatches(s: string, i: nat, close: nat, end: nat) {
    && i < close < end <= |s|
    && LineStart(s, i) && s[i] == '[' && s[close] == ']'
    && SectionName(s[i + 1..close], true)
    && (forall j :: close < j < end ==> IsReSpace(s[j]))
    && LineEnd(s, end)
  }

  datatype HeaderMatch = HeaderMatch(close: nat, end: nat)

  /** The end of the maximal whitespace run starting at `q`. */
  function SpaceRun(s: string, q: nat): (e: nat)
    requires q <= |s|
    ensures q <= e <= |s|
    ensures forall j :: q <= j < e ==> IsReSpace(s[j])
    ensures e < |s| ==> !IsReSpace(s[e])
  {
    var t := s[q..];
    var k := SpanWhile(t, IsReSpace);
    assert forall j :: q <= j < q + k ==> s[j] == t[j - q];
    assert q + k < |s| ==> s[q + k] == t[k];
    q + k
  }

  /** The last newline in `s[q..e]`, as a position of `s`. */
  function LastNewline(s: string, q: nat, e: nat): (r: Option<nat>)
    requires q <= e <= |s|
    decreases e - q
    ensures r.Some? ==> q <= r.value < e && s[r.value] == '\n'
    ensures r.Some? ==> forall j :: r.value < j < e ==> s[j] != '\n'
    ensures r.None? ==> forall j :: q <= j < e ==> s[j] != '\n'
  {
    if e == q then None
    else if s[e - 1] == '\n' then Some(e - 1)
    else LastNewline(s, q, e - 1)
  }

  /**
   * The match the regexp engine takes at `i`: the name runs to the first `]`,
   * and the greedy `\s*` backs off only as far as the last line end it covered.
   */
  function HeaderAt(s: string, i: nat): (r: Option<HeaderMatch>)
    requires i < |s|
    ensures r.Some? ==> i < r.value.close < r.value.end <= |s|
  {
    if !(LineStart(s, i) && s[i] == '[') then None
    else
      match IndexFrom(s, "]", i + 1)
      case None => None
      case Some(close) =>
        if !SectionName(s[i + 1..close], true) then None
        else
          var e := SpaceRun(s, close + 1);
          if e == |s| then Some(HeaderMatch(close, |s|))
          else
            match LastNewline(s, close + 1, e)
            case None => None
            case Some(k) => Some(HeaderMatch(close, k))
  }

  /** What the engine finds at `i` is a match, and no longer one ends at the same bracket. */
  lemma HeaderAtSound(s: string, i: nat)
    requires i < |s|
    ensures HeaderAt(s, i).Some? ==> HeaderMatches(s, i, HeaderAt(s, i).value.close, HeaderAt(s, i).value.end)
    ensures HeaderAt(s, i).Some? ==>
      forall e: nat :: HeaderMatches(s, i, HeaderAt(s, i).value.close, e) ==> e <= HeaderAt(s, i).value.end
  {
    HeaderAtIsMatch(s, i);
    if HeaderAt(s, i).Some? {
      var h := HeaderAt(s, i).value;
      var e := SpaceRun(s, h.close + 1);
      forall e2: nat | HeaderMatches(s, i, h.close, e2) ensures e2 <= h.end {
        if e < |s| {
          assert e2 <= e;
          assert e2 != e;
          LastNewlineMax(s, h.close + 1, e, e2);
        }
      }
    }
  }

  /** What the engine finds at `i` is a match of the pattern. */
  lemma HeaderAtIsMatch(s: string, i: nat)
    requires i < |s|
    ensures HeaderAt(s, i).Some? ==> HeaderMatches(s, i, HeaderAt(s, i).value.close, HeaderAt(s, i).value.end)
  {
    if HeaderAt(s, i).Some? {
      StartsAtChar(s, HeaderAt(s, i).value.close, ']');
    }
  }

  /** A newline inside `s[q..e]` is at or before the last one. */
  lemma LastNewlineMax(s: string, q: nat, e: nat, x: nat)
    requires q <= x < e <= |s| && s[x] == '\n'
    ensures LastNewline(s, q, e).Some? && x <= LastNewline(s, q, e).value
  {
  }

  /** Wherever the pattern can match at `i`, the engine finds a match there. */
  lemma HeaderAtComplete(s: string, i: nat, close: nat, end: nat)
    requires HeaderMatches(s, i, close, end)
    ensures HeaderAt(s, i).Some? && HeaderAt(s, i).value.close == close
  {
    FirstClose(s, i, close);
    HeaderAtClose(s, i, close, end);
  }

  /** The name holds no closing bracket, so the first one after `[` is the header's. */
  lemma FirstClose(s: string, i: nat, close: nat)
    requires i < close < |s| && s[close] == ']' && SectionName(s[i + 1..close], true)
    ensures IndexFrom(s, "]", i + 1) == Some(close)
  {
    var name := s[i + 1..close];
    NameHasNoClose(name, true);
    StartsAtChar(s, close, ']');
    forall j | i + 1 <= j < close ensures !StartsAt(s, j, "]") {
      StartsAtChar(s, j, ']');
      assert name[j - i - 1] == s[j];
    }
    IndexFromFirst(s, "]", i + 1, close);
  }

  /** With the bracket found, the whitespace up to the line end `end` lets the engine's match succeed. */
  lemma HeaderAtClose(s: string, i: nat, close: nat, end: nat)
    requires HeaderMatches(s, i, close, end)
    requires IndexFrom(s, "]", i + 1) == Some(close)
    ensures HeaderAt(s, i).Some? && HeaderAt(s, i).value.close == close
  {
    var e := SpaceRun(s, close + 1);
    assert end <= e;
    if e < |s| {
      assert end < |s| && s[end] == '\n';
      assert LastNewline(s, close + 1, e).Some?;
    }
  }

  /**
   * ReplaceAllString with `$1:` from position `i`: at every line start where
   * the header pattern matches, the bracketed name becomes `name:` and the
   * matched trailing whitespace is dropped; everything else is copied.
   */
  function ConvertFrom(s: string, i: nat): (r: string)
    requires i <= |s|
    decreases |s| - i
  {
    if i == |s| then []
    else
      match HeaderAt(s, i)
      case Some(h) => s[i + 1..h.close] + ":" + ConvertFrom(s, h.end)
      case None => [s[i]] + ConvertFrom(s, i + 1)
  }

  /** A header found at `i` is rewritten as its name and a colon, and the conversion resumes after the match. */
  lemma ConvertHeaderStep(s: string, i: nat, h: HeaderMatch)
    requires i < |s| && HeaderAt(s, i) == Some(h)
    ensures h.close < h.end <= |s|
    ensures ConvertFrom(s, i) == s[i + 1..h.close] + ":" + ConvertFrom(s, h.end)
  {
  }

  /** Section-header conversion of a whole sheet. */
  function ConvertHeaders(s: string): string { ConvertFrom(s, 0) }

  /** A sheet without any bracketed header line comes back unchanged. */
  lemma {:induction false} ConvertNoHeader(s: string, i: nat)
    requires i <= |s|
    requires forall a, c, e :: i <= a ==> !HeaderMatches(s, a, c, e)
    decreases |s| - i
    ensures ConvertFrom(s, i) == s[i..]
  {
    if i < |s| {
      HeaderAtIsMatch(s, i);
      assert HeaderAt(s, i).None?;
      ConvertCopyStep(s, i);
      ConvertNoHeader(s, i + 1);
      SuffixSplit(s, i, i + 1);
      assert s[i..i + 1] == [s[i]];
    }
  }

  /** Where no header is found, the character is copied and the conversion moves on by one. */
  lemma ConvertCopyStep(s: string, i: nat)
    requires i < |s| && HeaderAt(s, i).None?
    ensures ConvertFrom(s, i) == [s[i]] + ConvertFrom(s, i + 1)
  {
  }

  /** Matching ignores case and the name keeps the spelling of the sheet. */
  lemma LowerCaseHeader()
    ensures ConvertHeaders("[chorus]") == "chorus:"
  {
    var s := "[chorus]";
    var name := s[1..7];
    assert name == "chorus";
    assert Spelled(name[..6], "Chorus", true);
    assert name[6..][0..] == "";
    assert Numbered(name, "Chorus", true);
    assert HeaderMatches(s, 0, 7, 8);
    HeaderAtComplete(s, 0, 7, 8);
    HeaderAtSound(s, 0);
    assert ConvertFrom(s, 8) == "";
  }

  /** After the header's match only "\nG" is left, and it holds no header. */
  lemma ChorusTail()
    ensures ConvertFrom("[Chorus]\n\nG", 9) == "\nG"
  {
    var s := "[Chorus]\n\nG";
    assert HeaderAt(s, 9).None?;
    assert HeaderAt(s, 10).None?;
    assert ConvertFrom(s, 11) == "";
    assert ConvertFrom(s, 10) == "G";
  }

  /**
   * `\s*` crosses line ends: in "[Chorus]\n\nG" the header's match runs up to
   * the second line end, so the blank line after the header is swallowed with
   * it and the conversion goes on with "\nG" (`ConvertHeaderStep`).
   */
  lemma HeaderSwallowsBlankLine()
    ensures HeaderAt("[Chorus]\n\nG", 0) == Some(HeaderMatch(7, 9))
  {
    var s := "[Chorus]\n\nG";
    ChorusHeaderMatches(s);
    HeaderAtComplete(s, 0, 7, 9);
    HeaderAtSound(s, 0);
    var h := HeaderAt(s, 0).value;
    assert h.close == 7;
    assert HeaderMatches(s, 0, h.close, 9);
    assert h.end <= 10 by {
      assert !IsReSpace(s[10]);
    }
    assert h.end != 10 by {
      assert !LineEnd(s, 10);
    }
  }

  /** The header line of that sheet, with the blank line after it, is a match. */
  lemma ChorusHeaderMatches(s: string)
    requires s == "[Chorus]\n\nG"
    ensures HeaderMatches(s, 0, 7, 9)
  {
    var name := s[1..7];
    assert name == "Chorus";
    assert Spelled(name[..6], "Chorus", true);
    assert name[6..][0..] == "";
    assert Numbered(name, "Chorus", true);
  }
}
