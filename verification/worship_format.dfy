/**
 * How the worshipchords client lays out the text of a song's `<pre>` block:
 * it tells chord rows from lyrics, appends `:` to section lines, brackets
 * the chords of chord rows, and keeps at most one blank line, never right
 * after a section line or a chord row.
 */
module WorshipFormat {
  import opened Wrappers
  import opened Text
  import opened ChordGrammar
  import opened Sections

  // ---------------------------------------------------------------------------
  // Chord rows versus lyrics
  // ---------------------------------------------------------------------------

  /** Words that mark a line as lyrics, in the six rows the source lists them. */
  const CommonWords: set<string> := CommonRow1 + CommonRow2 + CommonRow3 + CommonRow4 + CommonRow5 + CommonRow6
  const CommonRow1: set<string> := {"the", "and", "you", "your", "my", "me", "i", "a", "to", "in", "of", "is", "it"}
  const CommonRow2: set<string> := {"for", "on", "with", "that", "this", "from", "all", "will", "can", "when", "where"}
  const CommonRow3: set<string> := {"who", "what", "have", "has", "had", "been", "was", "were", "are", "be", "he", "she"}
  const CommonRow4: set<string> := {"we", "they", "them", "their", "his", "her", "our", "us", "him", "there", "then"}
  const CommonRow5: set<string> := {"but", "as", "at", "by", "an", "if", "or", "so", "up", "out", "do", "not", "like"}
  const CommonRow6: set<string> := {"just", "now", "know", "get", "got", "make", "see", "go", "come", "take", "give"}

  /** The punctuation stripped from both ends of a word before the comparison. */
  const Punctuation: string := ",.!?;:'\""

  /** Some whitespace-separated word of the lower-cased line, stripped of punctuation, is a common word. */
  predicate ContainsCommonWords(line: string) {
    HasCommonWord(Fields(GoLower(line)))
  }

  predicate HasCommonWord(tokens: seq<string>) {
    exists k :: 0 <= k < |tokens| && TrimChars(tokens[k], Punctuation) in CommonWords
  }

  /** How many of the tokens match `^CHORD$`. */
  function ChordCount(tokens: seq<string>): (n: nat)
    ensures n <= |tokens|
    ensures n == |tokens| <==> forall k :: 0 <= k < |tokens| ==> IsChordToken(tokens[k])
    ensures n == 0 <==> forall k :: 0 <= k < |tokens| ==> !IsChordToken(tokens[k])
  {
    if |tokens| == 0 then 0
    else
      var rest := ChordCount(tokens[1..]);
      assert forall k :: 1 <= k < |tokens| ==> tokens[k] == tokens[1..][k - 1];
      (if IsChordToken(tokens[0]) then 1 else 0) + rest
  }

  /**
   * A line is a chord row when every word is a chord, or, failing that, when
   * it has no common word and at least half of its words are chords. The
   * source's two further all-chords tests (indented lines, widely spaced
   * lines) repeat the first test's condition and cannot change the answer.
   */
  predicate IsChordLine(line: string): (b: bool)
    ensures b ==> 0 < ChordCount(Fields(TrimSpace(line)))
    ensures b ==> |Fields(TrimSpace(line))| <= 2 * ChordCount(Fields(TrimSpace(line)))
  {
    var trimmed := TrimSpace(line);
    var tokens := Fields(trimmed);
    var n := ChordCount(tokens);
    if trimmed == [] || |tokens| == 0 then false
    else if n == |tokens| && n > 0 then true
    else if ContainsCommonWords(trimmed) then false
    else n > 0 && 2 * n >= |tokens|
  }

  /** A line whose every word is a chord is a chord row. */
  lemma AllChordsIsChordLine(line: string)
    requires |Fields(TrimSpace(line))| > 0
    requires forall k :: 0 <= k < |Fields(TrimSpace(line))| ==> IsChordToken(Fields(TrimSpace(line))[k])
    ensures IsChordLine(line)
  {
  }

  /** A line without any chord word is never a chord row. */
  lemma NoChordNotChordLine(line: string)
    requires forall k :: 0 <= k < |Fields(TrimSpace(line))| ==> !IsChordToken(Fields(TrimSpace(line))[k])
    ensures !IsChordLine(line)
  {
  }

  /** A common word vetoes a line that is not all chords, however many chords it has. */
  lemma CommonWordVeto(line: string, k: nat)
    requires k < |Fields(TrimSpace(line))| && !IsChordToken(Fields(TrimSpace(line))[k])
    requires ContainsCommonWords(TrimSpace(line))
    ensures !IsChordLine(line)
  {
  }

  /** Without a common word, chords in at least half of the words make a chord row. */
  lemma HalfChordsIsChordLine(line: string)
    requires !ContainsCommonWords(TrimSpace(line))
    requires ChordCount(Fields(TrimSpace(line))) > 0
    requires 2 * ChordCount(Fields(TrimSpace(line))) >= |Fields(TrimSpace(line))|
    ensures IsChordLine(line)
  {
    assert TrimSpace(line) != [];
  }

  lemma SingleLetterChord(c: char)
    requires IsRootLetter(c)
    ensures IsChordToken([c])
  {
    var ch := ChordSymbol(c, None, "", "", NoBass);
    assert Spell(ch) == [c];
    ChordTokenIff([c]);
  }

  lemma XNotChord()
    ensures !IsChordToken("x")
  {
  }

  lemma FieldsOfPair(c: char)
    requires !IsSpace(c)
    ensures Fields([c, ' ', 'x']) == [[c], "x"]
  {
    var s := [c, ' ', 'x'];
    assert SpanWhile(s, IsSpace) == 0;
    assert s[0..] == s;
    assert SpanWhile(s, NotSpace) == 1 by {
      assert SpanWhile(s[1..], NotSpace) == 0;
    }
    assert s[..1] == [c];
    var t := s[1..];
    assert t == [' ', 'x'];
    assert SpanWhile(t, IsSpace) == 1 by {
      assert SpanWhile(t[1..], IsSpace) == 0;
    }
    var u := t[1..];
    assert u == "x";
    assert SpanWhile(u, NotSpace) == 1;
    assert u[..1] == "x" && u[1..] == [];
    assert Fields(u) == ["x"];
    assert Fields(t) == Fields(u);
  }

  lemma TrimPair(c: char)
    requires !IsSpace(c)
    ensures TrimSpace([c, ' ', 'x']) == [c, ' ', 'x']
  {
    var s := [c, ' ', 'x'];
    assert SpanWhile(s, IsSpace) == 0;
    assert s[0..] == s;
    assert SpanWhileBack(s, IsSpace) == 0;
  }

  /** A one-letter word without punctuation is compared as it is. */
  lemma TrimLetter(c: char)
    requires IsLower(c)
    ensures TrimChars([c], Punctuation) == [c]
  {
    assert c !in Punctuation;
    assert SpanWhile([c], x => x in Punctuation) == 0;
    assert [c][0..] == [c];
    assert SpanWhileBack([c], x => x in Punctuation) == 0;
  }

  /**
   * The chord A is read as the article "a": the line "A x", one chord in two
   * words, is taken for lyrics, where any other chord letter would have made
   * it a chord row.
   */
  lemma ChordAReadAsArticle()
    ensures !IsChordLine("A x")
  {
    LetterLineWords('A');
    assert "A x" == ['A', ' ', 'x'];
    ALineHasArticle();
  }

  /** The line "c x" for a chord letter c: already trimmed, two words, one of them a chord. */
  lemma LetterLineWords(c: char)
    requires IsRootLetter(c)
    ensures TrimSpace([c, ' ', 'x']) == [c, ' ', 'x']
    ensures Fields([c, ' ', 'x']) == [[c], "x"]
    ensures ChordCount([[c], "x"]) == 1
  {
    TrimPair(c);
    FieldsOfPair(c);
    SingleLetterChord(c);
    XNotChord();
    assert [[c], "x"][1..] == ["x"];
  }

  lemma ALineHasArticle()
    ensures ContainsCommonWords("A x")
  {
    ALineLowerWords();
    ArticleFirst();
  }

  lemma ALineLowerWords()
    ensures Fields(GoLower("A x")) == ["a", "x"]
  {
    assert GoLower("A x") == "a x";
    FieldsOfPair('a');
  }

  lemma ArticleFirst()
    ensures HasCommonWord(["a", "x"])
  {
    TrimLetter('a');
    ArticleIsCommon();
    assert TrimChars(["a", "x"][0], Punctuation) in CommonWords;
  }

  lemma ArticleIsCommon()
    ensures "a" in CommonWords
  {
  }

  /** Neither "g" nor "x" is a common word: no row holds a one-letter word other than "i" and "a". */
  lemma UncommonLetters()
    ensures "g" !in CommonWords && "x" !in CommonWords
  {
    UncommonIn(CommonRow1);
    UncommonIn(CommonRow2);
    UncommonIn(CommonRow3);
    UncommonIn(CommonRow4);
    UncommonIn(CommonRow5);
    UncommonIn(CommonRow6);
  }

  lemma UncommonIn(row: set<string>)
    requires row in {CommonRow1, CommonRow2, CommonRow3, CommonRow4, CommonRow5, CommonRow6}
    ensures "g" !in row && "x" !in row
  {
  }

  /** Any other chord letter in the same place, as in "G x", makes the line a chord row. */
  lemma OtherLetterChordRow()
    ensures IsChordLine("G x")
  {
    LetterLineWords('G');
    assert "G x" == ['G', ' ', 'x'];
    GLineHasNoCommonWord();
  }

  lemma GLineHasNoCommonWord()
    ensures !ContainsCommonWords("G x")
  {
    GLineLowerWords();
    GXTokens();
  }

  lemma GXTokens()
    ensures !HasCommonWord(["g", "x"])
  {
    GLineLowerWords();
    UncommonLetters();
    PairUncommon("g", "x");
  }

  /** Two tokens hold no common word when neither trims to one. */
  lemma PairUncommon(a: string, b: string)
    requires TrimChars(a, Punctuation) !in CommonWords && TrimChars(b, Punctuation) !in CommonWords
    ensures !HasCommonWord([a, b])
  {
    forall k | 0 <= k < 2 ensures TrimChars([a, b][k], Punctuation) !in CommonWords {
    }
  }

  lemma GLineLowerWords()
    ensures Fields(GoLower("G x")) == ["g", "x"]
    ensures TrimChars("g", Punctuation) == "g" && TrimChars("x", Punctuation) == "x"
  {
    assert GoLower("G x") == "g x";
    FieldsOfPair('g');
    TrimLetter('g');
    TrimLetter('x');
  }

  // ---------------------------------------------------------------------------
  // The line-by-line layout
  // ---------------------------------------------------------------------------

  datatype LineKind = Blank | Header | ChordRow | Lyric

  /**
   * The formatter's state between two input lines: the lines written so far
   * with what each one is, and the three flags the loop keeps.
   */
  datatype Layout = Layout(lines: seq<string>, kinds: seq<LineKind>, lastEmpty: bool, lastHeader: bool, lastChord: bool)

  const Start: Layout := Layout([], [], false, false, false)

  /** One iteration of the loop over the input lines: it writes at most one line and never changes a written one. */
  function Place(m: Layout, line: string): (r: Layout)
    ensures |m.lines| <= |r.lines| <= |m.lines| + 1 && r.lines[..|m.lines|] == m.lines
    ensures |r.kinds| - |m.kinds| == |r.lines| - |m.lines| && r.kinds[..|m.kinds|] == m.kinds
  {
    var cleaned := TrimRightChars(line, " \t");
    if |m.lines| == 0 && cleaned == [] then m
    else if cleaned == [] then
      if m.lastHeader then m
      else if m.lastChord then m
      else if !m.lastEmpty then m.(lines := m.lines + [[]], kinds := m.kinds + [Blank], lastEmpty := true)
      else m
    else
      var m1 := m.(lastEmpty := false);
      if IsSectionLine(cleaned) then
        m1.(lines := m1.lines + [cleaned + ":"], kinds := m1.kinds + [Header], lastHeader := true, lastChord := false)
      else
        var m2 := m1.(lastHeader := false);
        if IsChordLine(cleaned) then
          m2.(lines := m2.lines + [WrapChords(cleaned)], kinds := m2.kinds + [ChordRow], lastChord := true)
        else
          m2.(lines := m2.lines + [cleaned], kinds := m2.kinds + [Lyric], lastChord := false)
  }

  /** The loop over all input lines: at most one line written per input line, the earlier ones never changed. */
  function Run(m: Layout, input: seq<string>): (r: Layout)
    decreases |input|
    ensures |m.lines| <= |r.lines| <= |m.lines| + |input| && r.lines[..|m.lines|] == m.lines
    ensures |r.kinds| - |m.kinds| == |r.lines| - |m.lines| && r.kinds[..|m.kinds|] == m.kinds
  {
    if |input| == 0 then m
    else
      var m1 := Place(m, input[0]);
      var r := Run(m1, input[1..]);
      assert r.lines[..|m.lines|] == r.lines[..|m1.lines|][..|m.lines|];
      assert r.kinds[..|m.kinds|] == r.kinds[..|m1.kinds|][..|m.kinds|];
      r
  }

  function LastKind(m: Layout): Option<LineKind> {
    if |m.kinds| == 0 then None else Some(m.kinds[|m.kinds| - 1])
  }

  /**
   * What the loop keeps true: blank lines are exactly the empty ones, never
   * first, and only right after a lyric line (so never two in a row, nor
   * after a section line or a chord row); section lines end in `:`; no line
   * holds a newline; each flag says what the last written line was.
   */
  predicate WellLaidOut(m: Layout) {
    && |m.kinds| == |m.lines|
    && (forall k :: 0 <= k < |m.lines| ==> (m.kinds[k] == Blank <==> m.lines[k] == []))
    && (forall k :: 0 <= k < |m.lines| ==> '\n' !in m.lines[k])
    && (forall k :: 0 <= k < |m.lines| && m.kinds[k] == Header ==> HasSuffix(m.lines[k], ":"))
    && (|m.kinds| > 0 ==> m.kinds[0] != Blank)
    && (forall k :: 0 < k < |m.kinds| && m.kinds[k] == Blank ==> m.kinds[k - 1] == Lyric)
    && (m.lastEmpty <==> LastKind(m) == Some(Blank))
    && (m.lastHeader <==> LastKind(m) == Some(Header))
    && (m.lastChord <==> LastKind(m) == Some(ChordRow))
  }

  lemma PrefixKeepsOut(line: string, x: nat, c: char)
    requires x <= |line| && c !in line
    ensures c !in line[..x]
  {
    assert forall j :: 0 <= j < x ==> line[..x][j] == line[j];
  }

  /** The layout after writing `text` of kind `kind`, with the flags set from that kind. */
  function Appended(m: Layout, text: string, kind: LineKind): Layout {
    Layout(m.lines + [text], m.kinds + [kind], kind == Blank, kind == Header, kind == ChordRow)
  }

  lemma AppendedKeepsLayout(m: Layout, text: string, kind: LineKind)
    requires WellLaidOut(m) && '\n' !in text
    requires kind == Blank <==> text == []
    requires kind == Header ==> HasSuffix(text, ":")
    requires kind == Blank ==> LastKind(m) == Some(Lyric)
    ensures WellLaidOut(Appended(m, text, kind))
  {
  }

  /** Writing a line keeps the layout well formed whatever the input line is. */
  lemma PlaceKeepsLayout(m: Layout, line: string)
    requires WellLaidOut(m) && '\n' !in line
    ensures WellLaidOut(Place(m, line))
  {
    var cleaned := TrimRightChars(line, " \t");
    PrefixKeepsOut(line, |cleaned|, '\n');
    if cleaned == [] {
      PlaceBlank(m, line);
    } else {
      PlaceText(m, line, cleaned);
    }
  }

  lemma PlaceBlank(m: Layout, line: string)
    requires WellLaidOut(m) && TrimRightChars(line, " \t") == []
    ensures WellLaidOut(Place(m, line))
  {
    if |m.lines| > 0 && !m.lastHeader && !m.lastChord && !m.lastEmpty {
      assert Place(m, line) == Appended(m, [], Blank);
      AppendedKeepsLayout(m, [], Blank);
    }
  }

  lemma PlaceText(m: Layout, line: string, cleaned: string)
    requires WellLaidOut(m) && cleaned == TrimRightChars(line, " \t")
    requires cleaned != [] && '\n' !in cleaned
    ensures WellLaidOut(Place(m, line))
  {
    if IsSectionLine(cleaned) {
      PlaceHeader(m, line, cleaned);
    } else if IsChordLine(cleaned) {
      PlaceChordRow(m, line, cleaned);
    } else {
      assert Place(m, line) == Appended(m, cleaned, Lyric);
      AppendedKeepsLayout(m, cleaned, Lyric);
    }
  }

  lemma PlaceHeader(m: Layout, line: string, cleaned: string)
    requires WellLaidOut(m) && cleaned == TrimRightChars(line, " \t")
    requires cleaned != [] && '\n' !in cleaned && IsSectionLine(cleaned)
    ensures WellLaidOut(Place(m, line))
  {
    assert Place(m, line) == Appended(m, cleaned + ":", Header);
    assert (cleaned + ":")[|cleaned|] == ':';
    AppendedKeepsLayout(m, cleaned + ":", Header);
  }

  lemma PlaceChordRow(m: Layout, line: string, cleaned: string)
    requires WellLaidOut(m) && cleaned == TrimRightChars(line, " \t")
    requires cleaned != [] && '\n' !in cleaned && !IsSectionLine(cleaned) && IsChordLine(cleaned)
    ensures WellLaidOut(Place(m, line))
  {
    WrapKeepsOut(cleaned, '\n');
    assert WrapChords(cleaned) != [];
    assert Place(m, line) == Appended(m, WrapChords(cleaned), ChordRow);
    AppendedKeepsLayout(m, WrapChords(cleaned), ChordRow);
  }

  lemma {:induction false} RunKeepsLayout(m: Layout, input: seq<string>)
    requires WellLaidOut(m)
    requires forall k :: 0 <= k < |input| ==> '\n' !in input[k]
    decreases |input|
    ensures WellLaidOut(Run(m, input))
  {
    if |input| > 0 {
      PlaceKeepsLayout(m, input[0]);
      RunKeepsLayout(Place(m, input[0]), input[1..]);
    }
  }

  // ---------------------------------------------------------------------------
  // The final clean-up
  // ---------------------------------------------------------------------------

  predicate IsNewline(c: char) { c == '\n' }

  /** No three newlines in a row. */
  predicate NoNewlineRun(t: string) {
    forall i :: 0 <= i < |t| - 2 ==> !(t[i] == '\n' && t[i + 1] == '\n' && t[i + 2] == '\n')
  }

  /**
   * ReplaceAllString with `\n\n+` and "\n\n": every run of two or more
   * newlines becomes two, so the result never holds three in a row, is no
   * longer than the text, and starts with a newline exactly when the text does.
   */
  function Collapse(s: string): (r: string)
    decreases |s|
    ensures |r| <= |s| && (|r| == 0 <==> |s| == 0)
    ensures |s| > 0 ==> (r[0] == '\n' <==> s[0] == '\n')
    ensures NoNewlineRun(r)
  {
    if |s| == 0 then []
    else if s[0] == '\n' then
      var k := SpanWhile(s, IsNewline);
      if k >= 2 then "\n\n" + Collapse(s[k..]) else "\n" + Collapse(s[1..])
    else [s[0]] + Collapse(s[1..])
  }

  lemma {:induction false} CollapsePlain(a: string, b: string)
    requires '\n' !in a
    decreases |a|
    ensures Collapse(a + b) == a + Collapse(b)
  {
    if |a| > 0 {
      assert (a + b)[0] == a[0];
      assert (a + b)[1..] == a[1..] + b;
      CollapsePlain(a[1..], b);
    } else {
      assert a + b == b;
    }
  }

  /** Two newlines then a line that does not start with one: the run is exactly two long. */
  lemma CollapseTwo(t: string)
    requires |t| == 0 || t[0] != '\n'
    ensures Collapse("\n\n" + t) == "\n\n" + Collapse(t)
  {
    var s := "\n\n" + t;
    assert SpanWhile(s, IsNewline) == 2 by {
      assert SpanWhile(s[2..], IsNewline) == 0;
      assert s[1..][1..] == s[2..];
    }
    assert s[2..] == t;
  }

  lemma CollapseOne(t: string)
    requires |t| == 0 || t[0] != '\n'
    ensures Collapse("\n" + t) == "\n" + Collapse(t)
  {
    var s := "\n" + t;
    assert s[1..] == t;
  }

  /** Lines with no newline inside, no empty one first and no two empty ones in a row. */
  predicate SingleBlanks(ls: seq<string>) {
    && (forall k :: 0 <= k < |ls| ==> '\n' !in ls[k])
    && (forall k :: 0 <= k < |ls| - 1 ==> ls[k] != [] || ls[k + 1] != [])
  }

  lemma JoinHead(ls: seq<string>)
    requires |ls| >= 1 && ls[0] != []
    ensures Join(ls, "\n")[0] == ls[0][0]
  {
    if |ls| > 1 {
      JoinCons(ls[0], ls[1..], "\n");
      assert ls == [ls[0]] + ls[1..];
    }
  }

  /** Joining such lines never produces three newlines in a row, so the clean-up changes nothing. */
  lemma {:induction false} CollapseJoin(ls: seq<string>)
    requires |ls| >= 1 && SingleBlanks(ls)
    decreases |ls|
    ensures Collapse(Join(ls, "\n")) == Join(ls, "\n")
  {
    var a := ls[0];
    if |ls| == 1 {
      CollapsePlain(a, []);
      assert a + [] == a;
    } else {
      var rest := ls[1..];
      var j := Join(rest, "\n");
      JoinCons(a, rest, "\n");
      assert ls == [a] + rest;
      assert a + "\n" + j == a + ("\n" + j);
      CollapsePlain(a, "\n" + j);
      if rest[0] != [] {
        JoinHead(rest);
        CollapseJoin(rest);
        CollapseOne(j);
      } else if |rest| == 1 {
        assert j == [];
        CollapseOne(j);
      } else {
        var rest2 := rest[1..];
        var j2 := Join(rest2, "\n");
        JoinCons(rest[0], rest2, "\n");
        assert rest == [rest[0]] + rest2;
        assert j == "\n" + j2;
        assert rest2[0] != [];
        JoinHead(rest2);
        CollapseJoin(rest2);
        assert "\n" + j == "\n\n" + j2;
        CollapseTwo(j2);
      }
    }
  }

  /** formatChordContent: lay the lines out, join them, collapse blank runs, trim the ends. */
  function FormatChordContent(content: string): (r: string)
    ensures |r| == 0 || (!IsSpace(r[0]) && !IsSpace(r[|r| - 1]))
    ensures NoNewlineRun(r)
  {
    var m := Run(Start, Split(content, "\n"));
    var t := Collapse(Join(m.lines, "\n"));
    TrimNoRun(t);
    TrimSpace(t)
  }

  /** Trimming the ends of a text cannot create a run of newlines. */
  lemma TrimNoRun(t: string)
    requires NoNewlineRun(t)
    ensures NoNewlineRun(TrimSpace(t))
  {
    var a, b :| 0 <= a <= b <= |t| && TrimSpace(t) == t[a..b];
    SliceNoRun(t, a, b);
  }

  lemma SliceNoRun(t: string, a: nat, b: nat)
    requires a <= b <= |t| && NoNewlineRun(t)
    ensures NoNewlineRun(t[a..b])
  {
    forall i | 0 <= i < b - a - 2
      ensures !(t[a..b][i] == '\n' && t[a..b][i + 1] == '\n' && t[a..b][i + 2] == '\n')
    {
      assert t[a..b][i] == t[a + i] && t[a..b][i + 1] == t[a + i + 1] && t[a..b][i + 2] == t[a + i + 2];
    }
  }

  lemma LayoutBlanks(m: Layout)
    requires WellLaidOut(m)
    ensures SingleBlanks(m.lines)
  {
    forall k | 0 <= k < |m.lines| - 1 ensures m.lines[k] != [] || m.lines[k + 1] != [] {
      if m.lines[k + 1] == [] {
        assert m.kinds[k + 1] == Blank;
      }
    }
  }

  /**
   * The formatted text is the trimmed join of a well-formed layout of the
   * input lines, and the blank-run clean-up never has anything to do.
   */
  lemma FormatLayout(content: string)
    ensures var m := Run(Start, Split(content, "\n"));
      && WellLaidOut(m)
      && Collapse(Join(m.lines, "\n")) == Join(m.lines, "\n")
      && FormatChordContent(content) == TrimSpace(Join(m.lines, "\n"))
  {
    var input := Split(content, "\n");
    SplitPiecesFree(content, "\n");
    forall k, j | 0 <= k < |input| && 0 <= j < |input[k]| ensures input[k][j] != '\n' {
      StartsAtChar(input[k], j, '\n');
    }
    RunKeepsLayout(Start, input);
    var m := Run(Start, input);
    LayoutBlanks(m);
    if |m.lines| >= 1 {
      CollapseJoin(m.lines);
    }
  }
}
