/**
 * The shared OnSong formatter used for every source of songs: chord rows
 * written as plain text get their chords put between brackets, bracketed
 * section headers become `Name:` lines, and a header with song, artist,
 * key, tempo and time signature is written in front of the text.
 */
module Formatting {
  import opened Wrappers
  import opened Text
  import opened ChordGrammar
  import opened ChordAnalysis
  import opened Sections

  // ---------------------------------------------------------------------------
  // Bracketing plain chord rows
  // ---------------------------------------------------------------------------

  /** The word's first byte is a lower-case ASCII letter. */
  predicate StartsLower(w: string) { |w| > 0 && 'a' <= w[0] <= 'z' }

  predicate HasLowercaseWord(words: seq<string>) {
    exists k :: 0 <= k < |words| && StartsLower(words[k])
  }

  /** A trimmed line with chords reads as a chord row: no word starts lower-case, or it has at most three words. */
  predicate ChordShaped(trimmed: string) {
    var words := Fields(trimmed);
    !HasLowercaseWord(words) || |words| <= 3
  }

  /** Lines passed through whatever they hold: blank lines, `Name:` headers, and lines with both brackets. */
  predicate Exempt(line: string) {
    var trimmed := TrimSpace(line);
    trimmed == [] || HasSuffix(trimmed, ":") || ('[' in line && ']' in line)
  }

  /**
   * One line of wrapChordsInBrackets: a line that is not exempt, whose
   * trimmed text has a `\b` chord match and is chord-shaped, has every
   * match in the whole line bracketed; any other line is kept.
   */
  function WrapLine(line: string): (r: string)
    ensures r != line ==> !Exempt(line) && HasBoundaryChord(TrimSpace(line)) && ChordShaped(TrimSpace(line))
    ensures !Exempt(line) && HasBoundaryChord(TrimSpace(line)) && ChordShaped(TrimSpace(line)) ==> r == WrapChords(line)
  {
    var trimmed := TrimSpace(line);
    if trimmed == [] || HasSuffix(trimmed, ":") then line
    else if '[' in line && ']' in line then line
    else if HasBoundaryChord(trimmed) && ChordShaped(trimmed) then WrapChords(line)
    else line
  }

  /** A lyric line, with a word starting lower-case and more than three words, is left as it is. */
  lemma LyricLineKept(line: string)
    requires HasLowercaseWord(Fields(TrimSpace(line))) && |Fields(TrimSpace(line))| > 3
    ensures WrapLine(line) == line
  {
  }

  /**
   * A chord-shaped line that is not exempt is bracketed as a whole: one
   * with no word starting lower-case, and also any line of at most three
   * words, so "Am I right" is bracketed too.
   */
  lemma ChordRowWrapped(line: string)
    requires !Exempt(line) && HasBoundaryChord(TrimSpace(line))
    requires !HasLowercaseWord(Fields(TrimSpace(line))) || |Fields(TrimSpace(line))| <= 3
    ensures WrapLine(line) == WrapChords(line)
  {
  }

  /** Bracketing adds brackets and nothing else. */
  lemma WrapLineUnbracket(line: string)
    requires NoBrackets(line)
    ensures Unbracket(WrapLine(line)) == line
  {
    if WrapLine(line) == line {
      UnbracketPlain(line);
    } else {
      WrapUnbracket(line);
    }
  }

  /** Bracketing never splits a line. */
  lemma WrapLineOneLine(line: string)
    requires '\n' !in line
    ensures '\n' !in WrapLine(line)
  {
    WrapKeepsOut(line, '\n');
  }

  function WrapEach(lines: seq<string>): (r: seq<string>)
    ensures |r| == |lines| && forall k :: 0 <= k < |lines| ==> r[k] == WrapLine(lines[k])
  {
    seq(|lines|, k requires 0 <= k < |lines| => WrapLine(lines[k]))
  }

  /** wrapChordsInBrackets: every line of the text is processed on its own and the lines are joined again. */
  function WrapLines(content: string): string {
    Join(WrapEach(Split(content, "\n")), "\n")
  }

  /** The output has the same lines as the input, each one processed by WrapLine. */
  lemma WrapLinesLineByLine(content: string)
    ensures Split(WrapLines(content), "\n") == WrapEach(Split(content, "\n"))
  {
    var lines := Split(content, "\n");
    SplitCharFree(content, '\n');
    forall k | 0 <= k < |lines| ensures '\n' !in WrapEach(lines)[k] {
      WrapLineOneLine(lines[k]);
    }
    SplitJoin(WrapEach(lines), '\n');
  }

  /** On a text without brackets, removing the brackets from the output gives the text back. */
  lemma WrapLinesUnbracket(content: string)
    requires NoBrackets(content)
    ensures Unbracket(WrapLines(content)) == content
  {
    var lines := Split(content, "\n");
    SplitKeepsOut(content, "\n", '[');
    SplitKeepsOut(content, "\n", ']');
    forall k | 0 <= k < |lines| ensures Unbracket(WrapEach(lines)[k]) == lines[k] {
      WrapLineUnbracket(lines[k]);
    }
    UnbracketJoin(WrapEach(lines), lines);
    JoinSplit(content, "\n");
  }

  /** Removing brackets line by line and from the joined text agree. */
  lemma {:induction false} UnbracketJoin(ws: seq<string>, ls: seq<string>)
    requires |ws| == |ls| && forall k :: 0 <= k < |ws| ==> Unbracket(ws[k]) == ls[k]
    decreases |ws|
    ensures Unbracket(Join(ws, "\n")) == Join(ls, "\n")
  {
    if |ws| > 1 {
      UnbracketJoin(ws[1..], ls[1..]);
      assert Join(ws, "\n") == ws[0] + ("\n" + Join(ws[1..], "\n"));
      UnbracketAppend(ws[0], "\n" + Join(ws[1..], "\n"));
      UnbracketAppend("\n", Join(ws[1..], "\n"));
      assert Join(ls, "\n") == ls[0] + ("\n" + Join(ls[1..], "\n"));
    }
  }

  // ---------------------------------------------------------------------------
  // The OnSong text
  // ---------------------------------------------------------------------------

  const DefaultKey: string := "C"

  /** The key written out: the detected one, else the one given, else C. */
  function HeaderKey(detected: string, given: string): (k: string)
    ensures k != []
    ensures detected != [] ==> k == detected
    ensures detected == [] && given != [] ==> k == given
    ensures detected == [] && given == [] ==> k == DefaultKey
  {
    if detected != [] then detected else if given != [] then given else DefaultKey
  }

  /** The text that is analysed and written out: chords bracketed, then section headers converted. */
  function PreparedContent(content: string): string { ConvertHeaders(WrapLines(content)) }

  const KeyLabel: string := "Key: "
  const TempoLine: string := "Tempo: 100 BPM"
  const TimeLine: string := "Time Signature: 4/4"

  /** The header lines in front of the song text, the last one empty. */
  function NashvilleHeader(song: string, artist: string, key: string): seq<string> {
    [song, artist, KeyLabel + key, TempoLine, TimeLine, ""]
  }

  /** The header has no line break inside a line when the song, artist and key have none. */
  lemma HeaderOneLine(song: string, artist: string, key: string)
    requires '\n' !in song && '\n' !in artist && '\n' !in key
    ensures forall i :: 0 <= i < 6 ==> '\n' !in NashvilleHeader(song, artist, key)[i]
  {
    assert '\n' !in KeyLabel && '\n' !in TempoLine && '\n' !in TimeLine by {
      forall j | 0 <= j < |TimeLine| ensures TimeLine[j] != '\n' && (j < |TempoLine| ==> TempoLine[j] != '\n') && (j < |KeyLabel| ==> KeyLabel[j] != '\n') {
      }
    }
  }

  /**
   * FormatWithNashville, with the key table's iteration order as `order`:
   * the header lines, each followed by a newline, then the prepared text.
   */
  function FormatWithNashville(song: string, artist: string, key: string, content: string, order: seq<string>): (r: string)
    requires KeyOrder(order)
    ensures HasSuffix(r, PreparedContent(content))
  {
    var body := PreparedContent(content);
    var k := HeaderKey(AnalyzeChords(body, order).key, key);
    Terminated(NashvilleHeader(song, artist, k)) + body
  }

  /** A key of the table fits on one line. */
  lemma TableKeyOneLine(key: string)
    requires InTable(key)
    ensures '\n' !in key
  {
  }

  /** A detected key is one of the table. */
  lemma DetectedInTable(body: string, order: seq<string>)
    requires KeyOrder(order)
    ensures AnalyzeChords(body, order).key != [] ==> InTable(AnalyzeChords(body, order).key)
  {
  }

  /**
   * Reading the output back: its first six lines are the song, the artist,
   * the key line, the tempo, the time signature and an empty line, and the
   * rest is the prepared song text. The key is the one detected in that
   * text, else the one given, else C.
   */
  lemma ReadNashville(song: string, artist: string, key: string, content: string, order: seq<string>)
    requires KeyOrder(order)
    requires '\n' !in song && '\n' !in artist && '\n' !in key
    ensures var body := PreparedContent(content);
      ReadLines(FormatWithNashville(song, artist, key, content, order), 6)
      == Some((NashvilleHeader(song, artist, HeaderKey(AnalyzeChords(body, order).key, key)), body))
  {
    var body := PreparedContent(content);
    var detected := AnalyzeChords(body, order).key;
    DetectedInTable(body, order);
    if detected != [] {
      TableKeyOneLine(detected);
    }
    ReadHeader(song, artist, HeaderKey(detected, key), body);
  }

  /** A one-line song, artist and key: the six header lines read back ahead of the body. */
  lemma ReadHeader(song: string, artist: string, key: string, body: string)
    requires '\n' !in song && '\n' !in artist && '\n' !in key
    ensures ReadLines(Terminated(NashvilleHeader(song, artist, key)) + body, 6)
      == Some((NashvilleHeader(song, artist, key), body))
  {
    HeaderOneLine(song, artist, key);
    ReadTerminated(NashvilleHeader(song, artist, key), body);
  }
}
