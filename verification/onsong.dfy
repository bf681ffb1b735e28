/**
 * The Ultimate Guitar tab converter: the tab markup is rewritten to OnSong
 * brackets, bracketed section headers become `Name:` lines, and a header
 * with song, artist and key is put in front of the text.
 */
module OnSong {
  import opened Wrappers
  import opened Text
  import opened ChordGrammar
  import opened ChordAnalysis
  import opened Sections
  import opened Formatting

  /** The fields of a fetched tab that the conversion reads. */
  datatype Tab = Tab(songName: string, artistName: string, tonalityName: string, content: string)

  /** The four markup rewrites, each over the whole text, in this order. */
  function StripMarkup(content: string): string {
    var noTab := ReplaceAll(ReplaceAll(content, "[tab]", ""), "[/tab]", "");
    ReplaceAll(ReplaceAll(noTab, "[ch]", "["), "[/ch]", "]")
  }

  /** The text written after the header. */
  function ConvertedContent(content: string): string { ConvertHeaders(StripMarkup(content)) }

  /** The detected key wins; otherwise the tab's own tonality, even when that is empty. */
  function OnSongKey(detected: string, tonality: string): (k: string)
    ensures detected != [] ==> k == detected
    ensures detected == [] ==> k == tonality
  {
    if detected != [] then detected else tonality
  }

  /**
   * ConvertToOnSong, with the key table's iteration order as `order`: the
   * song, artist and key lines and an empty line, each followed by a
   * newline, then the converted text.
   */
  function ConvertToOnSong(tab: Tab, order: seq<string>): (r: string)
    requires KeyOrder(order)
    ensures HasSuffix(r, ConvertedContent(tab.content))
  {
    var body := ConvertedContent(tab.content);
    var k := OnSongKey(AnalyzeChords(body, order).key, tab.tonalityName);
    Terminated([tab.songName, tab.artistName, KeyLabel + k, ""]) + body
  }

  /**
   * Reading the output back: the song, the artist, the key line and an
   * empty line, then the converted text; there is no tempo or time
   * signature line and no fallback key.
   */
  lemma ReadOnSong(tab: Tab, order: seq<string>)
    requires KeyOrder(order)
    requires '\n' !in tab.songName && '\n' !in tab.artistName && '\n' !in tab.tonalityName
    ensures var body := ConvertedContent(tab.content);
      var k := OnSongKey(AnalyzeChords(body, order).key, tab.tonalityName);
      ReadLines(ConvertToOnSong(tab, order), 4) == Some(([tab.songName, tab.artistName, KeyLabel + k, ""], body))
  {
    var body := ConvertedContent(tab.content);
    var detected := AnalyzeChords(body, order).key;
    DetectedInTable(body, order);
    if detected != [] {
      TableKeyOneLine(detected);
    }
    ReadOnSongText(tab.songName, tab.artistName, OnSongKey(detected, tab.tonalityName), body);
  }

  lemma ReadOnSongText(song: string, artist: string, k: string, body: string)
    requires '\n' !in song && '\n' !in artist && '\n' !in k
    ensures ReadLines(Terminated([song, artist, KeyLabel + k, ""]) + body, 4) == Some(([song, artist, KeyLabel + k, ""], body))
  {
    var h := [song, artist, KeyLabel + k, ""];
    HeaderOneLine(song, artist, k);
    assert forall i :: 0 <= i < 4 ==> h[i] == NashvilleHeader(song, artist, k)[if i == 3 then 5 else i];
    ReadTerminated(h, body);
  }

  // ---------------------------------------------------------------------------
  // The markup
  // ---------------------------------------------------------------------------

  /** Text without any opening bracket passes the four rewrites unchanged. */
  lemma StripPlain(t: string)
    requires '[' !in t
    ensures StripMarkup(t) == t
  {
    PlainPass(t, "[tab]", "");
    PlainPass(t, "[/tab]", "");
    PlainPass(t, "[ch]", "[");
    PlainPass(t, "[/ch]", "]");
  }

  lemma PlainPass(t: string, pat: string, rep: string)
    requires '[' !in t && |pat| > 1 && pat[0] == '['
    ensures ReplaceAll(t, pat, rep) == t
  {
    OnlyStartAt(t, pat, 1, |t|);
    ReplaceNone(t, pat, rep);
  }

  /** A chord tag between plain text, the tag's own text. */
  function ChordTag(a: string, c: string, b: string): string { a + "[ch]" + c + "[/ch]" + b }

  /** The only opening brackets of a chord tag between plain text are those of its two tags. */
  lemma TagBrackets(a: string, c: string, b: string)
    requires '[' !in a && '[' !in b && '[' !in c
    ensures var s, m := ChordTag(a, c, b), |a| + 4 + |c|;
      |s| == m + 5 + |b| && s[|a|..|a| + 4] == "[ch]" && s[|a| + 4..m] == c && s[m..m + 5] == "[/ch]"
      && s[..|a|] == a && s[m + 5..] == b
      && forall k :: 0 <= k < |s| && s[k] == '[' ==> k == |a| || k == m
  {
    var s, m := ChordTag(a, c, b), |a| + 4 + |c|;
    forall k | 0 <= k < |s| && k != |a| && k != m ensures s[k] != '[' {
      if k < |a| {
        assert s[k] == a[k];
      } else if |a| + 4 <= k < m {
        assert s[k] == c[k - |a| - 4];
      } else if m + 5 <= k {
        assert s[k] == b[k - m - 5];
      } else if |a| < k < |a| + 4 {
        assert s[k] == "[ch]"[k - |a|];
      } else {
        assert s[k] == "[/ch]"[k - m];
      }
    }
  }

  /** A chord written `[ch]C[/ch]` between plain text comes out as `[C]`. */
  lemma StripChordTag(a: string, c: string, b: string)
    requires '[' !in a && '[' !in b && '[' !in c
    requires |c| > 0 && IsRootLetter(c[0])
    ensures StripMarkup(ChordTag(a, c, b)) == a + "[" + c + "]" + b
  {
    var s := ChordTag(a, c, b);
    TabPassKeeps(a, c, b, "[tab]", 1);
    TabPassKeeps(a, c, b, "[/tab]", 2);
    OpenPass(a, c, b);
    ClosePass(a, c, b);
  }

  /** A pass removing `[tab]` or `[/tab]` leaves a chord tag between plain text alone. */
  lemma TabPassKeeps(a: string, c: string, b: string, pat: string, j: nat)
    requires '[' !in a && '[' !in b && '[' !in c
    requires 0 < j < 4 < |pat| && pat[0] == '['
    requires ("[ch]")[j] != pat[j] && ("[/ch]")[j] != pat[j]
    ensures ReplaceAll(ChordTag(a, c, b), pat, "") == ChordTag(a, c, b)
  {
    var s, m := ChordTag(a, c, b), |a| + 4 + |c|;
    TagBrackets(a, c, b);
    assert s[|a| + j] == "[ch]"[j] && s[m + j] == "[/ch]"[j];
    OnlyStartAt(s, pat, j, |s|);
    ReplaceNone(s, pat, "");
  }

  /** The opening tag becomes a bracket. */
  lemma OpenPass(a: string, c: string, b: string)
    requires '[' !in a && '[' !in b && '[' !in c
    ensures ReplaceAll(ChordTag(a, c, b), "[ch]", "[") == a + "[" + c + "[/ch]" + b
  {
    var s, m := ChordTag(a, c, b), |a| + 4 + |c|;
    TagBrackets(a, c, b);
    assert s[m + 1] == "[/ch]"[1];
    OnlyStartAt(s, "[ch]", 1, |a|);
    ReplaceOnce(s, "[ch]", "[", |a|);
    assert s[|a| + 4..] == c + "[/ch]" + b;
  }

  /** The closing tag becomes a bracket: the chord's root letter is not the `/` the closing tag needs. */
  lemma ClosePass(a: string, c: string, b: string)
    requires '[' !in a && '[' !in b && '[' !in c
    requires |c| > 0 && IsRootLetter(c[0])
    ensures ReplaceAll(a + "[" + c + "[/ch]" + b, "[/ch]", "]") == a + "[" + c + "]" + b
  {
    var s, m := a + "[" + c + "[/ch]" + b, |a| + 1 + |c|;
    assert s[..|a|] == a && s[|a|] == '[' && s[|a| + 1..m] == c && s[m..m + 5] == "[/ch]" && s[m + 5..] == b;
    forall k | 0 <= k < |s| && k != m ensures s[k] != '[' || k + 1 >= |s| || s[k + 1] != '/' {
      if k < |a| {
        assert s[k] == a[k];
      } else if k == |a| {
        assert s[k + 1] == c[0];
      } else if k < m {
        assert s[k] == c[k - |a| - 1];
      } else if m + 5 <= k {
        assert s[k] == b[k - m - 5];
      } else {
        assert s[k] == "[/ch]"[k - m];
      }
    }
    OnlyStartAt(s, "[/ch]", 1, m);
    ReplaceOnce(s, "[/ch]", "]", m);
    assert s[..m] == a + "[" + c;
  }

  /** The rewrites run once each: a `[tab]` formed by removing an inner `[tab]` survives. */
  lemma MarkupSinglePass()
    ensures StripMarkup("[ta[tab]b]") == "[tab]"
  {
    InnerTabRemoved();
    TabSurvives();
  }

  lemma InnerTabRemoved()
    ensures ReplaceAll("[ta[tab]b]", "[tab]", "") == "[tab]"
  {
    var s := "[ta[tab]b]";
    assert s[3..8] == "[tab]";
    assert s[3] == '[' && s[0] == '[';
    OnlyStartAt(s, "[tab]", 3, 3);
    ReplaceOnce(s, "[tab]", "", 3);
    assert s[..3] + "" + s[8..] == "[tab]";
  }

  /** `[tab]` is none of the three remaining patterns. */
  lemma TabSurvives()
    ensures ReplaceAll(ReplaceAll(ReplaceAll("[tab]", "[/tab]", ""), "[ch]", "["), "[/ch]", "]") == "[tab]"
  {
    var t := "[tab]";
    OnlyStartAt(t, "[/tab]", 1, |t|);
    ReplaceNone(t, "[/tab]", "");
    OnlyStartAt(t, "[ch]", 1, |t|);
    ReplaceNone(t, "[ch]", "[");
    OnlyStartAt(t, "[/ch]", 1, |t|);
    ReplaceNone(t, "[/ch]", "]");
  }

  /**
   * A tab without any bracket is written verbatim under its header, and its
   * key line is the tab's tonality, empty when that is empty.
   */
  lemma PlainTabVerbatim(tab: Tab, order: seq<string>)
    requires KeyOrder(order)
    requires '[' !in tab.content
    ensures ConvertToOnSong(tab, order) == Terminated([tab.songName, tab.artistName, KeyLabel + tab.tonalityName, ""]) + tab.content
  {
    var t := tab.content;
    StripPlain(t);
    ConvertNoHeader(t, 0);
    assert t[0..] == t;
    NoOpenNoChords(t);
    assert ExtractChords(t) == [];
  }
}
