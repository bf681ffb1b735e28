/**
 * The worshipchords client's reading of a song page: the parsed HTML tree is
 * searched for the song's `<pre>` block, the page title and the key, and the
 * title is split into song name and artist. Fetching the page and parsing the
 * HTML are outside the model: the client receives the parsed tree.
 */
module WorshipPage {
  import opened Wrappers
  import opened Text
  import opened WorshipFormat

  // ---------------------------------------------------------------------------
  // The parsed page
  // ---------------------------------------------------------------------------

  /** Element, text, and every other node type (document, comment, doctype). */
  datatype NodeKind = ElementNode | TextNode | OtherNode

  datatype Attr = Attr(key: string, val: string)

  /** An HTML node: for an element `data` is the tag name, for a text node its text. */
  datatype Node = Node(kind: NodeKind, data: string, attrs: seq<Attr>, children: seq<Node>)

  predicate IsElement(n: Node, tag: string) { n.kind == ElementNode && n.data == tag }

  // ---------------------------------------------------------------------------
  // Depth-first searches
  // ---------------------------------------------------------------------------

  /**
   * The searches share one shape: if `probe` answers at a node, that answer
   * is the node's result, even when it is empty, and its children are not
   * visited; otherwise the children are tried in order and the first
   * non-empty result wins.
   */
  function Search(n: Node, probe: Node -> Option<string>): string
    decreases n, 1
  {
    match probe(n)
    case Some(v) => v
    case None => SearchIn(n.children, probe)
  }

  function SearchIn(ns: seq<Node>, probe: Node -> Option<string>): string
    decreases ns, 0
  {
    if |ns| == 0 then []
    else
      var r := Search(ns[0], probe);
      if r != [] then r else SearchIn(ns[1..], probe)
  }

  /** The answers of `probe` in document order, leaving out the subtrees below an answer. */
  function Answers(n: Node, probe: Node -> Option<string>): seq<string>
    decreases n, 1
  {
    match probe(n)
    case Some(v) => [v]
    case None => AnswersIn(n.children, probe)
  }

  function AnswersIn(ns: seq<Node>, probe: Node -> Option<string>): seq<string>
    decreases ns, 0
  {
    if |ns| == 0 then [] else Answers(ns[0], probe) + AnswersIn(ns[1..], probe)
  }

  /** The first non-empty string of a list, or the empty string. */
  function FirstNonEmpty(xs: seq<string>): (r: string)
    ensures r != [] ==> r in xs
    ensures r == [] <==> forall k :: 0 <= k < |xs| ==> xs[k] == []
  {
    if |xs| == 0 then [] else if xs[0] != [] then xs[0] else FirstNonEmpty(xs[1..])
  }

  lemma {:induction false} FirstNonEmptyAppend(a: seq<string>, b: seq<string>)
    decreases |a|
    ensures FirstNonEmpty(a + b) == if FirstNonEmpty(a) != [] then FirstNonEmpty(a) else FirstNonEmpty(b)
  {
    if |a| > 0 {
      assert (a + b)[0] == a[0];
      assert (a + b)[1..] == a[1..] + b;
      FirstNonEmptyAppend(a[1..], b);
    } else {
      assert a + b == b;
    }
  }

  /** Every search returns the first non-empty answer in document order. */
  lemma {:induction false} SearchFirstAnswer(n: Node, probe: Node -> Option<string>)
    decreases n, 1
    ensures Search(n, probe) == FirstNonEmpty(Answers(n, probe))
  {
    match probe(n)
    case Some(v) =>
    case None => SearchInFirstAnswer(n.children, probe);
  }

  lemma {:induction false} SearchInFirstAnswer(ns: seq<Node>, probe: Node -> Option<string>)
    decreases ns, 0
    ensures SearchIn(ns, probe) == FirstNonEmpty(AnswersIn(ns, probe))
  {
    if |ns| > 0 {
      SearchFirstAnswer(ns[0], probe);
      SearchInFirstAnswer(ns[1..], probe);
      FirstNonEmptyAppend(Answers(ns[0], probe), AnswersIn(ns[1..], probe));
    }
  }

  // ---------------------------------------------------------------------------
  // The text of a `<pre>` block
  // ---------------------------------------------------------------------------

  /** extractText: text nodes' text and a newline for each `<br>`, in document order. */
  function ExtractText(n: Node): string
    decreases n, 1
  {
    var own := if n.kind == TextNode then n.data else if IsElement(n, "br") then "\n" else [];
    own + ExtractTextIn(n.children)
  }

  function ExtractTextIn(ns: seq<Node>): string
    decreases ns, 0
  {
    if |ns| == 0 then [] else ExtractText(ns[0]) + ExtractTextIn(ns[1..])
  }

  /** The node or a descendant is a text node with text, or a `<br>`. */
  predicate HasText(n: Node)
    decreases n, 1
  {
    (n.kind == TextNode && n.data != []) || IsElement(n, "br") || HasTextIn(n.children)
  }

  predicate HasTextIn(ns: seq<Node>)
    decreases ns, 0
  {
    |ns| > 0 && (HasText(ns[0]) || HasTextIn(ns[1..]))
  }

  /** The extracted text is empty exactly when the subtree holds no text and no line break. */
  lemma {:induction false} ExtractTextEmpty(n: Node)
    decreases n, 1
    ensures ExtractText(n) == [] <==> !HasText(n)
  {
    ExtractTextInEmpty(n.children);
  }

  lemma {:induction false} ExtractTextInEmpty(ns: seq<Node>)
    decreases ns, 0
    ensures ExtractTextIn(ns) == [] <==> !HasTextIn(ns)
  {
    if |ns| > 0 {
      ExtractTextEmpty(ns[0]);
      ExtractTextInEmpty(ns[1..]);
    }
  }

  /** findPreContent answers at the first `<pre>` with that element's text. */
  function PreProbe(n: Node): Option<string> {
    if IsElement(n, "pre") then Some(ExtractText(n)) else None
  }

  function FindPreContent(n: Node): string { Search(n, PreProbe) }

  const ChordsClass: string := "song-chords-content"

  /** Some `class` attribute of a `<div>` mentions the chord-content class. */
  predicate IsChordsDiv(n: Node) {
    IsElement(n, "div") && exists k :: 0 <= k < |n.attrs| && n.attrs[k].key == "class" && Contains(n.attrs[k].val, ChordsClass)
  }

  /** findSongChords answers at the first chord-content `<div>` with the `<pre>` text below it. */
  function ChordsProbe(n: Node): Option<string> {
    if IsChordsDiv(n) then Some(FindPreContent(n)) else None
  }

  function FindSongChords(doc: Node): string { Search(doc, ChordsProbe) }

  /**
   * The song text is the first non-empty `<pre>` text below the first
   * chord-content `<div>` whose `<pre>` blocks have text; a `<div>` with
   * only empty blocks is passed over, and the divs and blocks inside a
   * matched one are not searched on their own.
   */
  lemma SongChordsFirst(doc: Node)
    ensures FindSongChords(doc) == FirstNonEmpty(Answers(doc, ChordsProbe))
    ensures forall k :: 0 <= k < |Answers(doc, ChordsProbe)| ==>
      exists d :: IsChordsDiv(d) && Answers(doc, ChordsProbe)[k] == FirstNonEmpty(Answers(d, PreProbe))
  {
    SearchFirstAnswer(doc, ChordsProbe);
    ChordsAnswers(doc);
  }

  lemma {:induction false} ChordsAnswers(n: Node)
    decreases n, 1
    ensures forall k :: 0 <= k < |Answers(n, ChordsProbe)| ==>
      exists d :: IsChordsDiv(d) && Answers(n, ChordsProbe)[k] == FirstNonEmpty(Answers(d, PreProbe))
  {
    if IsChordsDiv(n) {
      SearchFirstAnswer(n, PreProbe);
      assert Answers(n, ChordsProbe) == [FirstNonEmpty(Answers(n, PreProbe))];
    } else {
      assert Answers(n, ChordsProbe) == AnswersIn(n.children, ChordsProbe);
      ChordsAnswersIn(n.children);
    }
  }

  lemma {:induction false} ChordsAnswersIn(ns: seq<Node>)
    decreases ns, 0
    ensures forall k :: 0 <= k < |AnswersIn(ns, ChordsProbe)| ==>
      exists d :: IsChordsDiv(d) && AnswersIn(ns, ChordsProbe)[k] == FirstNonEmpty(Answers(d, PreProbe))
  {
    if |ns| > 0 {
      ChordsAnswers(ns[0]);
      ChordsAnswersIn(ns[1..]);
      var a := Answers(ns[0], ChordsProbe);
      var b := AnswersIn(ns[1..], ChordsProbe);
      assert AnswersIn(ns, ChordsProbe) == a + b;
      forall k | 0 <= k < |AnswersIn(ns, ChordsProbe)|
        ensures exists d :: IsChordsDiv(d) && AnswersIn(ns, ChordsProbe)[k] == FirstNonEmpty(Answers(d, PreProbe))
      {
        if k < |a| {
          var d :| IsChordsDiv(d) && a[k] == FirstNonEmpty(Answers(d, PreProbe));
          assert AnswersIn(ns, ChordsProbe)[k] == a[k];
          assert IsChordsDiv(d) && AnswersIn(ns, ChordsProbe)[k] == FirstNonEmpty(Answers(d, PreProbe));
        } else {
          var d :| IsChordsDiv(d) && b[k - |a|] == FirstNonEmpty(Answers(d, PreProbe));
          assert AnswersIn(ns, ChordsProbe)[k] == b[k - |a|];
          assert IsChordsDiv(d) && AnswersIn(ns, ChordsProbe)[k] == FirstNonEmpty(Answers(d, PreProbe));
        }
      }
    } else {
      assert AnswersIn(ns, ChordsProbe) == [];
    }
  }

  // ---------------------------------------------------------------------------
  // Title
  // ---------------------------------------------------------------------------

  /** The value of the last attribute named `key`, or the empty string. */
  function LastAttr(attrs: seq<Attr>, key: string): (v: string)
    ensures v != [] ==> exists k :: 0 <= k < |attrs| && attrs[k].key == key && attrs[k].val == v
    ensures forall k :: 0 <= k < |attrs| && attrs[k].key == key ==>
      (forall j :: k < j < |attrs| ==> attrs[j].key != key) ==> v == attrs[k].val
  {
    if |attrs| == 0 then []
    else if attrs[|attrs| - 1].key == key then attrs[|attrs| - 1].val
    else LastAttr(attrs[..|attrs| - 1], key)
  }

  /** The loop's `prop`: the property value when some attribute names it, else empty. */
  function PropOf(attrs: seq<Attr>, property: string): (prop: string)
    ensures prop == property <==>
      (property == [] || exists k :: 0 <= k < |attrs| && attrs[k].key == "property" && attrs[k].val == property)
  {
    if exists k :: 0 <= k < |attrs| && attrs[k].key == "property" && attrs[k].val == property then property else []
  }

  /** findMetaContent answers at a `<meta>` naming the property with a non-empty content. */
  function MetaProbe(property: string): Node -> Option<string> {
    n =>
      if IsElement(n, "meta") && PropOf(n.attrs, property) == property && LastAttr(n.attrs, "content") != []
      then Some(LastAttr(n.attrs, "content"))
      else None
  }

  function FindMetaContent(doc: Node, property: string): string { Search(doc, MetaProbe(property)) }

  /** findTitle answers at a `<title>` whose first child is a text node, with that text. */
  function TitleProbe(n: Node): Option<string> {
    if IsElement(n, "title") && |n.children| > 0 && n.children[0].kind == TextNode
    then Some(n.children[0].data) else None
  }

  function FindTitle(doc: Node): string { Search(doc, TitleProbe) }

  /** The page title: the `og:title` meta content, else the `<title>` text. */
  function PageTitle(doc: Node): string {
    var meta := FindMetaContent(doc, "og:title");
    if meta != [] then meta else FindTitle(doc)
  }

  /** A meta tag is found only with the exact property and a non-empty content, which it returns. */
  lemma MetaAnswer(n: Node, property: string)
    requires MetaProbe(property)(n).Some?
    ensures IsElement(n, "meta")
    ensures property == [] || exists k :: 0 <= k < |n.attrs| && n.attrs[k].key == "property" && n.attrs[k].val == property
    ensures MetaProbe(property)(n).value != []
    ensures exists k :: 0 <= k < |n.attrs| && n.attrs[k].key == "content" && n.attrs[k].val == MetaProbe(property)(n).value
  {
  }

  datatype TitleParts = TitleParts(song: string, artist: string)

  const TitleSeparator: string := " - "

  /**
   * "Song Name Chords - Artist Name": when the title contains " - ", the
   * song is the first part with its first " Chords" removed and the artist
   * the second part, both trimmed; otherwise the title is kept whole.
   */
  function SplitTitle(title: string): (r: TitleParts)
    ensures !Contains(title, TitleSeparator) ==> r == TitleParts(title, [])
    ensures Contains(title, TitleSeparator) ==> !Contains(r.artist, TitleSeparator)
  {
    if Contains(title, TitleSeparator) then
      var parts := Split(title, TitleSeparator);
      assert |parts| >= 2;
      SplitPiecesFree(title, TitleSeparator);
      TrimSpaceKeepsOut(parts[1], TitleSeparator);
      TitleParts(TrimSpace(ReplaceFirst(parts[0], " Chords", [])), TrimSpace(parts[1]))
    else TitleParts(title, [])
  }

  lemma TrimSpaceKeepsOut(s: string, p: string)
    requires !Contains(s, p)
    ensures !Contains(TrimSpace(s), p)
  {
    var a, b :| 0 <= a <= b <= |s| && TrimSpace(s) == s[a..b];
    SliceKeepsOut(s, a, b, p);
  }

  lemma SliceKeepsOut(s: string, a: nat, b: nat, p: string)
    requires a <= b <= |s| && !Contains(s, p)
    ensures !Contains(s[a..b], p)
  {
    var t := s[a..b];
    forall j: nat | j + |p| <= |t| ensures !StartsAt(t, j, p) {
      var u, v := t[j..j + |p|], s[a + j..a + j + |p|];
      forall i | 0 <= i < |p| ensures u[i] == v[i] {
        assert t[j + i] == s[a + j + i];
      }
      assert u == v;
      assert !StartsAt(s, a + j, p);
    }
  }

  /**
   * `i` is the first " - " in the title and `e` ends the part after it: the
   * next " - ", or the end of the title when there is none.
   */
  ghost predicate SeparatorsAt(title: string, i: nat, e: nat) {
    && StartsAt(title, i, TitleSeparator)
    && (forall j :: 0 <= j < i ==> !StartsAt(title, j, TitleSeparator))
    && i + |TitleSeparator| <= e <= |title|
    && (forall j :: i + |TitleSeparator| <= j < e ==> !StartsAt(title, j, TitleSeparator))
    && (e == |title| || StartsAt(title, e, TitleSeparator))
  }

  /**
   * The song is the text before the first " - " with its first " Chords"
   * removed, the artist the text between the first and the second " - ";
   * both are trimmed, and whatever follows a second " - " is dropped.
   */
  lemma SplitTitleParts(title: string, i: nat, e: nat)
    requires SeparatorsAt(title, i, e)
    ensures SplitTitle(title)
            == TitleParts(TrimSpace(ReplaceFirst(title[..i], " Chords", [])), TrimSpace(title[i + 3..e]))
  {
    ContainsAt(title, TitleSeparator, i);
    IndexFromFirst(title, TitleSeparator, 0, i);
    var rest := title[i + 3..];
    assert Split(title, TitleSeparator) == [title[..i]] + Split(rest, TitleSeparator);
    var k := e - (i + 3);
    forall j | 0 <= j < k ensures !StartsAt(rest, j, TitleSeparator) {
      SuffixStartsAt(title, i + 3, j, TitleSeparator);
    }
    if e < |title| {
      SuffixStartsAt(title, i + 3, k, TitleSeparator);
      IndexFromFirst(rest, TitleSeparator, 0, k);
    } else {
      assert IndexFrom(rest, TitleSeparator, 0).None?;
    }
    assert Split(rest, TitleSeparator)[0] == rest[..k] == title[i + 3..e];
  }

  /**
   * A title written as "NAME Chords - ARTIST" splits back into its name and
   * artist, provided " Chords" does not already occur in the name (so the
   * appended one is the first), " - " occurs neither in the name with its
   * suffix nor in the artist, and neither part has surrounding whitespace.
   */
  lemma SplitTitleRoundTrip(name: string, artist: string)
    requires |name| > 0 && !IsSpace(name[0]) && !IsSpace(name[|name| - 1])
    requires |artist| > 0 && !IsSpace(artist[0]) && !IsSpace(artist[|artist| - 1])
    requires !Contains(name, " Chords") && !Contains(name + " Chords", TitleSeparator)
    requires !Contains(artist, TitleSeparator)
    ensures SplitTitle(name + " Chords" + TitleSeparator + artist) == TitleParts(name, artist)
  {
    var first := name + " Chords";
    var title := first + TitleSeparator + artist;
    assert first[|first| - 2..] == "ds";
    FirstSeparatorAppended(first, artist);
    assert title[|first| + 3..] == artist;
    assert title[|first| + 3..|title|] == artist;
    assert title[..|first|] == first;
    forall j | |first| + 3 <= j < |title| ensures !StartsAt(title, j, TitleSeparator) {
      SuffixStartsAt(title, |first| + 3, j - |first| - 3, TitleSeparator);
    }
    assert SeparatorsAt(title, |first|, |title|);
    SplitTitleParts(title, |first|, |title|);
    DropChords(name);
    TrimmedAlready(name);
    TrimmedAlready(artist);
  }

  /** No " - " begins inside "... Chords" once a " - " follows it. */
  lemma FirstSeparatorAppended(first: string, artist: string)
    requires |first| >= 2 && first[|first| - 2..] == "ds" && !Contains(first, TitleSeparator)
    ensures forall j :: 0 <= j < |first| ==> !StartsAt(first + TitleSeparator + artist, j, TitleSeparator)
    ensures StartsAt(first + TitleSeparator + artist, |first|, TitleSeparator)
  {
    var title := first + TitleSeparator + artist;
    forall j | 0 <= j < |first| ensures !StartsAt(title, j, TitleSeparator) {
      if j + 3 <= |first| {
        assert title[j..j + 3] == first[j..j + 3];
        assert !StartsAt(first, j, TitleSeparator);
      } else {
        assert first[|first| - 2] == first[|first| - 2..][0] == 'd';
        assert first[|first| - 1] == first[|first| - 2..][1] == 's';
        assert title[j] == first[j] != ' ';
        assert title[j..j + 3][0] == title[j];
      }
    }
    assert title[|first|..|first| + 3] == TitleSeparator;
  }

  lemma DropChords(name: string)
    requires !Contains(name, " Chords")
    ensures ReplaceFirst(name + " Chords", " Chords", []) == name
  {
    var first := name + " Chords";
    forall j | 0 <= j < |name| ensures !StartsAt(first, j, " Chords") {
      if j + 7 <= |name| {
        assert first[j..j + 7] == name[j..j + 7];
        assert !StartsAt(name, j, " Chords");
      } else {
        var d := |name| - j;
        assert first[j..j + 7][d] == first[|name|] == ' ';
        assert " Chords"[d] != ' ';
      }
    }
    assert StartsAt(first, |name|, " Chords");
    IndexFromFirst(first, " Chords", 0, |name|);
    assert first[..|name|] == name && first[|name| + 7..] == [];
  }

  lemma TrimmedAlready(s: string)
    requires |s| > 0 && !IsSpace(s[0]) && !IsSpace(s[|s| - 1])
    ensures TrimSpace(s) == s
  {
    assert SpanWhile(s, IsSpace) == 0;
    assert s[0..] == s;
    assert SpanWhileBack(s, IsSpace) == 0;
  }

  // ---------------------------------------------------------------------------
  // Key
  // ---------------------------------------------------------------------------

  const KeyAttr: string := "data-key=\""

  predicate NotQuote(c: char) { c != '"' }

  /** `data-key="([^"]+)"` tried at `i`: the longest run of non-quotes, non-empty and closed by a quote. */
  function KeyAt(s: string, i: nat): (r: Option<string>)
    ensures r.Some? ==> StartsAt(s, i, KeyAttr + r.value + "\"") && |r.value| > 0 && '"' !in r.value
  {
    if !StartsAt(s, i, KeyAttr) then None
    else
      var q := i + |KeyAttr|;
      var run := SpanWhile(s[q..], NotQuote);
      if run > 0 && q + run < |s| then
        assert s[q..][..run] == s[q..q + run];
        assert s[q + run] == s[q..][run];
        assert s[i..i + |KeyAttr| + run + 1] == KeyAttr + s[q..q + run] + "\"";
        Some(s[q..q + run])
      else None
  }

  function KeyFrom(s: string, i: nat): (r: string)
    decreases |s| - i
  {
    if i >= |s| then []
    else
      match KeyAt(s, i)
      case Some(k) => k
      case None => KeyFrom(s, i + 1)
  }

  /** extractKey: the value of the first `data-key="..."` with a non-empty value, or empty. */
  function ExtractKey(content: string): (r: string)
    ensures r != [] ==> Contains(content, KeyAttr + r + "\"") && '"' !in r
    ensures r == [] <==> NoKeyIn(content, 0, |content|)
    ensures r != [] ==> exists i :: FirstKeyAt(content, 0, i, r)
  {
    KeyFromSound(content, 0);
    KeyFromFirst(content, 0);
    KeyFrom(content, 0)
  }

  /** No attribute match starts in `[i, k)`. */
  ghost predicate NoKeyIn(s: string, i: nat, k: nat) {
    forall j :: i <= j < k ==> KeyAt(s, j).None?
  }

  /** The first attribute match at or after `i` starts at `k` and has value `v`. */
  ghost predicate FirstKeyAt(s: string, i: nat, k: nat, v: string) {
    i <= k < |s| && KeyAt(s, k) == Some(v) && NoKeyIn(s, i, k)
  }

  /** The scan from `i` returns the value of the first attribute match at or after `i`, and is empty exactly when there is none. */
  lemma {:induction false} KeyFromFirst(s: string, i: nat)
    requires i <= |s|
    decreases |s| - i
    ensures KeyFrom(s, i) == [] <==> NoKeyIn(s, i, |s|)
    ensures KeyFrom(s, i) != [] ==> exists k :: FirstKeyAt(s, i, k, KeyFrom(s, i))
  {
    if i < |s| {
      var r := KeyAt(s, i);
      if r.Some? {
        assert KeyFrom(s, i) == r.value && r.value != [];
        assert FirstKeyAt(s, i, i, r.value);
      } else {
        KeyFromFirst(s, i + 1);
        assert KeyFrom(s, i) == KeyFrom(s, i + 1);
        if KeyFrom(s, i) != [] {
          var k :| FirstKeyAt(s, i + 1, k, KeyFrom(s, i));
          assert FirstKeyAt(s, i, k, KeyFrom(s, i));
        }
      }
    }
  }

  lemma {:induction false} KeyFromSound(s: string, i: nat)
    decreases |s| - i
    ensures KeyFrom(s, i) != [] ==> Contains(s, KeyAttr + KeyFrom(s, i) + "\"") && '"' !in KeyFrom(s, i)
  {
    if i < |s| {
      match KeyAt(s, i)
      case Some(k) => ContainsAt(s, KeyAttr + k + "\"", i);
      case None => KeyFromSound(s, i + 1);
    }
  }

  /** With no quote before it, the first `data-key` attribute with a value gives the key. */
  lemma ExtractFirstKey(pre: string, key: string, post: string)
    requires '"' !in pre && |key| > 0 && '"' !in key
    ensures ExtractKey(pre + KeyAttr + key + "\"" + post) == key
  {
    var s := pre + KeyAttr + key + "\"" + post;
    var q := |pre| + |KeyAttr|;
    assert s[..|pre|] == pre;
    assert s[|pre|..q] == KeyAttr;
    assert s[q..q + |key|] == key;
    assert s[q + |key|] == '"';
    NoKeyBefore(pre, s);
    KeyFromSkip(s, 0, |pre|);
    KeyAtExact(s, |pre|, key);
  }

  /** No `data-key="` starts inside a quote-free prefix that the attribute itself follows. */
  lemma NoKeyBefore(pre: string, s: string)
    requires '"' !in pre
    requires |pre| + |KeyAttr| <= |s| && s[..|pre|] == pre && s[|pre|..|pre| + |KeyAttr|] == KeyAttr
    ensures forall j :: 0 <= j < |pre| ==> KeyAt(s, j).None?
  {
    var q := |pre| + |KeyAttr|;
    forall j | 0 <= j < |pre| ensures !StartsAt(s, j, KeyAttr) {
      assert s[j + 9] != '"' by {
        if j + 9 < |pre| {
          assert s[j + 9] == s[..|pre|][j + 9];
        } else {
          assert s[j + 9] == s[|pre|..q][j + 9 - |pre|];
        }
      }
      assert s[j..j + 10][9] == s[j + 9];
    }
  }

  /** The attribute followed by a non-empty quote-free value and its closing quote yields that value. */
  lemma KeyAtExact(s: string, i: nat, key: string)
    requires StartsAt(s, i, KeyAttr) && |key| > 0 && '"' !in key
    requires i + |KeyAttr| + |key| < |s|
    requires s[i + |KeyAttr|..i + |KeyAttr| + |key|] == key && s[i + |KeyAttr| + |key|] == '"'
    ensures KeyAt(s, i) == Some(key)
  {
    var q := i + |KeyAttr|;
    var t := s[q..];
    assert forall j :: 0 <= j < |key| ==> t[j] == s[q..q + |key|][j];
    assert t[|key|] == s[q + |key|];
    SpanExact(t, NotQuote, |key|);
  }

  lemma SpanExact(t: string, f: char -> bool, n: nat)
    requires n < |t| && !f(t[n])
    requires forall j :: 0 <= j < n ==> f(t[j])
    ensures SpanWhile(t, f) == n
  {
  }

  lemma {:induction false} KeyFromSkip(s: string, i: nat, j: nat)
    requires i <= j <= |s|
    requires forall p :: i <= p < j ==> KeyAt(s, p).None?
    decreases j - i
    ensures KeyFrom(s, i) == KeyFrom(s, j)
  {
    if i < j {
      KeyFromSkip(s, i + 1, j);
    }
  }

  // ---------------------------------------------------------------------------
  // The whole page
  // ---------------------------------------------------------------------------

  datatype Song = Song(title: string, artist: string, key: string, content: string, url: string)

  const SiteDomain: string := "worshipchords.com"

  /**
   * GetSongFromURL on an already fetched and parsed page: the address must
   * name the site, the page must hold chord content; the title is split, the
   * key taken from the raw content and the content laid out.
   */
  function GetSong(url: string, doc: Node): (r: Result<Song>)
    ensures !Contains(url, SiteDomain) <==> r == Err("invalid URL: must be from worshipchords.com")
    ensures r.Err? <==> !Contains(url, SiteDomain) || FindSongChords(doc) == []
    ensures r.Ok? ==> r.value.url == url && r.value.content == FormatChordContent(FindSongChords(doc))
    ensures r.Ok? ==> r.value.key == ExtractKey(FindSongChords(doc))
    ensures r.Ok? ==> TitleParts(r.value.title, r.value.artist) == SplitTitle(PageTitle(doc))
  {
    if !Contains(url, SiteDomain) then Err("invalid URL: must be from worshipchords.com")
    else
      var parts := SplitTitle(PageTitle(doc));
      var chords := FindSongChords(doc);
      if chords == [] then Err("failed to parse HTML: no chord content found")
      else Ok(Song(parts.song, parts.artist, ExtractKey(chords), FormatChordContent(chords), url))
  }
}
