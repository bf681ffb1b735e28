/**
 * The Ultimate Guitar search page: the `js-store` attribute is found the way
 * the handler's regular expression finds it, and the decoded results are
 * narrowed to one per artist, chord sheets first, then the best rated.
 */
module SearchResults {
  import opened Wrappers
  import opened Text
  import opened Search

  // ---------------------------------------------------------------------------
  // The store attribute
  // ---------------------------------------------------------------------------

  /** The literal start of the regular expression `<div class="js-store"[^>]*data-content="([^"]+)"`. */
  const DivOpen: string := "<div class=\"js-store\""
  /** The literal between `[^>]*` and the captured value. */
  const DataAttr: string := "data-content=\""

  /** The first position at or after `from` holding `c`, or `|s|` when there is none. */
  function NextChar(s: string, c: char, from: nat): (r: nat)
    requires from <= |s|
    decreases |s| - from
    ensures from <= r <= |s| && (r < |s| ==> s[r] == c)
    ensures forall k :: from <= k < r ==> s[k] != c
  {
    if from == |s| || s[from] == c then from else NextChar(s, c, from + 1)
  }

  /**
   * `data-content="` at `q`, followed by at least one character other than
   * `"` and then `"`: the greedy `([^"]+)"` can only end at the first
   * quotation mark, so it matches exactly when that is not the first
   * character.
   */
  predicate ValueAt(html: string, q: nat) {
    StartsAt(html, q, DataAttr) && q + |DataAttr| < NextChar(html, '"', q + |DataAttr|) < |html|
  }

  /** The captured group of a match whose `data-content="` is at `q`. */
  function ValueOf(html: string, q: nat): string
    requires ValueAt(html, q)
  {
    html[q + |DataAttr|..NextChar(html, '"', q + |DataAttr|)]
  }

  /** The regular expression matches with `<div` at `p` and `[^>]*` spanning up to `q`. */
  predicate StoreMatch(html: string, p: nat, q: nat) {
    && StartsAt(html, p, DivOpen)
    && p + |DivOpen| <= q
    && ValueAt(html, q)
    && (forall k :: p + |DivOpen| <= k < q ==> html[k] != '>')
  }

  /** The last position in `lo..hi` where a value starts. */
  function LastValue(html: string, lo: nat, hi: nat): (r: Option<nat>)
    decreases hi - lo
    ensures r.Some? ==> lo <= r.value <= hi && ValueAt(html, r.value)
    ensures r.Some? ==> forall q :: r.value < q <= hi ==> !ValueAt(html, q)
    ensures r.None? ==> forall q :: lo <= q <= hi ==> !ValueAt(html, q)
  {
    if hi < lo then None
    else if ValueAt(html, hi) then Some(hi)
    else if hi == lo then None
    else LastValue(html, lo, hi - 1)
  }

  /**
   * The match `<div` at `p` gives, if any: the greedy `[^>]*` runs to the
   * first `>` and gives characters back until `data-content="` and a value
   * follow.
   */
  function MatchAt(html: string, p: nat): (r: Option<nat>)
    requires StartsAt(html, p, DivOpen)
    ensures r.Some? ==> StoreMatch(html, p, r.value)
    ensures r.Some? ==> forall q :: r.value < q ==> !StoreMatch(html, p, q)
    ensures r.None? ==> forall q :: !StoreMatch(html, p, q)
  {
    var lo := p + |DivOpen|;
    var stop := NextChar(html, '>', lo);
    var r := LastValue(html, lo, stop);
    r
  }

  /**
   * FindStringSubmatch: the leftmost `<div` at or after `from` from which
   * the expression matches, with the position of `data-content="` the
   * greedy `[^>]*` settles on.
   */
  function FindFrom(html: string, from: nat): (r: Option<(nat, nat)>)
    decreases |html| - from
    ensures r.Some? ==> from <= r.value.0 && StoreMatch(html, r.value.0, r.value.1)
    ensures r.Some? ==> forall q :: r.value.1 < q ==> !StoreMatch(html, r.value.0, q)
    ensures r.Some? ==> forall p, q :: from <= p < r.value.0 ==> !StoreMatch(html, p, q)
    ensures r.None? ==> forall p, q :: from <= p ==> !StoreMatch(html, p, q)
  {
    if from >= |html| then None
    else if StartsAt(html, from, DivOpen) && MatchAt(html, from).Some? then Some((from, MatchAt(html, from).value))
    else FindFrom(html, from + 1)
  }

  /**
   * The match FindStringSubmatch reports: no match starts before `p`, and of
   * the matches from `p` the greedy `[^>]*` keeps the one with the last `q`.
   */
  ghost predicate LeftmostMatch(html: string, p: nat, q: nat) {
    && StoreMatch(html, p, q)
    && (forall p': nat, q': nat :: p' < p ==> !StoreMatch(html, p', q'))
    && (forall q': nat :: q < q' ==> !StoreMatch(html, p, q'))
  }

  /** The captured `data-content` value of the leftmost match, if the page has one. */
  function FindStore(html: string): (r: Option<string>)
    ensures r.None? <==> forall p, q :: !StoreMatch(html, p, q)
    ensures r.Some? ==> exists p, q :: LeftmostMatch(html, p, q) && r.value == ValueOf(html, q)
  {
    match FindFrom(html, 0)
    case None => None
    case Some((p, q)) =>
      FoundLeftmost(html);
      Some(ValueOf(html, q))
  }

  lemma FoundLeftmost(html: string)
    requires FindFrom(html, 0).Some?
    ensures LeftmostMatch(html, FindFrom(html, 0).value.0, FindFrom(html, 0).value.1)
  {
    var r := FindFrom(html, 0).value;
    assert StoreMatch(html, r.0, r.1);
    forall p': nat, q': nat | p' < r.0 ensures !StoreMatch(html, p', q') {
    }
    forall q': nat | r.1 < q' ensures !StoreMatch(html, r.0, q') {
    }
  }

  // ---------------------------------------------------------------------------
  // Search results
  // ---------------------------------------------------------------------------

  /** One search result; the rating is a JSON number, here a real. */
  datatype SearchResult = SearchResult(id: int, song: string, artist: string, kind: string, url: string, rating: real)

  /**
   * parseSearchResults, with JSON decoding as `parse` and the entity map's
   * iteration order as `order`: a page without the store attribute gives no
   * results and no error.
   */
  function ParseSearchResults(html: string, order: seq<nat>, parse: string -> Result<seq<SearchResult>>): (r: Result<seq<SearchResult>>)
    requires EntityOrder(order)
    ensures (forall p, q :: !StoreMatch(html, p, q)) ==> r == Ok([])
  {
    match FindStore(html)
    case None => Ok([])
    case Some(data) => parse(DecodeHtmlEntities(data, order))
  }

  /** A page without the store's opening tag has no results. */
  lemma NoStoreNoResults(html: string, order: seq<nat>, parse: string -> Result<seq<SearchResult>>)
    requires EntityOrder(order) && !Contains(html, DivOpen)
    ensures ParseSearchResults(html, order, parse) == Ok([])
  {
  }

  // ---------------------------------------------------------------------------
  // The best result per artist
  // ---------------------------------------------------------------------------

  /** The artist a result is filed under: an empty artist counts as `Unknown`. */
  function ArtistKey(r: SearchResult): (a: string)
    ensures a != []
    ensures r.artist != [] ==> a == r.artist
  {
    if r.artist == [] then "Unknown" else r.artist
  }

  predicate IsChords(r: SearchResult) { GoLower(r.kind) == "chords" }

  /**
   * `r` replaces `c`: a chord sheet beats anything else, and within the same
   * kind a strictly higher rating wins.
   */
  predicate Better(r: SearchResult, c: SearchResult) {
    (IsChords(r) && !IsChords(c)) || (IsChords(r) == IsChords(c) && r.rating > c.rating)
  }

  /** Better compares (is a chord sheet, rating) lexicographically, so it is a strict weak order. */
  lemma BetterOrder(x: SearchResult, y: SearchResult, z: SearchResult)
    ensures !Better(x, x)
    ensures Better(x, y) && Better(y, z) ==> Better(x, z)
    ensures Better(x, y) && !Better(z, y) ==> Better(x, z)
  {
  }

  /**
   * The map the loop of filterTopResults has built after the first `n`
   * results: for each artist key, the index of the result it holds.
   */
  function TopUpTo(rs: seq<SearchResult>, n: nat): (m: map<string, nat>)
    requires n <= |rs|
    ensures forall a :: a in m ==> m[a] < n
  {
    if n == 0 then map[]
    else
      var m := TopUpTo(rs, n - 1);
      var a := ArtistKey(rs[n - 1]);
      if a !in m || Better(rs[n - 1], rs[m[a]]) then m[a := n - 1] else m
  }

  /** The artist keys of the first `n` results. */
  function KeysUpTo(rs: seq<SearchResult>, n: nat): set<string>
    requires n <= |rs|
  {
    set j | 0 <= j < n :: ArtistKey(rs[j])
  }

  /** Every key of the map holds the index of one of its own results among the first `n`. */
  predicate HoldsOwn(rs: seq<SearchResult>, n: nat, m: map<string, nat>)
    requires n <= |rs|
  {
    forall a :: a in m ==> m[a] < n && ArtistKey(rs[m[a]]) == a
  }

  /** The result held for an artist is better than every earlier result of that artist. */
  predicate BeatsEarlier(rs: seq<SearchResult>, m: map<string, nat>)
    requires forall a :: a in m ==> m[a] < |rs|
  {
    forall a, j :: a in m && 0 <= j < m[a] && ArtistKey(rs[j]) == a ==> Better(rs[m[a]], rs[j])
  }

  /** No later result among the first `n` is better than the one held for its artist. */
  predicate UnbeatenLater(rs: seq<SearchResult>, n: nat, m: map<string, nat>)
    requires n <= |rs| && forall a :: a in m ==> m[a] < |rs|
  {
    forall a, j :: a in m && m[a] < j < n && ArtistKey(rs[j]) == a ==> !Better(rs[j], rs[m[a]])
  }

  /**
   * What the map holds after `n` results: every artist seen so far, each
   * with one of its own results, better than every earlier one of that
   * artist and beaten by no later one.
   */
  predicate TopKept(rs: seq<SearchResult>, n: nat, m: map<string, nat>)
    requires n <= |rs|
  {
    m.Keys == KeysUpTo(rs, n) && HoldsOwn(rs, n, m) && BeatsEarlier(rs, m) && UnbeatenLater(rs, n, m)
  }

  /** The loop keeps, for every artist, the first of its best results. */
  lemma {:induction false} TopUpToKept(rs: seq<SearchResult>, n: nat)
    requires n <= |rs|
    decreases n
    ensures TopKept(rs, n, TopUpTo(rs, n))
  {
    if n > 0 {
      TopUpToKept(rs, n - 1);
      TopStep(rs, n - 1, n);
    }
  }

  /** One turn of the loop keeps what the map holds. */
  lemma TopStep(rs: seq<SearchResult>, k: nat, n: nat)
    requires n == k + 1 <= |rs| && TopKept(rs, k, TopUpTo(rs, k))
    ensures TopKept(rs, n, TopUpTo(rs, n))
  {
    KeysStep(rs, k, n);
    var m := TopUpTo(rs, k);
    var a := ArtistKey(rs[k]);
    var m' := TopUpTo(rs, n);
    TopUpToNext(rs, k, n, m, m');
    if a !in m || Better(rs[k], rs[m[a]]) {
      TopReplaced(rs, k, n, m, m');
    } else {
      TopKeptOn(rs, k, n, m, m');
    }
  }

  /** One more result either takes its artist's place or leaves the map alone. */
  lemma TopUpToNext(rs: seq<SearchResult>, k: nat, n: nat, m: map<string, nat>, m': map<string, nat>)
    requires n == k + 1 <= |rs| && m == TopUpTo(rs, k) && m' == TopUpTo(rs, n)
    ensures ArtistKey(rs[k]) !in m || Better(rs[k], rs[m[ArtistKey(rs[k])]]) ==> m' == m[ArtistKey(rs[k]) := k]
    ensures ArtistKey(rs[k]) in m && !Better(rs[k], rs[m[ArtistKey(rs[k])]]) ==> m' == m
  {
  }

  /** A result that is its artist's first or beats the one held takes that artist's place. */
  lemma TopReplaced(rs: seq<SearchResult>, k: nat, n: nat, m: map<string, nat>, m': map<string, nat>)
    requires n == k + 1 <= |rs| && TopKept(rs, k, m)
    requires KeysUpTo(rs, n) == KeysUpTo(rs, k) + {ArtistKey(rs[k])}
    requires ArtistKey(rs[k]) !in m || Better(rs[k], rs[m[ArtistKey(rs[k])]])
    requires m' == m[ArtistKey(rs[k]) := k]
    ensures TopKept(rs, n, m')
  {
    assert m'.Keys == m.Keys + {ArtistKey(rs[k])};
    ReplaceOwn(rs, k, n, m);
    ReplaceEarlier(rs, k, m);
    ReplaceLater(rs, k, n, m);
  }

  /** A result no better than the one held for its artist leaves the map as it is. */
  lemma TopKeptOn(rs: seq<SearchResult>, k: nat, n: nat, m: map<string, nat>, m': map<string, nat>)
    requires n == k + 1 <= |rs| && TopKept(rs, k, m)
    requires KeysUpTo(rs, n) == KeysUpTo(rs, k) + {ArtistKey(rs[k])}
    requires ArtistKey(rs[k]) in m && !Better(rs[k], rs[m[ArtistKey(rs[k])]])
    requires m' == m
    ensures TopKept(rs, n, m')
  {
    assert m.Keys + {ArtistKey(rs[k])} == m.Keys;
    assert HoldsOwn(rs, n, m);
    KeepLater(rs, k, n, m);
  }

  lemma KeysStep(rs: seq<SearchResult>, k: nat, n: nat)
    requires n == k + 1 <= |rs|
    ensures KeysUpTo(rs, n) == KeysUpTo(rs, k) + {ArtistKey(rs[k])}
  {
    forall b | b in KeysUpTo(rs, n) ensures b in KeysUpTo(rs, k) + {ArtistKey(rs[k])} {
      var j :| 0 <= j < n && ArtistKey(rs[j]) == b;
      if j < k {
        assert b in KeysUpTo(rs, k);
      }
    }
    forall b | b in KeysUpTo(rs, k) ensures b in KeysUpTo(rs, n) {
      var j :| 0 <= j < k && ArtistKey(rs[j]) == b;
    }
    assert ArtistKey(rs[k]) in KeysUpTo(rs, n);
  }

  lemma ReplaceOwn(rs: seq<SearchResult>, k: nat, n: nat, m: map<string, nat>)
    requires n == k + 1 <= |rs| && HoldsOwn(rs, k, m)
    ensures HoldsOwn(rs, n, m[ArtistKey(rs[k]) := k])
  {
  }

  /** Result `n` is the first of its artist, or better than the one held: it beats all earlier ones. */
  lemma ReplaceEarlier(rs: seq<SearchResult>, n: nat, m: map<string, nat>)
    requires n < |rs| && m.Keys == KeysUpTo(rs, n) && HoldsOwn(rs, n, m) && BeatsEarlier(rs, m) && UnbeatenLater(rs, n, m)
    requires ArtistKey(rs[n]) !in m || Better(rs[n], rs[m[ArtistKey(rs[n])]])
    ensures BeatsEarlier(rs, m[ArtistKey(rs[n]) := n])
  {
    var a := ArtistKey(rs[n]);
    forall j | 0 <= j < n && ArtistKey(rs[j]) == a ensures Better(rs[n], rs[j]) {
      assert a in KeysUpTo(rs, n);
      var w := m[a];
      if j != w {
        BetterOrder(rs[n], rs[w], rs[j]);
      }
    }
  }

  lemma ReplaceLater(rs: seq<SearchResult>, k: nat, n: nat, m: map<string, nat>)
    requires n == k + 1 <= |rs| && HoldsOwn(rs, k, m) && UnbeatenLater(rs, k, m)
    ensures UnbeatenLater(rs, n, m[ArtistKey(rs[k]) := k])
  {
  }

  /** Result `n` is no better than the one held for its artist: it is not a better later result. */
  lemma KeepLater(rs: seq<SearchResult>, k: nat, n: nat, m: map<string, nat>)
    requires n == k + 1 <= |rs| && HoldsOwn(rs, k, m) && UnbeatenLater(rs, k, m)
    requires ArtistKey(rs[k]) in m && !Better(rs[k], rs[m[ArtistKey(rs[k])]])
    ensures UnbeatenLater(rs, n, m)
  {
  }

  /** The map built from all results. */
  function TopIndices(rs: seq<SearchResult>): map<string, nat> {
    TopUpTo(rs, |rs|)
  }

  /**
   * filterTopResults, with the map's iteration order as `keys`: the result
   * held for every artist, once each.
   */
  function FilterTopResults(rs: seq<SearchResult>, keys: seq<string>): (out: seq<SearchResult>)
    requires forall i :: 0 <= i < |keys| ==> keys[i] in TopIndices(rs)
    ensures |out| == |keys|
    ensures forall i :: 0 <= i < |keys| ==> out[i] in rs
  {
    var m := TopIndices(rs);
    seq(|keys|, i requires 0 <= i < |keys| => rs[m[keys[i]]])
  }

  /** An iteration order of the map: every artist key exactly once. */
  predicate MapOrder(keys: seq<string>, domain: set<string>) {
    && (forall i :: 0 <= i < |keys| ==> keys[i] in domain)
    && (forall i, j :: 0 <= i < j < |keys| ==> keys[i] != keys[j])
    && (forall a :: a in domain ==> a in keys)
  }

  /** Output `i` is a result of artist `keys[i]`, so no two outputs share an artist. */
  lemma FilterOnePerArtist(rs: seq<SearchResult>, keys: seq<string>)
    requires MapOrder(keys, TopIndices(rs).Keys)
    ensures var out := FilterTopResults(rs, keys);
      && (forall i :: 0 <= i < |out| ==> ArtistKey(out[i]) == keys[i])
      && (forall i, j :: 0 <= i < j < |out| ==> ArtistKey(out[i]) != ArtistKey(out[j]))
  {
    TopUpToKept(rs, |rs|);
  }

  /** Every artist of the input is represented in the output. */
  lemma FilterCoversArtists(rs: seq<SearchResult>, keys: seq<string>)
    requires MapOrder(keys, TopIndices(rs).Keys)
    ensures var out := FilterTopResults(rs, keys);
      forall k :: 0 <= k < |rs| ==> exists i :: 0 <= i < |out| && ArtistKey(out[i]) == ArtistKey(rs[k])
  {
    var out := FilterTopResults(rs, keys);
    FilterOnePerArtist(rs, keys);
    TopUpToKept(rs, |rs|);
    forall k | 0 <= k < |rs| ensures exists i :: 0 <= i < |out| && ArtistKey(out[i]) == ArtistKey(rs[k]) {
      var a := ArtistKey(rs[k]);
      assert a in KeysUpTo(rs, |rs|);
      var i :| 0 <= i < |keys| && keys[i] == a;
      assert ArtistKey(out[i]) == a;
    }
  }

  /** No result of an artist is better than the output for that artist. */
  lemma FilterBest(rs: seq<SearchResult>, keys: seq<string>)
    requires MapOrder(keys, TopIndices(rs).Keys)
    ensures var out := FilterTopResults(rs, keys);
      forall i, k :: 0 <= i < |out| && 0 <= k < |rs| && ArtistKey(rs[k]) == keys[i] ==> !Better(rs[k], out[i])
  {
    var m, out := TopIndices(rs), FilterTopResults(rs, keys);
    TopUpToKept(rs, |rs|);
    forall i, k | 0 <= i < |out| && 0 <= k < |rs| && ArtistKey(rs[k]) == keys[i] ensures !Better(rs[k], out[i]) {
      var w := m[keys[i]];
      assert out[i] == rs[w];
      BetterOrder(rs[w], rs[k], rs[k]);
      if k < w {
        BetterOrder(rs[k], rs[w], rs[w]);
      }
    }
  }

  /** Among equally good results of an artist, the first one is the one kept. */
  lemma TiesKeepFirst(rs: seq<SearchResult>, j: nat, k: nat)
    requires j < k < |rs| && ArtistKey(rs[j]) == ArtistKey(rs[k])
    requires !Better(rs[j], rs[k]) && !Better(rs[k], rs[j])
    ensures ArtistKey(rs[k]) in TopIndices(rs) && TopIndices(rs)[ArtistKey(rs[k])] != k
  {
    TopUpToKept(rs, |rs|);
    assert ArtistKey(rs[k]) in KeysUpTo(rs, |rs|);
  }

  /** An artist with a chord sheet among its results is represented by a chord sheet. */
  lemma ChordsWin(rs: seq<SearchResult>, k: nat)
    requires k < |rs| && IsChords(rs[k])
    ensures var m, a := TopIndices(rs), ArtistKey(rs[k]);
      a in m && m[a] < |rs| && IsChords(rs[m[a]])
  {
    TopUpToKept(rs, |rs|);
    var m, a := TopIndices(rs), ArtistKey(rs[k]);
    assert a in KeysUpTo(rs, |rs|);
    var w := m[a];
    if k < w {
      BetterOrder(rs[w], rs[k], rs[k]);
    }
  }
}
