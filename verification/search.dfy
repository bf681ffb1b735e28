/**
 * Post-processing of an Ultimate Guitar search page: the store attribute is
 * located, its HTML entities are decoded, and the results are narrowed to the
 * best one per artist.
 */
module Search {
  import opened Wrappers
  import opened Text

  // ---------------------------------------------------------------------------
  // HTML entities
  // ---------------------------------------------------------------------------

  /** An entity name and the character it stands for. */
  datatype Entity = Entity(name: string, decoded: char)

  /** The entities decodeHTMLEntities knows, numbered in the order of its map literal. */
  const Table: seq<Entity> := [
    Entity("&quot;", '"'), Entity("&amp;", '&'), Entity("&#39;", '\''), Entity("&lt;", '<'), Entity("&gt;", '>')
  ]

  /** The index of `&amp;`, the one entity whose character starts an entity name. */
  const Amp: nat := 1

  /** The characters the entities other than `&amp;` stand for. */
  predicate IsDecoded(c: char) { c == '"' || c == '\'' || c == '<' || c == '>' }

  /**
   * The shape of the entity names the decoding relies on: each begins with
   * `&`, holds no other `&` and none of the decoded characters, and the
   * second character tells them apart.
   */
  predicate Shaped(t: seq<Entity>) {
    && (forall e :: 0 <= e < |t| ==> |t[e].name| >= 2 && t[e].name[0] == '&')
    && (forall e, k :: 0 <= e < |t| && 1 <= k < |t[e].name| ==> t[e].name[k] != '&')
    && (forall e, k :: 0 <= e < |t| && 0 <= k < |t[e].name| ==> !IsDecoded(t[e].name[k]))
    && (forall e1, e2 :: 0 <= e1 < e2 < |t| ==> t[e1].name[1] != t[e2].name[1])
  }

  /** An entity table of that shape. */
  type EntityTable = t: seq<Entity> | Shaped(t) witness []

  /** A set of entity indices whose characters are all decoded characters: `&amp;` left out. */
  predicate Decodes(t: seq<Entity>, E: set<nat>) {
    forall e :: e in E ==> e < |t| && IsDecoded(t[e].decoded)
  }

  /** The table has that shape, and `&amp;` is the only entity whose character is not a decoded one. */
  lemma TableShaped()
    ensures Shaped(Table) && |Table| == 5
    ensures Table[Amp] == Entity("&amp;", '&')
    ensures forall e :: 0 <= e < |Table| && e != Amp ==> IsDecoded(Table[e].decoded)
  {
    forall e | 0 <= e < |Table| ensures CleanName(Table[e].name) {
      EntityNameClean(e);
    }
    assert forall e1, e2 :: 0 <= e1 < e2 < |Table| ==> Table[e1].name[1] != Table[e2].name[1];
  }

  /** One entity name's part of the shape. */
  predicate CleanName(n: string) {
    && |n| >= 2 && n[0] == '&'
    && (forall k :: 1 <= k < |n| ==> n[k] != '&')
    && (forall k :: 0 <= k < |n| ==> !IsDecoded(n[k]))
  }

  lemma EntityNameClean(e: nat)
    requires e < |Table|
    ensures CleanName(Table[e].name)
  {
    var n := Table[e].name;
    assert n == ["&quot;", "&amp;", "&#39;", "&lt;", "&gt;"][e];
    forall k | 0 <= k < |n| ensures !IsDecoded(n[k]) && (k >= 1 ==> n[k] != '&') {
    }
  }

  /** At most one entity starts at any position. */
  lemma OneEntityAt(t: EntityTable, s: string, i: nat, e1: nat, e2: nat)
    requires e1 < |t| && e2 < |t|
    requires StartsAt(s, i, t[e1].name) && StartsAt(s, i, t[e2].name)
    ensures e1 == e2
  {
    assert s[i..i + |t[e1].name|][1] == s[i + 1] == s[i..i + |t[e2].name|][1];
  }

  /**
   * A Go map iteration order over the entity table: every entity exactly
   * once. decodeHTMLEntities ranges over a map, so the order is not fixed.
   */
  predicate EntityOrder(order: seq<nat>) {
    && |order| == |Table|
    && (forall i :: 0 <= i < |order| ==> order[i] < |Table|)
    && (forall i, j :: 0 <= i < j < |order| ==> order[i] != order[j])
    && (forall e :: 0 <= e < |Table| ==> e in order)
  }

  /** Every entity of `order`, in turn, replaced everywhere in the text. */
  function DecodeIn(t: seq<Entity>, s: string, order: seq<nat>): string
    requires forall k :: 0 <= k < |order| ==> order[k] < |t| && |t[order[k]].name| > 0
    decreases |order|
  {
    if |order| == 0 then s
    else DecodeIn(t, ReplaceAll(s, t[order[0]].name, [t[order[0]].decoded]), order[1..])
  }

  /** decodeHTMLEntities, with the map iteration order as `order`. */
  function DecodeHtmlEntities(s: string, order: seq<nat>): string
    requires EntityOrder(order)
  {
    TableShaped();
    DecodeIn(Table, s, order)
  }

  // --- The simultaneous decoder, the reference the passes are compared with ---

  /** Indices of entities with non-empty names. */
  predicate Indices(t: seq<Entity>, E: set<nat>) { forall e :: e in E ==> e < |t| && |t[e].name| > 0 }

  /** The entity of `E` whose name starts at `i`, if any. */
  function EntityAt(t: seq<Entity>, s: string, E: set<nat>, i: nat): (r: Option<nat>)
    requires Indices(t, E)
    ensures r.Some? ==> r.value in E && StartsAt(s, i, t[r.value].name)
    ensures r.None? ==> forall e :: e in E ==> !StartsAt(s, i, t[e].name)
  {
    EntityFrom(t, s, E, i, 0)
  }

  function EntityFrom(t: seq<Entity>, s: string, E: set<nat>, i: nat, e: nat): (r: Option<nat>)
    requires Indices(t, E) && e <= |t|
    decreases |t| - e
    ensures r.Some? ==> r.value in E && StartsAt(s, i, t[r.value].name)
    ensures r.None? ==> forall x :: x in E && e <= x ==> !StartsAt(s, i, t[x].name)
  {
    if e == |t| then None
    else if e in E && StartsAt(s, i, t[e].name) then Some(e)
    else EntityFrom(t, s, E, i, e + 1)
  }

  /**
   * Every entity of `E` replaced in one left-to-right scan, the scan
   * resuming after each replaced entity.
   */
  function DecodeFrom(t: seq<Entity>, s: string, E: set<nat>, i: nat): string
    requires Indices(t, E) && i <= |s|
    decreases |s| - i
  {
    if i == |s| then []
    else match EntityAt(t, s, E, i)
      case Some(e) => [t[e].decoded] + DecodeFrom(t, s, E, i + |t[e].name|)
      case None => [s[i]] + DecodeFrom(t, s, E, i + 1)
  }

  /** A position not holding `&` starts no entity. */
  lemma NoAmpNoEntity(t: EntityTable, s: string, E: set<nat>, i: nat)
    requires Indices(t, E) && i < |s| && s[i] != '&'
    ensures EntityAt(t, s, E, i) == None
  {
    forall e | e in E ensures !StartsAt(s, i, t[e].name) {
      NoStartAt(s, t[e].name, i, 0);
    }
  }

  lemma DecodeSkip(t: seq<Entity>, s: string, E: set<nat>, i: nat)
    requires Indices(t, E) && i < |s| && EntityAt(t, s, E, i) == None
    ensures DecodeFrom(t, s, E, i) == [s[i]] + DecodeFrom(t, s, E, i + 1)
  {
  }

  lemma DecodeHit(t: seq<Entity>, s: string, E: set<nat>, i: nat, e: nat, j: nat)
    requires Indices(t, E) && i < |s| && EntityAt(t, s, E, i) == Some(e) && j == i + |t[e].name|
    ensures j <= |s| && DecodeFrom(t, s, E, i) == [t[e].decoded] + DecodeFrom(t, s, E, j)
  {
  }

  /** A stretch where no entity of `E` starts is copied. */
  lemma {:induction false} DecodeCopy(t: seq<Entity>, s: string, E: set<nat>, i: nat, j: nat)
    requires Indices(t, E) && i <= j <= |s|
    requires forall k :: i <= k < j ==> EntityAt(t, s, E, k) == None
    decreases j - i
    ensures DecodeFrom(t, s, E, i) == s[i..j] + DecodeFrom(t, s, E, j)
  {
    if i < j {
      DecodeCopy(t, s, E, i + 1, j);
      CopyStep(t, s, E, i, j);
    } else {
      assert s[i..j] == [];
    }
  }

  lemma CopyStep(t: seq<Entity>, s: string, E: set<nat>, i: nat, j: nat)
    requires Indices(t, E) && i < j <= |s| && EntityAt(t, s, E, i) == None
    requires DecodeFrom(t, s, E, i + 1) == s[i + 1..j] + DecodeFrom(t, s, E, j)
    ensures DecodeFrom(t, s, E, i) == s[i..j] + DecodeFrom(t, s, E, j)
  {
    DecodeSkip(t, s, E, i);
    assert s[i..j] == [s[i]] + s[i + 1..j];
  }

  /** With no entity to decode the text is unchanged. */
  lemma DecodeNothing(t: seq<Entity>, s: string)
    ensures DecodeFrom(t, s, {}, 0) == s
  {
    DecodeCopy(t, s, {}, 0, |s|);
    assert s[0..|s|] == s;
  }

  /** The first `n` characters of `x` are none of the decoded characters. */
  predicate PlainPrefix(x: string, n: nat) {
    n <= |x| && forall q :: 0 <= q < n ==> !IsDecoded(x[q])
  }

  /** The first `n` characters of `x` are those of `s` from `i` on. */
  predicate CopiedPrefix(x: string, s: string, i: nat, n: nat) {
    n <= |x| && i + n <= |s| && forall q :: 0 <= q < n ==> x[q] == s[i + q]
  }

  /**
   * The start of the decoded text, as long as it holds no decoded
   * character, is the start of the text itself.
   */
  lemma {:induction false} DecodePrefix(t: seq<Entity>, s: string, E: set<nat>, i: nat, n: nat)
    requires Indices(t, E) && Decodes(t, E) && i <= |s|
    decreases n
    ensures PlainPrefix(DecodeFrom(t, s, E, i), n) ==> CopiedPrefix(DecodeFrom(t, s, E, i), s, i, n)
  {
    var x := DecodeFrom(t, s, E, i);
    if 0 < n && i < |s| {
      match EntityAt(t, s, E, i)
      case Some(e) =>
        DecodeHit(t, s, E, i, e, i + |t[e].name|);
        assert x[0] == t[e].decoded;
      case None =>
        DecodePrefix(t, s, E, i + 1, n - 1);
        DecodeSkip(t, s, E, i);
        PrefixCons(x, DecodeFrom(t, s, E, i + 1), s, i, n);
    }
  }

  lemma PrefixCons(x: string, y: string, s: string, i: nat, n: nat)
    requires i < |s| && 0 < n && x == [s[i]] + y
    requires PlainPrefix(y, n - 1) ==> CopiedPrefix(y, s, i + 1, n - 1)
    ensures PlainPrefix(x, n) ==> CopiedPrefix(x, s, i, n)
  {
    if PlainPrefix(x, n) {
      assert forall q :: 0 <= q < n - 1 ==> y[q] == x[q + 1];
      assert PlainPrefix(y, n - 1);
    }
  }

  /** An entity name at the start of the decoded text was in the text already. */
  lemma DecodedStartsAt(t: EntityTable, s: string, E: set<nat>, i: nat, e: nat)
    requires Indices(t, E) && Decodes(t, E) && i <= |s| && e < |t|
    ensures StartsAt(DecodeFrom(t, s, E, i), 0, t[e].name) ==> StartsAt(s, i, t[e].name)
  {
    var x, p := DecodeFrom(t, s, E, i), t[e].name;
    if StartsAt(x, 0, p) {
      forall q | 0 <= q < |p| ensures x[q] == p[q] {
        assert x[q] == x[0..|p|][q];
      }
      DecodePrefix(t, s, E, i, |p|);
      assert s[i..i + |p|] == p;
    }
  }

  /** Adding entity `e` to the set makes no difference at a position where an entity of the set starts. */
  lemma SameEntityAt(t: EntityTable, s: string, E: set<nat>, e: nat, i: nat)
    requires Indices(t, E + {e}) && EntityAt(t, s, E, i).Some?
    ensures EntityAt(t, s, E + {e}, i) == EntityAt(t, s, E, i)
  {
    var x := EntityAt(t, s, E, i).value;
    match EntityAt(t, s, E + {e}, i)
    case Some(y) => OneEntityAt(t, s, i, x, y);
    case None =>
  }

  /** Where no entity of the set starts, the enlarged set finds `e` exactly when `e` starts there. */
  lemma NewEntityAt(t: EntityTable, s: string, E: set<nat>, e: nat, i: nat)
    requires Indices(t, E + {e}) && EntityAt(t, s, E, i).None?
    ensures EntityAt(t, s, E + {e}, i) == if StartsAt(s, i, t[e].name) then Some(e) else None
  {
    match EntityAt(t, s, E + {e}, i)
    case Some(y) =>
      if StartsAt(s, i, t[e].name) {
        OneEntityAt(t, s, i, e, y);
      }
    case None =>
  }

  /**
   * One pass over the text decoded simultaneously for `E` gives the text
   * decoded simultaneously for `E` and `e`: the pass finds exactly the
   * occurrences of `e` the simultaneous scan would have found.
   */
  lemma {:induction false} PassExtends(t: EntityTable, s: string, E: set<nat>, e: nat, i: nat)
    requires Indices(t, E + {e}) && Decodes(t, E) && i <= |s|
    decreases |s| - i
    ensures ReplaceAll(DecodeFrom(t, s, E, i), t[e].name, [t[e].decoded]) == DecodeFrom(t, s, E + {e}, i)
  {
    if i < |s| {
      var j, w := PassStep(t, s, E, e, i);
      PassExtends(t, s, E, e, j);
    }
  }

  /**
   * From `i` both sides produce the same text `w` while reading up to `j`:
   * an entity of `E`, an occurrence of `e`, or one copied character.
   */
  lemma PassStep(t: EntityTable, s: string, E: set<nat>, e: nat, i: nat) returns (j: nat, w: string)
    requires Indices(t, E + {e}) && Decodes(t, E) && i < |s|
    ensures i < j <= |s|
    ensures ReplaceAll(DecodeFrom(t, s, E, i), t[e].name, [t[e].decoded]) == w + ReplaceAll(DecodeFrom(t, s, E, j), t[e].name, [t[e].decoded])
    ensures DecodeFrom(t, s, E + {e}, i) == w + DecodeFrom(t, s, E + {e}, j)
  {
    match EntityAt(t, s, E, i)
    case Some(x) =>
      j, w := OtherStep(t, s, E, e, i, x);
    case None =>
      if StartsAt(s, i, t[e].name) {
        j, w := HitStep(t, s, E, e, i);
      } else {
        j, w := MissStep(t, s, E, e, i);
      }
  }

  lemma OtherStep(t: EntityTable, s: string, E: set<nat>, e: nat, i: nat, x: nat) returns (j: nat, w: string)
    requires Indices(t, E + {e}) && Decodes(t, E) && i < |s| && EntityAt(t, s, E, i) == Some(x)
    ensures i < j <= |s|
    ensures ReplaceAll(DecodeFrom(t, s, E, i), t[e].name, [t[e].decoded]) == w + ReplaceAll(DecodeFrom(t, s, E, j), t[e].name, [t[e].decoded])
    ensures DecodeFrom(t, s, E + {e}, i) == w + DecodeFrom(t, s, E + {e}, j)
  {
    j, w := i + |t[x].name|, [t[x].decoded];
    OtherFacts(t, s, E, e, i, x, j);
  }

  lemma HitStep(t: EntityTable, s: string, E: set<nat>, e: nat, i: nat) returns (j: nat, w: string)
    requires Indices(t, E + {e}) && i < |s| && EntityAt(t, s, E, i) == None && StartsAt(s, i, t[e].name)
    ensures i < j <= |s|
    ensures ReplaceAll(DecodeFrom(t, s, E, i), t[e].name, [t[e].decoded]) == w + ReplaceAll(DecodeFrom(t, s, E, j), t[e].name, [t[e].decoded])
    ensures DecodeFrom(t, s, E + {e}, i) == w + DecodeFrom(t, s, E + {e}, j)
  {
    j, w := i + |t[e].name|, [t[e].decoded];
    HitFacts(t, s, E, e, i, j);
  }

  lemma MissStep(t: EntityTable, s: string, E: set<nat>, e: nat, i: nat) returns (j: nat, w: string)
    requires Indices(t, E + {e}) && Decodes(t, E) && i < |s| && EntityAt(t, s, E, i) == None && !StartsAt(s, i, t[e].name)
    ensures i < j <= |s|
    ensures ReplaceAll(DecodeFrom(t, s, E, i), t[e].name, [t[e].decoded]) == w + ReplaceAll(DecodeFrom(t, s, E, j), t[e].name, [t[e].decoded])
    ensures DecodeFrom(t, s, E + {e}, i) == w + DecodeFrom(t, s, E + {e}, j)
  {
    MissFacts(t, s, E, e, i);
    j, w := i + 1, [s[i]];
  }

  /** Both scans decode the entity of `E` at `i`, and the pass copies the character it becomes. */
  lemma OtherFacts(t: EntityTable, s: string, E: set<nat>, e: nat, i: nat, x: nat, j: nat)
    requires Indices(t, E + {e}) && Decodes(t, E) && i < |s| && EntityAt(t, s, E, i) == Some(x) && j == i + |t[x].name|
    ensures j <= |s|
    ensures ReplaceAll(DecodeFrom(t, s, E, i), t[e].name, [t[e].decoded])
      == [t[x].decoded] + ReplaceAll(DecodeFrom(t, s, E, j), t[e].name, [t[e].decoded])
    ensures DecodeFrom(t, s, E + {e}, i) == [t[x].decoded] + DecodeFrom(t, s, E + {e}, j)
  {
    DecodeHit(t, s, E, i, x, j);
    SameEntityAt(t, s, E, e, i);
    DecodeHit(t, s, E + {e}, i, x, j);
    ReplaceLeadingMiss(t[x].decoded, DecodeFrom(t, s, E, j), t[e].name, [t[e].decoded]);
  }

  /** The scan for `E` copies the occurrence, the pass replaces it, and the scan for `E` and `e` decodes it. */
  lemma HitFacts(t: EntityTable, s: string, E: set<nat>, e: nat, i: nat, j: nat)
    requires Indices(t, E + {e}) && i < |s| && EntityAt(t, s, E, i) == None && StartsAt(s, i, t[e].name) && j == i + |t[e].name|
    ensures ReplaceAll(DecodeFrom(t, s, E, i), t[e].name, [t[e].decoded])
      == [t[e].decoded] + ReplaceAll(DecodeFrom(t, s, E, j), t[e].name, [t[e].decoded])
    ensures DecodeFrom(t, s, E + {e}, i) == [t[e].decoded] + DecodeFrom(t, s, E + {e}, j)
  {
    HitCopied(t, s, E, e, i, j);
    ReplaceLeading(t[e].name, DecodeFrom(t, s, E, j), [t[e].decoded]);
    NewEntityAt(t, s, E, e, i);
    DecodeHit(t, s, E + {e}, i, e, j);
  }

  /** The scan for `E` copies an occurrence of `e`: no entity of `E` starts inside it. */
  lemma HitCopied(t: EntityTable, s: string, E: set<nat>, e: nat, i: nat, j: nat)
    requires Indices(t, E + {e}) && i < |s| && EntityAt(t, s, E, i) == None && StartsAt(s, i, t[e].name) && j == i + |t[e].name|
    ensures DecodeFrom(t, s, E, i) == t[e].name + DecodeFrom(t, s, E, j)
  {
    InsideNoEntity(t, s, E, e, i, j);
    DecodeCopy(t, s, E, i, j);
    assert s[i..j] == t[e].name;
  }

  /** Inside an occurrence of `e` there is no `&`, so no entity starts there. */
  lemma InsideNoEntity(t: EntityTable, s: string, E: set<nat>, e: nat, i: nat, j: nat)
    requires Indices(t, E) && e < |t| && StartsAt(s, i, t[e].name) && j == i + |t[e].name|
    ensures forall k :: i < k < j ==> EntityAt(t, s, E, k) == None
  {
    forall k | i < k < j ensures EntityAt(t, s, E, k) == None {
      assert s[k] == s[i..j][k - i];
      NoAmpNoEntity(t, s, E, k);
    }
  }

  /** Where neither `e` nor an entity of `E` starts, the character is copied by both. */
  lemma MissFacts(t: EntityTable, s: string, E: set<nat>, e: nat, i: nat)
    requires Indices(t, E + {e}) && Decodes(t, E) && i < |s| && EntityAt(t, s, E, i) == None && !StartsAt(s, i, t[e].name)
    ensures ReplaceAll(DecodeFrom(t, s, E, i), t[e].name, [t[e].decoded])
      == [s[i]] + ReplaceAll(DecodeFrom(t, s, E, i + 1), t[e].name, [t[e].decoded])
    ensures DecodeFrom(t, s, E + {e}, i) == [s[i]] + DecodeFrom(t, s, E + {e}, i + 1)
  {
    var p, r := t[e].name, [t[e].decoded];
    var rest := DecodeFrom(t, s, E, i + 1);
    DecodeSkip(t, s, E, i);
    DecodedStartsAt(t, s, E, i, e);
    if s[i] == p[0] {
      ReplaceSkip([s[i]] + rest, p, r, 0);
      ReplaceShift([s[i]], rest, p, r, 0);
    } else {
      ReplaceLeadingMiss(s[i], rest, p, r);
    }
    NewEntityAt(t, s, E, e, i);
    DecodeSkip(t, s, E + {e}, i);
  }

  // --- Assembling the passes ---

  /** `p` starts nowhere in `x`. */
  predicate Absent(x: string, p: string) {
    forall k :: 0 <= k < |x| ==> !StartsAt(x, k, p)
  }

  /** An entity name absent from the text is absent from the decoded text: decoding creates no names. */
  lemma {:induction false} AbsentDecoded(t: EntityTable, s: string, E: set<nat>, i: nat, a: nat)
    requires Indices(t, E) && Decodes(t, E) && a < |t| && i <= |s|
    requires forall k :: i <= k ==> !StartsAt(s, k, t[a].name)
    decreases |s| - i
    ensures Absent(DecodeFrom(t, s, E, i), t[a].name)
  {
    if i < |s| {
      var p, x := t[a].name, DecodeFrom(t, s, E, i);
      var j: nat, c: char;
      match EntityAt(t, s, E, i) {
        case Some(y) =>
          j, c := i + |t[y].name|, t[y].decoded;
          DecodeHit(t, s, E, i, y, j);
        case None =>
          j, c := i + 1, s[i];
          DecodeSkip(t, s, E, i);
      }
      var rest := DecodeFrom(t, s, E, j);
      assert x == [c] + rest;
      AbsentDecoded(t, s, E, j, a);
      DecodedStartsAt(t, s, E, i, a);
      forall k | 0 < k < |x| ensures !StartsAt(x, k, p) {
        ShiftStartsAt([c], rest, p, k - 1);
      }
    }
  }

  /** The entities of `order` other than `a`. */
  function Kept(order: seq<nat>, a: nat): set<nat> {
    set k | 0 <= k < |order| && order[k] != a :: order[k]
  }

  /**
   * Running the passes of `order` over the text decoded simultaneously for
   * `E` decodes simultaneously for `E` and the entities of `order`, as long
   * as the one entity `a` whose character may start a name never occurs:
   * its pass then finds nothing.
   */
  lemma {:induction false} PassesDecode(t: EntityTable, s: string, E: set<nat>, order: seq<nat>, a: nat)
    requires a < |t| && Indices(t, E) && Decodes(t, E)
    requires forall k :: 0 <= k < |order| ==> order[k] < |t| && (order[k] == a || IsDecoded(t[order[k]].decoded))
    requires forall k :: 0 <= k ==> !StartsAt(s, k, t[a].name)
    decreases |order|
    ensures DecodeIn(t, DecodeFrom(t, s, E, 0), order) == DecodeFrom(t, s, E + Kept(order, a), 0)
  {
    if |order| == 0 {
      assert E + Kept(order, a) == E;
    } else {
      var E' := PassesStep(t, s, E, order, a);
      PassesDecode(t, s, E', order[1..], a);
    }
  }

  /** The first pass of `order`, and the entities it adds to the simultaneous decoding. */
  lemma PassesStep(t: EntityTable, s: string, E: set<nat>, order: seq<nat>, a: nat) returns (E': set<nat>)
    requires a < |t| && Indices(t, E) && Decodes(t, E) && |order| > 0
    requires forall k :: 0 <= k < |order| ==> order[k] < |t| && (order[k] == a || IsDecoded(t[order[k]].decoded))
    requires forall k :: 0 <= k ==> !StartsAt(s, k, t[a].name)
    ensures Indices(t, E') && Decodes(t, E')
    ensures ReplaceAll(DecodeFrom(t, s, E, 0), t[order[0]].name, [t[order[0]].decoded]) == DecodeFrom(t, s, E', 0)
    ensures E' + Kept(order[1..], a) == E + Kept(order, a)
  {
    var o, x := order[0], DecodeFrom(t, s, E, 0);
    if o == a {
      AbsentDecoded(t, s, E, 0, a);
      ReplaceNone(x, t[a].name, [t[a].decoded]);
      E' := E;
    } else {
      PassExtends(t, s, E, o, 0);
      E' := E + {o};
    }
    KeptStep(order, a);
  }

  lemma KeptStep(order: seq<nat>, a: nat)
    requires |order| > 0
    ensures Kept(order, a) == (if order[0] == a then {} else {order[0]}) + Kept(order[1..], a)
  {
    var tail := order[1..];
    assert forall k :: 0 <= k < |tail| ==> tail[k] == order[k + 1];
  }


  // --- decodeHTMLEntities ---

  /** The entities whose characters are not `&`: all but `&amp;`. */
  const Decoded: set<nat> := {0, 2, 3, 4}

  /** The decoded entities are entries of the table with non-empty names. */
  lemma DecodedIndices()
    ensures Indices(Table, Decoded)
  {
    forall e | e in Decoded ensures e < |Table| && |Table[e].name| > 0 {
      assert e == 0 || e == 2 || e == 3 || e == 4;
    }
  }

  lemma KeptAll(order: seq<nat>)
    requires EntityOrder(order)
    ensures Kept(order, Amp) == Decoded
  {
    assert |Table| == 5;
    forall x | x in Decoded ensures x in Kept(order, Amp) {
      assert x in order;
      var k :| 0 <= k < |order| && order[k] == x;
    }
  }

  /** A text with no `p` anywhere does not contain `p`. */
  lemma AbsentNotContained(s: string, p: string)
    requires |p| > 0 && forall k :: 0 <= k < |s| ==> !StartsAt(s, k, p)
    ensures !Contains(s, p)
  {
  }

  /**
   * On a text without `&amp;`, decodeHTMLEntities decodes every other
   * entity in one left-to-right scan, whatever order the map is iterated
   * in: no pass can create or break an occurrence another pass looks for.
   */
  lemma DecodeOrderFree(s: string, order: seq<nat>)
    requires EntityOrder(order) && !Contains(s, "&amp;")
    ensures DecodeHtmlEntities(s, order) == DecodeFrom(Table, s, Decoded, 0)
  {
    TableShaped();
    var t: EntityTable := Table;
    DecodeNothing(t, s);
    PassesDecode(t, s, {}, order, Amp);
    KeptAll(order);
    assert {} + Decoded == Decoded;
  }

  /** On a text without `&amp;`, the map order makes no difference. */
  lemma DecodeOrderIndependent(s: string, order1: seq<nat>, order2: seq<nat>)
    requires EntityOrder(order1) && EntityOrder(order2) && !Contains(s, "&amp;")
    ensures DecodeHtmlEntities(s, order1) == DecodeHtmlEntities(s, order2)
  {
    DecodeOrderFree(s, order1);
    DecodeOrderFree(s, order2);
  }

  /** A text without `&` comes back unchanged. */
  lemma NoAmpersandUnchanged(s: string, order: seq<nat>)
    requires EntityOrder(order) && '&' !in s
    ensures DecodeHtmlEntities(s, order) == s
  {
    TableShaped();
    DecodedIndices();
    var t: EntityTable := Table;
    forall k | 0 <= k < |s| ensures !StartsAt(s, k, "&amp;") {
      NoStartAt(s, "&amp;", k, 0);
    }
    AbsentNotContained(s, "&amp;");
    DecodeOrderFree(s, order);
    forall k | 0 <= k < |s| ensures EntityAt(t, s, Decoded, k) == None {
      NoAmpNoEntity(t, s, Decoded, k);
    }
    DecodeCopy(t, s, Decoded, 0, |s|);
    assert s[0..|s|] == s;
  }

  // --- The order matters once `&amp;` occurs ---

  /** A pattern starting with `&` does not occur where every `&` is followed by something other than its second character. */
  lemma NoSecondChar(x: string, pat: string, rep: string)
    requires |pat| > 1 && pat[0] == '&'
    requires forall k :: 0 <= k < |x| && x[k] == '&' ==> k + 1 >= |x| || x[k + 1] != pat[1]
    ensures ReplaceAll(x, pat, rep) == x
  {
    OnlyStartAt(x, pat, 1, |x|);
    ReplaceNone(x, pat, rep);
  }

  /** A text starting with the pattern and holding no other `&` has just that occurrence replaced. */
  lemma OnlyLeading(x: string, pat: string, rep: string)
    requires |pat| > 1 && pat[0] == '&' && StartsAt(x, 0, pat)
    requires forall k :: 0 < k < |x| ==> x[k] != '&'
    ensures ReplaceAll(x, pat, rep) == rep + x[|pat|..]
  {
    OnlyStartAt(x, pat, 1, 0);
    ReplaceOnce(x, pat, rep, 0);
  }

  /** The entries of the table, one by one. */
  lemma TableEntries()
    ensures |Table| == 5
    ensures Table[0] == Entity("&quot;", '"') && Table[1] == Entity("&amp;", '&') && Table[2] == Entity("&#39;", '\'')
    ensures Table[3] == Entity("&lt;", '<') && Table[4] == Entity("&gt;", '>')
  {
  }

  /** Each pass of `order` turns the text `x[k]` into `x[k + 1]`. */
  predicate Trace(t: seq<Entity>, order: seq<nat>, x: seq<string>) {
    && |x| == |order| + 1
    && (forall k :: 0 <= k < |order| ==> order[k] < |t| && |t[order[k]].name| > 0)
    && (forall k :: 0 <= k < |order| ==> ReplaceAll(x[k], t[order[k]].name, [t[order[k]].decoded]) == x[k + 1])
  }

  /** The decoding ends with the last text of its trace. */
  lemma {:induction false} DecodeInTrace(t: seq<Entity>, order: seq<nat>, x: seq<string>)
    requires Trace(t, order, x)
    decreases |order|
    ensures DecodeIn(t, x[0], order) == x[|order|]
  {
    if |order| > 0 {
      var x' := x[1..];
      assert Trace(t, order[1..], x') by {
        forall k | 0 <= k < |order| - 1
          ensures ReplaceAll(x'[k], t[order[1..][k]].name, [t[order[1..][k]].decoded]) == x'[k + 1]
        {
          assert order[1..][k] == order[k + 1] && x'[k] == x[k + 1] && x'[k + 1] == x[k + 2];
        }
      }
      DecodeInTrace(t, order[1..], x');
    }
  }

  lemma AmpFirstOrder()
    ensures EntityOrder([1, 0, 2, 3, 4])
  {
  }

  lemma AmpLaterOrder()
    ensures EntityOrder([3, 1, 0, 2, 4])
  {
  }

  /** With `&amp;` decoded first, `&amp;lt;` is decoded twice, to `<`. */
  lemma AmpFirstDecodesTwice()
    ensures EntityOrder([1, 0, 2, 3, 4])
    ensures DecodeHtmlEntities("&amp;lt;", [1, 0, 2, 3, 4]) == "<"
  {
    AmpFirstOrder();
    AmpFirstTrace();
    DecodeInTrace(Table, [1, 0, 2, 3, 4], ["&amp;lt;", "&lt;", "&lt;", "&lt;", "<", "<"]);
  }

  lemma AmpFirstTrace()
    ensures Trace(Table, [1, 0, 2, 3, 4], ["&amp;lt;", "&lt;", "&lt;", "&lt;", "<", "<"])
  {
    var o, x := [1, 0, 2, 3, 4], ["&amp;lt;", "&lt;", "&lt;", "&lt;", "<", "<"];
    TableEntries();
    forall k | 0 <= k < 5 ensures ReplaceAll(x[k], Table[o[k]].name, [Table[o[k]].decoded]) == x[k + 1] {
      if k == 0 {
        assert x[0][5..] == "lt;";
        OnlyLeading(x[0], "&amp;", "&");
      } else if k == 1 {
        NoSecondChar(x[1], "&quot;", "\"");
      } else if k == 2 {
        NoSecondChar(x[2], "&#39;", "'");
      } else if k == 3 {
        OnlyLeading(x[3], "&lt;", "<");
      } else {
        NoSecondChar(x[4], "&gt;", ">");
      }
    }
  }

  /** With `&lt;` looked for before `&amp;`, `&amp;lt;` is decoded once, to `&lt;`. */
  lemma AmpLaterDecodesOnce()
    ensures EntityOrder([3, 1, 0, 2, 4])
    ensures DecodeHtmlEntities("&amp;lt;", [3, 1, 0, 2, 4]) == "&lt;"
  {
    AmpLaterOrder();
    AmpLaterTrace();
    DecodeInTrace(Table, [3, 1, 0, 2, 4], ["&amp;lt;", "&amp;lt;", "&lt;", "&lt;", "&lt;", "&lt;"]);
  }

  lemma AmpLaterTrace()
    ensures Trace(Table, [3, 1, 0, 2, 4], ["&amp;lt;", "&amp;lt;", "&lt;", "&lt;", "&lt;", "&lt;"])
  {
    var o, x := [3, 1, 0, 2, 4], ["&amp;lt;", "&amp;lt;", "&lt;", "&lt;", "&lt;", "&lt;"];
    TableEntries();
    forall k | 0 <= k < 5 ensures ReplaceAll(x[k], Table[o[k]].name, [Table[o[k]].decoded]) == x[k + 1] {
      if k == 0 {
        NoSecondChar(x[0], "&lt;", "<");
      } else if k == 1 {
        assert x[1][5..] == "lt;";
        OnlyLeading(x[1], "&amp;", "&");
      } else if k == 2 {
        NoSecondChar(x[2], "&quot;", "\"");
      } else if k == 3 {
        NoSecondChar(x[3], "&#39;", "'");
      } else {
        NoSecondChar(x[4], "&gt;", ">");
      }
    }
  }
}
