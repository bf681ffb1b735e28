/**
 * String primitives shared by both add-ons: character classes, searching,
 * replacement, splitting and trimming, each with the meaning the Go and
 * Python standard libraries give it (case mapping of ASCII letters only).
 */
module Text {
  import opened Wrappers

  predicate IsDigit(c: char) { '0' <= c <= '9' }
  predicate IsUpper(c: char) { 'A' <= c <= 'Z' }
  predicate IsLower(c: char) { 'a' <= c <= 'z' }

  /** `\w` of Go's RE2 (always ASCII), also used as the ASCII reading of Python's `\w`. */
  predicate IsWordChar(c: char) { IsDigit(c) || IsUpper(c) || IsLower(c) || c == '_' }

  /** Unicode White_Space: Go's unicode.IsSpace, used by strings.TrimSpace and strings.Fields. */
  predicate IsSpace(c: char) {
    || ('\t' <= c <= '\r') || c == ' ' || c == '\U{0085}' || c == '\U{00A0}' || c == '\U{1680}'
    || ('\U{2000}' <= c <= '\U{200A}') || c == '\U{2028}' || c == '\U{2029}' || c == '\U{202F}'
    || c == '\U{205F}' || c == '\U{3000}'
  }

  /** Python's str.isspace, which str.strip and `\s` in a str pattern use. */
  predicate IsPySpace(c: char) { IsSpace(c) || ('\U{001C}' <= c <= '\U{001F}') }

  /** `\s` in a Go RE2 pattern: the Perl class [\t\n\f\r ]. */
  predicate IsReSpace(c: char) { c == '\t' || c == '\n' || c == '\U{000C}' || c == '\r' || c == ' ' }

  function LowerChar(c: char): char {
    if IsUpper(c) then (c as int + 32) as char else c
  }

  function UpperChar(c: char): char {
    if IsLower(c) then (c as int - 32) as char else c
  }

  /** Lower-casing of ASCII letters: Python's str.lower and Go's strings.ToLower restricted to ASCII capitals. */
  function Lower(s: string): (r: string)
    ensures |r| == |s|
    ensures forall i :: 0 <= i < |s| ==> r[i] == LowerChar(s[i])
    ensures forall i :: 0 <= i < |s| ==> !IsUpper(r[i])
  {
    seq(|s|, i requires 0 <= i < |s| => LowerChar(s[i]))
  }

  /**
   * Go's strings.ToLower as far as a comparison with ASCII words can tell:
   * besides A-Z only the dotted capital I and the Kelvin sign lower-case to
   * ASCII letters; every other character is kept, since its lower-case form
   * (if any) is not ASCII either.
   */
  function GoLowerChar(c: char): char {
    if c == '\U{0130}' then 'i' else if c == '\U{212A}' then 'k' else LowerChar(c)
  }

  function GoLower(s: string): (r: string)
    ensures |r| == |s|
    ensures forall i :: 0 <= i < |s| ==> r[i] == GoLowerChar(s[i])
  {
    seq(|s|, i requires 0 <= i < |s| => GoLowerChar(s[i]))
  }

  /** A suffix is the slice up to any later cut followed by the rest. */
  lemma SuffixSplit(s: string, i: nat, e: nat)
    requires i <= e <= |s|
    ensures s[i..] == s[i..e] + s[e..]
  {
  }

  /** A slice of a suffix is a slice of the whole text, shifted. */
  lemma SliceOfSuffix(s: string, i: nat, x: nat, y: nat)
    requires x <= y && i + y <= |s|
    ensures s[i..][x..y] == s[i + x..i + y]
    ensures s[i..][x..] == s[i + x..]
  {
  }

  /** `p` occurs in `s` at position `i`. */
  predicate StartsAt(s: string, i: nat, p: string) {
    i + |p| <= |s| && s[i..i + |p|] == p
  }

  /**
   * Text character `c` matches the ASCII pattern character `x` under Go's
   * `(?i)`: ASCII case, and the Kelvin sign and the long s, which fold to k and s.
   */
  predicate GoFold(c: char, x: char) {
    || LowerChar(c) == LowerChar(x)
    || (LowerChar(x) == 'k' && c == '\U{212A}')
    || (LowerChar(x) == 's' && c == '\U{017F}')
  }

  /** The same under Python's re.IGNORECASE, where the dotted capital I and the dotless i also match i. */
  predicate PyFold(c: char, x: char) {
    GoFold(c, x) || (LowerChar(x) == 'i' && (c == '\U{0130}' || c == '\U{0131}'))
  }

  /** The pattern literal `p` occurs at `i` under Go's `(?i)`. */
  predicate StartsAtGoFold(s: string, i: nat, p: string) {
    i + |p| <= |s| && forall k :: 0 <= k < |p| ==> GoFold(s[i + k], p[k])
  }

  /** The pattern literal `p` occurs at `i` under Python's re.IGNORECASE. */
  predicate StartsAtPyFold(s: string, i: nat, p: string) {
    i + |p| <= |s| && forall k :: 0 <= k < |p| ==> PyFold(s[i + k], p[k])
  }

  /** A one-character needle occurs exactly where that character is. */
  lemma StartsAtChar(s: string, i: nat, c: char)
    ensures StartsAt(s, i, [c]) <==> (i < |s| && s[i] == c)
  {
    if i < |s| {
      assert s[i..i + 1] == [s[i]];
    }
  }

  predicate HasPrefix(s: string, p: string) { StartsAt(s, 0, p) }

  predicate HasSuffix(s: string, p: string) {
    |p| <= |s| && s[|s| - |p|..] == p
  }

  /** The first position at or after `from` where `p` occurs (Go strings.Index, Python str.find). */
  function IndexFrom(s: string, p: string, from: nat): (r: Option<nat>)
    decreases |s| - from
    ensures r.Some? ==> from <= r.value && StartsAt(s, r.value, p)
    ensures r.Some? ==> forall j :: from <= j < r.value ==> !StartsAt(s, j, p)
    ensures r.None? ==> forall j :: from <= j ==> !StartsAt(s, j, p)
  {
    if from + |p| > |s| then None
    else if StartsAt(s, from, p) then Some(from)
    else IndexFrom(s, p, from + 1)
  }

  predicate Contains(s: string, p: string) { IndexFrom(s, p, 0).Some? }

  lemma ContainsAt(s: string, p: string, i: nat)
    requires StartsAt(s, i, p)
    ensures Contains(s, p)
  {
  }

  predicate ContainsChar(s: string, c: char) { c in s }

  /** The last position of `c` in `s` (Go strings.LastIndex with a one-character needle). */
  function LastIndexOf(s: string, c: char): (r: Option<nat>)
    ensures r.Some? ==> r.value < |s| && s[r.value] == c
    ensures r.Some? ==> forall j :: r.value < j < |s| ==> s[j] != c
    ensures r.None? ==> c !in s
  {
    if |s| == 0 then None
    else if s[|s| - 1] == c then Some(|s| - 1)
    else LastIndexOf(s[..|s| - 1], c)
  }

  /** Go strings.ReplaceAll / Python str.replace: every non-overlapping occurrence, left to right. */
  function ReplaceAll(s: string, pat: string, rep: string): string
    requires |pat| > 0
  {
    ReplaceFrom(s, pat, rep, 0)
  }

  /** ReplaceAll of the text from position `i` on, the search resuming after each occurrence. */
  function ReplaceFrom(s: string, pat: string, rep: string, i: nat): string
    requires |pat| > 0 && i <= |s|
    decreases |s| - i
  {
    if i == |s| then []
    else if StartsAt(s, i, pat) then rep + ReplaceFrom(s, pat, rep, i + |pat|)
    else [s[i]] + ReplaceFrom(s, pat, rep, i + 1)
  }

  /** A stretch where no occurrence starts is copied as it is. */
  lemma {:induction false} ReplaceCopy(s: string, pat: string, rep: string, i: nat, j: nat)
    requires |pat| > 0 && i <= j <= |s|
    requires forall k :: i <= k < j ==> !StartsAt(s, k, pat)
    decreases j - i
    ensures ReplaceFrom(s, pat, rep, i) == s[i..j] + ReplaceFrom(s, pat, rep, j)
  {
    if i < j {
      ReplaceSkip(s, pat, rep, i);
      ReplaceCopy(s, pat, rep, i + 1, j);
      CopyStep(s, i, j, ReplaceFrom(s, pat, rep, j), ReplaceFrom(s, pat, rep, i + 1), ReplaceFrom(s, pat, rep, i));
    } else {
      assert s[i..j] == [];
    }
  }

  /** Copying one character in front of a copied stretch copies the longer stretch. */
  lemma CopyStep(s: string, i: nat, j: nat, tail: string, b: string, a: string)
    requires i < j <= |s| && a == [s[i]] + b && b == s[i + 1..j] + tail
    ensures a == s[i..j] + tail
  {
    assert s[i..j] == [s[i]] + s[i + 1..j];
  }

  /** One character where no occurrence starts is copied. */
  lemma ReplaceSkip(s: string, pat: string, rep: string, i: nat)
    requires |pat| > 0 && i < |s| && !StartsAt(s, i, pat)
    ensures ReplaceFrom(s, pat, rep, i) == [s[i]] + ReplaceFrom(s, pat, rep, i + 1)
  {
  }

  /** An occurrence is replaced and the search resumes after it. */
  lemma ReplaceHit(s: string, pat: string, rep: string, i: nat)
    requires |pat| > 0 && i < |s| && StartsAt(s, i, pat)
    ensures ReplaceFrom(s, pat, rep, i) == rep + ReplaceFrom(s, pat, rep, i + |pat|)
  {
  }

  /** Without any occurrence the text is returned unchanged. */
  lemma ReplaceNone(s: string, pat: string, rep: string)
    requires |pat| > 0
    requires forall k :: 0 <= k < |s| ==> !StartsAt(s, k, pat)
    ensures ReplaceAll(s, pat, rep) == s
  {
    ReplaceCopy(s, pat, rep, 0, |s|);
    assert s[0..|s|] == s;
  }

  /** A position holding anything but the pattern's first character starts no occurrence. */
  lemma NoStartAt(s: string, pat: string, k: nat, j: nat)
    requires k + j < |s| && j < |pat| && s[k + j] != pat[j]
    ensures !StartsAt(s, k, pat)
  {
    if k + |pat| <= |s| {
      assert s[k..k + |pat|][j] == s[k + j];
    }
  }

  /** Replacing in `u + t` from a position inside `t` is replacing in `t` alone. */
  lemma {:induction false} ReplaceShift(u: string, t: string, pat: string, rep: string, k: nat)
    requires |pat| > 0 && k <= |t|
    decreases |t| - k
    ensures ReplaceFrom(u + t, pat, rep, |u| + k) == ReplaceFrom(t, pat, rep, k)
  {
    if k < |t| {
      ShiftStartsAt(u, t, pat, k);
      if StartsAt(t, k, pat) {
        ReplaceShift(u, t, pat, rep, k + |pat|);
        ShiftHit(u, t, pat, rep, k);
      } else {
        ReplaceShift(u, t, pat, rep, k + 1);
        ShiftSkip(u, t, pat, rep, k);
      }
    }
  }

  /** An occurrence in a suffix is an occurrence in the whole text, shifted by where the suffix starts. */
  lemma SuffixStartsAt(s: string, a: nat, k: nat, pat: string)
    requires a <= |s|
    ensures StartsAt(s[a..], k, pat) == StartsAt(s, a + k, pat)
  {
    if a + k + |pat| <= |s| {
      assert s[a..][k..k + |pat|] == s[a + k..a + k + |pat|];
    }
  }

  lemma ShiftStartsAt(u: string, t: string, pat: string, k: nat)
    requires k < |t|
    ensures StartsAt(u + t, |u| + k, pat) == StartsAt(t, k, pat)
    ensures (u + t)[|u| + k] == t[k]
  {
    if k + |pat| <= |t| {
      assert (u + t)[|u| + k..|u| + k + |pat|] == t[k..k + |pat|];
    }
  }

  lemma ShiftHit(u: string, t: string, pat: string, rep: string, k: nat)
    requires |pat| > 0 && k < |t| && StartsAt(t, k, pat) && StartsAt(u + t, |u| + k, pat)
    requires ReplaceFrom(u + t, pat, rep, |u| + k + |pat|) == ReplaceFrom(t, pat, rep, k + |pat|)
    ensures ReplaceFrom(u + t, pat, rep, |u| + k) == ReplaceFrom(t, pat, rep, k)
  {
    ReplaceHit(u + t, pat, rep, |u| + k);
    ReplaceHit(t, pat, rep, k);
  }

  lemma ShiftSkip(u: string, t: string, pat: string, rep: string, k: nat)
    requires |pat| > 0 && k < |t| && !StartsAt(t, k, pat) && !StartsAt(u + t, |u| + k, pat) && (u + t)[|u| + k] == t[k]
    requires ReplaceFrom(u + t, pat, rep, |u| + k + 1) == ReplaceFrom(t, pat, rep, k + 1)
    ensures ReplaceFrom(u + t, pat, rep, |u| + k) == ReplaceFrom(t, pat, rep, k)
  {
    ReplaceSkip(u + t, pat, rep, |u| + k);
    ReplaceSkip(t, pat, rep, k);
  }

  /** A text that starts with the pattern has it replaced and the rest replaced on its own. */
  lemma ReplaceLeading(pat: string, t: string, rep: string)
    requires |pat| > 0
    ensures ReplaceAll(pat + t, pat, rep) == rep + ReplaceAll(t, pat, rep)
  {
    assert (pat + t)[0..|pat|] == pat;
    ReplaceHit(pat + t, pat, rep, 0);
    ReplaceShift(pat, t, pat, rep, 0);
  }

  /** A leading character that does not begin the pattern is copied. */
  lemma ReplaceLeadingMiss(c: char, t: string, pat: string, rep: string)
    requires |pat| > 0 && c != pat[0]
    ensures ReplaceAll([c] + t, pat, rep) == [c] + ReplaceAll(t, pat, rep)
  {
    NoStartAt([c] + t, pat, 0, 0);
    ReplaceSkip([c] + t, pat, rep, 0);
    ReplaceShift([c], t, pat, rep, 0);
  }

  /** A text where the pattern occurs exactly once has that occurrence replaced and nothing else changed. */
  lemma ReplaceOnce(s: string, pat: string, rep: string, p: nat)
    requires |pat| > 0 && StartsAt(s, p, pat)
    requires forall k :: 0 <= k < |s| && k != p ==> !StartsAt(s, k, pat)
    ensures ReplaceAll(s, pat, rep) == s[..p] + rep + s[p + |pat|..]
  {
    ReplaceCopy(s, pat, rep, 0, p);
    ReplaceHit(s, pat, rep, p);
    ReplaceCopy(s, pat, rep, p + |pat|, |s|);
    Splice(s, p, |pat|, ReplaceFrom(s, pat, rep, 0), ReplaceFrom(s, pat, rep, p), ReplaceFrom(s, pat, rep, p + |pat|),
      ReplaceFrom(s, pat, rep, |s|), rep);
  }

  /** Text before `p`, then `b`, then the text after the `n` characters at `p`. */
  lemma Splice(s: string, p: nat, n: nat, x0: string, x1: string, x2: string, x3: string, b: string)
    requires p + n <= |s|
    requires x0 == s[0..p] + x1 && x1 == b + x2 && x2 == s[p + n..|s|] + x3 && x3 == []
    ensures x0 == s[..p] + b + s[p + n..]
  {
    assert s[0..p] == s[..p];
    assert s[p + n..|s|] + x3 == s[p + n..];
  }

  /**
   * When every position other than `p` holding the pattern's first character
   * is followed, `j` places on, by something other than the pattern's `j`-th
   * character, the pattern starts nowhere but possibly at `p`.
   */
  lemma OnlyStartAt(s: string, pat: string, j: nat, p: nat)
    requires 0 < j < |pat|
    requires forall k :: 0 <= k < |s| && k != p && s[k] == pat[0] ==> k + j >= |s| || s[k + j] != pat[j]
    ensures forall k :: 0 <= k < |s| && k != p ==> !StartsAt(s, k, pat)
  {
    forall k | 0 <= k < |s| && k != p ensures !StartsAt(s, k, pat) {
      if s[k] != pat[0] {
        NoStartAt(s, pat, k, 0);
      } else if k + j < |s| {
        NoStartAt(s, pat, k, j);
      }
    }
  }

  /** Every `c` of the text replaced by `rep`, the other characters kept: an independent reading of ReplaceAll with a one-character pattern. */
  function CharSub(t: string, c: char, rep: string): string
    decreases |t|
  {
    if |t| == 0 then [] else (if t[0] == c then rep else [t[0]]) + CharSub(t[1..], c, rep)
  }

  /** ReplaceAll with a one-character pattern replaces that character wherever it is. */
  lemma ReplaceCharAll(s: string, c: char, rep: string)
    ensures ReplaceAll(s, [c], rep) == CharSub(s, c, rep)
  {
    ReplaceCharFrom(s, c, rep, 0);
  }

  lemma {:induction false} ReplaceCharFrom(s: string, c: char, rep: string, i: nat)
    requires i <= |s|
    decreases |s| - i
    ensures ReplaceFrom(s, [c], rep, i) == CharSub(s[i..], c, rep)
  {
    if i < |s| {
      ReplaceCharFrom(s, c, rep, i + 1);
      StartsAtChar(s, i, c);
      assert s[i..][0] == s[i] && s[i..][1..] == s[i + 1..];
    }
  }

  /** Deleting a character leaves none of it and nothing that was not there. */
  lemma {:induction false} CharSubDrop(t: string, c: char)
    decreases |t|
    ensures c !in CharSub(t, c, [])
    ensures forall x :: x in CharSub(t, c, []) ==> x in t
  {
    if |t| > 0 {
      CharSubDrop(t[1..], c);
      assert forall x :: x in t[1..] ==> x in t;
    }
  }

  /** Replacing a character by one character works position by position. */
  lemma {:induction false} CharSubEach(t: string, c: char, d: char)
    decreases |t|
    ensures |CharSub(t, c, [d])| == |t|
    ensures forall k :: 0 <= k < |t| ==> CharSub(t, c, [d])[k] == if t[k] == c then d else t[k]
  {
    if |t| > 0 {
      CharSubEach(t[1..], c, d);
      assert forall k :: 1 <= k < |t| ==> t[1..][k - 1] == t[k];
    }
  }

  /** Substitution works piece by piece. */
  lemma {:induction false} CharSubAppend(a: string, b: string, c: char, rep: string)
    decreases |a|
    ensures CharSub(a + b, c, rep) == CharSub(a, c, rep) + CharSub(b, c, rep)
  {
    if |a| > 0 {
      CharSubAppend(a[1..], b, c, rep);
      assert (a + b)[0] == a[0] && (a + b)[1..] == a[1..] + b;
    } else {
      assert a + b == b;
    }
  }

  /** A text without the character is left as it is. */
  lemma CharSubOne(c: char, rep: string)
    ensures CharSub([c], c, rep) == rep
  {
    assert [c][1..] == [];
  }

  lemma {:induction false} CharSubAbsent(t: string, c: char, rep: string)
    requires c !in t
    decreases |t|
    ensures CharSub(t, c, rep) == t
  {
    if |t| > 0 {
      assert c !in t[1..] by {
        forall x | x in t[1..] ensures x != c { }
      }
      CharSubAbsent(t[1..], c, rep);
      assert t == [t[0]] + t[1..];
    }
  }

  /** Go strings.Replace(s, old, new, 1): only the leftmost occurrence is replaced. */
  function ReplaceFirst(s: string, pat: string, rep: string): (r: string)
    ensures !Contains(s, pat) ==> r == s
    ensures Contains(s, pat) ==> exists i: nat :: (StartsAt(s, i, pat) && r == s[..i] + rep + s[i + |pat|..]
                                                     && forall j :: 0 <= j < i ==> !StartsAt(s, j, pat))
  {
    match IndexFrom(s, pat, 0)
    case None => s
    case Some(i) => s[..i] + rep + s[i + |pat|..]
  }

  /** Go strings.Split with a non-empty separator. */
  function Split(s: string, sep: string): (parts: seq<string>)
    requires |sep| > 0
    decreases |s|
    ensures |parts| >= 1
  {
    match IndexFrom(s, sep, 0)
    case None => [s]
    case Some(i) => [s[..i]] + Split(s[i + |sep|..], sep)
  }

  /** No piece of a split contains the separator. */
  lemma {:induction false} SplitPiecesFree(s: string, sep: string)
    requires |sep| > 0
    ensures forall k :: 0 <= k < |Split(s, sep)| ==> !Contains(Split(s, sep)[k], sep)
    decreases |s|
  {
    match IndexFrom(s, sep, 0)
    case None =>
    case Some(i) =>
      SplitPiecesFree(s[i + |sep|..], sep);
      forall j | 0 <= j ensures !StartsAt(s[..i], j, sep) {
        if j + |sep| <= i {
          assert s[..i][j..j + |sep|] == s[j..j + |sep|];
          assert !StartsAt(s, j, sep);
        }
      }
  }

  /** Go strings.Join. */
  function Join(parts: seq<string>, sep: string): string {
    if |parts| == 0 then []
    else if |parts| == 1 then parts[0]
    else parts[0] + sep + Join(parts[1..], sep)
  }

  /** Joining the pieces of a split gives the original string back. */
  lemma {:induction false} JoinSplit(s: string, sep: string)
    requires |sep| > 0
    ensures Join(Split(s, sep), sep) == s
    decreases |s|
  {
    var r := IndexFrom(s, sep, 0);
    if r.Some? {
      var i := r.value;
      var rest := s[i + |sep|..];
      JoinSplit(rest, sep);
      JoinCons(s[..i], Split(rest, sep), sep);
      Decompose(s, i, sep);
    }
  }

  /** A string is what precedes an occurrence, the occurrence, and what follows it. */
  lemma Decompose(s: string, i: nat, p: string)
    requires StartsAt(s, i, p)
    ensures s == s[..i] + p + s[i + |p|..]
  {
    assert s == s[..i] + s[i..i + |p|] + s[i + |p|..];
  }

  lemma JoinCons(a: string, tail: seq<string>, sep: string)
    requires |tail| >= 1
    ensures Join([a] + tail, sep) == a + sep + Join(tail, sep)
  {
    assert ([a] + tail)[1..] == tail;
  }

  /** Splitting on a one-character separator undoes a join of pieces that do not contain it. */
  lemma {:induction false} SplitJoin(parts: seq<string>, c: char)
    requires |parts| >= 1
    requires forall k :: 0 <= k < |parts| ==> c !in parts[k]
    ensures Split(Join(parts, [c]), [c]) == parts
  {
    var sep := [c];
    if |parts| == 1 {
      NoCharNoIndex(parts[0], c);
    } else {
      var rest := Join(parts[1..], sep);
      var s := parts[0] + sep + rest;
      assert StartsAt(s, |parts[0]|, sep);
      forall j | 0 <= j < |parts[0]| ensures !StartsAt(s, j, sep) {
        assert s[j] == parts[0][j];
      }
      assert IndexFrom(s, sep, 0) == Some(|parts[0]|) by {
        IndexFromFirst(s, sep, 0, |parts[0]|);
      }
      assert s[..|parts[0]|] == parts[0];
      assert s[|parts[0]| + 1..] == rest;
      SplitJoin(parts[1..], c);
    }
  }

  /** Length of the first line: the text up to its first newline, or all of it. */
  function LineLength(s: string): (n: nat)
    ensures n <= |s|
    ensures forall j :: 0 <= j < n ==> s[j] != '\n'
    ensures n < |s| ==> s[n] == '\n'
  {
    if |s| == 0 || s[0] == '\n' then 0 else 1 + LineLength(s[1..])
  }

  /** Each line followed by a newline, as a sequence of `WriteString(line + "\n")` calls writes them. */
  function Terminated(lines: seq<string>): string {
    if |lines| == 0 then [] else lines[0] + "\n" + Terminated(lines[1..])
  }

  /** Reads `count` newline-terminated lines off the front of `s`, with what follows them. */
  function ReadLines(s: string, count: nat): Option<(seq<string>, string)> {
    if count == 0 then Some(([], s))
    else
      var n := LineLength(s);
      if n == |s| then None
      else
        match ReadLines(s[n + 1..], count - 1)
        case None => None
        case Some(p) => Some(([s[..n]] + p.0, p.1))
  }

  /** Reading back newline-terminated lines gives the lines and the text after them. */
  lemma {:induction false} ReadTerminated(lines: seq<string>, rest: string)
    requires forall k :: 0 <= k < |lines| ==> '\n' !in lines[k]
    decreases |lines|
    ensures ReadLines(Terminated(lines) + rest, |lines|) == Some((lines, rest))
  {
    if |lines| > 0 {
      var line, more := lines[0], lines[1..];
      var s := Terminated(lines) + rest;
      assert s == line + "\n" + (Terminated(more) + rest);
      assert s[|line|] == '\n';
      assert LineLength(s) == |line|;
      assert s[..|line|] == line;
      assert s[|line| + 1..] == Terminated(more) + rest;
      assert forall k :: 0 <= k < |more| ==> more[k] == lines[k + 1];
      ReadTerminated(more, rest);
      assert ReadLines(s[|line| + 1..], |lines| - 1) == Some((more, rest));
      assert lines == [line] + more;
    } else {
      assert Terminated(lines) + rest == rest;
    }
  }

  /** A character the text lacks is in none of its pieces. */
  lemma {:induction false} SplitKeepsOut(s: string, sep: string, c: char)
    requires |sep| > 0 && c !in s
    decreases |s|
    ensures forall k :: 0 <= k < |Split(s, sep)| ==> c !in Split(s, sep)[k]
  {
    match IndexFrom(s, sep, 0)
    case None =>
    case Some(i) =>
      var rest := s[i + |sep|..];
      assert forall j :: 0 <= j < |rest| ==> rest[j] == s[i + |sep| + j];
      SplitKeepsOut(rest, sep, c);
  }

  /** No piece of a split on one character contains that character. */
  /** A one-character separator occurs exactly where that character stands. */
  lemma StartsAtOne(s: string, j: nat, c: char)
    ensures StartsAt(s, j, [c]) <==> j < |s| && s[j] == c
  {
    if j < |s| {
      assert s[j..j + 1] == [s[j]];
    }
  }

  /** Splitting at a character distributes over a text cut at one occurrence of it. */
  lemma {:induction false} SplitAppend(a: string, b: string, c: char)
    decreases |a|
    ensures Split(a + [c] + b, [c]) == Split(a, [c]) + Split(b, [c])
  {
    if IndexFrom(a, [c], 0).None? {
      SplitAppendLast(a, b, c);
    } else {
      var i := IndexFrom(a, [c], 0).value;
      SplitAppend(a[i + 1..], b, c);
      SplitAppendStep(a, b, c, i);
    }
  }

  lemma SplitAppendLast(a: string, b: string, c: char)
    requires IndexFrom(a, [c], 0).None?
    ensures Split(a + [c] + b, [c]) == Split(a, [c]) + Split(b, [c])
  {
    var t := a + [c] + b;
    FirstInPrefix(a, b, c);
    SplitStep(t, [c], |a|);
    SplitNoSep(a, [c]);
    assert t[..|a|] == a && t[|a| + 1..] == b;
  }

  lemma SplitAppendStep(a: string, b: string, c: char, i: nat)
    requires IndexFrom(a, [c], 0) == Some(i)
    requires Split(a[i + 1..] + [c] + b, [c]) == Split(a[i + 1..], [c]) + Split(b, [c])
    ensures Split(a + [c] + b, [c]) == Split(a, [c]) + Split(b, [c])
  {
    var t, rest, head := a + [c] + b, a[i + 1..], a[..i];
    FirstInPrefix(a, b, c);
    CutInPrefix(a, b, c, i);
    SplitStep(t, [c], i);
    SplitStep(a, [c], i);
    ConsAppend(head, Split(rest, [c]), Split(b, [c]));
  }

  lemma ConsAppend<T>(x: T, p: seq<T>, q: seq<T>)
    ensures [x] + (p + q) == ([x] + p) + q
  {
  }

  lemma CutInPrefix(a: string, b: string, c: char, i: nat)
    requires i < |a|
    ensures (a + [c] + b)[..i] == a[..i]
    ensures (a + [c] + b)[i + 1..] == a[i + 1..] + [c] + b
  {
  }

  /** The first `c` of `a + [c] + b` is the first one in `a`, or the appended one. */
  lemma FirstInPrefix(a: string, b: string, c: char)
    ensures IndexFrom(a, [c], 0).None? ==> IndexFrom(a + [c] + b, [c], 0) == Some(|a|)
    ensures IndexFrom(a, [c], 0).Some? ==> IndexFrom(a + [c] + b, [c], 0) == IndexFrom(a, [c], 0)
  {
    var t := a + [c] + b;
    forall j: nat | j < |a| ensures StartsAt(t, j, [c]) == StartsAt(a, j, [c]) {
      StartsAtOne(t, j, c);
      StartsAtOne(a, j, c);
    }
    if IndexFrom(a, [c], 0).None? {
      StartsAtOne(t, |a|, c);
      IndexFromFirst(t, [c], 0, |a|);
    } else {
      IndexFromFirst(t, [c], 0, IndexFrom(a, [c], 0).value);
    }
  }

  /** Without a separator the text is its own single piece. */
  lemma SplitNoSep(s: string, sep: string)
    requires |sep| > 0 && IndexFrom(s, sep, 0).None?
    ensures Split(s, sep) == [s]
  {
  }

  /** One step of Split: the piece before the first separator, then the split of the rest. */
  lemma SplitStep(s: string, sep: string, i: nat)
    requires |sep| > 0 && IndexFrom(s, sep, 0) == Some(i)
    ensures Split(s, sep) == [s[..i]] + Split(s[i + |sep|..], sep)
  {
  }

  lemma SplitCharFree(s: string, c: char)
    ensures forall k :: 0 <= k < |Split(s, [c])| ==> c !in Split(s, [c])[k]
  {
    SplitPiecesFree(s, [c]);
    forall k, j | 0 <= k < |Split(s, [c])| && 0 <= j < |Split(s, [c])[k]| ensures Split(s, [c])[k][j] != c {
      var p := Split(s, [c])[k];
      assert !StartsAt(p, j, [c]);
      assert p[j..j + 1] == [p[j]];
    }
  }

  lemma NoCharNoIndex(s: string, c: char)
    requires c !in s
    ensures IndexFrom(s, [c], 0).None?
  {
    forall j: nat ensures !StartsAt(s, j, [c]) {
      if j + 1 <= |s| {
        assert s[j..j + 1][0] == s[j];
      }
    }
  }

  /** The search result is the position that the caller proved to be the first one. */
  lemma IndexFromFirst(s: string, p: string, from: nat, i: nat)
    requires from <= i && StartsAt(s, i, p)
    requires forall j :: from <= j < i ==> !StartsAt(s, j, p)
    ensures IndexFrom(s, p, from) == Some(i)
  {
  }

  /** Length of the longest prefix of `s` whose characters satisfy `f`. */
  function SpanWhile(s: string, f: char -> bool): (k: nat)
    ensures k <= |s|
    ensures forall i :: 0 <= i < k ==> f(s[i])
    ensures k < |s| ==> !f(s[k])
  {
    if |s| == 0 || !f(s[0]) then 0 else 1 + SpanWhile(s[1..], f)
  }

  /** Length of the longest suffix of `s` whose characters satisfy `f`. */
  function SpanWhileBack(s: string, f: char -> bool): (k: nat)
    ensures k <= |s|
    ensures forall i :: |s| - k <= i < |s| ==> f(s[i])
    ensures k < |s| ==> !f(s[|s| - k - 1])
  {
    if |s| == 0 || !f(s[|s| - 1]) then 0 else 1 + SpanWhileBack(s[..|s| - 1], f)
  }

  function TrimLeftWhile(s: string, f: char -> bool): string {
    s[SpanWhile(s, f)..]
  }

  function TrimRightWhile(s: string, f: char -> bool): string {
    s[..|s| - SpanWhileBack(s, f)]
  }

  /** Go strings.TrimSpace. */
  function TrimSpace(s: string): (r: string)
    ensures |r| == 0 || (!IsSpace(r[0]) && !IsSpace(r[|r| - 1]))
    ensures exists a, b :: (0 <= a <= b <= |s| && r == s[a..b]
      && (forall i :: 0 <= i < a ==> IsSpace(s[i]))
      && (forall i :: b <= i < |s| ==> IsSpace(s[i])))
  {
    var a := SpanWhile(s, IsSpace);
    var t := s[a..];
    var k := SpanWhileBack(t, IsSpace);
    assert t[..|t| - k] == s[a..a + |t| - k];
    s[a..a + |t| - k]
  }

  /** Trimming keeps out a character the text lacks. */
  lemma TrimKeepsOut(s: string, c: char)
    requires c !in s
    ensures c !in TrimSpace(s)
  {
    var t := TrimSpace(s);
    forall i | 0 <= i < |t| ensures t[i] != c {
      var x, y :| 0 <= x <= y <= |s| && t == s[x..y];
      assert t[i] == s[x + i];
    }
  }

  /** Python str.strip() without arguments. */
  function Strip(s: string): string {
    TrimRightWhile(TrimLeftWhile(s, IsPySpace), IsPySpace)
  }

  /** Go strings.Trim / TrimLeft / TrimRight with a cutset. */
  function TrimChars(s: string, cutset: string): string {
    TrimRightWhile(TrimLeftWhile(s, c => c in cutset), c => c in cutset)
  }

  function TrimRightChars(s: string, cutset: string): string {
    TrimRightWhile(s, c => c in cutset)
  }

  function TrimLeftChars(s: string, cutset: string): string {
    TrimLeftWhile(s, c => c in cutset)
  }

  predicate NoSpace(w: string) { forall i :: 0 <= i < |w| ==> !IsSpace(w[i]) }

  predicate NotSpace(c: char) { !IsSpace(c) }

  /** Go strings.Fields: the maximal runs of non-space characters, in order. */
  function Fields(s: string): (fs: seq<string>)
    decreases |s|
    ensures forall k :: 0 <= k < |fs| ==> |fs[k]| > 0 && NoSpace(fs[k])
    ensures |fs| == 0 <==> forall i :: 0 <= i < |s| ==> IsSpace(s[i])
  {
    var a := SpanWhile(s, IsSpace);
    if a == |s| then []
    else
      var t := s[a..];
      var w := SpanWhile(t, NotSpace);
      assert !IsSpace(s[a]);
      FirstField(t, w);
      var rest := Fields(t[w..]);
      FieldsCons(t[..w], rest);
      [t[..w]] + rest
  }

  lemma FieldsCons(h: string, rest: seq<string>)
    requires |h| > 0 && NoSpace(h)
    requires forall k :: 0 <= k < |rest| ==> |rest[k]| > 0 && NoSpace(rest[k])
    ensures forall k :: 0 <= k < |[h] + rest| ==> |([h] + rest)[k]| > 0 && NoSpace(([h] + rest)[k])
  {
    forall k | 0 <= k < |[h] + rest| ensures |([h] + rest)[k]| > 0 && NoSpace(([h] + rest)[k]) {
      if k > 0 {
        assert ([h] + rest)[k] == rest[k - 1];
      }
    }
  }

  /** The run of non-spaces at the head of a text that starts with one is a field. */
  lemma FirstField(t: string, w: nat)
    requires |t| > 0 && !IsSpace(t[0]) && w == SpanWhile(t, NotSpace)
    ensures 0 < w <= |t| && NoSpace(t[..w])
  {
    assert NotSpace(t[0]);
    forall i | 0 <= i < w ensures !IsSpace(t[..w][i]) {
      assert NotSpace(t[i]);
    }
  }
}
