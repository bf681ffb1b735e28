/**
 * The HTTP middleware's two pure decisions: whether a CORS origin is
 * allowed by the configured list, and which address a request is counted
 * under by the rate limiter.
 */
module Middleware {
  import opened Text

  // ---------------------------------------------------------------------------
  // Wildcard origins
  // ---------------------------------------------------------------------------

  /**
   * A wildcard entry is turned into a regular expression by escaping every
   * `.`, writing `.*` for every `*` and anchoring both ends. When the entry
   * has no other regular-expression metacharacter, that expression matches
   * exactly what this predicate accepts: every other character stands for
   * itself, and `*` stands for any run of characters without a line break
   * (Go's `.` does not match `\n`).
   */
  predicate GlobMatch(p: string, s: string)
    decreases |p| + |s|
  {
    if |p| == 0 then |s| == 0
    else if p[0] == '*' then GlobMatch(p[1..], s) || (|s| > 0 && s[0] != '\n' && GlobMatch(p, s[1..]))
    else |s| > 0 && s[0] == p[0] && GlobMatch(p[1..], s[1..])
  }

  /** The characters besides `.` and `*` that Go's regular expressions treat specially. */
  const Meta: string := "\\+?()|[]{}^$"

  /** An entry whose translated expression has no metacharacter besides the escaped dots and the `.*`s. */
  predicate GlobSafe(entry: string) {
    forall i :: 0 <= i < |entry| ==> entry[i] !in Meta
  }

  function Stars(p: string): (n: nat)
    ensures n <= |p|
  {
    if |p| == 0 then 0 else (if p[0] == '*' then 1 else 0) + Stars(p[1..])
  }

  /** The pattern with its `*`s replaced, left to right, by the given fillers. */
  function Instance(p: string, ws: seq<string>): string
    requires Stars(p) == |ws|
    decreases |p|
  {
    if |p| == 0 then []
    else if p[0] == '*' then ws[0] + Instance(p[1..], ws[1..])
    else [p[0]] + Instance(p[1..], ws)
  }

  /** Fillers for every `*` of `p`, none with a line break. */
  predicate Fillers(p: string, ws: seq<string>) {
    |ws| == Stars(p) && forall i :: 0 <= i < |ws| ==> '\n' !in ws[i]
  }

  /** A star followed by a matching rest also matches any line-free text in front of that rest. */
  lemma {:induction false} StarAbsorbs(p: string, w: string, t: string)
    requires |p| > 0 && p[0] == '*' && '\n' !in w && GlobMatch(p[1..], t)
    decreases |w|
    ensures GlobMatch(p, w + t)
  {
    if |w| > 0 {
      StarAbsorbs(p, w[1..], t);
      assert (w + t)[0] == w[0] && (w + t)[1..] == w[1..] + t;
    } else {
      assert w + t == t;
    }
  }

  /** Every way of filling the stars gives a text the pattern matches. */
  lemma {:induction false} InstanceMatches(p: string, ws: seq<string>)
    requires Fillers(p, ws)
    decreases |p|
    ensures GlobMatch(p, Instance(p, ws))
  {
    if |p| > 0 {
      if p[0] == '*' {
        InstanceMatches(p[1..], ws[1..]);
        StarAbsorbs(p, ws[0], Instance(p[1..], ws[1..]));
      } else {
        InstanceMatches(p[1..], ws);
        assert ([p[0]] + Instance(p[1..], ws))[1..] == Instance(p[1..], ws);
      }
    }
  }

  /** Every text the pattern matches is a way of filling its stars. */
  lemma {:induction false} MatchInstance(p: string, s: string) returns (ws: seq<string>)
    requires GlobMatch(p, s)
    decreases |p| + |s|
    ensures Fillers(p, ws) && Instance(p, ws) == s
  {
    if |p| == 0 {
      ws := [];
    } else if p[0] == '*' {
      if GlobMatch(p[1..], s) {
        var rest := MatchInstance(p[1..], s);
        ws := [[]] + rest;
        assert ws[1..] == rest;
      } else {
        var more := MatchInstance(p, s[1..]);
        ws := [[s[0]] + more[0]] + more[1..];
        assert ws[1..] == more[1..];
      }
    } else {
      ws := MatchInstance(p[1..], s[1..]);
    }
  }

  /** The pattern matches a text exactly when the text is the pattern with its stars filled by line-free text. */
  lemma GlobMeansInstance(p: string, s: string)
    ensures GlobMatch(p, s) <==> exists ws :: Fillers(p, ws) && Instance(p, ws) == s
  {
    if GlobMatch(p, s) {
      var ws := MatchInstance(p, s);
    }
    if exists ws :: Fillers(p, ws) && Instance(p, ws) == s {
      var ws :| Fillers(p, ws) && Instance(p, ws) == s;
      InstanceMatches(p, ws);
    }
  }

  /** Without a star a pattern matches only itself; in particular `.` is literal. */
  lemma {:induction false} NoStarExact(p: string, s: string)
    requires '*' !in p
    decreases |p|
    ensures GlobMatch(p, s) <==> s == p
  {
    if |p| > 0 {
      assert '*' !in p[1..] by {
        forall i | 0 <= i < |p| - 1 ensures p[1..][i] != '*' {
          assert p[1..][i] == p[i + 1];
        }
      }
      if |s| > 0 {
        NoStarExact(p[1..], s[1..]);
        if s[0] == p[0] && s[1..] == p[1..] {
          assert s == [s[0]] + s[1..] && p == [p[0]] + p[1..];
        }
      }
    }
  }

  // ---------------------------------------------------------------------------
  // The origin validator
  // ---------------------------------------------------------------------------

  /**
   * One allowed entry admits an origin: a wildcard entry by its pattern, any
   * other entry by equality. The expression a wildcard entry with other
   * metacharacters compiles to (or fails to compile to) is `regex`.
   */
  predicate EntryAllows(entry: string, origin: string, regex: (string, string) -> bool) {
    if '*' in entry then (if GlobSafe(entry) then GlobMatch(entry, origin) else regex(entry, origin))
    else entry == origin
  }

  /** The entries from `i` on, tried in order until one admits the origin. */
  function AllowedFrom(origin: string, allowed: seq<string>, regex: (string, string) -> bool, i: nat): (r: bool)
    requires i <= |allowed|
    decreases |allowed| - i
    ensures r <==> exists k :: i <= k < |allowed| && EntryAllows(allowed[k], origin, regex)
  {
    if i == |allowed| then false
    else EntryAllows(allowed[i], origin, regex) || AllowedFrom(origin, allowed, regex, i + 1)
  }

  /** AllowOriginFunc: a request without an origin is allowed, any other when some entry admits it. */
  function AllowOrigin(origin: string, allowed: seq<string>, regex: (string, string) -> bool): (r: bool)
    ensures origin == [] ==> r
    ensures origin != [] ==> (r <==> exists k :: 0 <= k < |allowed| && EntryAllows(allowed[k], origin, regex))
  {
    origin == [] || AllowedFrom(origin, allowed, regex, 0)
  }

  /** An origin listed verbatim is allowed, and so is nothing else when no entry has a star. */
  lemma ExactOrigins(origin: string, allowed: seq<string>, regex: (string, string) -> bool)
    requires origin != [] && forall k :: 0 <= k < |allowed| ==> '*' !in allowed[k]
    ensures AllowOrigin(origin, allowed, regex) <==> origin in allowed
  {
  }

  /**
   * A safe wildcard entry admits an origin exactly when the origin is the
   * entry with every star replaced by line-free text.
   */
  lemma WildcardOrigin(origin: string, allowed: seq<string>, regex: (string, string) -> bool, k: nat)
    requires origin != [] && k < |allowed| && '*' in allowed[k] && GlobSafe(allowed[k])
    ensures (exists ws :: Fillers(allowed[k], ws) && Instance(allowed[k], ws) == origin) ==> AllowOrigin(origin, allowed, regex)
    ensures EntryAllows(allowed[k], origin, regex) <==> exists ws :: Fillers(allowed[k], ws) && Instance(allowed[k], ws) == origin
  {
    GlobMeansInstance(allowed[k], origin);
  }

  // ---------------------------------------------------------------------------
  // The client address
  // ---------------------------------------------------------------------------

  /** The text before the first `c`, or all of it. */
  function Before(s: string, c: char): (r: string)
    ensures c !in r && HasPrefix(s, r) && (|r| < |s| ==> s[|r|] == c)
  {
    if |s| == 0 || s[0] == c then [] else [s[0]] + Before(s[1..], c)
  }

  /** The first piece of a split on one character is the text before that character. */
  lemma FirstPiece(s: string, c: char)
    ensures Split(s, [c])[0] == Before(s, c)
  {
    var b := Before(s, c);
    if |b| < |s| {
      forall j | 0 <= j < |b| ensures !StartsAt(s, j, [c]) {
        assert s[j] == b[j];
      }
      assert StartsAt(s, |b|, [c]);
      IndexFromFirst(s, [c], 0, |b|);
      assert s[..|b|] == b;
    } else {
      assert b == s;
      NoCharNoIndex(s, c);
    }
  }

  /**
   * getClientIP, with the headers' values (empty when absent) and the
   * connection's remote address as parameters: the first address of
   * X-Forwarded-For, else X-Real-IP as it is, else the remote address
   * without its port.
   */
  function ClientIP(forwardedFor: string, realIP: string, remoteAddr: string): (ip: string)
    ensures forwardedFor != [] ==> ip == TrimSpace(Before(forwardedFor, ','))
    ensures forwardedFor == [] && realIP != [] ==> ip == realIP
    ensures forwardedFor == [] && realIP == [] ==> HasPrefix(remoteAddr, ip)
  {
    if forwardedFor != [] then
      FirstPiece(forwardedFor, ',');
      TrimSpace(Split(forwardedFor, ",")[0])
    else if realIP != [] then realIP
    else match LastIndexOf(remoteAddr, ':')
      case None => remoteAddr
      case Some(colon) => remoteAddr[..colon]
  }

  /** The forwarded address never holds a comma: only the first hop is taken. */
  lemma ForwardedFirstHop(forwardedFor: string, realIP: string, remoteAddr: string)
    requires forwardedFor != []
    ensures ',' !in ClientIP(forwardedFor, realIP, remoteAddr)
  {
    TrimKeepsOut(Before(forwardedFor, ','), ',');
  }

  /**
   * Without forwarding headers the address is the remote address cut before
   * its last colon, and the whole of it when it has none.
   */
  lemma RemotePortDropped(remoteAddr: string)
    ensures var ip := ClientIP([], [], remoteAddr);
      && (':' !in remoteAddr ==> ip == remoteAddr)
      && (':' in remoteAddr ==> |ip| < |remoteAddr| && remoteAddr[|ip|] == ':' && ':' !in remoteAddr[|ip| + 1..])
  {
    var ip := ClientIP([], [], remoteAddr);
    if ':' in remoteAddr {
      var colon := LastIndexOf(remoteAddr, ':').value;
      assert ip == remoteAddr[..colon];
      var tail := remoteAddr[colon + 1..];
      forall i | 0 <= i < |tail| ensures tail[i] != ':' {
        assert tail[i] == remoteAddr[colon + 1 + i];
      }
    }
  }
}
