/**
 * The server configuration: the port, the rate-limit constants, the
 * webhook URL and the CORS origins, each taken from the Home Assistant
 * add-on options when set there, else from the environment, else from the
 * built-in default.
 */
module Config {
  import opened Wrappers
  import opened Text
  import opened Numbers

  const DefaultPort: int := 3000
  const DefaultWindowMinutes: int := 15
  const DefaultMaxRequests: int := 100
  const DefaultMaxUploads: int := 50
  const DefaultWebhookURL: string := "https://n8n-058ea47.peakhq.co.za/webhook/7da5ea58-40bd-4470-8347-e4fc3d7dd1c4"
  /** The three built-in origins, written with commas between them. */
  const DefaultAllowedOrigins: string := "http://localhost:3000" + "," + "http://127.0.0.1:3000" + "," + "https://chords.peakhq.co.za"

  datatype RateLimitConfig = RateLimitConfig(windowMinutes: int, maxRequests: int, maxUploads: int)

  datatype Config = Config(port: int, webhookURL: string, allowedOrigins: seq<string>, rateLimit: RateLimitConfig)

  /** The add-on's options file; a field missing from the file reads as empty. */
  datatype HomeAssistantOptions = HomeAssistantOptions(webhookURL: string, allowedOrigins: string)

  // ---------------------------------------------------------------------------
  // Allowed origins
  // ---------------------------------------------------------------------------

  /** Every piece trimmed. */
  function TrimEach(parts: seq<string>): (r: seq<string>)
    ensures |r| == |parts| && forall k :: 0 <= k < |parts| ==> r[k] == TrimSpace(parts[k])
  {
    seq(|parts|, k requires 0 <= k < |parts| => TrimSpace(parts[k]))
  }

  /** The non-empty entries, in order. */
  function NonEmpty(xs: seq<string>): (r: seq<string>)
    decreases |xs|
    ensures |r| <= |xs|
  {
    if |xs| == 0 then []
    else if xs[0] != [] then [xs[0]] + NonEmpty(xs[1..])
    else NonEmpty(xs[1..])
  }

  /** The kept entries are exactly the non-empty ones. */
  lemma {:induction false} NonEmptyMembers(xs: seq<string>)
    decreases |xs|
    ensures forall x :: x in NonEmpty(xs) <==> x != [] && x in xs
  {
    if |xs| > 0 {
      NonEmptyMembers(xs[1..]);
      assert xs == [xs[0]] + xs[1..];
    }
  }

  /** Dropping the empty entries keeps the order: a list without empty entries is kept whole. */
  lemma {:induction false} NonEmptyKeepsAll(xs: seq<string>)
    requires forall k :: 0 <= k < |xs| ==> xs[k] != []
    decreases |xs|
    ensures NonEmpty(xs) == xs
  {
    if |xs| > 0 {
      NonEmptyKeepsAll(xs[1..]);
      assert xs == [xs[0]] + xs[1..];
    }
  }

  /** Dropping the empty entries works piece by piece, so the kept entries stay in order, repeats included. */
  lemma {:induction false} NonEmptyAppend(xs: seq<string>, ys: seq<string>)
    decreases |xs|
    ensures NonEmpty(xs + ys) == NonEmpty(xs) + NonEmpty(ys)
  {
    if |xs| == 0 {
      assert xs + ys == ys;
    } else {
      NonEmptyAppend(xs[1..], ys);
      assert (xs + ys)[0] == xs[0] && (xs + ys)[1..] == xs[1..] + ys;
      ConsAppend(xs[0], NonEmpty(xs[1..]), NonEmpty(ys));
    }
  }

  /** A single entry is kept exactly when it is not empty. */
  lemma NonEmptyOne(x: string)
    ensures NonEmpty([x]) == if x != [] then [x] else []
  {
    assert [x][1..] == [];
  }

  lemma TrimEachAppend(xs: seq<string>, ys: seq<string>)
    ensures TrimEach(xs + ys) == TrimEach(xs) + TrimEach(ys)
  {
  }

  /** parseAllowedOrigins: the comma-separated entries, trimmed, without empty ones. */
  function ParseAllowedOrigins(s: string): (r: seq<string>)
    ensures |r| <= |Split(s, ",")|
  {
    NonEmpty(TrimEach(Split(s, ",")))
  }

  /** The parsed origins are exactly the trims of the comma-separated pieces that are not blank. */
  lemma OriginsFromPieces(s: string)
    ensures forall x :: x in ParseAllowedOrigins(s) <==> x != [] && x in TrimEach(Split(s, ","))
  {
    NonEmptyMembers(TrimEach(Split(s, ",")));
  }

  /**
   * The origins of a list cut at a comma are the origins before it followed
   * by the origins after it: the order of the entries is kept, and so are
   * repeated entries.
   */
  lemma OriginsAppend(a: string, b: string)
    ensures ParseAllowedOrigins(a + "," + b) == ParseAllowedOrigins(a) + ParseAllowedOrigins(b)
  {
    SplitAppend(a, b, ',');
    TrimEachAppend(Split(a, ","), Split(b, ","));
    NonEmptyAppend(TrimEach(Split(a, ",")), TrimEach(Split(b, ",")));
  }

  /** A single entry gives its trimmed text, or nothing when it is blank. */
  lemma OriginsOfPiece(p: string)
    requires ',' !in p
    ensures ParseAllowedOrigins(p) == if TrimSpace(p) == [] then [] else [TrimSpace(p)]
  {
    forall j: nat ensures !StartsAt(p, j, ",") {
      StartsAtOne(p, j, ',');
    }
    SplitNoSep(p, ",");
    assert TrimEach([p]) == [TrimSpace(p)];
    NonEmptyOne(TrimSpace(p));
  }

  /**
   * A blank entry between two origins is dropped and the two keep their
   * order: "b, ,a" gives "b" then "a".
   */
  lemma BlankEntryDropped(x: string, w: string, y: string)
    requires CleanOrigin(x) && CleanOrigin(y)
    requires forall i :: 0 <= i < |w| ==> IsSpace(w[i])
    ensures ParseAllowedOrigins(x + "," + w + "," + y) == [x, y]
  {
    CommaAssoc(x, w, y);
    OriginsAppend(x, w + "," + y);
    OriginsAppend(w, y);
    CleanSingle(x);
    CleanSingle(y);
    BlankNoOrigin(w);
  }

  lemma BlankNoOrigin(w: string)
    requires forall i :: 0 <= i < |w| ==> IsSpace(w[i])
    ensures ParseAllowedOrigins(w) == []
  {
    assert ',' !in w by {
      forall i | 0 <= i < |w| ensures w[i] != ',' {
      }
    }
    OriginsOfPiece(w);
    BlankTrimmed(w);
  }

  lemma CommaAssoc(x: string, w: string, y: string)
    ensures x + "," + w + "," + y == x + "," + (w + "," + y)
  {
  }

  lemma CleanSingle(x: string)
    requires CleanOrigin(x)
    ensures ParseAllowedOrigins(x) == [x]
  {
    OriginsOfPiece(x);
    TrimmedFixed(x);
  }

  lemma BlankTrimmed(s: string)
    requires forall i :: 0 <= i < |s| ==> IsSpace(s[i])
    ensures TrimSpace(s) == []
  {
  }

  /** Every parsed origin is clean: non-empty, without a comma, without surrounding white space. */
  lemma OriginsClean(s: string)
    ensures forall x :: x in ParseAllowedOrigins(s) ==> CleanOrigin(x)
  {
    var parts := Split(s, ",");
    var ts := TrimEach(parts);
    SplitCharFree(s, ',');
    forall k | 0 <= k < |parts| ensures ',' !in ts[k] {
      TrimKeepsOut(parts[k], ',');
    }
    NonEmptyMembers(ts);
  }

  /** A text without surrounding white space is its own trim. */
  lemma TrimmedFixed(o: string)
    requires o != [] && !IsSpace(o[0]) && !IsSpace(o[|o| - 1])
    ensures TrimSpace(o) == o
  {
    var x, y :| 0 <= x <= y <= |o| && TrimSpace(o) == o[x..y]
      && (forall i :: 0 <= i < x ==> IsSpace(o[i])) && (forall i :: y <= i < |o| ==> IsSpace(o[i]));
    assert x == 0 && y == |o|;
  }

  /** A clean origin: non-empty, no comma, no surrounding white space. */
  predicate CleanOrigin(o: string) {
    o != [] && ',' !in o && !IsSpace(o[0]) && !IsSpace(o[|o| - 1])
  }

  /** Clean pieces pass through trimming unchanged. */
  lemma TrimClean(os: seq<string>)
    requires forall k :: 0 <= k < |os| ==> CleanOrigin(os[k])
    ensures TrimEach(os) == os
  {
    forall k | 0 <= k < |os| ensures TrimSpace(os[k]) == os[k] {
      TrimmedFixed(os[k]);
    }
  }

  /** A list of clean origins written with commas between them is read back as that list. */
  lemma OriginsRoundTrip(os: seq<string>)
    requires |os| >= 1 && forall k :: 0 <= k < |os| ==> CleanOrigin(os[k])
    ensures ParseAllowedOrigins(Join(os, ",")) == os
  {
    SplitJoin(os, ',');
    TrimClean(os);
    NonEmptyKeepsAll(os);
  }

  const DefaultOriginList: seq<string> := ["http://localhost:3000", "http://127.0.0.1:3000", "https://chords.peakhq.co.za"]

  lemma DefaultOriginsJoined()
    ensures Join(DefaultOriginList, ",") == DefaultAllowedOrigins
  {
    var os := DefaultOriginList;
    assert os[1..][1..] == [os[2]];
    assert Join(os, ",") == os[0] + "," + os[1] + "," + os[2];
  }

  /** The built-in origins. */
  lemma DefaultOriginsParsed()
    ensures ParseAllowedOrigins(DefaultAllowedOrigins) == DefaultOriginList
  {
    DefaultOriginsJoined();
    assert forall k :: 0 <= k < 3 ==> CleanOrigin(DefaultOriginList[k]);
    OriginsRoundTrip(DefaultOriginList);
  }

  // ---------------------------------------------------------------------------
  // Loading
  // ---------------------------------------------------------------------------

  /**
   * getEnvInt, with the environment as `env` (empty for an unset variable):
   * the variable's value when it is a 64-bit decimal integer, else the default.
   */
  function GetEnvInt(env: string -> string, key: string, default: int): (r: int)
    ensures Atoi(env(key)).Some? ==> r == Atoi(env(key)).value
    ensures Atoi(env(key)).None? ==> r == default
  {
    var val := env(key);
    if val != [] then
      match Atoi(val)
      case Some(v) => v
      case None => default
    else default
  }

  /** A variable holding a rendered 64-bit integer yields that integer; one whose text starts with neither a digit nor a sign yields the default. */
  lemma EnvIntRoundTrip(env: string -> string, key: string, default: int, n: int)
    requires MinInt64 <= n <= MaxInt64
    ensures env(key) == IntToString(n) ==> GetEnvInt(env, key, default) == n
    ensures |env(key)| > 0 && !IsDigit(env(key)[0]) && env(key)[0] != '+' && env(key)[0] != '-' ==> GetEnvInt(env, key, default) == default
  {
    AtoiRoundTrip(n);
  }

  /** The first of the candidates that is set. */
  function FirstSet(candidates: seq<string>): (r: string)
    ensures r == [] <==> forall k :: 0 <= k < |candidates| ==> candidates[k] == []
    ensures r != [] ==> exists k :: 0 <= k < |candidates| && r == candidates[k] && forall j :: 0 <= j < k ==> candidates[j] == []
  {
    if |candidates| == 0 then []
    else if candidates[0] != [] then candidates[0]
    else
      var r := FirstSet(candidates[1..]);
      assert forall k :: 1 <= k < |candidates| ==> candidates[1..][k - 1] == candidates[k];
      r
  }

  /** The add-on's value of a setting, empty without an options file. */
  function OptionValue(options: Option<HomeAssistantOptions>, webhook: bool): string {
    match options
    case None => []
    case Some(o) => if webhook then o.webhookURL else o.allowedOrigins
  }

  /**
   * Load, with the environment as `env` and the options file as `options`
   * (None when it is missing or unreadable): the port from PORT, the fixed
   * rate limits, and the webhook URL and origins from the first source that
   * sets them.
   */
  function Load(env: string -> string, options: Option<HomeAssistantOptions>): (c: Config)
    ensures c.port == GetEnvInt(env, "PORT", DefaultPort)
    ensures c.rateLimit == RateLimitConfig(DefaultWindowMinutes, DefaultMaxRequests, DefaultMaxUploads)
  {
    var webhook :=
      if options.Some? && options.value.webhookURL != [] then options.value.webhookURL
      else if env("N8N_WEBHOOK_URL") != [] then env("N8N_WEBHOOK_URL")
      else DefaultWebhookURL;
    var origins :=
      if options.Some? && options.value.allowedOrigins != [] then options.value.allowedOrigins
      else if env("ALLOWED_ORIGINS") != [] then env("ALLOWED_ORIGINS")
      else DefaultAllowedOrigins;
    Config(GetEnvInt(env, "PORT", DefaultPort), webhook, ParseAllowedOrigins(origins),
      RateLimitConfig(DefaultWindowMinutes, DefaultMaxRequests, DefaultMaxUploads))
  }

  /**
   * Each setting comes from the add-on options, else the environment, else
   * the default, whichever is set first; the webhook URL is never empty.
   */
  lemma LoadPrecedence(env: string -> string, options: Option<HomeAssistantOptions>)
    ensures var c := Load(env, options);
      && c.webhookURL == FirstSet([OptionValue(options, true), env("N8N_WEBHOOK_URL"), DefaultWebhookURL])
      && c.webhookURL != []
      && c.allowedOrigins == ParseAllowedOrigins(FirstSet([OptionValue(options, false), env("ALLOWED_ORIGINS"), DefaultAllowedOrigins]))
  {
    FirstOfThree(OptionValue(options, true), env("N8N_WEBHOOK_URL"), DefaultWebhookURL);
    FirstOfThree(OptionValue(options, false), env("ALLOWED_ORIGINS"), DefaultAllowedOrigins);
  }

  lemma FirstOfThree(a: string, b: string, c: string)
    ensures FirstSet([a, b, c]) == if a != [] then a else if b != [] then b else c
  {
    assert [a, b, c][1..] == [b, c] && [b, c][1..] == [c] && [c][1..] == [];
    assert FirstSet([c]) == c;
    assert FirstSet([b, c]) == if b != [] then b else c;
  }

  /** Without options and environment, the built-in webhook and the three built-in origins are used. */
  lemma LoadDefaults(env: string -> string)
    requires env("N8N_WEBHOOK_URL") == [] && env("ALLOWED_ORIGINS") == [] && env("PORT") == []
    ensures Load(env, None) == Config(DefaultPort, DefaultWebhookURL,
      DefaultOriginList, RateLimitConfig(15, 100, 50))
  {
    DefaultOriginsParsed();
  }
}
