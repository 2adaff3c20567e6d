/**
 * The telemetry `Logger` of the front end: a case-insensitive taxonomy of stacks, levels and
 * packages, the normalised payload it posts to `<baseUrl>/logs`, the bearer token it attaches,
 * and the retry counter that bounds how often one log line is sent.
 *
 * The network is a parameter: the server's answer to an attempt is a boolean that holds when
 * the attempt's `try` block runs to its end — the response is `ok` AND its body parses as
 * JSON other than `null`, so that reading `result.logID` does not throw. Anything else (a
 * thrown `fetch`, a non-2xx status, a 2xx answer with an empty or non-JSON body, a `null`
 * body) reaches the `catch` and counts as a failure, so such a line is sent again even though
 * the server may already have stored it. A chain of attempts is given the answers as a
 * function from the attempt number.
 */
module Logging {
  import opened Basics
  import opened Text

  const Stacks: seq<string> := ["frontend", "backend"]
  const Levels: seq<string> := ["debug", "info", "warn", "error", "fatal"]
  const FrontendPackages: seq<string> := ["api", "component", "hook", "page", "state", "style"]
  const BackendPackages: seq<string> :=
    ["cache", "controller", "cron_job", "db", "domain", "handler", "repository", "route", "service"]
  const SharedPackages: seq<string> := ["auth", "config", "middleware", "utils"]

  const DefaultBaseUrl: string := "http://20.244.56.144/evaluation-service"
  const DefaultRetryAttempts: int := 3
  const DefaultRetryDelay: int := 1000

  // ---------------------------------------------------------------- the taxonomy

  /** `isValidStack(stack)`. */
  predicate IsValidStack(stack: string) {
    Lower(stack) in Stacks
  }

  /** `isValidLevel(level)`. */
  predicate IsValidLevel(level: string) {
    Lower(level) in Levels
  }

  /** The whitelist `isValidPackage` picks: the front-end packages for the stack "frontend" (in
      any case), the back-end ones for every other stack; the shared ones in both. */
  function PackagesFor(stack: string): seq<string> {
    if Lower(stack) == "frontend" then FrontendPackages + SharedPackages
    else BackendPackages + SharedPackages
  }

  /** `isValidPackage(stack, packageName)`. */
  predicate IsValidPackage(stack: string, packageName: string) {
    Lower(packageName) in PackagesFor(stack)
  }

  predicate AllLowerCase(words: seq<string>) {
    forall w :: w in words ==> IsLowerCase(w)
  }

  lemma StacksAreLowerCase()
    ensures AllLowerCase(Stacks)
  {
    assert IsLowerCase("frontend") && IsLowerCase("backend");
  }

  lemma LevelsAreLowerCase()
    ensures AllLowerCase(Levels)
  {
    assert IsLowerCase("debug") && IsLowerCase("info") && IsLowerCase("warn");
    assert IsLowerCase("error") && IsLowerCase("fatal");
  }

  lemma FrontendPackagesAreLowerCase()
    ensures AllLowerCase(FrontendPackages)
  {
    assert IsLowerCase("api") && IsLowerCase("component") && IsLowerCase("hook");
    assert IsLowerCase("page") && IsLowerCase("state") && IsLowerCase("style");
  }

  lemma BackendPackagesAreLowerCase()
    ensures AllLowerCase(BackendPackages)
  {
    assert IsLowerCase("cache");
    assert IsLowerCase("controller");
    assert IsLowerCase("cron_job");
    assert IsLowerCase("db");
    assert IsLowerCase("domain");
    assert IsLowerCase("handler");
    assert IsLowerCase("repository");
    assert IsLowerCase("route");
    assert IsLowerCase("service");
  }

  lemma SharedPackagesAreLowerCase()
    ensures AllLowerCase(SharedPackages)
  {
    assert IsLowerCase("auth") && IsLowerCase("config") && IsLowerCase("middleware");
    assert IsLowerCase("utils");
  }

  lemma WhitelistsAreLowerCase()
    ensures AllLowerCase(Stacks) && AllLowerCase(Levels)
    ensures AllLowerCase(FrontendPackages) && AllLowerCase(BackendPackages) && AllLowerCase(SharedPackages)
  {
    StacksAreLowerCase();
    LevelsAreLowerCase();
    FrontendPackagesAreLowerCase();
    BackendPackagesAreLowerCase();
    SharedPackagesAreLowerCase();
  }

  /** Looking `s.toLowerCase()` up in a list of lower-case words is a case-insensitive search
      of the list. */
  lemma LowerInIffSpellsOne(s: string, words: seq<string>)
    requires AllLowerCase(words)
    ensures Lower(s) in words <==> exists w :: w in words && SpellsIgnoringCase(s, w)
  {
    forall w | w in words
      ensures Lower(s) == w <==> SpellsIgnoringCase(s, w)
    {
      LowerMatchesIffSpells(s, w);
    }
  }

  /** A word made of lower-case letters is its own lower case. */
  lemma LowerOfLowerCase(w: string)
    requires forall i :: 0 <= i < |w| ==> 'a' <= w[i] <= 'z'
    ensures Lower(w) == w
  {
    forall i | 0 <= i < |w| ensures Lower(w)[i] == w[i] {
      LowerAt(w, i);
    }
  }

  /** A stack is accepted exactly when it spells "frontend" or "backend" in any case. */
  lemma StackIsCaseInsensitive(stack: string)
    ensures IsValidStack(stack) <==>
      SpellsIgnoringCase(stack, "frontend") || SpellsIgnoringCase(stack, "backend")
  {
    WhitelistsAreLowerCase();
    LowerInIffSpellsOne(stack, Stacks);
  }

  /** A level is accepted exactly when it spells one of the five level names in any case. */
  lemma LevelIsCaseInsensitive(level: string)
    ensures IsValidLevel(level) <==>
      SpellsIgnoringCase(level, "debug") || SpellsIgnoringCase(level, "info") ||
      SpellsIgnoringCase(level, "warn") || SpellsIgnoringCase(level, "error") ||
      SpellsIgnoringCase(level, "fatal")
  {
    WhitelistsAreLowerCase();
    LowerInIffSpellsOne(level, Levels);
  }

  /** A package is accepted exactly when it spells, in any case, a shared package or one of the
      packages of its side: the front end when the stack spells "frontend", the back end for
      any other stack. */
  lemma PackageIsCaseInsensitive(stack: string, packageName: string)
    ensures IsValidPackage(stack, packageName) <==>
      (exists w :: w in SharedPackages && SpellsIgnoringCase(packageName, w)) ||
      (SpellsIgnoringCase(stack, "frontend") &&
        exists w :: w in FrontendPackages && SpellsIgnoringCase(packageName, w)) ||
      (!SpellsIgnoringCase(stack, "frontend") &&
        exists w :: w in BackendPackages && SpellsIgnoringCase(packageName, w))
  {
    WhitelistsAreLowerCase();
    LowerMatchesIffSpells(stack, "frontend");
    LowerInIffSpellsOne(packageName, SharedPackages);
    LowerInIffSpellsOne(packageName, FrontendPackages);
    LowerInIffSpellsOne(packageName, BackendPackages);
  }

  /** The three package lists have no name in common, so a package belongs to one side only
      or is shared. */
  lemma PackageListsDisjoint(p: string)
    ensures !(p in FrontendPackages && p in BackendPackages)
    ensures !(p in FrontendPackages && p in SharedPackages)
    ensures !(p in BackendPackages && p in SharedPackages)
  {
  }

  /** The level each convenience method (`debug` … `fatal`) passes to `log` is accepted. */
  lemma ConvenienceLevelsAreValid()
    ensures forall level :: level in Levels ==> IsValidLevel(level)
  {
    WhitelistsAreLowerCase();
    forall level | level in Levels
      ensures IsValidLevel(level)
    {
      LowerMatchesIffSpells(level, level);
    }
  }

  // ---------------------------------------------------------------- the payload

  /** `logData`. */
  datatype Payload = Payload(stack: string, level: string, package: string, message: string)

  /** The first check `log` fails; it then writes to the console and sends nothing. */
  datatype Rejection = InvalidStack | InvalidLevel | InvalidPackage

  /** The checks of `log`, in order, and the payload it builds when they pass. */
  function Prepare(stack: string, level: string, packageName: string, message: string)
    : Result<Payload, Rejection>
  {
    if !IsValidStack(stack) then Err(InvalidStack)
    else if !IsValidLevel(level) then Err(InvalidLevel)
    else if !IsValidPackage(stack, packageName) then Err(InvalidPackage)
    else Ok(Payload(Lower(stack), Lower(level), Lower(packageName), message))
  }

  /** A payload as the server's taxonomy expects it: a stack and a level from the lists, and a
      package of that stack's side or a shared one. */
  predicate Canonical(p: Payload) {
    p.stack in Stacks && p.level in Levels && p.package in PackagesFor(p.stack)
  }

  /** `log` stops at the first failing check, in the order stack, level, package, and
      otherwise builds a payload. */
  lemma PrepareChecksInOrder(stack: string, level: string, packageName: string, message: string)
    ensures var r := Prepare(stack, level, packageName, message);
      (r == Err(InvalidStack) <==> !IsValidStack(stack)) &&
      (r == Err(InvalidLevel) <==> IsValidStack(stack) && !IsValidLevel(level)) &&
      (r == Err(InvalidPackage) <==>
        IsValidStack(stack) && IsValidLevel(level) && !IsValidPackage(stack, packageName)) &&
      (r.Ok? <==> IsValidStack(stack) && IsValidLevel(level) && IsValidPackage(stack, packageName))
  {
  }

  /** The payload that is sent is canonical: its stack, level and package are the inputs
      lower-cased and spelt the same ignoring case, and the message is passed unchanged. */
  lemma PreparedPayloadIsCanonical(stack: string, level: string, packageName: string, message: string)
    requires Prepare(stack, level, packageName, message).Ok?
    ensures var p := Prepare(stack, level, packageName, message).value;
      Canonical(p) && p.message == message &&
      SpellsIgnoringCase(stack, p.stack) && SpellsIgnoringCase(level, p.level) &&
      SpellsIgnoringCase(packageName, p.package)
  {
    var p := Prepare(stack, level, packageName, message).value;
    WhitelistsAreLowerCase();
    LowerIdempotent(stack);
    assert p.package in PackagesFor(stack);
    assert IsLowerCase(p.stack) && IsLowerCase(p.level) && IsLowerCase(p.package);
    LowerMatchesIffSpells(stack, p.stack);
    LowerMatchesIffSpells(level, p.level);
    LowerMatchesIffSpells(packageName, p.package);
  }

  /** Logging an already normalised payload again sends it as it is: normalisation is
      idempotent. */
  lemma PrepareIdempotent(stack: string, level: string, packageName: string, message: string)
    requires Prepare(stack, level, packageName, message).Ok?
    ensures var p := Prepare(stack, level, packageName, message).value;
      Prepare(p.stack, p.level, p.package, p.message) == Ok(p)
  {
    LowerIdempotent(stack);
    LowerIdempotent(level);
    LowerIdempotent(packageName);
  }

  // ---------------------------------------------------------------- the request

  /** `if (this.token) headers['Authorization'] = \`Bearer ${this.token}\``: the header, when
      there is one. `None` stands for `null`. */
  function Authorization(token: Option<string>): (header: Option<string>)
    ensures header.Some? <==> token.Some? && token.value != ""
    ensures header.Some? ==> |header.value| >= 7 && header.value[..7] == "Bearer " && header.value[7..] == token.value
  {
    if token.Some? && token.value != "" then Some("Bearer " + token.value) else None
  }

  /** `${this.baseUrl}/logs`. */
  function LogsEndpoint(baseUrl: string): string {
    baseUrl + "/logs"
  }

  /** One `fetch` call: a JSON `POST` to `url` with the optional `Authorization` header and the
      payload as body. */
  datatype Request = Request(url: string, authorization: Option<string>, body: Payload)

  /** How many attempts a chain makes at most: the first attempt always runs, and each
      failed attempt `k` is followed by another only while `k < retryAttempts`. */
  function MaxAttempts(retryAttempts: int): (n: nat)
    ensures n >= 1 && n >= retryAttempts
    ensures retryAttempts >= 1 ==> n == retryAttempts
    ensures retryAttempts < 1 ==> n == 1
  {
    if retryAttempts < 1 then 1 else retryAttempts
  }

  /** `config` as `new Logger(config)` reads it; `None` is a missing (or `null`) entry. */
  datatype Config = Config(baseUrl: Option<string>, token: Option<string>,
                           retryAttempts: Option<int>, retryDelay: Option<int>)

  /** `config.x || fallback` for a text entry: a missing or empty text falls back. */
  function TextOr(x: Option<string>, fallback: string): (r: string)
    ensures x.Some? && x.value != "" ==> r == x.value
    ensures x.None? || x.value == "" ==> r == fallback
  {
    if x.Some? && x.value != "" then x.value else fallback
  }

  /** `config.x || fallback` for a number entry: a missing entry or 0 falls back. */
  function NumberOr(x: Option<int>, fallback: int): (r: int)
    ensures x.Some? && x.value != 0 ==> r == x.value
    ensures x.None? || x.value == 0 ==> r == fallback
  {
    if x.Some? && x.value != 0 then x.value else fallback
  }

  /** The outcome of `log`: dropped at a failing check, or sent in one or more attempts, the
      last of which was answered `ok` when `delivered`. */
  datatype LogOutcome = Dropped(reason: Rejection) | Dispatched(requests: seq<Request>, delivered: bool)

  class Logger {
    var baseUrl: string
    var token: Option<string>
    var retryAttempts: int
    var retryDelay: int

    /** `new Logger(config)`: every entry that is missing or falsy takes its default. */
    constructor (config: Config)
      ensures baseUrl == TextOr(config.baseUrl, DefaultBaseUrl)
      ensures token == (if config.token.Some? && config.token.value != "" then config.token else None)
      ensures retryAttempts == NumberOr(config.retryAttempts, DefaultRetryAttempts)
      ensures retryDelay == NumberOr(config.retryDelay, DefaultRetryDelay)
    {
      baseUrl := TextOr(config.baseUrl, DefaultBaseUrl);
      token := if config.token.Some? && config.token.value != "" then config.token else None;
      retryAttempts := NumberOr(config.retryAttempts, DefaultRetryAttempts);
      retryDelay := NumberOr(config.retryDelay, DefaultRetryDelay);
    }

    /** `setToken(token)`: later attempts carry the new token. */
    method SetToken(newToken: Option<string>)
      modifies this`token
      ensures token == newToken
    {
      token := newToken;
    }

    /** The request every attempt sends for `payload`, with the logger's current settings. */
    function RequestFor(payload: Payload): Request
      reads this
    {
      Request(LogsEndpoint(baseUrl), Authorization(token), payload)
    }

    /** One call `sendToServer(logData, attempt)`, given whether its `try` block completed
        (`ok`): the request it sends, and the attempt it schedules next, if any. */
    method SendToServer(payload: Payload, attempt: nat, ok: bool) returns (request: Request, next: Option<nat>)
      ensures request.url == baseUrl + "/logs" && request.body == payload
      ensures request.authorization.Some? <==> token.Some? && token.value != ""
      ensures request.authorization.Some? ==> request.authorization.value == "Bearer " + token.value
      ensures next.Some? <==> !ok && attempt < retryAttempts
      ensures next.Some? ==> next.value == attempt + 1
    {
      var headers := None;
      if token.Some? && token.value != "" {
        headers := Some("Bearer " + token.value);
      }
      request := Request(baseUrl + "/logs", headers, payload);
      if ok {
        next := None;
      } else if attempt < retryAttempts {
        next := Some(attempt + 1);
      } else {
        next := None;
      }
    }

    /** The chain of attempts `sendToServer(logData)` starts, with `serverOk(k)` telling whether
        the `try` block of attempt `k` completed (an `ok` response whose JSON body is not
        `null`), and no `setToken` in between: every attempt sends the same request; it stops
        at the first completed attempt, and after `MaxAttempts` failed ones. */
    method Deliver(payload: Payload, serverOk: nat -> bool) returns (requests: seq<Request>, delivered: bool)
      ensures 1 <= |requests| <= MaxAttempts(retryAttempts)
      ensures forall k :: 0 <= k < |requests| ==> requests[k] == RequestFor(payload)
      ensures forall k :: 1 <= k < |requests| ==> !serverOk(k)
      ensures delivered <==> serverOk(|requests|)
      ensures !delivered ==> |requests| == MaxAttempts(retryAttempts)
    {
      var attempt: nat := 1;
      requests := [];
      delivered := false;
      var pending := true;
      while pending
        invariant 1 <= attempt <= MaxAttempts(retryAttempts)
        invariant pending ==> |requests| == attempt - 1 && !delivered
        invariant !pending ==> |requests| == attempt
        invariant forall k :: 0 <= k < |requests| ==> requests[k] == RequestFor(payload)
        invariant forall k :: 1 <= k < attempt ==> !serverOk(k)
        invariant !pending ==> (delivered <==> serverOk(attempt))
        invariant !pending && !delivered ==> attempt == MaxAttempts(retryAttempts)
        decreases MaxAttempts(retryAttempts) - attempt, pending
      {
        var ok := serverOk(attempt);
        var request, next := SendToServer(payload, attempt, ok);
        requests := requests + [request];
        if ok {
          delivered := true;
          pending := false;
        } else if next.Some? {
          attempt := next.value;
        } else {
          pending := false;
        }
      }
    }

    /** `log(stack, level, packageName, message)`: the checks, then the chain of attempts
        carrying the normalised payload. */
    method Log(stack: string, level: string, packageName: string, message: string,
               serverOk: nat -> bool) returns (outcome: LogOutcome)
      ensures match Prepare(stack, level, packageName, message)
        case Err(reason) => outcome == Dropped(reason)
        case Ok(payload) =>
          outcome.Dispatched? &&
          1 <= |outcome.requests| <= MaxAttempts(retryAttempts) &&
          (forall k :: 0 <= k < |outcome.requests| ==> outcome.requests[k] == RequestFor(payload)) &&
          (outcome.delivered <==> serverOk(|outcome.requests|)) &&
          (forall k :: 1 <= k < |outcome.requests| ==> !serverOk(k)) &&
          (!outcome.delivered ==> |outcome.requests| == MaxAttempts(retryAttempts))
    {
      if !IsValidStack(stack) {
        return Dropped(InvalidStack);
      }
      if !IsValidLevel(level) {
        return Dropped(InvalidLevel);
      }
      if !IsValidPackage(stack, packageName) {
        return Dropped(InvalidPackage);
      }
      var logData := Payload(Lower(stack), Lower(level), Lower(packageName), message);
      var requests, delivered := Deliver(logData, serverOk);
      outcome := Dispatched(requests, delivered);
    }
  }

  function FailingServer(k: nat): bool { false }
  function AcceptingServer(k: nat): bool { true }

  /** The message the shortener page logs after creating `count` links. */
  function CreatedMessage(count: nat): string {
    "Created " + DecimalString(count) + " URLs"
  }

  /** The log line the shortener page writes after creating links passes every check and is
      sent as it was given, whatever the number of links. */
  lemma CreatedLinePasses(count: nat)
    ensures Prepare("frontend", "info", "api", CreatedMessage(count)) ==
      Ok(Payload("frontend", "info", "api", CreatedMessage(count)))
  {
    LowerOfLowerCase("frontend");
    LowerOfLowerCase("info");
    LowerOfLowerCase("api");
    assert IsValidStack("frontend") by { assert "frontend" == Stacks[0]; }
    assert IsValidLevel("info") by { assert "info" == Levels[1]; }
    assert IsValidPackage("frontend", "api") by {
      assert PackagesFor("frontend") == FrontendPackages + SharedPackages;
      assert "api" == (FrontendPackages + SharedPackages)[0];
    }
  }

  /** That line, answered at once by the server, is sent exactly once. */
  method AcceptedLineIsSentOnce(logger: Logger, count: nat) returns (outcome: LogOutcome)
    ensures outcome == Dispatched([logger.RequestFor(Payload("frontend", "info", "api", CreatedMessage(count)))], true)
  {
    CreatedLinePasses(count);
    outcome := logger.Log("frontend", "info", "api", CreatedMessage(count), AcceptingServer);
    assert AcceptingServer(1);
  }

  /** Because each retry runs later, a `setToken` between attempts changes the header of the
      attempts that follow it, while the payload stays the same. */
  method TokenChangesBetweenAttempts(payload: Payload) returns (first: Request, second: Request)
    ensures first.authorization == Some("Bearer old")
    ensures second.authorization == Some("Bearer new")
    ensures first.body == second.body == payload
  {
    var logger := new Logger(Config(None, Some("old"), None, None));
    assert "Bearer " + "old" == "Bearer old" && "Bearer " + "new" == "Bearer new";
    var next;
    first, next := logger.SendToServer(payload, 1, false);
    assert next == Some(2);
    logger.SetToken(Some("new"));
    second, next := logger.SendToServer(payload, next.value, false);
  }

  /** With the default settings, a server that never answers `ok` sees exactly three
      identical requests. */
  method DefaultLoggerTriesThreeTimes(payload: Payload) returns (requests: seq<Request>)
    ensures |requests| == 3
    ensures requests[0] == requests[1] == requests[2]
    ensures requests[0].url == "http://20.244.56.144/evaluation-service/logs"
    ensures requests[0].authorization == None
  {
    var logger := new Logger(Config(None, None, None, None));
    var delivered;
    requests, delivered := logger.Deliver(payload, FailingServer);
  }
}
