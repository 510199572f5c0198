/**
 * The request handler: the user-name gate, the per-user cache of the last
 * successful result, and the choice between fresh data, stale data and an
 * error. The cache is a value threaded through each request.
 */
module Controller {
  import opened Wrappers
  import opened Text
  import opened InfoEntity
  import opened ServiceException
  import Service

  const MaxUserNameLength := 39
  const InvalidUserNameMessage := "Invalid GitHub username"
  const UserNotFoundMessage := "GitHub user not found"

  // ---------- the user-name gate ----------

  predicate IsNameChar(c: char) {
    IsAsciiLetter(c) || IsAsciiDigit(c) || c == '-'
  }

  /** `.*` can span the first `n` characters: none of them is a line terminator. */
  predicate SingleLinePrefix(s: string, n: nat)
    requires n <= |s|
  {
    forall j :: 0 <= j < n ==> !IsLineTerminator(s[j])
  }

  /** `(?!.*--)` fails: a `--` is reachable from the start without crossing a line terminator. */
  predicate DoubleHyphenReachable(s: string) {
    exists i :: 0 <= i < |s| - 1 && s[i] == '-' && s[i + 1] == '-' && SingleLinePrefix(s, i)
  }

  /** No two adjacent hyphens anywhere. */
  predicate NoDoubleHyphen(s: string) {
    forall i :: 0 <= i < |s| - 1 ==> !(s[i] == '-' && s[i + 1] == '-')
  }

  /** The character-level rule a GitHub user name obeys. */
  predicate WellFormedUserName(s: string) {
    && 1 <= |s| <= MaxUserNameLength
    && (forall i :: 0 <= i < |s| ==> IsNameChar(s[i]))
    && s[0] != '-'
    && s[|s| - 1] != '-'
    && NoDoubleHyphen(s)
  }

  lemma NameCharIsPlain(c: char)
    requires IsNameChar(c)
    ensures !IsJavaWhitespace(c) && !IsLineTerminator(c) && c as int <= 0xFFFF
  {
  }

  /** On a string of name characters `.*` spans everything, so `(?!.*--)` rules out `--` anywhere. */
  lemma LookaheadSeesWholeName(s: string)
    ensures (forall i :: 0 <= i < |s| ==> IsNameChar(s[i])) ==> (DoubleHyphenReachable(s) <==> !NoDoubleHyphen(s))
  {
    if (forall i :: 0 <= i < |s| ==> IsNameChar(s[i])) && !NoDoubleHyphen(s) {
      var i :| 0 <= i < |s| - 1 && s[i] == '-' && s[i + 1] == '-';
      forall j | 0 <= j < i
        ensures !IsLineTerminator(s[j])
      {
        NameCharIsPlain(s[j]);
      }
      assert SingleLinePrefix(s, i);
    }
  }

  /**
   * `String.matches("^(?!-)(?!.*--)[a-zA-Z0-9-]+(?<!-)$")`, lookaround by
   * lookaround: the whole input is one or more name characters, neither
   * first nor last is a hyphen, and no two hyphens are adjacent.
   */
  function MatchesUserNamePattern(s: string): (matches: bool)
    ensures matches <==>
      && |s| >= 1
      && (forall i :: 0 <= i < |s| ==> IsNameChar(s[i]))
      && s[0] != '-' && s[|s| - 1] != '-'
      && NoDoubleHyphen(s)
  {
    LookaheadSeesWholeName(s);
    && !(|s| > 0 && s[0] == '-')
    && !DoubleHyphenReachable(s)
    && |s| >= 1 && (forall i :: 0 <= i < |s| ==> IsNameChar(s[i]))
    && s[|s| - 1] != '-'
  }

  /** The blank check, the UTF-16 length bound and the pattern together say exactly `WellFormedUserName`. */
  lemma PatternCharacterisation(s: string)
    ensures (!IsBlank(s) && Utf16Length(s) <= MaxUserNameLength && MatchesUserNamePattern(s))
            <==> WellFormedUserName(s)
  {
    if |s| >= 1 && forall i :: 0 <= i < |s| ==> IsNameChar(s[i]) {
      NameCharIsPlain(s[0]);
      forall i | 0 <= i < |s|
        ensures s[i] as int <= 0xFFFF
      {
        NameCharIsPlain(s[i]);
      }
    }
  }

  /** `isValidGitHubUserName`: not null, not blank, at most 39 UTF-16 units, matching the pattern. */
  function IsValidGitHubUserName(userName: Option<string>): (valid: bool)
    ensures valid <==> userName.Some? && WellFormedUserName(userName.value)
  {
    if userName.None? || IsBlank(userName.value) then false
    else
      PatternCharacterisation(userName.value);
      Utf16Length(userName.value) <= MaxUserNameLength && MatchesUserNamePattern(userName.value)
  }

  // ---------- responses ----------

  /** The JSON body of a response; the keys of the source's `Map.of` bodies become fields. */
  datatype ResponseBody =
    | Profile(info: GitHubInfo)
    | ErrorOnly(error: string)
    | ErrorReport(data: Option<GitHubInfo>, error: string, status: int, cached: bool)

  /**
   * What the endpoint produces: an HTTP status with a body, or an exception
   * that leaves the handler uncaught and is answered by the framework.
   */
  datatype Response =
    | Answer(status: int, body: ResponseBody)
    | Uncaught(escape: Service.Escape)

  /** The last successful result per user name. */
  type Cache = map<string, GitHubInfo>

  /** `handleNotFound`: a fixed 404 that never carries cached data. */
  function HandleNotFound(): (r: Response)
    ensures r.Answer? && r.status == NotFound.value
    ensures r.body == ErrorReport(None, UserNotFoundMessage, 404, false)
  {
    Answer(NotFound.value, ErrorReport(None, UserNotFoundMessage, NotFound.value, false))
  }

  /** `handleServiceException`: the exception's status and message, plus the cached profile when there is one. */
  function HandleServiceException(cache: Cache, userName: string, e: GitHubServiceException): (r: Response)
    ensures r.Answer? && r.status == e.status.value
    ensures r.body.ErrorReport? && r.body.error == e.message && r.body.status == e.status.value
    ensures r.body.cached <==> userName in cache
    ensures r.body.data.Some? <==> userName in cache
    ensures userName in cache ==> r.body.data == Some(cache[userName])
  {
    if userName in cache then
      Answer(e.status.value, ErrorReport(Some(cache[userName]), e.message, e.status.value, true))
    else
      Answer(e.status.value, ErrorReport(None, e.message, e.status.value, false))
  }

  /**
   * `processValidUserName`: a success is cached and returned; a 404 is
   * answered without the cache; any other service exception falls back to
   * the cache; anything else escapes with the cache untouched.
   */
  function ProcessValidUserName(cache: Cache, userName: string, outcome: Service.Outcome<GitHubInfo>): (r: (Response, Cache))
    ensures outcome.Ok? ==> r.0 == Answer(Ok.value, Profile(outcome.value))
    ensures outcome.Ok? ==> r.1 == cache[userName := outcome.value]
    ensures !outcome.Ok? ==> r.1 == cache
    ensures outcome.Failed? && outcome.error.status.value == NotFound.value ==>
      r.0 == Answer(404, ErrorReport(None, UserNotFoundMessage, 404, false))
    ensures outcome.Failed? && outcome.error.status.value != NotFound.value ==>
      r.0 == Answer(outcome.error.status.value,
                    ErrorReport(if userName in cache then Some(cache[userName]) else None,
                                outcome.error.message, outcome.error.status.value, userName in cache))
    ensures outcome.Escaped? ==> r.0 == Uncaught(outcome.escape)
  {
    match outcome
    case Ok(info) => (Answer(Ok.value, Profile(info)), cache[userName := info])
    case Failed(e) =>
      if e.status.value == NotFound.value then (HandleNotFound(), cache)
      else (HandleServiceException(cache, userName, e), cache)
    case Escaped(x) => (Uncaught(x), cache)
  }

  /**
   * `getGitInfo`: the gate first; only a valid name reaches the service,
   * which is the function `fetch` here.
   */
  function GetGitInfo(cache: Cache, userName: Option<string>, fetch: string -> Service.Outcome<GitHubInfo>): (r: (Response, Cache))
    ensures !(userName.Some? && WellFormedUserName(userName.value)) ==>
      r == (Answer(BadRequest.value, ErrorOnly(InvalidUserNameMessage)), cache)
    ensures userName.Some? && WellFormedUserName(userName.value) ==>
      r == ProcessValidUserName(cache, userName.value, fetch(userName.value))
    ensures r.0.Answer? && r.0.body.Profile? ==> userName.Some? && r.1 == cache[userName.value := r.0.body.info]
    ensures !(r.0.Answer? && r.0.body.Profile?) ==> r.1 == cache
  {
    if IsValidGitHubUserName(userName) then ProcessValidUserName(cache, userName.value, fetch(userName.value))
    else (Answer(BadRequest.value, ErrorOnly(InvalidUserNameMessage)), cache)
  }

  /** The endpoint wired to the real service: profile and repositories from `env`. */
  function Serve(env: Service.Env, cache: Cache, userName: Option<string>): (r: (Response, Cache))
    ensures !IsValidGitHubUserName(userName) ==> r.1 == cache && r.0 == Answer(400, ErrorOnly(InvalidUserNameMessage))
    ensures IsValidGitHubUserName(userName) ==>
      r == ProcessValidUserName(cache, userName.value, Service.GetGitInfoWithRepos(env, userName.value))
  {
    GetGitInfo(cache, userName, n => Service.GetGitInfoWithRepos(env, n))
  }

  // ---------- the cache across requests ----------

  /** One request as the cache sees it: the name asked for and what the service answers for it. */
  datatype Request = Request(userName: Option<string>, outcome: Service.Outcome<GitHubInfo>)

  function Handle(cache: Cache, req: Request): (Response, Cache) {
    GetGitInfo(cache, req.userName, (_: string) => req.outcome)
  }

  /** The cache after serving `requests` in order. */
  function Replay(cache: Cache, requests: seq<Request>): Cache
    decreases |requests|
  {
    if |requests| == 0 then cache
    else Handle(Replay(cache, requests[..|requests| - 1]), requests[|requests| - 1]).1
  }

  /** `req` is a successful lookup of `name`. */
  predicate SucceedsFor(req: Request, name: string) {
    req.userName == Some(name) && WellFormedUserName(name) && req.outcome.Ok?
  }

  /** The profile from the latest successful lookup of `name` in `requests`, if there is one. */
  function LastSuccess(requests: seq<Request>, name: string): Option<GitHubInfo>
    decreases |requests|
  {
    if |requests| == 0 then None
    else if SucceedsFor(requests[|requests| - 1], name) then Some(requests[|requests| - 1].outcome.value)
    else LastSuccess(requests[..|requests| - 1], name)
  }

  /** A single request writes the cache exactly when it is a successful lookup, and only its own entry. */
  lemma HandleWritesOnSuccess(cache: Cache, req: Request)
    ensures req.userName.Some? && SucceedsFor(req, req.userName.value) ==>
      Handle(cache, req).1 == cache[req.userName.value := req.outcome.value]
    ensures !(req.userName.Some? && SucceedsFor(req, req.userName.value)) ==> Handle(cache, req).1 == cache
  {
  }

  /**
   * The cache after any sequence of requests is the initial cache overridden,
   * per name, by the latest successful lookup: failures, 404s, escapes and
   * rejected names never touch it.
   */
  lemma {:induction false} ReplayKeepsLastSuccess(cache: Cache, requests: seq<Request>, name: string)
    ensures name in Replay(cache, requests) <==> name in cache || LastSuccess(requests, name).Some?
    ensures LastSuccess(requests, name).Some? ==> Replay(cache, requests)[name] == LastSuccess(requests, name).value
    ensures LastSuccess(requests, name).None? && name in cache ==> Replay(cache, requests)[name] == cache[name]
    decreases |requests|
  {
    if |requests| > 0 {
      var prefix, last := requests[..|requests| - 1], requests[|requests| - 1];
      ReplayKeepsLastSuccess(cache, prefix, name);
      HandleWritesOnSuccess(Replay(cache, prefix), last);
    }
  }

  lemma {:induction false} LastSuccessNameIsValid(requests: seq<Request>, name: string)
    requires LastSuccess(requests, name).Some?
    ensures WellFormedUserName(name)
    decreases |requests|
  {
    if !SucceedsFor(requests[|requests| - 1], name) {
      LastSuccessNameIsValid(requests[..|requests| - 1], name);
    }
  }

  /** Only names that passed the gate are ever cached. */
  lemma CacheHoldsOnlyValidNames(cache: Cache, requests: seq<Request>)
    requires forall k :: k in cache ==> WellFormedUserName(k)
    ensures forall k :: k in Replay(cache, requests) ==> WellFormedUserName(k)
  {
    forall k | k in Replay(cache, requests)
      ensures WellFormedUserName(k)
    {
      ReplayKeepsLastSuccess(cache, requests, k);
      if LastSuccess(requests, k).Some? {
        LastSuccessNameIsValid(requests, k);
      }
    }
  }

  /**
   * Starting from the empty cache, a non-404 service error for a valid name
   * is answered with the profile of the latest successful lookup of that
   * name, flagged as cached, or with no data when there was none.
   */
  lemma StaleDataIsLastSuccess(requests: seq<Request>, name: string, e: GitHubServiceException)
    requires WellFormedUserName(name) && e.status.value != NotFound.value
    ensures var r := Handle(Replay(map[], requests), Request(Some(name), Service.Failed(e))).0;
      && r == Answer(e.status.value, r.body)
      && r.body.ErrorReport?
      && r.body.data == LastSuccess(requests, name)
      && r.body.cached == LastSuccess(requests, name).Some?
      && r.body.error == e.message
  {
    ReplayKeepsLastSuccess(map[], requests, name);
  }

  /** A 404 from the profile endpoint is answered as "not found" even when the user is cached. */
  lemma NotFoundNeverServesCache(env: Service.Env, cache: Cache, name: string, constantName: Option<string>)
    requires WellFormedUserName(name)
    requires env.upstream(Service.ProfileUrl(name)) == Service.ClientError(404, constantName)
    ensures Serve(env, cache, Some(name)) == (HandleNotFound(), cache)
  {
    assert Service.GetJsonFromUrl(env.upstream(Service.ProfileUrl(name))).error.status == NotFound;
  }

  /** A 5xx from GitHub is not a service exception: it escapes without stale data and leaves the cache as it was. */
  lemma ServerErrorEscapes(env: Service.Env, cache: Cache, name: string, code: Service.ServerCode)
    requires WellFormedUserName(name)
    requires env.upstream(Service.ProfileUrl(name)) == Service.ServerError(code)
    ensures Serve(env, cache, Some(name)) == (Uncaught(Service.ServerErrorEscape(code)), cache)
  {
  }

  lemma AcceptedNames()
    ensures IsValidGitHubUserName(Some("a")) && IsValidGitHubUserName(Some("A"))
    ensures IsValidGitHubUserName(Some("octocat")) && IsValidGitHubUserName(Some("john-doe"))
    ensures IsValidGitHubUserName(Some("user123"))
    ensures IsValidGitHubUserName(Some(seq(39, _ => 'a')))
  {
    assert WellFormedUserName("a") && WellFormedUserName("A");
    assert WellFormedUserName("octocat") by {
      var s := "octocat";
      assert forall i :: 0 <= i < |s| ==> IsNameChar(s[i]);
    }
    assert WellFormedUserName("user123") by {
      var s := "user123";
      assert forall i :: 0 <= i < |s| ==> IsNameChar(s[i]);
    }
    assert WellFormedUserName("john-doe") by {
      var s := "john-doe";
      assert forall i :: 0 <= i < |s| ==> IsNameChar(s[i]);
      assert NoDoubleHyphen(s);
    }
    assert WellFormedUserName(seq(39, _ => 'a')) by {
      var n := seq(39, _ => 'a');
      assert forall i :: 0 <= i < |n| ==> IsNameChar(n[i]);
    }
  }

  lemma RejectedNames()
    ensures !IsValidGitHubUserName(None) && !IsValidGitHubUserName(Some(""))
    ensures !IsValidGitHubUserName(Some("   ")) && !IsValidGitHubUserName(Some(seq(40, _ => 'a')))
    ensures !IsValidGitHubUserName(Some("-invalid")) && !IsValidGitHubUserName(Some("invalid-"))
    ensures !IsValidGitHubUserName(Some("in--valid"))
    ensures !IsValidGitHubUserName(Some("user@name")) && !IsValidGitHubUserName(Some("user name"))
    ensures !IsValidGitHubUserName(Some("user_name")) && !IsValidGitHubUserName(Some("user.name"))
  {
    assert !IsNameChar("   "[0]);
    assert "in--valid"[2] == '-' && "in--valid"[3] == '-';
    assert !IsNameChar("user@name"[4]) && !IsNameChar("user name"[4]);
    assert !IsNameChar("user_name"[4]) && !IsNameChar("user.name"[4]);
  }
}
