/**
 * The upstream client and the response assembler. The HTTP exchange and the
 * JSON parser are not modelled: the service receives them in an `Env` as
 * functions from a URL to what came back and from a body to its parse tree.
 */
module Service {
  import opened Wrappers
  import opened Text
  import opened JsonTree
  import opened RepositoryEntity
  import opened InfoEntity
  import opened ServiceException
  import opened InfoMapper

  const ApiBaseUrl := "https://api.github.com/users/"
  const ReposEndpoint := "/repos"

  const NotFoundMessage := "GitHub user not found"
  const OtherErrorPrefix := "GitHub user not found or error occurred: "
  const UserInfoParseMessage := "Failed to parse GitHub user info response"
  const RepoListParseMessage := "Failed to parse GitHub repository list response"

  type ClientCode = c: int | 400 <= c < 500 witness 400
  type ServerCode = c: int | 500 <= c < 600 witness 500

  /**
   * What one GET returned: a body, a 4xx answer (with the name of the status
   * enumeration's constant for that code, when it has one), a 5xx answer, or
   * no answer at all.
   */
  datatype HttpResult =
    | Body(text: string)
    | ClientError(code: ClientCode, constantName: Option<string>)
    | ServerError(serverCode: ServerCode)
    | TransportFailure

  /**
   * A failure the service does not translate into its own exception: it
   * propagates out of the service unchanged. A 4xx code without an enumeration
   * constant ends here because converting it to a status throws.
   */
  datatype Escape = UnknownStatusCode(code: int) | ServerErrorEscape(code: int) | TransportEscape

  /** A service call's result: a value, the service's exception, or an exception it lets through. */
  datatype Outcome<+T> = Ok(value: T) | Failed(error: GitHubServiceException) | Escaped(escape: Escape) {

    predicate IsFailure() {
      !Ok?
    }

    function PropagateFailure<U>(): Outcome<U>
      requires !Ok?
    {
      if Failed? then Failed(error) else Escaped(escape)
    }

    function Extract(): T
      requires Ok?
    {
      value
    }
  }

  /** The service's collaborators: the HTTP client, the JSON parser and the lenient date parser. */
  datatype Env = Env(upstream: string -> HttpResult, readTree: string -> Parse<Json>, lenientDate: LenientDateParser)

  /** The user's resource: the API base followed by the raw, unescaped name. */
  function ProfileUrl(userName: string): (url: string)
    ensures |url| == |ApiBaseUrl| + |userName|
    ensures url[..|ApiBaseUrl|] == ApiBaseUrl && url[|ApiBaseUrl|..] == userName
  {
    ApiBaseUrl + userName
  }

  /** The user's repository list: the user's resource followed by `/repos`. */
  function ReposUrl(userName: string): (url: string)
    ensures |url| == |ProfileUrl(userName)| + |ReposEndpoint|
    ensures url[..|ProfileUrl(userName)|] == ProfileUrl(userName)
    ensures url[|ProfileUrl(userName)|..] == ReposEndpoint
  {
    ApiBaseUrl + userName + ReposEndpoint
  }

  /** The two endpoints: the user's resource, and the same resource followed by `/repos`. */
  lemma UrlShapes(userName: string)
    ensures ReposUrl(userName) == ProfileUrl(userName) + "/repos"
    ensures ProfileUrl(userName) != ReposUrl(userName)
  {
    assert |ReposUrl(userName)| == |ProfileUrl(userName)| + 6;
  }

  /** Distinct user names address distinct resources. */
  lemma ProfileUrlInjective(a: string, b: string)
    requires ProfileUrl(a) == ProfileUrl(b)
    ensures a == b
  {
    UrlShapes(a);
    UrlShapes(b);
  }

  /** `HttpStatus.toString()`: the code, a space, the constant's name. */
  function StatusText(code: nat, constantName: string): (t: string)
    ensures var k := |t| - |constantName| - 1;
      && 1 <= k && AllDigits(t[..k]) && DigitsValue(t[..k]) == code
      && (k > 1 ==> t[0] != '0')
      && t[k] == ' ' && t[k + 1..] == constantName
  {
    NatToStringRoundTrip(code);
    var digits := NatToString(code);
    assert (digits + " " + constantName)[..|digits|] == digits;
    digits + " " + constantName
  }

  /** `getJsonFromUrl`: a body passes through; only 4xx answers become the service's exception. */
  function GetJsonFromUrl(result: HttpResult): (r: Outcome<string>)
    ensures r.Ok? <==> result.Body?
    ensures r.Ok? ==> r.value == result.text
    ensures r.Failed? <==> result.ClientError? && (result.code == 404 || result.constantName.Some?)
    ensures r.Failed? ==> r.error.status.value == result.code && r.error.cause == Some(ClientErrorCause(result.code))
    ensures r.Failed? && result.code == 404 ==> r.error.message == NotFoundMessage && r.error.status == NotFound
    ensures r.Failed? && result.code != 404 ==>
              r.error.status.name == result.constantName.value
              && r.error.message == OtherErrorPrefix + StatusText(result.code, result.constantName.value)
    ensures result.ServerError? ==> r == Escaped(ServerErrorEscape(result.serverCode))
    ensures result.TransportFailure? ==> r == Escaped(TransportEscape)
  {
    match result
    case Body(text) => Ok(text)
    case ClientError(code, constantName) =>
      if code == 404 then
        Failed(NewServiceException(NotFoundMessage, NotFound, Some(ClientErrorCause(code))))
      else if constantName.Some? then
        Failed(NewServiceException(OtherErrorPrefix + StatusText(code, constantName.value),
                                   HttpStatus(code, constantName.value), Some(ClientErrorCause(code))))
      else
        Escaped(UnknownStatusCode(code))
    case ServerError(code) => Escaped(ServerErrorEscape(code))
    case TransportFailure => Escaped(TransportEscape)
  }

  /** The code an error message names after the common prefix. */
  lemma ErrorMessageCarriesStatus(code: ClientCode, constantName: string)
    requires code != 404
    ensures var m := GetJsonFromUrl(ClientError(code, Some(constantName))).error.message;
      && |m| > |OtherErrorPrefix| + |NatToString(code)|
      && m[..|OtherErrorPrefix|] == OtherErrorPrefix
      && var digits := m[|OtherErrorPrefix|..|OtherErrorPrefix| + |NatToString(code)|];
         AllDigits(digits) && DigitsValue(digits) == code
  {
    var m := GetJsonFromUrl(ClientError(code, Some(constantName))).error.message;
    var n := NatToString(code);
    assert m == OtherErrorPrefix + n + " " + constantName;
    assert m[|OtherErrorPrefix|..|OtherErrorPrefix| + |n|] == n;
    NatToStringRoundTrip(code);
  }

  function UserInfoParseError(): GitHubServiceException {
    NewServiceException(UserInfoParseMessage, BadGateway, Some(ParseFailureCause))
  }

  function RepoListParseError(): GitHubServiceException {
    NewServiceException(RepoListParseMessage, BadGateway, Some(ParseFailureCause))
  }

  /** `getGitInfo`: fetch the user's resource, parse it, map it. */
  function GetGitInfo(env: Env, userName: string): (r: Outcome<GitHubInfo>)
    ensures var fetched := GetJsonFromUrl(env.upstream(ProfileUrl(userName)));
      && (!fetched.Ok? ==> r == fetched.PropagateFailure())
      && (fetched.Ok? && env.readTree(fetched.value).ParseFail? ==> r == Failed(UserInfoParseError()))
      && (fetched.Ok? && env.readTree(fetched.value).Parsed? ==>
            r == Ok(FromJsonNode(env.readTree(fetched.value).tree, env.lenientDate)))
    ensures r.Ok? ==> r.value.repositories.None?
  {
    var json :- GetJsonFromUrl(env.upstream(ProfileUrl(userName)));
    match env.readTree(json)
    case ParseFail => Failed(UserInfoParseError())
    case Parsed(node) => Ok(FromJsonNode(node, env.lenientDate))
  }

  /** Binding of one array element to a repository; `None` is a binding failure. */
  function BindRepository(item: Json): (r: Option<GitHubRepository>)
    ensures item.JObject? ==> r == FromJsonObject(item.fields)
    ensures item.JNull? ==> r == Some(EmptyRepository())
    ensures !item.JObject? && !item.JNull? ==> r.None?
  {
    match item
    case JObject(fields) => FromJsonObject(fields)
    case JNull => Some(EmptyRepository())
    case _ => None
  }

  /** Binding of every element, in order; fails when any element fails. */
  function BindRepositories(items: seq<Json>): (r: Option<seq<GitHubRepository>>)
    ensures r.Some? <==> forall i :: 0 <= i < |items| ==> BindRepository(items[i]).Some?
    ensures r.Some? ==>
              (&& |r.value| == |items|
               && forall i :: 0 <= i < |items| ==> Some(r.value[i]) == BindRepository(items[i]))
  {
    if |items| == 0 then Some([])
    else match (BindRepository(items[0]), BindRepositories(items[1..]))
      case (Some(first), Some(rest)) => Some([first] + rest)
      case (None, _) => None
      case (_, None) =>
        assert forall i :: 1 <= i < |items| ==> items[1..][i - 1] == items[i];
        None
  }

  /** Binding of a whole body to a list of repositories: a JSON null is a null list, an array binds element-wise. */
  function BindRepositoryList(tree: Json): (r: Option<Option<seq<GitHubRepository>>>)
    ensures r == Some(None) <==> tree.JNull?
    ensures r.Some? <==> tree.JNull? || (tree.JArray? && forall i :: 0 <= i < |tree.items| ==> BindRepository(tree.items[i]).Some?)
    ensures r.Some? && r.value.Some? ==>
              (&& tree.JArray? && |r.value.value| == |tree.items|
               && forall i :: 0 <= i < |tree.items| ==> Some(r.value.value[i]) == BindRepository(tree.items[i]))
  {
    match tree
    case JNull => Some(None)
    case JArray(items) => (match BindRepositories(items) case Some(rs) => Some(Some(rs)) case None => None)
    case _ => None
  }

  /** `getGitRepoInfo`: fetch the repository list, parse and bind it. */
  function GetGitRepoInfo(env: Env, userName: string): (r: Outcome<Option<seq<GitHubRepository>>>)
    ensures var fetched := GetJsonFromUrl(env.upstream(ReposUrl(userName)));
      && (!fetched.Ok? ==> r == fetched.PropagateFailure())
      && (fetched.Ok? ==>
            match env.readTree(fetched.value)
            case ParseFail => r == Failed(RepoListParseError())
            case Parsed(t) =>
              && (t.JNull? ==> r == Ok(None))
              && (t.JArray? && BindRepositories(t.items).Some? ==> r == Ok(BindRepositories(t.items)))
              && (t.JArray? && BindRepositories(t.items).None? ==> r == Failed(RepoListParseError()))
              && (!t.JNull? && !t.JArray? ==> r == Failed(RepoListParseError())))
  {
    var json :- GetJsonFromUrl(env.upstream(ReposUrl(userName)));
    match env.readTree(json)
    case ParseFail => Failed(RepoListParseError())
    case Parsed(tree) =>
      match BindRepositoryList(tree)
      case None => Failed(RepoListParseError())
      case Some(repos) => Ok(repos)
  }

  /** `getGitInfoWithRepos`: the profile, then the repositories, attached; the first failure wins. */
  function GetGitInfoWithRepos(env: Env, userName: string): (r: Outcome<GitHubInfo>)
    ensures !GetGitInfo(env, userName).Ok? ==> r == GetGitInfo(env, userName).PropagateFailure()
    ensures GetGitInfo(env, userName).Ok? && !GetGitRepoInfo(env, userName).Ok? ==>
              r == GetGitRepoInfo(env, userName).PropagateFailure()
    ensures r.Ok? <==> GetGitInfo(env, userName).Ok? && GetGitRepoInfo(env, userName).Ok?
    ensures r.Ok? ==>
              && (forall f :: Get(r.value, f) == Get(GetGitInfo(env, userName).value, f))
              && GetRepositories(r.value) == GetGitRepoInfo(env, userName).value
  {
    var info :- GetGitInfo(env, userName);
    var repos :- GetGitRepoInfo(env, userName);
    Ok(SetRepositories(info, repos))
  }

  /**
   * When the profile step fails, the combined fetch returns that failure and
   * never consults the repository endpoint: any other answer there changes nothing.
   */
  lemma ReposStepSkippedAfterProfileFailure(env: Env, userName: string, other: string -> HttpResult)
    requires !GetGitInfo(env, userName).Ok?
    requires other(ProfileUrl(userName)) == env.upstream(ProfileUrl(userName))
    ensures GetGitInfoWithRepos(env.(upstream := other), userName) == GetGitInfoWithRepos(env, userName)
    ensures GetGitInfoWithRepos(env, userName) == GetGitInfo(env, userName).PropagateFailure()
  {
  }

  /** Every error the combined fetch raises is a passed-through 4xx, or a 502 that means a parse failure. */
  lemma ServiceErrorKinds(env: Env, userName: string)
    requires GetGitInfoWithRepos(env, userName).Failed?
    ensures var e := GetGitInfoWithRepos(env, userName).error;
      && (400 <= e.status.value < 500 || e.status == BadGateway)
      && (e.status.value == 404 <==> e.message == NotFoundMessage)
      && (e.status == BadGateway <==> e.message in {UserInfoParseMessage, RepoListParseMessage})
      && (e.status == BadGateway <==> e.cause == Some(ParseFailureCause))
  {
    var e := GetGitInfoWithRepos(env, userName).error;
    var p := GetJsonFromUrl(env.upstream(ProfileUrl(userName)));
    var q := GetJsonFromUrl(env.upstream(ReposUrl(userName)));
    if p.Failed? {
      assert e == p.error;
      if e.status.value != 404 {
        PrefixedMessageIsNotFixed(e.message);
      }
    } else if GetGitInfo(env, userName).Ok? && q.Failed? {
      assert e == q.error;
      if e.status.value != 404 {
        PrefixedMessageIsNotFixed(e.message);
      }
    }
  }

  /** A message built on the 4xx prefix is none of the fixed messages. */
  lemma PrefixedMessageIsNotFixed(m: string)
    requires |m| >= |OtherErrorPrefix| && m[..|OtherErrorPrefix|] == OtherErrorPrefix
    ensures m != NotFoundMessage && m != UserInfoParseMessage && m != RepoListParseMessage
  {
    assert m[0] == OtherErrorPrefix[0] == 'G';
    assert UserInfoParseMessage[0] == 'F' && RepoListParseMessage[0] == 'F';
  }
}
