# GitHub user lookup service — a Dafny model

This project models a small web service. The service answers `GET /users/{userName}` with a
user's GitHub profile and their list of public repositories. The pieces modelled:

- **The user-name gate.** The name must be non-null and non-blank, at most 39 UTF-16 code units,
  and match `^(?!-)(?!.*--)[a-zA-Z0-9-]+(?<!-)$`. The model proves this equals a plain
  character-level rule.
- **The two upstream calls.** `https://api.github.com/users/<name>` gives the profile, and the same
  URL with `/repos` appended gives the repository list.
- **Error classification.** Each upstream answer is classified as one of:
  - a body;
  - a `GitHubServiceException` carrying the 4xx status, with a "not found" message for 404 and a
    "<code> <STATUS_NAME>" message otherwise;
  - a BAD_GATEWAY exception when the body cannot be parsed or bound;
  - an exception that escapes the handler. This covers 5xx answers, transport failures, and 4xx
    codes unknown to Spring's `HttpStatus`.
- **The mapper.** It copies seven profile fields out of the JSON tree. It reformats `created_at`
  from ISO-8601 `yyyy-MM-dd'T'HH:mm:ss'Z'` to RFC 1123 `EEE, dd MMM yyyy HH:mm:ss GMT`, and falls
  back to the raw text when the text does not parse.
- **The entity classes.** `GitHubInfo` and `GitHubRepository` have their constructors, getters and
  setters, and `GitHubInfo` keeps defensive copies of its repository list.
- **The controller.** It keeps a per-user cache of the last successful result:
  - a success is cached and returned with 200;
  - a 404 gets a fixed "not found" body and never touches the cache;
  - any other service exception is answered with its status and message, plus the cached profile
    when there is one.

The model's shape:

- Nullable Java strings are `Option<string>`.
- The network and Jackson are functions in a `Service.Env` value:
  - `upstream` maps a URL to an HTTP result;
  - `readTree` maps a body to a parsed JSON tree or a parse failure;
  - `lenientDate` is the lenient `SimpleDateFormat` fallback.
- The controller's cache is a `map<string, GitHubInfo>` threaded through each request.
- `Controller.Replay` serves a whole sequence of requests.

Modules follow the program's classes:

- `Wrappers`: `Option`.
- `Text`: Java `isBlank`, UTF-16 length and decimal digits.
- `JsonTree`: Jackson's `path`/`asText(null)`.
- `Calendar`: proleptic Gregorian dates and the two timestamp formats.
- One module for each class: `RepositoryEntity`, `InfoEntity`, `ServiceException`, `InfoMapper`,
  `Service`, `Controller`.

## Model

| member | source | states |
|---|---|---|
| Controller.IsValidGitHubUserName | src/main/java/com/example/jonathanklecherbranchservice/controller/GitInfoController.java:158-164 | a name passes the gate iff it is present, 1 to 39 characters long, made only of ASCII letters, digits and `-`, does not start or end with `-`, and has no `--` |
| Controller.PatternCharacterisation | src/main/java/com/example/jonathanklecherbranchservice/controller/GitInfoController.java:159-163 | the blank check, the UTF-16 length bound and the regex read lookaround by lookaround (`.*` stops at line terminators) together are equivalent to the character-level rule |
| Controller.MatchesUserNamePattern | src/main/java/com/example/jonathanklecherbranchservice/controller/GitInfoController.java:163 | the regex, read lookaround by lookaround, accepts exactly the non-empty strings of ASCII letters, digits and `-` that neither start nor end with `-` and have no two adjacent hyphens |
| Controller.AcceptedNames | src/main/java/com/example/jonathanklecherbranchservice/controller/GitInfoController.java:147-152 | `a`, `A`, `octocat`, `john-doe`, `user123` and a 39-letter name are accepted |
| Controller.RejectedNames | src/main/java/com/example/jonathanklecherbranchservice/controller/GitInfoController.java:147-152 | null, empty, blank, 40 letters, a leading or trailing hyphen, `--`, and `@`, space, `_` or `.` are rejected |
| Controller.GetGitInfo | src/main/java/com/example/jonathanklecherbranchservice/controller/GitInfoController.java:56-64 | an invalid name gets 400 `{error: "Invalid GitHub username"}` without calling the service and without touching the cache; a valid name is processed with the service's answer; only a profile answer writes the cache, and only that user's entry |
| Controller.ProcessValidUserName | src/main/java/com/example/jonathanklecherbranchservice/controller/GitInfoController.java:79-93 | success gives 200 with the profile and caches it under the name; a 404 exception gets the fixed not-found answer; any other service exception gets the exception's status, its message and the cached profile if one exists; an escaping exception stays uncaught; only success changes the cache |
| Controller.HandleNotFound | src/main/java/com/example/jonathanklecherbranchservice/controller/GitInfoController.java:102-110 | 404 with `{error: "GitHub user not found", status: 404, cached: false}` and no data |
| Controller.HandleServiceException | src/main/java/com/example/jonathanklecherbranchservice/controller/GitInfoController.java:123-141 | the response status and the body's `status` are the exception's, `error` is its message, and `data` and `cached: true` are present exactly when the user is cached |
| Controller.Serve | src/main/java/com/example/jonathanklecherbranchservice/controller/GitInfoController.java:56-64 | the endpoint wired to the combined profile-and-repositories fetch |
| Controller.HandleWritesOnSuccess | src/main/java/com/example/jonathanklecherbranchservice/controller/GitInfoController.java:81-91 | one request writes the cache exactly when it is a successful lookup of a valid name, and writes only that entry |
| Controller.ReplayKeepsLastSuccess | src/main/java/com/example/jonathanklecherbranchservice/controller/GitInfoController.java:79-93 | after any sequence of requests, a name is cached iff it was cached initially or had a successful lookup, and its entry is the latest successful profile (`LastSuccess`, defined without the controller) |
| Controller.CacheHoldsOnlyValidNames | src/main/java/com/example/jonathanklecherbranchservice/controller/GitInfoController.java:58-61 | only names that pass the gate ever appear as cache keys |
| Controller.StaleDataIsLastSuccess | src/main/java/com/example/jonathanklecherbranchservice/controller/GitInfoController.java:123-141 | starting from an empty cache, a non-404 service exception is answered with the latest successful profile of that user, with `cached` true, or with no data and `cached` false when there was none |
| Controller.NotFoundNeverServesCache | src/main/java/com/example/jonathanklecherbranchservice/controller/GitInfoController.java:86-87 | an upstream 404 on the profile gives the not-found answer whatever the cache holds, and leaves the cache as it was |
| Controller.ServerErrorEscapes | src/main/java/com/example/jonathanklecherbranchservice/service/GitHubService.java:132-141 | an upstream 5xx is not turned into a service exception: the handler does not catch it, serves no cached data and leaves the cache unchanged |
| Service.UrlShapes | src/main/java/com/example/jonathanklecherbranchservice/service/GitHubService.java:39-40 | the repository URL is the profile URL followed by `/repos`, so the two never coincide |
| Service.ProfileUrl | src/main/java/com/example/jonathanklecherbranchservice/service/GitHubService.java:60 | the profile URL is the API base `https://api.github.com/users/` followed by the raw, unescaped name |
| Service.ReposUrl | src/main/java/com/example/jonathanklecherbranchservice/service/GitHubService.java:85 | the repository URL is the profile URL followed by `/repos` |
| Service.ProfileUrlInjective | src/main/java/com/example/jonathanklecherbranchservice/service/GitHubService.java:60 | distinct names give distinct profile URLs |
| Service.GetJsonFromUrl | src/main/java/com/example/jonathanklecherbranchservice/service/GitHubService.java:132-142 | a body is returned as-is; a 4xx becomes an exception iff it is 404 or a status Spring knows, carrying that status and the client error as cause; 404 gets "GitHub user not found" with NOT_FOUND; other 4xx get the prefix plus "<code> <NAME>"; 5xx and transport failures escape |
| Service.ErrorMessageCarriesStatus | src/main/java/com/example/jonathanklecherbranchservice/service/GitHubService.java:139-140 | the non-404 message is the fixed prefix, the decimal status code, a space and the status name, and the digits read back as the code |
| Service.StatusText | src/main/java/com/example/jonathanklecherbranchservice/service/GitHubService.java:139 | `HttpStatus.toString()` text: decimal digits without a leading zero that read back as the code, one space, then the constant name |
| Service.GetGitInfo | src/main/java/com/example/jonathanklecherbranchservice/service/GitHubService.java:59-69 | a fetch failure propagates unchanged; an unparsable body gives BAD_GATEWAY "Failed to parse GitHub user info response" with a parse cause; otherwise the result is the mapped profile, with no repositories |
| Service.BindRepository | src/main/java/com/example/jonathanklecherbranchservice/service/GitHubService.java:90-91 | one array element binds as a repository: an object through the `name`/`url` binding, JSON `null` as the empty repository (see Left out), and any other value fails to bind |
| Service.BindRepositories | src/main/java/com/example/jonathanklecherbranchservice/service/GitHubService.java:90-91 | a JSON array binds iff every element binds, and then gives one repository per element, in order |
| Service.BindRepositoryList | src/main/java/com/example/jonathanklecherbranchservice/service/GitHubService.java:89-91 | a body binds to a null list iff it is JSON `null`; it binds at all iff it is `null` or an array whose elements all bind; a bound array has one repository per element, in order |
| Service.GetGitRepoInfo | src/main/java/com/example/jonathanklecherbranchservice/service/GitHubService.java:84-95 | a fetch failure propagates; a JSON `null` gives a null list; an array whose elements all bind gives those repositories in order; an unparsable body, an array with an element that does not bind, or any other JSON value gives BAD_GATEWAY "Failed to parse GitHub repository list response" |
| Service.GetGitInfoWithRepos | src/main/java/com/example/jonathanklecherbranchservice/service/GitHubService.java:109-113 | the first failing step's failure is the result; it succeeds iff both steps do, and then has the profile's fields and the repository step's list |
| Service.ReposStepSkippedAfterProfileFailure | src/main/java/com/example/jonathanklecherbranchservice/service/GitHubService.java:110-111 | when the profile step fails, what the repository URL would answer makes no difference |
| Service.ServiceErrorKinds | src/main/java/com/example/jonathanklecherbranchservice/service/GitHubService.java:59-140 | every service exception has a 4xx status or BAD_GATEWAY; status 404 iff the not-found message; BAD_GATEWAY iff one of the two parse messages iff a parse-failure cause |
| Service.PrefixedMessageIsNotFixed | src/main/java/com/example/jonathanklecherbranchservice/service/GitHubService.java:137-139 | a prefixed error message never equals one of the three fixed messages |
| InfoMapper.FromJsonNode | src/main/java/com/example/jonathanklecherbranchservice/mapper/GitHubInfoMapper.java:56-66 | each field is the text of its JSON member (`login`, `name`, `avatar_url`, `location`, `email`, `url`), or null when the member is missing or null; `createdAt` is the reformatted `created_at`; no repositories |
| JsonTree.Path | src/main/java/com/example/jonathanklecherbranchservice/mapper/GitHubInfoMapper.java:58-64 | `path(key)`: the member's value when the node is an object holding the key, otherwise the missing node |
| JsonTree.AsTextOrNull | src/main/java/com/example/jonathanklecherbranchservice/mapper/GitHubInfoMapper.java:58-64 | `path(key).asText(null)`: null exactly for a missing member or JSON `null`; the text of a string, number or boolean; the empty string for an object or array |
| InfoMapper.MapperRoundTrip | src/main/java/com/example/jonathanklecherbranchservice/mapper/GitHubInfoMapper.java:56-66 | mapping the JSON document that holds a profile's fields gives those fields back, `createdAt` reformatted |
| InfoMapper.MissingMemberIsNull | src/main/java/com/example/jonathanklecherbranchservice/mapper/GitHubInfoMapper.java:58-64 | removing a member sets exactly its field to null and changes no other field |
| InfoMapper.NullEmailIsNotEmptyEmail | src/main/java/com/example/jonathanklecherbranchservice/mapper/GitHubInfoMapper.java:62 | a JSON `null` email maps to null, while an empty string stays an empty string |
| InfoMapper.FormatCreatedAt | src/main/java/com/example/jonathanklecherbranchservice/mapper/GitHubInfoMapper.java:83-100 | null and blank input come back unchanged; a strict timestamp gives RFC 1123 text denoting the same instant; any other text gives the lenient parser's rendering, or the input unchanged when that fails |
| InfoMapper.StrictTimestampReformatted | src/main/java/com/example/jonathanklecherbranchservice/mapper/GitHubInfoMapper.java:87-93 | the ISO rendering of any valid instant is reformatted to that instant's RFC 1123 rendering |
| InfoMapper.CreatedAtExample | src/main/java/com/example/jonathanklecherbranchservice/mapper/GitHubInfoMapper.java:83-100 | `2011-01-25T18:44:36Z` becomes `Tue, 25 Jan 2011 18:44:36 GMT` |
| Calendar.RenderIso | src/main/java/com/example/jonathanklecherbranchservice/mapper/GitHubInfoMapper.java:87-89 | the 20-character `yyyy-MM-dd'T'HH:mm:ss'Z'` text of a valid instant, which the strict ISO reader reads back as that instant |
| Calendar.IsoCanonical | src/main/java/com/example/jonathanklecherbranchservice/mapper/GitHubInfoMapper.java:87-89 | every string the strict ISO parser accepts is the rendering of what it parses to |
| Calendar.FormatRfc1123 | src/main/java/com/example/jonathanklecherbranchservice/mapper/GitHubInfoMapper.java:91-93 | the 29-character `EEE, dd MMM yyyy HH:mm:ss GMT` text of a valid instant, which the RFC 1123 reader (weekday checked against the date) reads back as that instant |
| Calendar.RfcCanonical | src/main/java/com/example/jonathanklecherbranchservice/mapper/GitHubInfoMapper.java:91-93 | every string the RFC 1123 parser accepts is the rendering of what it parses to |
| Calendar.FormatRfc1123Injective | src/main/java/com/example/jonathanklecherbranchservice/mapper/GitHubInfoMapper.java:91-93 | distinct instants get distinct RFC 1123 renderings |
| Calendar.ParseRfc1123 | src/main/java/com/example/jonathanklecherbranchservice/mapper/GitHubInfoMapper.java:91-93 | what the parser accepts is a valid date and time |
| Calendar.ParseIso | src/main/java/com/example/jonathanklecherbranchservice/mapper/GitHubInfoMapper.java:87-89 | what the strict parser accepts is a valid date and time |
| Calendar.DaysBeforeYearCounts | src/main/java/com/example/jonathanklecherbranchservice/mapper/GitHubInfoMapper.java:88-93 | the closed-form day count before a year equals the year-by-year sum of Gregorian year lengths since 1970 |
| Calendar.DaysBeforeMonthCounts | src/main/java/com/example/jonathanklecherbranchservice/mapper/GitHubInfoMapper.java:88-93 | the cumulative-month table equals the month-by-month sum of month lengths, February 29 days in leap years |
| Calendar.DayOfWeek | src/main/java/com/example/jonathanklecherbranchservice/mapper/GitHubInfoMapper.java:91 | the weekday index `EEE` renders, between 0 (Sunday) and 6 (Saturday), with epoch day 0 (1970-01-01) a Thursday |
| Calendar.NextDayAdvancesByOne | src/main/java/com/example/jonathanklecherbranchservice/mapper/GitHubInfoMapper.java:91-93 | the following calendar day is one epoch day later and one weekday later |
| Calendar.ExampleDay | src/main/java/com/example/jonathanklecherbranchservice/mapper/GitHubInfoMapper.java:91-93 | 2011-01-25 is epoch day 14999, a Tuesday |
| Calendar.ExampleIso | src/main/java/com/example/jonathanklecherbranchservice/mapper/GitHubInfoMapper.java:87 | 2011-01-25 18:44:36 renders as `2011-01-25T18:44:36Z` |
| Calendar.ExampleRfc | src/main/java/com/example/jonathanklecherbranchservice/mapper/GitHubInfoMapper.java:91 | 2011-01-25 18:44:36 renders as `Tue, 25 Jan 2011 18:44:36 GMT` |
| InfoEntity.EmptyInfo | src/main/java/com/example/jonathanklecherbranchservice/entity/GitHubInfo.java:53-54 | a new profile has every getter null and no repository list |
| InfoEntity.NewInfo | src/main/java/com/example/jonathanklecherbranchservice/entity/GitHubInfo.java:68-79 | each getter returns its constructor argument, and the repository getter returns the list's elements in order |
| InfoEntity.Set | src/main/java/com/example/jonathanklecherbranchservice/entity/GitHubInfo.java:97-207 | a setter changes its own field to the given value and no other field |
| InfoEntity.SetRepositories | src/main/java/com/example/jonathanklecherbranchservice/entity/GitHubInfo.java:227-229 | null stays null; otherwise the stored list has the argument's elements in order; no other field changes |
| InfoEntity.GetRepositories | src/main/java/com/example/jonathanklecherbranchservice/entity/GitHubInfo.java:216-218 | null stays null; otherwise a list with the stored elements in order |
| InfoEntity.RepositoriesRoundTrip | src/main/java/com/example/jonathanklecherbranchservice/entity/GitHubInfo.java:216-229 | reading the list back after setting it gives the list that was set |
| InfoEntity.GettersDetermineInfo | src/main/java/com/example/jonathanklecherbranchservice/entity/GitHubInfo.java:88-218 | two profiles that agree on every getter are equal |
| InfoEntity.SetOverwrites | src/main/java/com/example/jonathanklecherbranchservice/entity/GitHubInfo.java:97-207 | setting a field twice leaves only the second value |
| InfoEntity.SettersCommute | src/main/java/com/example/jonathanklecherbranchservice/entity/GitHubInfo.java:97-207 | setters of different fields commute |
| InfoEntity.ConstructorIsSetterChain | src/main/java/com/example/jonathanklecherbranchservice/entity/GitHubInfo.java:53-79 | the all-arguments constructor equals the no-argument one followed by every setter |
| RepositoryEntity.EmptyRepository | src/main/java/com/example/jonathanklecherbranchservice/entity/GitHubRepository.java:35-36 | a new repository has null name and url |
| RepositoryEntity.NewRepository | src/main/java/com/example/jonathanklecherbranchservice/entity/GitHubRepository.java:48-51 | the getters return the constructor arguments |
| RepositoryEntity.SetName | src/main/java/com/example/jonathanklecherbranchservice/entity/GitHubRepository.java:69-71 | sets the name and keeps the url |
| RepositoryEntity.SetUrl | src/main/java/com/example/jonathanklecherbranchservice/entity/GitHubRepository.java:87-89 | sets the url and keeps the name |
| RepositoryEntity.SettersBuildConstructor | src/main/java/com/example/jonathanklecherbranchservice/entity/GitHubRepository.java:35-51 | both setter orders after the empty constructor give the two-argument constructor |
| RepositoryEntity.BindString | src/main/java/com/example/jonathanklecherbranchservice/entity/GitHubRepository.java:24-28 | a string property binds from any JSON scalar as its text and from `null` as null, and fails to bind exactly on an object or array |
| RepositoryEntity.FromJsonObject | src/main/java/com/example/jonathanklecherbranchservice/entity/GitHubRepository.java:20-28 | a JSON object binds iff both `name` and `url` bind, and then carries their values; when both are missing or null it is the empty repository |
| RepositoryEntity.UnknownMembersIgnored | src/main/java/com/example/jonathanklecherbranchservice/entity/GitHubRepository.java:20 | members other than `name` and `url` do not affect binding |
| ServiceException.NewServiceException | src/main/java/com/example/jonathanklecherbranchservice/service/GitHubServiceException.java:57-59 | the getters return the message, status and cause passed to the constructor |
| ServiceException.GettersDetermineException | src/main/java/com/example/jonathanklecherbranchservice/service/GitHubServiceException.java:57-71 | two exceptions that agree on message, status and cause are equal |
| Text.Utf16Length | src/main/java/com/example/jonathanklecherbranchservice/controller/GitInfoController.java:162 | `String.length` counts at least one unit per character, and exactly one when no character is outside the Basic Multilingual Plane |
| Text.NatToStringRoundTrip | src/main/java/com/example/jonathanklecherbranchservice/service/GitHubService.java:139 | the decimal rendering of a status code reads back as that code |

## Left out

- Network I/O. `RestTemplate.getForObject` is the function `Env.upstream` from URL to HTTP result.
  Headers, redirects, rate limits and timeouts are not modelled.
- Jackson. Parsing is the function `Env.readTree`, from text to a JSON tree or a parse failure.
  Binding a repository list is derived from that tree, following the default `ObjectMapper`
  settings. Syntax, number formats and duplicate keys belong to the parser and are not modelled.
- A null response body. `getForObject` returns null for an empty body. Jackson then rejects it with
  an exception the service does not catch. `HttpResult.Body` always carries text, so this path is
  absent.
- Concurrency. The `ConcurrentHashMap` cache is a value that requests update one at a time, in
  order. Interleaving of concurrent requests is not modelled.
- Spring's `HttpStatus` table. The enum constant name of a 4xx code arrives with the client error
  (`ClientError.constantName`). `None` means `HttpStatus.valueOf` throws.
- `ResponseEntity` and `Map.of` are modelled as a status and a body datatype. JSON serialisation of
  the body is not modelled.
- The application class, the OpenAPI configuration and the integration tests are not part of this
  model. The integration tests call the live GitHub API.
- InfoMapper.FormatCreatedAt: only the strict ISO shape, with years 1970 to 9999, is computed. Any
  other text goes to the lenient `SimpleDateFormat` parse, which is an oracle parameter
  (`LenientDateParser`). That covers extra characters after the pattern, out-of-range fields that
  roll over, pre-1970 years and five-digit years. When the oracle gives nothing the text comes back
  unchanged, as on a `ParseException`.
- Service.BindRepository: a JSON `null` array element binds to the empty repository rather than
  to a null entry; the consequence for the list is described on the next line.
- Service.BindRepositories: a JSON `null` element of the repository array binds here to the empty
  repository. Jackson stores a null element, and `GitHubInfo.getRepositories` (`List.copyOf`) then
  throws `NullPointerException`. That escape is not modelled.
- Controller.ProcessValidUserName: the 404 test compares the status value with 404. The source
  compares with the `HttpStatus.NOT_FOUND` constant. That constant is the only one with value 404,
  so the two agree on every status the service produces.
- The controller's doc comments promise more than the code does, and the model follows the code:
  - GitInfoController.java:73 says a 404 serves cached data when available. The code never does
    (`Controller.NotFoundNeverServesCache`).
  - GitInfoController.java:21-22 and :47 say cached results are served when the API is unavailable.
    Only a `GitHubServiceException` does that. 5xx answers and transport failures escape the handler
    without cached data (`Controller.ServerErrorEscapes`).
