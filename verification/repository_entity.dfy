/**
 * A repository as the service keeps it: a name and an API URL, either of
 * which may be null. Setters become update functions on an immutable value.
 */
module RepositoryEntity {
  import opened Wrappers
  import opened JsonTree

  datatype GitHubRepository = GitHubRepository(name: Option<string>, url: Option<string>)

  /** The no-argument constructor: both fields null. */
  function EmptyRepository(): (r: GitHubRepository)
    ensures r.name == None && r.url == None
  {
    GitHubRepository(None, None)
  }

  /** The two-argument constructor stores both values as given. */
  function NewRepository(name: Option<string>, url: Option<string>): (r: GitHubRepository)
    ensures r.name == name && r.url == url
  {
    GitHubRepository(name, url)
  }

  function SetName(r: GitHubRepository, name: Option<string>): (r': GitHubRepository)
    ensures r'.name == name
    ensures r'.url == r.url
  {
    r.(name := name)
  }

  function SetUrl(r: GitHubRepository, url: Option<string>): (r': GitHubRepository)
    ensures r'.url == url
    ensures r'.name == r.name
  {
    r.(url := url)
  }

  /** Setting both fields of a default repository, in either order, is the two-argument constructor. */
  lemma SettersBuildConstructor(name: Option<string>, url: Option<string>)
    ensures SetUrl(SetName(EmptyRepository(), name), url) == NewRepository(name, url)
    ensures SetName(SetUrl(EmptyRepository(), url), name) == NewRepository(name, url)
  {
  }

  /** How the deserializer binds one JSON member to a `String` field: outer `None` is a binding failure. */
  function BindString(v: Json): (r: Option<Option<string>>)
    ensures r.None? <==> v.JObject? || v.JArray?
    ensures v.JString? || v.JScalar? ==> r == Some(Some(v.text))
    ensures v.JNull? || v.JMissing? ==> r == Some(None)
  {
    match v
    case JString(t) => Some(Some(t))
    case JScalar(t) => Some(Some(t))
    case JNull => Some(None)
    case JMissing => Some(None)
    case JObject(_) => None
    case JArray(_) => None
  }

  /** The member `key` of an object, bound to a `String`; an absent key leaves the field null. */
  function BindMember(fields: map<string, Json>, key: string): Option<Option<string>> {
    if key in fields then BindString(fields[key]) else Some(None)
  }

  /**
   * Binding of one array element that is a JSON object. Only `name` and `url`
   * are read; every other member is ignored, never an error.
   */
  function FromJsonObject(fields: map<string, Json>): (r: Option<GitHubRepository>)
    ensures r.Some? <==> BindMember(fields, "name").Some? && BindMember(fields, "url").Some?
    ensures r.Some? ==> (r.value.name == BindMember(fields, "name").value
                         && r.value.url == BindMember(fields, "url").value)
    ensures ("name" !in fields || fields["name"].JNull?) && ("url" !in fields || fields["url"].JNull?)
            ==> r == Some(EmptyRepository())
  {
    match (BindMember(fields, "name"), BindMember(fields, "url"))
    case (Some(n), Some(u)) => Some(NewRepository(n, u))
    case _ => None
  }

  /** Two objects that agree on `name` and `url` bind to the same repository, whatever else they hold. */
  lemma UnknownMembersIgnored(f: map<string, Json>, g: map<string, Json>)
    requires ("name" in f <==> "name" in g) && ("name" in f ==> f["name"] == g["name"])
    requires ("url" in f <==> "url" in g) && ("url" in f ==> f["url"] == g["url"])
    ensures FromJsonObject(f) == FromJsonObject(g)
  {
  }
}
