/**
 * The assembled user profile. Every scalar field may be null; the repository
 * list may be null or a list. Java copies the list on the way in and on the
 * way out so callers cannot mutate cached state; an immutable sequence gives
 * the same guarantee, so the copies are identities here.
 */
module InfoEntity {
  import opened Wrappers
  import opened RepositoryEntity

  datatype GitHubInfo = GitHubInfo(
    userName: Option<string>,
    displayName: Option<string>,
    avatar: Option<string>,
    geoLocation: Option<string>,
    email: Option<string>,
    url: Option<string>,
    createdAt: Option<string>,
    repositories: Option<seq<GitHubRepository>>)

  /** The seven scalar fields, each with its own getter and setter. */
  datatype Field = UserName | DisplayName | Avatar | GeoLocation | Email | Url | CreatedAt

  function Get(info: GitHubInfo, f: Field): Option<string> {
    match f
    case UserName => info.userName
    case DisplayName => info.displayName
    case Avatar => info.avatar
    case GeoLocation => info.geoLocation
    case Email => info.email
    case Url => info.url
    case CreatedAt => info.createdAt
  }

  /** The no-argument constructor: all eight fields null. */
  function EmptyInfo(): (r: GitHubInfo)
    ensures forall f :: Get(r, f) == None
    ensures r.repositories == None
  {
    GitHubInfo(None, None, None, None, None, None, None, None)
  }

  /** The all-arguments constructor stores each value as given (the list as an equal copy). */
  function NewInfo(userName: Option<string>, displayName: Option<string>, avatar: Option<string>,
                   geoLocation: Option<string>, email: Option<string>, url: Option<string>,
                   createdAt: Option<string>, repositories: Option<seq<GitHubRepository>>): (r: GitHubInfo)
    ensures Get(r, UserName) == userName && Get(r, DisplayName) == displayName
    ensures Get(r, Avatar) == avatar && Get(r, GeoLocation) == geoLocation
    ensures Get(r, Email) == email && Get(r, Url) == url && Get(r, CreatedAt) == createdAt
    ensures GetRepositories(r) == repositories
  {
    GitHubInfo(userName, displayName, avatar, geoLocation, email, url, createdAt, repositories)
  }

  /** `setUserName`, `setDisplayName`, ..., `setCreatedAt`: one field changes, nothing else does. */
  function Set(info: GitHubInfo, f: Field, v: Option<string>): (r: GitHubInfo)
    ensures Get(r, f) == v
    ensures forall g :: g != f ==> Get(r, g) == Get(info, g)
    ensures r.repositories == info.repositories
  {
    match f
    case UserName => info.(userName := v)
    case DisplayName => info.(displayName := v)
    case Avatar => info.(avatar := v)
    case GeoLocation => info.(geoLocation := v)
    case Email => info.(email := v)
    case Url => info.(url := v)
    case CreatedAt => info.(createdAt := v)
  }

  /** `setRepositories`: null stays null, a list is stored as an element-wise equal copy. */
  function SetRepositories(info: GitHubInfo, repositories: Option<seq<GitHubRepository>>): (r: GitHubInfo)
    ensures r.repositories.None? <==> repositories.None?
    ensures repositories.Some? ==>
              (&& |r.repositories.value| == |repositories.value|
               && forall i :: 0 <= i < |repositories.value| ==> r.repositories.value[i] == repositories.value[i])
    ensures forall g :: Get(r, g) == Get(info, g)
  {
    info.(repositories := repositories)
  }

  /** `getRepositories`: null when unset, otherwise a read-only list equal to the stored one. */
  function GetRepositories(info: GitHubInfo): (r: Option<seq<GitHubRepository>>)
    ensures r.None? <==> info.repositories.None?
    ensures r.Some? ==>
              (&& |r.value| == |info.repositories.value|
               && forall i :: 0 <= i < |r.value| ==> r.value[i] == info.repositories.value[i])
  {
    info.repositories
  }

  /** Two profiles with equal getters are equal: `Get` and `GetRepositories` observe the whole record. */
  lemma GettersDetermineInfo(a: GitHubInfo, b: GitHubInfo)
    requires forall f :: Get(a, f) == Get(b, f)
    requires GetRepositories(a) == GetRepositories(b)
    ensures a == b
  {
    assert Get(a, UserName) == Get(b, UserName);
    assert Get(a, DisplayName) == Get(b, DisplayName);
    assert Get(a, Avatar) == Get(b, Avatar);
    assert Get(a, GeoLocation) == Get(b, GeoLocation);
    assert Get(a, Email) == Get(b, Email);
    assert Get(a, Url) == Get(b, Url);
    assert Get(a, CreatedAt) == Get(b, CreatedAt);
  }

  /** What is set is what is read back. */
  lemma RepositoriesRoundTrip(info: GitHubInfo, repositories: Option<seq<GitHubRepository>>)
    ensures GetRepositories(SetRepositories(info, repositories)) == repositories
  {
  }

  /** A later set of the same field overwrites an earlier one. */
  lemma SetOverwrites(info: GitHubInfo, f: Field, v: Option<string>, w: Option<string>)
    ensures Set(Set(info, f, v), f, w) == Set(info, f, w)
  {
    GettersDetermineInfo(Set(Set(info, f, v), f, w), Set(info, f, w));
  }

  /** Setters of different fields commute. */
  lemma SettersCommute(info: GitHubInfo, f: Field, v: Option<string>, g: Field, w: Option<string>)
    requires f != g
    ensures Set(Set(info, f, v), g, w) == Set(Set(info, g, w), f, v)
  {
    GettersDetermineInfo(Set(Set(info, f, v), g, w), Set(Set(info, g, w), f, v));
  }

  /** The all-arguments constructor is the default constructor followed by every setter. */
  lemma ConstructorIsSetterChain(userName: Option<string>, displayName: Option<string>, avatar: Option<string>,
                                 geoLocation: Option<string>, email: Option<string>, url: Option<string>,
                                 createdAt: Option<string>, repositories: Option<seq<GitHubRepository>>)
    ensures NewInfo(userName, displayName, avatar, geoLocation, email, url, createdAt, repositories)
         == SetRepositories(
              Set(Set(Set(Set(Set(Set(Set(EmptyInfo(), UserName, userName), DisplayName, displayName),
                Avatar, avatar), GeoLocation, geoLocation), Email, email), Url, url), CreatedAt, createdAt),
              repositories)
  {
  }
}
