/**
 * Mapping of a GitHub user document onto a profile: field renaming and the
 * creation-date conversion from ISO 8601 to the RFC 1123 date format.
 */
module InfoMapper {
  import opened Wrappers
  import opened Text
  import opened JsonTree
  import opened Calendar
  import opened InfoEntity

  /**
   * What the platform's lenient date parser makes of a string that is not a
   * strictly shaped, calendar-valid timestamp in 1970..9999: the formatted date
   * when it accepts it (rolling fields over, ignoring trailing text), `None`
   * when it throws a parse exception.
   */
  type LenientDateParser = string -> Option<string>

  /**
   * `formatCreatedAt`: null and blank pass through; a strict timestamp is
   * reformatted; anything else is what the lenient parser makes of it, or
   * passes through when that parser refuses it.
   */
  function FormatCreatedAt(isoDate: Option<string>, lenient: LenientDateParser): (r: Option<string>)
    ensures isoDate.None? ==> r.None?
    ensures isoDate.Some? && IsBlank(isoDate.value) ==> r == isoDate
    ensures isoDate.Some? && ParseIso(isoDate.value).Some? ==>
              r.Some? && ParseRfc1123(r.value) == ParseIso(isoDate.value)
    ensures isoDate.Some? && !IsBlank(isoDate.value) && ParseIso(isoDate.value).None? ==>
              r == (if lenient(isoDate.value).Some? then lenient(isoDate.value) else isoDate)
  {
    match isoDate
    case None => None
    case Some(s) =>
      if IsBlank(s) then isoDate
      else match ParseIso(s)
        case Some(dt) => Some(FormatRfc1123(dt))
        case None => if lenient(s).Some? then lenient(s) else isoDate
  }

  /** `fromJsonNode`: each scalar field is the text of its upstream member; the list stays null. */
  function FromJsonNode(node: Json, lenient: LenientDateParser): (info: GitHubInfo)
    ensures info.userName == AsTextOrNull(Path(node, "login"))
    ensures info.displayName == AsTextOrNull(Path(node, "name"))
    ensures info.avatar == AsTextOrNull(Path(node, "avatar_url"))
    ensures info.geoLocation == AsTextOrNull(Path(node, "location"))
    ensures info.email == AsTextOrNull(Path(node, "email"))
    ensures info.url == AsTextOrNull(Path(node, "url"))
    ensures info.createdAt == FormatCreatedAt(AsTextOrNull(Path(node, "created_at")), lenient)
    ensures info.repositories.None?
  {
    var email := if Path(node, "email").JNull? then None else AsTextOrNull(Path(node, "email"));
    var i0 := EmptyInfo();
    var i1 := Set(i0, UserName, AsTextOrNull(Path(node, "login")));
    var i2 := Set(i1, DisplayName, AsTextOrNull(Path(node, "name")));
    var i3 := Set(i2, Avatar, AsTextOrNull(Path(node, "avatar_url")));
    var i4 := Set(i3, GeoLocation, AsTextOrNull(Path(node, "location")));
    var i5 := Set(i4, Email, email);
    var i6 := Set(i5, Url, AsTextOrNull(Path(node, "url")));
    Set(i6, CreatedAt, FormatCreatedAt(AsTextOrNull(Path(node, "created_at")), lenient))
  }

  /** The upstream member each profile field is read from. */
  function SourceKey(f: Field): string {
    match f
    case UserName => "login"
    case DisplayName => "name"
    case Avatar => "avatar_url"
    case GeoLocation => "location"
    case Email => "email"
    case Url => "url"
    case CreatedAt => "created_at"
  }

  /** The inverse direction: a user document whose members carry a profile's scalar fields. */
  function ToUserJson(info: GitHubInfo): Json {
    JObject(map k | k in KeysPresent(info) :: JString(Get(info, KeyField(k)).value))
  }

  function KeyField(k: string): Field {
    if k == "login" then UserName
    else if k == "name" then DisplayName
    else if k == "avatar_url" then Avatar
    else if k == "location" then GeoLocation
    else if k == "email" then Email
    else if k == "url" then Url
    else CreatedAt
  }

  function KeysPresent(info: GitHubInfo): set<string> {
    set f: Field | Get(info, f).Some? :: SourceKey(f)
  }

  lemma KeyFieldInverts(f: Field)
    ensures KeyField(SourceKey(f)) == f
  {
  }

  /**
   * Writing a profile's fields under the upstream member names and mapping the
   * document back recovers every field except the creation date, which goes
   * through the date conversion, and the list, which the mapper never sets.
   */
  lemma MapperRoundTrip(info: GitHubInfo, lenient: LenientDateParser)
    ensures var back := FromJsonNode(ToUserJson(info), lenient);
      && (forall f :: f != CreatedAt ==> Get(back, f) == Get(info, f))
      && back.createdAt == FormatCreatedAt(info.createdAt, lenient)
      && back.repositories.None?
  {
    var node := ToUserJson(info);
    forall f: Field
      ensures AsTextOrNull(Path(node, SourceKey(f))) == Get(info, f)
    {
      KeyFieldInverts(f);
      if Get(info, f).Some? {
        assert SourceKey(f) in KeysPresent(info);
      } else if SourceKey(f) in KeysPresent(info) {
        var g: Field :| Get(info, g).Some? && SourceKey(g) == SourceKey(f);
        KeyFieldInverts(g);
        assert false;
      }
    }
    var back := FromJsonNode(node, lenient);
    assert AsTextOrNull(Path(node, SourceKey(CreatedAt))) == Get(info, CreatedAt);
  }

  /** A member absent from the document leaves its field null and no other field changes. */
  lemma MissingMemberIsNull(fields: map<string, Json>, f: Field, lenient: LenientDateParser)
    requires SourceKey(f) in fields
    ensures var without := FromJsonNode(JObject(fields - {SourceKey(f)}), lenient);
            var with := FromJsonNode(JObject(fields), lenient);
      && (f != CreatedAt ==> Get(without, f) == None)
      && (f == CreatedAt ==> without.createdAt == None)
      && forall g :: g != f ==> Get(without, g) == Get(with, g)
  {
    RemovedMemberReadsNull(fields, f, lenient);
    forall g | g != f
      ensures Get(FromJsonNode(JObject(fields - {SourceKey(f)}), lenient), g)
           == Get(FromJsonNode(JObject(fields), lenient), g)
    {
      OtherMemberUnaffected(fields, f, g, lenient);
    }
  }

  lemma RemovedMemberReadsNull(fields: map<string, Json>, f: Field, lenient: LenientDateParser)
    ensures var without := FromJsonNode(JObject(fields - {SourceKey(f)}), lenient);
      && (f != CreatedAt ==> Get(without, f) == None)
      && (f == CreatedAt ==> without.createdAt == None)
  {
    var p := Path(JObject(fields - {SourceKey(f)}), SourceKey(f));
    assert p == JMissing;
    assert AsTextOrNull(p) == None;
  }

  lemma OtherMemberUnaffected(fields: map<string, Json>, f: Field, g: Field, lenient: LenientDateParser)
    requires g != f
    ensures Get(FromJsonNode(JObject(fields - {SourceKey(f)}), lenient), g)
         == Get(FromJsonNode(JObject(fields), lenient), g)
  {
    KeyFieldInverts(f);
    KeyFieldInverts(g);
    var p := Path(JObject(fields - {SourceKey(f)}), SourceKey(g));
    assert p == Path(JObject(fields), SourceKey(g));
  }

  /** An explicit JSON null email maps to null, an empty string to the empty string. */
  lemma NullEmailIsNotEmptyEmail(fields: map<string, Json>, lenient: LenientDateParser)
    ensures FromJsonNode(JObject(fields["email" := JNull]), lenient).email == None
    ensures FromJsonNode(JObject(fields["email" := JString("")]), lenient).email == Some("")
  {
  }

  /** Every strict timestamp is reformatted, whatever the lenient parser would do. */
  lemma StrictTimestampReformatted(dt: DateTime, lenient: LenientDateParser)
    requires Valid(dt)
    ensures FormatCreatedAt(Some(RenderIso(dt)), lenient) == Some(FormatRfc1123(dt))
  {
    assert ParseIso(RenderIso(dt)) == Some(dt);
    assert !IsJavaWhitespace(RenderIso(dt)[0]);
  }

  /** The documented conversion example: a Tuesday in January 2011. */
  lemma CreatedAtExample(lenient: LenientDateParser)
    ensures FormatCreatedAt(Some("2011-01-25T18:44:36Z"), lenient) == Some("Tue, 25 Jan 2011 18:44:36 GMT")
  {
    var dt := DateTime(2011, 1, 25, 18, 44, 36);
    StrictTimestampReformatted(dt, lenient);
    ExampleIso();
    ExampleRfc();
  }
}
