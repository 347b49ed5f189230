/** The profile editing form: its initial fields, a field edit, and the
    submit handler that normalises the three link fields into URLs before
    saving and shows a saving state until the save has finished. */
module EditProfile {
  import opened Common

  /** The profile fields of a user record, each possibly missing;
      `dateOfBirth` is taken as already formatted as a calendar date. */
  datatype UserRecord = UserRecord(
    name: Option<string>, bio: Option<string>, dateOfBirth: Option<string>, location: Option<string>,
    website: Option<string>, twitter: Option<string>, github: Option<string>)

  datatype FormData = FormData(
    name: string, bio: string, dateOfBirth: string, location: string,
    website: string, twitter: string, github: string)

  /** The `name` attribute of the input an edit came from. */
  datatype Field = Name | Bio | DateOfBirth | Location | Website | Twitter | Github

  function Get(f: FormData, field: Field): string {
    match field
    case Name => f.name
    case Bio => f.bio
    case DateOfBirth => f.dateOfBirth
    case Location => f.location
    case Website => f.website
    case Twitter => f.twitter
    case Github => f.github
  }

  /** `value || ""` */
  function OrEmpty(value: Option<string>): (s: string)
    ensures value.None? ==> s == ""
    ensures value.Some? ==> s == value.value
  {
    if Present(value) then value.value else ""
  }

  /** The form's initial state: every field taken from the user record, a
      missing one as the empty string. */
  function InitialForm(u: UserRecord): (f: FormData)
    ensures f.name == u.name.GetOr("") && f.bio == u.bio.GetOr("")
    ensures f.dateOfBirth == u.dateOfBirth.GetOr("") && f.location == u.location.GetOr("")
    ensures f.website == u.website.GetOr("") && f.twitter == u.twitter.GetOr("")
    ensures f.github == u.github.GetOr("")
  {
    FormData(OrEmpty(u.name), OrEmpty(u.bio), OrEmpty(u.dateOfBirth), OrEmpty(u.location),
             OrEmpty(u.website), OrEmpty(u.twitter), OrEmpty(u.github))
  }

  /** `handleChange`: the named field takes the new value, and no other
      field changes. */
  function HandleChange(f: FormData, field: Field, value: string): (r: FormData)
    ensures Get(r, field) == value
    ensures forall other :: other != field ==> Get(r, other) == Get(f, other)
  {
    match field
    case Name => f.(name := value)
    case Bio => f.(bio := value)
    case DateOfBirth => f.(dateOfBirth := value)
    case Location => f.(location := value)
    case Website => f.(website := value)
    case Twitter => f.(twitter := value)
    case Github => f.(github := value)
  }

  /** `s.startsWith(prefix)` */
  predicate StartsWith(s: string, prefix: string) {
    prefix <= s
  }

  /** `s.replace(c, "")` with a one-character string pattern: only the
      first occurrence of `c` is removed. */
  function RemoveFirst(s: string, c: char): (r: string)
    ensures c !in s ==> r == s
    ensures |r| == if c in s then |s| - 1 else |s|
  {
    if s == [] then s
    else if s[0] == c then s[1..]
    else [s[0]] + RemoveFirst(s[1..], c)
  }

  /** `s.indexOf(c)` for a character that occurs: the first position
      holding it. */
  function IndexOf(s: string, c: char): (i: nat)
    requires c in s
    ensures i < |s| && s[i] == c && c !in s[..i]
  {
    if s[0] == c then 0
    else
      assert s == [s[0]] + s[1..];
      var k := IndexOf(s[1..], c);
      assert s[..k + 1] == [s[0]] + s[1..][..k];
      k + 1
  }

  /** When `c` occurs, the result is the string cut around its first
      occurrence. */
  lemma {:induction false} RemoveFirstCutsFirst(s: string, c: char)
    requires c in s
    ensures var i := IndexOf(s, c); RemoveFirst(s, c) == s[..i] + s[i + 1..]
  {
    if s[0] != c {
      var t := s[1..];
      assert s == [s[0]] + t;
      RemoveFirstCutsFirst(t, c);
      var i := IndexOf(t, c);
      assert IndexOf(s, c) == i + 1;
      assert RemoveFirst(s, c) == [s[0]] + (t[..i] + t[i + 1..]);
      assert s[..i + 1] == [s[0]] + t[..i];
      assert s[i + 2..] == t[i + 1..];
    }
  }

  const WebsitePrefix := "https://"
  const TwitterPrefix := "https://twitter.com/"
  const GithubPrefix := "https://github.com/"

  /** A link field needs normalising when it is non-empty and does not
      already start with "http". */
  predicate NeedsPrefix(s: string) {
    s != "" && !StartsWith(s, "http")
  }

  /** The normalised form of one link field: `prefix + body` when it needs
      normalising, the field itself otherwise. */
  function Normalized(s: string, prefix: string, body: string): string {
    if NeedsPrefix(s) then prefix + body else s
  }

  /** The data `handleSubmit` passes to `onSave`. */
  function NormalizeUrls(f: FormData): FormData {
    f.(website := Normalized(f.website, WebsitePrefix, f.website),
       twitter := Normalized(f.twitter, TwitterPrefix, RemoveFirst(f.twitter, '@')),
       github := Normalized(f.github, GithubPrefix, f.github))
  }

  /** What normalisation does to each field: an empty link or one starting
      with "http" is kept; any other website, Twitter or GitHub value gets
      its prefix (the Twitter handle losing its first "@"); every link that
      is not empty ends up starting with "http"; name, bio, date of birth
      and location are kept. */
  lemma NormalizeUrlsFields(f: FormData)
    ensures var n := NormalizeUrls(f);
      && (!NeedsPrefix(f.website) ==> n.website == f.website)
      && (NeedsPrefix(f.website) ==> n.website == WebsitePrefix + f.website)
      && (!NeedsPrefix(f.twitter) ==> n.twitter == f.twitter)
      && (NeedsPrefix(f.twitter) ==> n.twitter == TwitterPrefix + RemoveFirst(f.twitter, '@'))
      && (!NeedsPrefix(f.github) ==> n.github == f.github)
      && (NeedsPrefix(f.github) ==> n.github == GithubPrefix + f.github)
      && !NeedsPrefix(n.website) && !NeedsPrefix(n.twitter) && !NeedsPrefix(n.github)
      && n.name == f.name && n.bio == f.bio && n.dateOfBirth == f.dateOfBirth && n.location == f.location
  {
    PrefixStartsWithHttp(WebsitePrefix, f.website);
    PrefixStartsWithHttp(TwitterPrefix, RemoveFirst(f.twitter, '@'));
    PrefixStartsWithHttp(GithubPrefix, f.github);
  }

  /** Normalising twice is normalising once. */
  lemma NormalizeUrlsIdempotent(f: FormData)
    ensures NormalizeUrls(NormalizeUrls(f)) == NormalizeUrls(f)
  {
    NormalizeUrlsFields(f);
  }

  lemma PrefixStartsWithHttp(prefix: string, body: string)
    requires StartsWith(prefix, "https://")
    ensures StartsWith(prefix + body, "http")
  {
    assert (prefix + body)[..4] == prefix[..4];
  }

  /** The modal's state: the form and whether a save is in progress. */
  class ProfileEditor {
    var formData: FormData
    var isSaving: bool

    constructor (u: UserRecord)
      ensures formData == InitialForm(u) && !isSaving
    {
      formData := InitialForm(u);
      isSaving := false;
    }

    method Change(field: Field, value: string)
      modifies this`formData
      ensures formData == HandleChange(old(formData), field, value)
    {
      formData := HandleChange(formData, field, value);
    }

    /** The first half of `handleSubmit`: the saving state is shown and the
        copied form is normalised field by field; the result is what is
        handed to `onSave`. */
    method BeginSubmit() returns (updated: FormData)
      modifies this`isSaving
      ensures isSaving
      ensures updated == NormalizeUrls(formData)
    {
      isSaving := true;
      updated := formData;
      if NeedsPrefix(updated.website) {
        updated := updated.(website := WebsitePrefix + updated.website);
      }
      if NeedsPrefix(updated.twitter) {
        updated := updated.(twitter := TwitterPrefix + RemoveFirst(updated.twitter, '@'));
      }
      if NeedsPrefix(updated.github) {
        updated := updated.(github := GithubPrefix + updated.github);
      }
    }

    /** The `finally` of `handleSubmit`: whether `onSave` succeeded or
        threw, the saving state ends and the form is left as it was. */
    method EndSubmit()
      modifies this`isSaving
      ensures !isSaving
    {
      isSaving := false;
    }
  }
}
