/** The password-reset link: a token made of random bytes written in
    lowercase hex, an expiry thirty minutes after issue, the link that
    carries token and user id, and the test a reset request must pass. */
module PasswordReset {
  import opened Common
  import opened Users

  newtype byte = x: int | 0 <= x < 256

  /** How many random bytes a token is made of. */
  const TokenBytes := 32

  /** `1000 * 60 * 30`: thirty minutes in milliseconds. */
  const ExpiryMs := 1800000

  /** A lowercase hex digit. */
  predicate IsHexDigit(c: char) {
    '0' <= c <= '9' || 'a' <= c <= 'f'
  }

  /** The lowercase hex digit of a value below 16. */
  function HexDigit(n: int): (c: char)
    requires 0 <= n < 16
    ensures IsHexDigit(c)
  {
    if n < 10 then ('0' as int + n) as char else ('a' as int + n - 10) as char
  }

  /** The value of a lowercase hex digit; nothing for any other character. */
  function DigitValue(c: char): (r: Option<int>)
    ensures r.Some? ==> 0 <= r.value < 16
  {
    if '0' <= c <= '9' then Some(c as int - '0' as int)
    else if 'a' <= c <= 'f' then Some(c as int - 'a' as int + 10)
    else None
  }

  /** `buffer.toString("hex")`: two lowercase digits per byte, high
      nibble first. */
  function HexEncode(bytes: seq<byte>): (s: string)
    ensures |s| == 2 * |bytes|
    ensures forall i :: 0 <= i < |s| ==> IsHexDigit(s[i])
  {
    if bytes == [] then []
    else
      var b := bytes[0] as int;
      [HexDigit(b / 16), HexDigit(b % 16)] + HexEncode(bytes[1..])
  }

  /** Reads a hex string back into bytes; an odd length or a character
      that is not a lowercase hex digit reads as nothing. */
  function HexDecode(s: string): (r: Option<seq<byte>>)
    ensures r.Some? ==> 2 * |r.value| == |s|
  {
    if s == [] then Some([])
    else if |s| == 1 then None
    else
      var hi, lo, rest := DigitValue(s[0]), DigitValue(s[1]), HexDecode(s[2..]);
      if hi.Some? && lo.Some? && rest.Some? then Some([(hi.value * 16 + lo.value) as byte] + rest.value)
      else None
  }

  /** Decoding an encoded token gives back its bytes. */
  lemma {:induction false} HexRoundTrip(bytes: seq<byte>)
    ensures HexDecode(HexEncode(bytes)) == Some(bytes)
  {
    if bytes != [] {
      var b := bytes[0] as int;
      var s := HexEncode(bytes);
      var rest := HexEncode(bytes[1..]);
      assert s[0] == HexDigit(b / 16) && s[1] == HexDigit(b % 16) && s[2..] == rest;
      HexRoundTrip(bytes[1..]);
      DigitValueOfDigit(b / 16);
      DigitValueOfDigit(b % 16);
      DecodePair(s, b / 16, b % 16, bytes[1..]);
      assert (b / 16 * 16 + b % 16) as byte == bytes[0];
      assert bytes == [bytes[0]] + bytes[1..];
    }
  }

  lemma DecodePair(s: string, hi: int, lo: int, rest: seq<byte>)
    requires |s| >= 2 && 0 <= hi < 16 && 0 <= lo < 16
    requires DigitValue(s[0]) == Some(hi) && DigitValue(s[1]) == Some(lo) && HexDecode(s[2..]) == Some(rest)
    ensures HexDecode(s) == Some([(hi * 16 + lo) as byte] + rest)
  {
  }

  lemma DigitValueOfDigit(n: int)
    requires 0 <= n < 16
    ensures DigitValue(HexDigit(n)) == Some(n)
  {
  }

  /** Different random bytes give different tokens, and a token of 32
      bytes has 64 characters. */
  lemma TokenProperties(a: seq<byte>, b: seq<byte>)
    ensures a != b ==> HexEncode(a) != HexEncode(b)
    ensures |a| == TokenBytes ==> |HexEncode(a)| == 64
  {
    HexRoundTrip(a);
    HexRoundTrip(b);
  }

  const ResetPath := "/reset-password?token="
  const IdParam := "&id="

  /** The link mailed to the user. */
  function ResetUrl(baseUrl: string, token: string, id: string): string {
    baseUrl + ResetPath + token + IdParam + id
  }

  /** The characters of `s` before the first `c` (all of `s` when there is
      none). */
  function TakeUntil(s: string, c: char): (r: string)
    ensures r <= s
  {
    if s == [] || s[0] == c then [] else [s[0]] + TakeUntil(s[1..], c)
  }

  /** The token and id a link of the mailed shape carries: the link must
      start with the reset path, then its query is read by `ReadQuery`.
      This reads back the link `ResetUrl` builds; it is not the general
      query parsing of the page's router. */
  function ReadLink(url: string, baseUrl: string): Option<(string, string)> {
    var prefix := baseUrl + ResetPath;
    if prefix <= url then ReadQuery(url[|prefix|..]) else None
  }

  /** The token and id of a query of the mailed shape: the token runs up to
      the first "&", and the id is everything after the "&id=" that follows
      it, taken as is. Nothing when "&id=" does not follow the token. */
  function ReadQuery(query: string): Option<(string, string)> {
    var token := TakeUntil(query, '&');
    var rest := query[|token|..];
    if IdParam <= rest then Some((token, rest[|IdParam|..])) else None
  }

  lemma {:induction false} TakeUntilStops(a: string, b: string, c: char)
    requires c !in a
    ensures TakeUntil(a + [c] + b, c) == a
  {
    if a != [] {
      assert (a + [c] + b)[1..] == a[1..] + [c] + b;
      TakeUntilStops(a[1..], b, c);
    }
  }

  lemma DropPrefix(a: string, b: string)
    ensures a <= a + b && (a + b)[|a|..] == b
  {
  }

  /** A hex token holds no "&". */
  lemma NoAmpersand(bytes: seq<byte>)
    ensures '&' !in HexEncode(bytes)
  {
    var token := HexEncode(bytes);
    forall i | 0 <= i < |token| ensures token[i] != '&' {
      assert IsHexDigit(token[i]);
    }
  }

  /** A query made of a token without "&" and the id parameter reads back
      as that token and id. */
  lemma ReadQueryOf(token: string, id: string)
    requires '&' !in token
    ensures ReadQuery(token + IdParam + id) == Some((token, id))
  {
    var query := token + IdParam + id;
    assert query == token + ['&'] + ("id=" + id);
    TakeUntilStops(token, "id=" + id, '&');
    assert query == token + (IdParam + id);
    DropPrefix(token, IdParam + id);
    DropPrefix(IdParam, id);
  }

  /** A link is its prefix followed by its query. */
  lemma ResetUrlSplits(baseUrl: string, token: string, id: string)
    ensures ResetUrl(baseUrl, token, id) == (baseUrl + ResetPath) + (token + IdParam + id)
  {
  }

  /** A link built from a hex token reads back, with `ReadLink`, as that
      token and the id. */
  lemma ResetUrlRoundTrip(baseUrl: string, bytes: seq<byte>, id: string)
    ensures ReadLink(ResetUrl(baseUrl, HexEncode(bytes), id), baseUrl) == Some((HexEncode(bytes), id))
  {
    var token := HexEncode(bytes);
    ResetUrlSplits(baseUrl, token, id);
    DropPrefix(baseUrl + ResetPath, token + IdParam + id);
    NoAmpersand(bytes);
    ReadQueryOf(token, id);
  }

  /** `findOne({ _id: id, resetToken: token, resetTokenExpire: { $gt: now } })`
      finds the user at position i. */
  predicate LinkMatches(u: User, id: string, token: string, now: int) {
    u.id == id && u.resetToken == Some(token) && u.resetTokenExpire.Some? && u.resetTokenExpire.value > now
  }

  /** A link is valid at `now` when some user matches it. */
  predicate LinkValid(users: seq<User>, id: string, token: string, now: int) {
    exists u :: u in users && LinkMatches(u, id, token, now)
  }

  /** The position of the first user the link matches. */
  function FindByLink(users: seq<User>, id: string, token: string, now: int): (r: Option<nat>)
    ensures r.Some? ==> r.value < |users| && LinkMatches(users[r.value], id, token, now)
    ensures r.None? <==> !LinkValid(users, id, token, now)
  {
    if users == [] then None
    else if LinkMatches(users[0], id, token, now) then Some(0)
    else
      match FindByLink(users[1..], id, token, now)
      case None =>
        assert forall u :: u in users ==> u == users[0] || u in users[1..];
        None
      case Some(k) => Some(k + 1)
  }

  /** A value of the JSON request body as `findOne` reads it: a string is
      compared for equality, while an object such as `{ "$ne": null }` is a
      query operator, here the one that matches every present value. */
  datatype BodyValue = Text(text: string) | NotNull

  /** JavaScript truthiness of a body field: an object is always truthy. */
  predicate PresentValue(v: Option<BodyValue>) {
    v.Some? && (v.value.Text? ==> v.value.text != "")
  }

  /** How `findOne` matches one filter value against a stored field. */
  predicate FieldMatches(stored: Option<string>, v: BodyValue) {
    match v
    case Text(s) => stored == Some(s)
    case NotNull => stored.Some?
  }

  /** The filter of the reset endpoint as written, for any body values. */
  predicate LinkMatchesAsWritten(u: User, id: BodyValue, token: BodyValue, now: int) {
    && FieldMatches(Some(u.id), id)
    && FieldMatches(u.resetToken, token)
    && u.resetTokenExpire.Some? && u.resetTokenExpire.value > now
  }

  /** `findOne` with the filter as written: the first record it matches. */
  function FindByLinkAsWritten(users: seq<User>, id: BodyValue, token: BodyValue, now: int): (r: Option<nat>)
    ensures r.Some? ==> r.value < |users| && LinkMatchesAsWritten(users[r.value], id, token, now)
    ensures r.None? <==> forall u :: u in users ==> !LinkMatchesAsWritten(u, id, token, now)
  {
    if users == [] then None
    else if LinkMatchesAsWritten(users[0], id, token, now) then Some(0)
    else
      match FindByLinkAsWritten(users[1..], id, token, now)
      case None =>
        assert forall u :: u in users ==> u == users[0] || u in users[1..];
        None
      case Some(k) => Some(k + 1)
  }

  /** As written, a body whose token is `{ "$ne": null }` finds a user that
      holds an unexpired token without knowing it: the stored token is
      "secret", no other string token is valid, and yet the lookup finds
      the user; with the id an object too, it finds whichever user comes
      first. */
  lemma TokenNotNeededAsWritten()
    ensures var users := [User("u1", "ann", "ann@example.com", Some("hash"), Some("secret"), Some(100))];
      && (forall t :: t != "secret" ==> !LinkValid(users, "u1", t, 0))
      && FindByLinkAsWritten(users, Text("u1"), NotNull, 0) == Some(0)
      && FindByLinkAsWritten(users, NotNull, NotNull, 0) == Some(0)
  {
    var users := [User("u1", "ann", "ann@example.com", Some("hash"), Some("secret"), Some(100))];
    forall t | t != "secret" ensures !LinkValid(users, "u1", t, 0) {
      assert forall u :: u in users ==> u == users[0];
    }
  }

  /** The lookup as intended: the id and the token must be strings, and are
      compared for equality; an object in either field matches no record. */
  function FindByLinkChecked(users: seq<User>, id: BodyValue, token: BodyValue, now: int): (r: Option<nat>)
    ensures r.Some? ==>
      && id.Text? && token.Text? && r.value < |users|
      && LinkMatches(users[r.value], id.text, token.text, now)
    ensures r.None? <==> !(id.Text? && token.Text? && LinkValid(users, id.text, token.text, now))
  {
    if id.Text? && token.Text? then FindByLink(users, id.text, token.text, now) else None
  }

  /** On string values the intended lookup and the written one agree; they
      differ only on objects. */
  lemma {:induction false} CheckedAgreesOnText(users: seq<User>, id: string, token: string, now: int)
    ensures FindByLinkChecked(users, Text(id), Text(token), now) == FindByLinkAsWritten(users, Text(id), Text(token), now)
  {
    if users != [] {
      CheckedAgreesOnText(users[1..], id, token, now);
    }
  }
}
