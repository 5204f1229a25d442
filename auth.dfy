/**
 * The request-gating decisions of the authentication endpoints: the Bearer
 * header, the token payload, the current user, the admin check and the
 * roles a login issues. The user table, the token encoder and the hash are
 * parameters.
 */
module Auth {
  import opened Wrappers
  import opened Strings
  import opened Security

  const Unauthorized := 401
  const Forbidden := 403
  const InternalServerError := 500
  const RoleAdmin := "ROLE_ADMIN"

  /** An `HTTPException`: status code and detail. */
  datatype HttpError = HttpError(status: int, detail: string)

  /** The user fields the endpoints read; `roles` is the stored comma-separated string, possibly NULL. */
  datatype User = User(username: string, hashedPassword: string, roles: Option<string>)

  /** The part of a decoded token payload the endpoints read: `payload.get("sub")`. */
  datatype Payload = Payload(sub: Option<string>)

  /** The stored roles as `parse_roles` receives them. */
  function StoredRoles(user: User): RolesInput
  {
    if user.roles.Some? then Text(user.roles.value) else NoRoles
  }

  predicate StartsWith(s: string, prefix: string)
  {
    |prefix| <= |s| && s[..|prefix|] == prefix
  }

  /** `s.split(sep, 1)`: the text before the first `sep` and the text after it, or `[s]` without one. */
  function SplitOnce(s: string, sep: char): (parts: seq<string>)
    ensures |parts| == 1 <==> sep !in s
    ensures |parts| == 1 ==> parts[0] == s
    ensures |parts| == 2 ==> s == parts[0] + [sep] + parts[1] && sep !in parts[0]
    ensures 1 <= |parts| <= 2
  {
    if s == [] then [s]
    else if s[0] == sep then ["", s[1..]]
    else
      var rest := SplitOnce(s[1..], sep);
      assert [s[0]] + s[1..] == s;
      if |rest| == 1 then [s] else [[s[0]] + rest[0], rest[1]]
  }

  /** Splitting once at the first `sep`, found at index `i`. */
  lemma {:induction false} SplitOnceAt(s: string, sep: char, i: nat)
    requires i < |s| && s[i] == sep && sep !in s[..i]
    ensures SplitOnce(s, sep) == [s[..i], s[i+1..]]
  {
    if i > 0 {
      assert s[1..][..i-1] == s[1..i];
      assert s[1..][i-1] == s[i];
      assert sep !in s[1..][..i-1] by { assert forall c :: c in s[1..i] ==> c in s[..i]; }
      SplitOnceAt(s[1..], sep, i - 1);
      assert s[1..][i..] == s[i+1..];
      assert [s[0]] + s[1..i] == s[..i];
    }
  }

  /**
   * `_get_bearer_token`: a missing header, or one not starting with
   * "Bearer ", is refused with 401; otherwise the token is the text after
   * the first space, stripped.
   */
  function GetBearerToken(authorization: Option<string>): (r: Result<string, HttpError>)
    ensures r.Err? <==> authorization.None? || !StartsWith(authorization.value, "Bearer ")
    ensures r.Err? ==> r.error == HttpError(Unauthorized, "Missing Bearer token")
    ensures r.Ok? ==> r.value == Strip(authorization.value[7..])
  {
    if authorization.None? || !StartsWith(authorization.value, "Bearer ") then
      Err(HttpError(Unauthorized, "Missing Bearer token"))
    else
      var h := authorization.value;
      assert h[..7] == "Bearer ";
      SplitOnceAt(h, ' ', 6);
      var parts := SplitOnce(h, ' ');
      Ok(Strip(parts[1]))
  }

  /**
   * `get_token_payload`: any `TokenValidationError` becomes 401. The
   * `TypeError` of a non-ASCII signature is not caught and leaves the
   * endpoint, which the framework answers with 500. `payloadOf` stands for
   * base64 and JSON decoding.
   */
  function GetTokenPayload(token: string, sign: string -> string, payloadOf: string -> Payload)
    : (r: Result<Payload, HttpError>)
    ensures r.Err? <==> DecodeToken(token, sign).Err?
    ensures r.Err? && IsValidationError(DecodeToken(token, sign).error) ==>
      r.error == HttpError(Unauthorized, "Invalid or expired token")
    ensures r.Err? && !IsValidationError(DecodeToken(token, sign).error) ==>
      r.error == HttpError(InternalServerError, "Internal Server Error")
    ensures r.Ok? ==> r.value == payloadOf(DecodeToken(token, sign).value)
  {
    match DecodeToken(token, sign)
    case Err(NonAsciiCompare) => Err(HttpError(InternalServerError, "Internal Server Error"))
    case Err(_) => Err(HttpError(Unauthorized, "Invalid or expired token"))
    case Ok(segment) => Ok(payloadOf(segment))
  }

  /** A token whose signature segment holds a non-ASCII character is answered with 500 rather than 401. */
  lemma NonAsciiSignatureFails(h: string, p: string, forged: string, sign: string -> string,
                               payloadOf: string -> Payload)
    requires '.' !in h && '.' !in p && '.' !in forged && !Ascii(forged)
    ensures GetTokenPayload(h + "." + p + "." + forged, sign, payloadOf)
      == Err(HttpError(InternalServerError, "Internal Server Error"))
  {
    ThreeSegments(h, p, forged);
  }

  /** `get_current_user`: a missing or empty `sub` gives 401, an unknown user 401, else the user. */
  function GetCurrentUser(payload: Payload, lookup: string -> Option<User>): (r: Result<User, HttpError>)
    ensures (payload.sub.None? || payload.sub.value == "") ==>
      r == Err(HttpError(Unauthorized, "Invalid authentication payload"))
    ensures r.Ok? ==> payload.sub.Some? && payload.sub.value != "" && lookup(payload.sub.value) == Some(r.value)
    ensures payload.sub.Some? && payload.sub.value != "" && lookup(payload.sub.value).None? ==>
      r == Err(HttpError(Unauthorized, "User no longer exists"))
    ensures payload.sub.Some? && payload.sub.value != "" && lookup(payload.sub.value).Some? ==>
      r == Ok(lookup(payload.sub.value).value)
  {
    if payload.sub.None? || payload.sub.value == "" then
      Err(HttpError(Unauthorized, "Invalid authentication payload"))
    else
      match lookup(payload.sub.value)
      case None => Err(HttpError(Unauthorized, "User no longer exists"))
      case Some(user) => Ok(user)
  }

  /** `require_admin`: admits the user exactly when "ROLE_ADMIN" is among the parsed stored roles, else 403. */
  function RequireAdmin(user: User): (r: Result<User, HttpError>)
    ensures r.Ok? <==> RoleAdmin in ParseRoles(StoredRoles(user))
    ensures r.Ok? ==> r.value == user
    ensures r.Err? ==> r.error == HttpError(Forbidden, "Insufficient permissions")
  {
    if RoleAdmin !in ParseRoles(StoredRoles(user)) then Err(HttpError(Forbidden, "Insufficient permissions"))
    else Ok(user)
  }

  /** The admin check in terms of the stored text: some comma-separated piece strips to "ROLE_ADMIN". */
  lemma RequireAdminPieces(user: User)
    ensures RequireAdmin(user).Ok? <==>
      user.roles.Some? && exists p :: p in Split(user.roles.value, ',') && Strip(p) == RoleAdmin
  {
    if user.roles.Some? {
      RoleInText(user.roles.value, RoleAdmin);
    }
  }

  /**
   * A user stored with `format_roles(roles)` (roles without ",") passes the
   * admin check exactly when one of the given roles strips to "ROLE_ADMIN".
   */
  lemma AdminAfterFormat(username: string, hashedPassword: string, roles: seq<string>)
    requires forall k :: 0 <= k < |roles| ==> ',' !in roles[k]
    ensures RequireAdmin(User(username, hashedPassword, Some(FormatRoles(roles)))).Ok? <==>
      exists p :: p in roles && Strip(p) == RoleAdmin
  {
    FormatParseRoundTrip(roles);
    StripAllMember(roles, RoleAdmin);
  }

  /** A user stored with `format_roles(roles)`, none of which strips to "ROLE_ADMIN" (and none holding ","), is refused with 403. */
  lemma RequireAdminRefusesFormatted(name: string, hashed: string, roles: seq<string>)
    requires forall k :: 0 <= k < |roles| ==> ',' !in roles[k] && Strip(roles[k]) != RoleAdmin
    ensures RequireAdmin(User(name, hashed, Some(FormatRoles(roles)))) ==
      Err(HttpError(Forbidden, "Insufficient permissions"))
  {
    AdminAfterFormat(name, hashed, roles);
  }

  /** A user created with `["ROLE_USER"]`, as in the endpoint tests, is refused with 403. */
  lemma RequireAdminRefusesUser(name: string, hashed: string)
    ensures RequireAdmin(User(name, hashed, Some(FormatRoles(["ROLE_USER"])))) ==
      Err(HttpError(Forbidden, "Insufficient permissions"))
  {
    StripUnchanged(RoleUser);
    assert RoleUser != RoleAdmin by { assert RoleUser[5] != RoleAdmin[5]; }
    assert ',' !in RoleUser by { assert forall i :: 0 <= i < |RoleUser| ==> RoleUser[i] != ','; }
    RequireAdminRefusesFormatted(name, hashed, [RoleUser]);
  }

  /** A user created with `["ROLE_ADMIN", "ROLE_USER"]`, as in the endpoint tests, is admitted. */
  lemma RequireAdminAdmitsAdmin(name: string, hashed: string)
    ensures RequireAdmin(User(name, hashed, Some(FormatRoles(["ROLE_ADMIN", "ROLE_USER"])))).Ok?
  {
    var roles := ["ROLE_ADMIN", "ROLE_USER"];
    StripUnchanged(RoleAdmin);
    assert roles[0] == RoleAdmin;
    AdminAfterFormat(name, hashed, roles);
  }

  /** The roles a login puts in the token: the parsed stored roles, or `["ROLE_USER"]` when they parse to nothing. */
  function LoginRoles(user: User): (roles: seq<string>)
    ensures |roles| >= 1
    ensures ParseRoles(StoredRoles(user)) != [] ==> roles == ParseRoles(StoredRoles(user))
    ensures ParseRoles(StoredRoles(user)) == [] ==> roles == [RoleUser]
  {
    var parsed := ParseRoles(StoredRoles(user));
    if parsed == [] then [RoleUser] else parsed
  }

  /**
   * `login`: an unknown user or a wrong password gives 401; otherwise the
   * token issued for the user's name and `LoginRoles`. `lookup` stands for
   * the user query, `hash` for `hash_password` and `issue` for
   * `create_access_token`.
   */
  function Login(username: string, password: string, lookup: string -> Option<User>, hash: string -> string,
                 issue: (string, seq<string>) -> string): (r: Result<string, HttpError>)
    ensures r.Err? <==> lookup(username).None? || !VerifyPassword(password, lookup(username).value.hashedPassword, hash)
    ensures r.Err? ==> r.error == HttpError(Unauthorized, "Invalid username or password")
    ensures r.Ok? ==> r.value == issue(lookup(username).value.username, LoginRoles(lookup(username).value))
  {
    var user := lookup(username);
    if user.None? || !VerifyPassword(password, user.value.hashedPassword, hash) then
      Err(HttpError(Unauthorized, "Invalid username or password"))
    else
      Ok(issue(user.value.username, LoginRoles(user.value)))
  }
}
