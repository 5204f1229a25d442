/**
 * The string logic of the token and role helpers: `parse_roles`,
 * `format_roles`, the padding `_urlsafe_b64decode` adds, the segment and
 * signature checks of `decode_token`, and `verify_password`. Hashing, HMAC
 * signing, base64 and JSON are parameters or not modelled.
 */
module Security {
  import opened Wrappers
  import opened Strings

  const RoleUser := "ROLE_USER"

  /** What `parse_roles` accepts: `None`, one comma-separated string, or an iterable of strings. */
  datatype RolesInput = NoRoles | Text(text: string) | Items(items: seq<string>)

  /** Every piece stripped, the empty results dropped, the order kept. */
  function StripAll(pieces: seq<string>): (r: seq<string>)
    ensures |r| <= |pieces|
    ensures forall k :: 0 <= k < |r| ==> r[k] != "" && Strip(r[k]) == r[k]
  {
    if pieces == [] then []
    else
      var rest := StripAll(pieces[1..]);
      var head := Strip(pieces[0]);
      StripIdempotent(pieces[0]);
      if head != "" then [head] + rest else rest
  }

  /** A non-empty string is kept exactly when some piece strips to it. */
  lemma {:induction false} StripAllMember(pieces: seq<string>, x: string)
    requires x != ""
    ensures x in StripAll(pieces) <==> exists p :: p in pieces && Strip(p) == x
  {
    if pieces != [] {
      StripAllMember(pieces[1..], x);
      assert forall p :: p in pieces <==> p == pieces[0] || p in pieces[1..];
    }
  }

  /** Stripping adds no character, so separator-free pieces give separator-free roles. */
  lemma {:induction false} StripAllWithout(pieces: seq<string>, c: char)
    requires forall k :: 0 <= k < |pieces| ==> c !in pieces[k]
    ensures forall k :: 0 <= k < |StripAll(pieces)| ==> c !in StripAll(pieces)[k]
  {
    if pieces != [] {
      StripAllWithout(pieces[1..], c);
    }
  }

  /** Stripping a concatenation of lists is stripping each list: the order of the pieces is kept. */
  lemma {:induction false} StripAllAppend(a: seq<string>, b: seq<string>)
    ensures StripAll(a + b) == StripAll(a) + StripAll(b)
  {
    if a == [] {
      assert a + b == b;
    } else {
      assert (a + b)[0] == a[0];
      assert (a + b)[1..] == a[1..] + b;
      StripAllAppend(a[1..], b);
    }
  }

  /** Pieces that are already non-empty and stripped are kept as they are. */
  lemma {:induction false} StripAllFixed(pieces: seq<string>)
    requires forall k :: 0 <= k < |pieces| ==> pieces[k] != "" && Strip(pieces[k]) == pieces[k]
    ensures StripAll(pieces) == pieces
  {
    if pieces != [] {
      StripAllFixed(pieces[1..]);
    }
  }

  /** `parse_roles`. */
  function ParseRoles(raw: RolesInput): (roles: seq<string>)
    ensures forall k :: 0 <= k < |roles| ==> roles[k] != "" && Strip(roles[k]) == roles[k]
    ensures raw.Text? ==> forall k :: 0 <= k < |roles| ==> ',' !in roles[k]
  {
    match raw
    case NoRoles => []
    case Text(s) =>
      var pieces := Split(s, ',');
      StripAllWithout(pieces, ',');
      StripAll(pieces)
    case Items(xs) => StripAll(xs)
  }

  /** A role string holds a role exactly when one of its comma-separated pieces strips to it. */
  lemma RoleInText(s: string, role: string)
    requires role != ""
    ensures role in ParseRoles(Text(s)) <==> exists p :: p in Split(s, ',') && Strip(p) == role
  {
    StripAllMember(Split(s, ','), role);
  }

  /** Position of the first occurrence of `x` in `xs`. */
  function FirstIndex(xs: seq<string>, x: string): (i: nat)
    requires x in xs
    ensures i < |xs| && xs[i] == x
    ensures forall k :: 0 <= k < i ==> xs[k] != x
  {
    if xs[0] == x then 0 else 1 + FirstIndex(xs[1..], x)
  }

  /** An element of all but the last position is first found at the same index with or without the last. */
  lemma FirstIndexInit(xs: seq<string>, x: string)
    requires xs != [] && x in xs[..|xs| - 1]
    ensures FirstIndex(xs, x) == FirstIndex(xs[..|xs| - 1], x)
  {
    var init := xs[..|xs| - 1];
    var i, j := FirstIndex(xs, x), FirstIndex(init, x);
    assert xs[j] == x;
    assert i < |init| ==> init[i] == x;
  }

  /** `dict.fromkeys(xs)` as a list: the distinct elements of `xs` in the order of their first occurrence. */
  function Dedup(xs: seq<string>): (r: seq<string>)
    ensures forall x :: x in r <==> x in xs
    ensures forall i, j :: 0 <= i < j < |r| ==> r[i] != r[j]
    ensures forall i, j :: 0 <= i < j < |r| ==> FirstIndex(xs, r[i]) < FirstIndex(xs, r[j])
  {
    if xs == [] then []
    else
      var init := xs[..|xs| - 1];
      var last := xs[|xs| - 1];
      var d := Dedup(init);
      forall x | x in init
        ensures FirstIndex(xs, x) == FirstIndex(init, x)
      {
        FirstIndexInit(xs, x);
      }
      assert xs == init + [last];
      if last in d then d
      else
        var r := d + [last];
        assert FirstIndex(xs, last) == |xs| - 1;
        assert forall i :: 0 <= i < |d| ==> FirstIndex(xs, r[i]) < |xs| - 1;
        r
  }

  /** `format_roles`: the parsed roles without duplicates, joined with ","; `"ROLE_USER"` when none remains. */
  function FormatRoles(roles: seq<string>): (s: string)
    ensures s != ""
  {
    var joined := Join(Dedup(ParseRoles(Items(roles))), ',');
    if joined == "" then RoleUser else joined
  }

  /** Joining a non-empty list of non-empty strings never gives the empty string. */
  lemma JoinNonEmpty(parts: seq<string>, sep: char)
    requires |parts| >= 1 && parts[0] != ""
    ensures Join(parts, sep) != ""
  {
  }

  /** Nothing survives stripping exactly when every piece is blank. */
  lemma {:induction false} StripAllEmpty(pieces: seq<string>)
    ensures StripAll(pieces) == [] <==> forall k :: 0 <= k < |pieces| ==> Strip(pieces[k]) == ""
  {
    if pieces != [] {
      StripAllEmpty(pieces[1..]);
      assert forall k :: 1 <= k < |pieces| ==> pieces[k] == pieces[1..][k - 1];
    }
  }

  /**
   * `format_roles` falls back to `"ROLE_USER"` exactly when no given role is
   * non-blank; otherwise it is the de-duplicated roles joined with ",".
   */
  lemma FormatRolesFallback(roles: seq<string>)
    ensures var d := Dedup(ParseRoles(Items(roles)));
      && (d == [] <==> forall k :: 0 <= k < |roles| ==> Strip(roles[k]) == "")
      && (d == [] ==> FormatRoles(roles) == RoleUser)
      && (d != [] ==> FormatRoles(roles) == Join(d, ','))
  {
    var parsed := ParseRoles(Items(roles));
    var d := Dedup(parsed);
    StripAllEmpty(roles);
    if d != [] {
      assert d[0] in parsed;
      JoinNonEmpty(d, ',');
    }
  }

  /**
   * Parsing what `format_roles` stored gives back the de-duplicated roles,
   * or `["ROLE_USER"]` when there are none, provided no role contains ",".
   */
  lemma FormatParseRoundTrip(roles: seq<string>)
    requires forall k :: 0 <= k < |roles| ==> ',' !in roles[k]
    ensures var d := Dedup(ParseRoles(Items(roles)));
      ParseRoles(Text(FormatRoles(roles))) == if d == [] then [RoleUser] else d
  {
    var d := Dedup(ParseRoles(Items(roles)));
    FormatRolesFallback(roles);
    if d == [] {
      SingleRoleParses(RoleUser);
    } else {
      JoinedRolesParse(roles);
    }
  }

  /** A comma-free role without surrounding blanks, such as the fallback `"ROLE_USER"`, parses back as itself. */
  lemma SingleRoleParses(role: string)
    requires role != "" && ',' !in role && !IsSpace(role[0]) && !IsSpace(role[|role| - 1])
    ensures ParseRoles(Text(role)) == [role]
  {
    SplitWithoutSep(role, ',');
    StripUnchanged(role);
    assert StripAll([role]) == [role];
  }

  /** The de-duplicated roles, joined with ",", parse back as themselves when no role contains ",". */
  lemma JoinedRolesParse(roles: seq<string>)
    requires forall k :: 0 <= k < |roles| ==> ',' !in roles[k]
    requires Dedup(ParseRoles(Items(roles))) != []
    ensures var d := Dedup(ParseRoles(Items(roles)));
      ParseRoles(Text(Join(d, ','))) == d
  {
    var parsed := ParseRoles(Items(roles));
    var d := Dedup(parsed);
    StripAllWithout(roles, ',');
    assert forall k :: 0 <= k < |d| ==> d[k] in parsed;
    SplitJoin(d, ',');
    StripAllFixed(d);
    assert ParseRoles(Text(Join(d, ','))) == StripAll(d);
  }

  /** The `=` padding `_urlsafe_b64decode` appends: the shortest that makes the length a multiple of 4. */
  function Padding(value: string): (pad: string)
    ensures |pad| < 4 && (|value| + |pad|) % 4 == 0
    ensures forall k :: 0 <= k < |pad| ==> pad[k] == '=' && (|value| + k) % 4 != 0
  {
    seq((-|value|) % 4, _ => '=')
  }

  /**
   * Why `decode_token` raised, before base64 and JSON decoding: the two
   * `TokenValidationError`s, or the `TypeError` of `hmac.compare_digest`,
   * which refuses to compare text holding a non-ASCII character.
   */
  datatype TokenError = InvalidFormat | InvalidSignature | NonAsciiCompare

  /** The exception is a `TokenValidationError`, which callers of `decode_token` catch. */
  predicate IsValidationError(e: TokenError)
  {
    !e.NonAsciiCompare?
  }

  /** Every character is ASCII, as `hmac.compare_digest` demands of text. */
  predicate Ascii(s: string)
  {
    forall k :: 0 <= k < |s| ==> s[k] as int < 128
  }

  /**
   * `decode_token` up to the payload decoding: exactly three "."-separated
   * segments, then `compare_digest` of `sign` of the first two with the
   * third, which raises `TypeError` when either holds a non-ASCII character
   * and otherwise refuses a mismatch; an accepted token yields the payload
   * segment padded for base64 decoding. `sign` stands for `_sign`.
   */
  function DecodeToken(token: string, sign: string -> string): (r: Result<string, TokenError>)
    ensures r == Err(InvalidFormat) <==> |Split(token, '.')| != 3
    ensures r == Err(NonAsciiCompare) <==> var s := Split(token, '.');
      |s| == 3 && !(Ascii(sign(s[0] + "." + s[1])) && Ascii(s[2]))
    ensures r == Err(InvalidSignature) <==> var s := Split(token, '.');
      |s| == 3 && Ascii(sign(s[0] + "." + s[1])) && Ascii(s[2]) && sign(s[0] + "." + s[1]) != s[2]
    ensures r.Ok? ==> var s := Split(token, '.');
      |s| == 3 && sign(s[0] + "." + s[1]) == s[2] && r.value == s[1] + Padding(s[1])
  {
    var segments := Split(token, '.');
    if |segments| != 3 then Err(InvalidFormat)
    else
      var expected := sign(segments[0] + "." + segments[1]);
      if !(Ascii(expected) && Ascii(segments[2])) then Err(NonAsciiCompare)
      else if expected != segments[2] then Err(InvalidSignature)
      else Ok(segments[1] + Padding(segments[1]))
  }

  /** The token `create_access_token` returns for an encoded header and payload. */
  function AssembleToken(headerSegment: string, payloadSegment: string, sign: string -> string): string
  {
    var signingInput := headerSegment + "." + payloadSegment;
    signingInput + "." + sign(signingInput)
  }

  /** Three separator-free segments joined with "." split back into themselves. */
  lemma ThreeSegments(a: string, b: string, c: string)
    requires '.' !in a && '.' !in b && '.' !in c
    ensures Split(a + "." + b + "." + c, '.') == [a, b, c]
  {
    assert [a, b, c][1..] == [b, c] && [b, c][1..] == [c];
    assert Join([b, c], '.') == b + "." + c;
    assert Join([a, b, c], '.') == a + "." + (b + "." + c);
    assert a + "." + b + "." + c == a + "." + (b + "." + c);
    SplitJoin([a, b, c], '.');
  }

  /**
   * A token built by `create_access_token` passes `decode_token`'s format and
   * signature checks and yields its payload segment, as long as no segment
   * contains "." and the signature is ASCII (the URL-safe base64 alphabet is
   * ASCII without "."); any other signature is refused, as a bad signature
   * when it is ASCII and with `TypeError` when it is not.
   */
  lemma TokenRoundTrip(h: string, p: string, sign: string -> string, forged: string)
    requires '.' !in h && '.' !in p && '.' !in sign(h + "." + p) && '.' !in forged
    requires Ascii(sign(h + "." + p))
    ensures DecodeToken(AssembleToken(h, p, sign), sign) == Ok(p + Padding(p))
    ensures forged != sign(h + "." + p) ==>
      DecodeToken(h + "." + p + "." + forged, sign) == if Ascii(forged) then Err(InvalidSignature) else Err(NonAsciiCompare)
  {
    var sig := sign(h + "." + p);
    ThreeSegments(h, p, sig);
    ThreeSegments(h, p, forged);
  }

  /** `verify_password`: the hash of the plain password equals the stored hash; `hash` stands for `hash_password`. */
  function VerifyPassword(plainPassword: string, hashedPassword: string, hash: string -> string): bool
  {
    hash(plainPassword) == hashedPassword
  }

  /** A stored hash of a password accepts that password, and with a collision-free hash nothing else. */
  lemma VerifyPasswordAccepts(password: string, attempt: string, hash: string -> string)
    ensures VerifyPassword(password, hash(password), hash)
    ensures (forall a, b :: hash(a) == hash(b) ==> a == b) ==>
      (VerifyPassword(attempt, hash(password), hash) <==> attempt == password)
  {
  }
}
