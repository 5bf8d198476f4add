/**
 * Token issuance and validation (security/JwtUtil.java). Tokens are JSON Web
 * Tokens (RFC 7519) signed with HMAC-SHA256 (RFC 7518 section 3.2). The
 * HMAC itself is foreign code: a `JwtUtil` carries the key bytes and the MAC
 * function as a value. The clock is the parameter `now`, in milliseconds.
 */
module Jwt {
  import opened Wrappers
  import opened Text
  import opened Roles
  import opened JwtClaims

  /** An issued token is valid for one hour. */
  const ValidityMillis: nat := 1000 * 60 * 60

  /** The protected header that starts every token: the algorithm HS256. */
  const Header: string := "HS256."

  /** HMAC-SHA keys shorter than 256 bits are refused (RFC 7518 section 3.2). */
  const MinKeyBits: nat := 256

  /** The process-wide signing key and the MAC computed with it. */
  datatype JwtUtil = JwtUtil(key: seq<bv8>, hmac: (seq<bv8>, string) -> string)

  /** The exceptions the token operations throw. */
  datatype Fault =
    | MalformedJwt       // not a signed token of the expected shape
    | SignatureMismatch  // the signature is not the MAC of the content
    | ExpiredJwt         // the parser refuses a token whose `exp` is before now
    | NullPointer        // a claim the code dereferences is absent

  /** Key derivation at start-up fails for a short secret. */
  datatype ConfigFault = WeakKey

  /** The constructor: `Keys.hmacShaKeyFor(secret.getBytes())`. */
  function NewJwtUtil(secret: seq<bv8>, hmac: (seq<bv8>, string) -> string): (r: Result<JwtUtil, ConfigFault>)
    ensures r.Success? <==> 8 * |secret| >= MinKeyBits
    ensures r.Success? ==> r.value.key == secret
  {
    if 8 * |secret| < MinKeyBits then Failure(WeakKey) else Success(JwtUtil(secret, hmac))
  }

  /** The part of a token the signature covers: header and claims. */
  function SigningInput(c: Claims): string
  {
    Header + Encode(c)
  }

  /** The compact serialisation: signing input, a dot, and the signature. */
  function Sign(jwt: JwtUtil, c: Claims): string
  {
    SigningInput(c) + "." + jwt.hmac(jwt.key, SigningInput(c))
  }

  /** The `exp` claim, read back as a date, lies before `now`. */
  predicate ExpiredAt(c: Claims, now: nat)
  {
    c.expiration.Some? && c.expiration.value * 1000 < now
  }

  /**
   * `extractAllClaims`: the library parser. It checks the shape, then the
   * signature, then that the token has not expired (with no clock skew).
   */
  function ParseClaims(jwt: JwtUtil, token: string, now: nat): (r: Result<Claims, Fault>)
    ensures r.Success? ==> !ExpiredAt(r.value, now)
    ensures r.Success? ==> exists k :: |Header| <= k < |token| && token[k] == '.'
                                       && token[k + 1..] == jwt.hmac(jwt.key, token[..k])
  {
    if !StartsWith(token, Header) then Failure(MalformedJwt)
    else
      match Decode(token[|Header|..])
      case None => Failure(MalformedJwt)
      case Some((c, n)) =>
        var end := |Header| + n;
        if end >= |token| || token[end] != '.' then Failure(MalformedJwt)
        else if token[end + 1..] != jwt.hmac(jwt.key, token[..end]) then Failure(SignatureMismatch)
        else if ExpiredAt(c, now) then Failure(ExpiredJwt)
        else Success(c)
  }

  /** The two halves of a concatenation are its prefix and suffix at the join. */
  lemma Split(a: string, b: string)
    ensures |a + b| == |a| + |b| && (a + b)[..|a|] == a && (a + b)[|a|..] == b
  {
  }

  /** Where the parts of a token made of claims, a dot, and a signature lie. */
  lemma TokenParts(c: Claims, sig: string)
    ensures var t := SigningInput(c) + "." + sig;
            var end := |Header| + |Encode(c)|;
            && StartsWith(t, Header) && t[|Header|..] == Encode(c) + ("." + sig)
            && end < |t| && t[end] == '.' && t[..end] == SigningInput(c) && t[end + 1..] == sig
  {
    var e := Encode(c);
    var tail := "." + sig;
    AppendAssoc(Header, e, tail);
    AppendAssoc(Header + e, ".", sig);
    Split(Header, e + tail);
    Split(Header + e, tail);
    assert tail[0] == '.' && tail[1..] == sig;
  }

  /** How the parser treats a token made of well-formed claims, a dot, and some signature. */
  lemma ParseShape(jwt: JwtUtil, c: Claims, sig: string, now: nat)
    ensures ParseClaims(jwt, SigningInput(c) + "." + sig, now)
            == if sig != jwt.hmac(jwt.key, SigningInput(c)) then Failure(SignatureMismatch)
               else if ExpiredAt(c, now) then Failure(ExpiredJwt)
               else Success(c)
  {
    TokenParts(c, sig);
    DecodeEncode(c, "." + sig);
  }

  /** A token this key signed parses back to its claims until it expires. */
  lemma ParseSign(jwt: JwtUtil, c: Claims, now: nat)
    ensures ParseClaims(jwt, Sign(jwt, c), now) == if ExpiredAt(c, now) then Failure(ExpiredJwt) else Success(c)
  {
    ParseShape(jwt, c, jwt.hmac(jwt.key, SigningInput(c)), now);
  }

  /** Changing one character of the signature of an issued token makes parsing fail. */
  lemma TamperedSignatureRejected(jwt: JwtUtil, c: Claims, now: nat, i: nat, ch: char)
    requires |SigningInput(c)| < i < |Sign(jwt, c)|
    requires ch != Sign(jwt, c)[i]
    ensures ParseClaims(jwt, Sign(jwt, c)[i := ch], now) == Failure(SignatureMismatch)
  {
    var input := SigningInput(c);
    var mac := jwt.hmac(jwt.key, input);
    var j := i - |input| - 1;
    var forged := mac[j := ch];
    assert Sign(jwt, c)[i := ch] == input + "." + forged;
    assert forged[j] != mac[j];
    ParseShape(jwt, c, forged, now);
  }

  /** The names of the held roles, listed in declaration order. */
  function RoleNamesOf(constants: seq<Role>, roles: set<Role>): (names: seq<string>)
    ensures forall r :: r in constants && r in roles ==> RoleName(r) in names
    ensures forall n :: n in names ==> ValueOf(n).Some? && ValueOf(n).value in roles
  {
    if constants == [] then []
    else
      var rest := RoleNamesOf(constants[1..], roles);
      assert forall r :: r in constants ==> r == constants[0] || r in constants[1..];
      if constants[0] in roles then
        ValueOfRoleName(constants[0]);
        [RoleName(constants[0])] + rest
      else rest
  }

  /** The `roles` claim: `roles.stream().map(Role::getRoleName)`. */
  function RoleNames(roles: set<Role>): (names: seq<string>)
    ensures roles != {} ==> names != []
    ensures forall r :: r in roles ==> RoleName(r) in names
    ensures forall n :: n in names ==> ValueOf(n).Some? && ValueOf(n).value in roles
  {
    ExactlyFourRoles();
    RoleNamesOf(AllRoles, roles)
  }

  /**
   * The roles a claims set grants: names that are not a role constant are
   * dropped, and an absent or empty list grants none.
   */
  function RolesOf(c: Claims): (rs: set<Role>)
    ensures forall r :: r in rs <==> c.roles.Some? && RoleName(r) in c.roles.value
  {
    match c.roles
    case None => {}
    case Some(names) =>
      if names == [] then {}
      else
        var rs := set n | n in names && ValueOf(n).Some? :: ValueOf(n).value;
        assert forall r :: RoleName(r) in names ==> r in rs by {
          forall r | RoleName(r) in names ensures r in rs {
            ValueOfRoleName(r);
          }
        }
        rs
  }

  /** The claims of a token issued to `username` at `now`. */
  function IssuedClaims(username: string, roles: Option<set<Role>>, now: nat): (c: Claims)
    ensures c.subject == Some(username)
    ensures c.issuedAt == Some(now / 1000)
    ensures c.expiration == Some((now + ValidityMillis) / 1000)
    ensures c.roles.None? <==> roles.None? || roles.value == {}
    ensures RolesOf(c) == if roles.Some? then roles.value else {}
  {
    var rolesClaim := if roles.Some? && roles.value != {} then Some(RoleNames(roles.value)) else None;
    var c := Claims(Some(username), rolesClaim, Some(now / 1000), Some((now + ValidityMillis) / 1000));
    assert roles.Some? ==> RolesOf(c) == roles.value by {
      if roles.Some? && roles.value != {} {
        forall r ensures r in RolesOf(c) <==> r in roles.value {
          ValueOfRoleName(r);
        }
      }
    }
    c
  }

  /** The instant, in milliseconds, at which a token issued at `now` stops being valid. */
  function ExpiryMillis(now: nat): (t: nat)
    ensures now + ValidityMillis - 1000 < t <= now + ValidityMillis
  {
    ((now + ValidityMillis) / 1000) * 1000
  }

  /** `generateToken(username, roles)`. */
  function GenerateToken(jwt: JwtUtil, username: string, roles: Option<set<Role>>, now: nat): (t: string)
    ensures ParseClaims(jwt, t, now) == Success(IssuedClaims(username, roles, now))
  {
    ParseSign(jwt, IssuedClaims(username, roles, now), now);
    Sign(jwt, IssuedClaims(username, roles, now))
  }

  /** `generateToken(username)`: a token with no roles. */
  function GenerateTokenFor(jwt: JwtUtil, username: string, now: nat): (t: string)
    ensures t == GenerateToken(jwt, username, None, now)
    ensures t == GenerateToken(jwt, username, Some({}), now)
  {
    GenerateToken(jwt, username, Some({}), now)
  }

  /** `extractUsername`: the `sub` claim, which may be absent. */
  function ExtractUsername(jwt: JwtUtil, token: string, now: nat): (r: Result<Option<string>, Fault>)
    ensures r.Success? <==> ParseClaims(jwt, token, now).Success?
    ensures r.Success? ==> r.value == ParseClaims(jwt, token, now).value.subject
  {
    match ParseClaims(jwt, token, now)
    case Failure(e) => Failure(e)
    case Success(c) => Success(c.subject)
  }

  /** `extractExpiration`: the `exp` claim as a date in milliseconds, which may be absent. */
  function ExtractExpiration(jwt: JwtUtil, token: string, now: nat): (r: Result<Option<nat>, Fault>)
    ensures r.Success? <==> ParseClaims(jwt, token, now).Success?
    ensures r.Success? && r.value.Some? ==> now <= r.value.value
    ensures r.Success? ==> (r.value.None? <==> ParseClaims(jwt, token, now).value.expiration.None?)
  {
    match ParseClaims(jwt, token, now)
    case Failure(e) => Failure(e)
    case Success(c) => Success(if c.expiration.Some? then Some(c.expiration.value * 1000) else None)
  }

  /** `extractRoles`: the role constants named in the `roles` claim. */
  function ExtractRoles(jwt: JwtUtil, token: string, now: nat): (r: Result<set<Role>, Fault>)
    ensures r.Success? <==> ParseClaims(jwt, token, now).Success?
    ensures r.Success? ==> forall role :: role in r.value <==>
              (ParseClaims(jwt, token, now).value.roles.Some? && RoleName(role) in ParseClaims(jwt, token, now).value.roles.value)
  {
    match ParseClaims(jwt, token, now)
    case Failure(e) => Failure(e)
    case Success(c) => Success(RolesOf(c))
  }

  /** `hasRole(token, role)`. */
  function HasRole(jwt: JwtUtil, token: string, role: Role, now: nat): (r: Result<bool, Fault>)
    ensures r.Success? <==> ExtractRoles(jwt, token, now).Success?
    ensures r.Success? ==> (r.value <==> role in ExtractRoles(jwt, token, now).value)
  {
    match ExtractRoles(jwt, token, now)
    case Failure(e) => Failure(e)
    case Success(held) => Success(role in held)
  }

  /** `hasAnyRole(token, roles...)`. */
  function HasAnyRole(jwt: JwtUtil, token: string, roles: seq<Role>, now: nat): (r: Result<bool, Fault>)
    ensures r.Success? <==> ExtractRoles(jwt, token, now).Success?
    ensures r.Success? ==> (r.value <==> exists i :: 0 <= i < |roles| && roles[i] in ExtractRoles(jwt, token, now).value)
    ensures roles == [] ==> r != Success(true)
    ensures |roles| == 1 ==> r == HasRole(jwt, token, roles[0], now)
  {
    match ExtractRoles(jwt, token, now)
    case Failure(e) => Failure(e)
    case Success(held) => Success(AnyIn(held, roles))
  }

  /**
   * `isTokenExpired`: the parser reads the clock at `now`, then the expiry
   * date is compared with a second reading `date`, the method's `new Date()`.
   */
  function IsTokenExpired(jwt: JwtUtil, token: string, now: nat, date: nat): (r: Result<bool, Fault>)
    ensures r.Success? <==> ParseClaims(jwt, token, now).Success? && ParseClaims(jwt, token, now).value.expiration.Some?
    ensures r.Success? ==> (r.value <==> ExpiredAt(ParseClaims(jwt, token, now).value, date))
    ensures r == Success(true) ==> now < date
  {
    match ExtractExpiration(jwt, token, now)
    case Failure(e) => Failure(e)
    case Success(None) => Failure(NullPointer)
    case Success(Some(expiry)) => Success(expiry < date)
  }

  /** `validateToken(token, username)`: right subject, not expired at the second reading `date`. */
  function ValidateToken(jwt: JwtUtil, token: string, username: Option<string>, now: nat, date: nat): (r: Result<bool, Fault>)
    ensures r == Success(true) <==>
              && username.Some?
              && ParseClaims(jwt, token, now).Success?
              && ParseClaims(jwt, token, now).value.subject == username
              && ParseClaims(jwt, token, now).value.expiration.Some?
              && !ExpiredAt(ParseClaims(jwt, token, now).value, date)
    ensures ParseClaims(jwt, token, now).Failure? ==> r == Failure(ParseClaims(jwt, token, now).error)
    ensures (username.Some? && ParseClaims(jwt, token, now).Success?
             && ParseClaims(jwt, token, now).value.subject != username) ==> r == Success(false)
    ensures (date <= now && username.Some? && ParseClaims(jwt, token, now).Success?
             && ParseClaims(jwt, token, now).value.subject == username
             && ParseClaims(jwt, token, now).value.expiration.Some?) ==> r == Success(true)
  {
    match ExtractUsername(jwt, token, now)
    case Failure(e) => Failure(e)
    case Success(extracted) =>
      if username.None? then Failure(NullPointer)
      else if Some(username.value) != extracted then Success(false)
      else
        match IsTokenExpired(jwt, token, now, date)
        case Failure(e) => Failure(e)
        case Success(expired) => Success(!expired)
  }

  /** The roles of an issued token are read back unchanged while it is valid. */
  lemma RolesRoundTrip(jwt: JwtUtil, username: string, roles: Option<set<Role>>, now: nat, later: nat)
    requires later <= ExpiryMillis(now)
    ensures ExtractRoles(jwt, GenerateToken(jwt, username, roles, now), later)
            == Success(if roles.Some? then roles.value else {})
  {
    ParseSign(jwt, IssuedClaims(username, roles, now), later);
  }

  /**
   * An issued token validates for its own subject until it expires, and for
   * any other name it is refused, however similar the name.
   */
  lemma IssuedTokenValidates(jwt: JwtUtil, username: string, roles: Option<set<Role>>, now: nat, later: nat,
                             date: nat, other: string)
    requires later <= ExpiryMillis(now) && date <= ExpiryMillis(now)
    requires other != username
    ensures ValidateToken(jwt, GenerateToken(jwt, username, roles, now), Some(username), later, date) == Success(true)
    ensures ValidateToken(jwt, GenerateToken(jwt, username, roles, now), Some(other), later, date) == Success(false)
  {
    ParseSign(jwt, IssuedClaims(username, roles, now), later);
  }

  /** Once the validity window has passed, the parser throws and nothing validates. */
  lemma ExpiredTokenRefused(jwt: JwtUtil, username: string, roles: Option<set<Role>>, now: nat, later: nat,
                            date: nat, name: Option<string>)
    requires later > ExpiryMillis(now)
    ensures ParseClaims(jwt, GenerateToken(jwt, username, roles, now), later) == Failure(ExpiredJwt)
    ensures ValidateToken(jwt, GenerateToken(jwt, username, roles, now), name, later, date) == Failure(ExpiredJwt)
  {
    ParseSign(jwt, IssuedClaims(username, roles, now), later);
  }

  /**
   * A token that the parser still accepts, but whose expiry has passed by
   * the time `isTokenExpired` reads the clock again, does not validate.
   */
  lemma ExpiringBetweenReadings(jwt: JwtUtil, username: string, roles: Option<set<Role>>, now: nat, later: nat, date: nat)
    requires later <= ExpiryMillis(now) < date
    ensures IsTokenExpired(jwt, GenerateToken(jwt, username, roles, now), later, date) == Success(true)
    ensures ValidateToken(jwt, GenerateToken(jwt, username, roles, now), Some(username), later, date) == Success(false)
  {
    ParseSign(jwt, IssuedClaims(username, roles, now), later);
  }
}
