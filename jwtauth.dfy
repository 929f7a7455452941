/** api/jwtauth.go: the bearer-token gate in front of the API (`Verify`), the mapping of
    a token's verification and expiry to return codes (`Parse`), and the claims and
    expiry of a new token (`Generate`). The header follows the "Bearer" scheme of
    section 2.1 of RFC 6750; `exp` is the expiration time claim of section 4.1.4 of
    RFC 7519, compared with the current time in seconds. */
module JwtAuth {
  import opened Wrappers
  import Util
  import Authorization

  /** The claims `Generate` signs. */
  datatype Claims = Claims(id: int, roleId: int, role: string, exp: int)

  /** What signature verification (`jwt.Parse` with the HMAC key function) yields for a
      token string: an error, or a token whose claims are or are not a `MapClaims` and
      which is or is not valid. */
  datatype Verification = VerifyError | Verified(isMapClaims: bool, valid: bool, claims: Claims)

  /** `int64(time.Second * 25)`: twenty-five seconds counted in nanoseconds. */
  const ExpireOffset: int := 25_000_000_000

  /** The JWT settings; `Generate` has a value receiver, so its write to `Expire` is lost
      with the copy. */
  class JwtAuth {
    var expire: int

    constructor ()
      ensures expire == 0
    {
      expire := 0;
    }

    /** `Generate(id, roleID, role)` at time `now` (seconds): the claims to be signed, or
        None when signing fails. */
    method Generate(now: int, id: int, roleId: int, role: string, signFails: bool) returns (token: Option<Claims>)
      requires Util.IsInt64(now) && Util.IsInt64(id) && Util.IsInt64(roleId)
      ensures signFails ==> token == None
      ensures !signFails ==> token == Some(Claims(id, roleId, role, Util.Wrap64(now + ExpireOffset)))
    {
      var copyExpire := Util.Wrap64(now + ExpireOffset);
      var claims := Claims(id, roleId, role, copyExpire);
      if signFails {
        return None;
      }
      return Some(claims);
    }
  }

  /** What `Parse` returns: the claims (empty unless the code is 1) and the code. */
  datatype Parsed = Parsed(claims: Option<Claims>, code: int)

  /** `Parse(tokenString)` at time `now`, given what verification made of the token. */
  function Parse(v: Verification, now: int): (r: Parsed)
    ensures r.code == -1 <==> v.VerifyError?
    ensures r.code == -2 <==> v.Verified? && !(v.isMapClaims && v.valid)
    ensures r.code == 0 <==> v.Verified? && v.isMapClaims && v.valid && now > v.claims.exp
    ensures r.code == 1 <==> v.Verified? && v.isMapClaims && v.valid && now <= v.claims.exp
    ensures r.code == 1 ==> r.claims == Some(v.claims)
    ensures r.code != 1 ==> r.claims == None
  {
    match v
    case VerifyError => Parsed(None, -1)
    case Verified(isMapClaims, valid, claims) =>
      if isMapClaims && valid then
        if now > claims.exp then Parsed(None, 0) else Parsed(Some(claims), 1)
      else Parsed(None, -2)
  }

  /** `strings.ToUpper` on the header bytes: only ASCII letters can upper-case to the
      letters of "BEARER", so other bytes are kept. */
  function ToUpper(s: string): (r: string)
    ensures |r| == |s|
    ensures forall i :: 0 <= i < |s| ==> r[i] == UpperChar(s[i])
  {
    if s == [] then [] else [UpperChar(s[0])] + ToUpper(s[1..])
  }

  function UpperChar(c: char): char
  {
    if 'a' <= c <= 'z' then (c as int - 32) as char else c
  }

  const StatusUnauthorized: int := 401
  const StatusForbidden: int := 403
  const InvalidEntry: string := "the request sent did not consist a valid token entry."
  const TokenExpire: string := "token expire"
  const NotValidated: string := "the token supplied could not be validated."

  /** How `Verify` answers a request: an error response, or `next` run with the auth
      context built from the claims. */
  datatype Response = Reject(status: int, detail: string) | RunNext(auth: Authorization.AuthContext)

  /** The header passes the scheme check. */
  predicate SchemeOk(header: string)
  {
    |header| >= 7 && ToUpper(header[..6]) == "BEARER"
  }

  /** The response to a parse result. */
  function ParseResponse(p: Parsed): Response
  {
    if p.code == 0 then Reject(StatusUnauthorized, TokenExpire)
    else if p.code == -1 || p.code == -2 then Reject(StatusForbidden, NotValidated)
    else if p.claims.Some? then
      RunNext(Authorization.AuthContext(p.claims.value.id, p.claims.value.roleId, p.claims.value.role))
    else Reject(StatusForbidden, NotValidated)
  }

  /** `Verify(next)` on one request: `verifier` says what verification makes of a token
      string, which is the header from byte 7 on. */
  function VerifyResponse(header: string, verifier: string -> Verification, now: int): Response
  {
    if !SchemeOk(header) then Reject(StatusForbidden, InvalidEntry)
    else ParseResponse(Parse(verifier(header[7..]), now))
  }

  /** The request context as `Verify` leaves it. */
  class RequestCtx {
    var authContext: Option<Authorization.AuthContext>
    var status: int
    var detail: string
    var nextRuns: nat

    constructor ()
      ensures authContext == None && status == 200 && detail == "" && nextRuns == 0
    {
      authContext := None;
      status := 200;
      detail := "";
      nextRuns := 0;
    }

    /** The handler `Verify(next)` returns, run on this request. */
    method Verify(header: string, verifier: string -> Verification, now: int)
      modifies this
      ensures var r := VerifyResponse(header, verifier, now);
        if r.RunNext? then authContext == Some(r.auth) && nextRuns == old(nextRuns) + 1 &&
                           status == old(status) && detail == old(detail)
        else authContext == old(authContext) && nextRuns == old(nextRuns) && status == r.status && detail == r.detail
    {
      if |header| < 7 || ToUpper(header[..6]) != "BEARER" {
        status, detail := StatusForbidden, InvalidEntry;
        return;
      }
      var p := Parse(verifier(header[7..]), now);
      if p.code == 0 {
        status, detail := StatusUnauthorized, TokenExpire;
      } else if p.code == -1 || p.code == -2 {
        status, detail := StatusForbidden, NotValidated;
      } else {
        var c := p.claims.value;
        authContext := Some(Authorization.AuthContext(c.id, c.roleId, c.role));
        nextRuns := nextRuns + 1;
      }
    }
  }

  /** Each parse code has its response: 0 is 401, -1 and -2 are 403, and an accepted
      token runs `next` as the caller it names. */
  lemma ParseCodes(v: Verification, now: int)
    ensures var r := ParseResponse(Parse(v, now));
      (r.RunNext? <==> v.Verified? && v.isMapClaims && v.valid && now <= v.claims.exp) &&
      (r == Reject(StatusUnauthorized, TokenExpire) <==> v.Verified? && v.isMapClaims && v.valid && now > v.claims.exp) &&
      (r.RunNext? ==> r.auth == Authorization.AuthContext(v.claims.id, v.claims.roleId, v.claims.role))
  {
  }

  /** jwt-go's own claim check, run inside `jwt.Parse` at second `checkedAt`: a token
      it calls valid had not expired then (MapClaims' `exp` test is `checkedAt <= exp`;
      an expired token makes `jwt.Parse` fail). */
  predicate ExpiryChecked(v: Verification, checkedAt: int)
  {
    v.Verified? && v.valid ==> checkedAt <= v.claims.exp
  }

  /** With an oracle that has made jwt-go's check at `checkedAt`, `Parse`'s own later
      comparison reports expiry only when the clock passed `exp` in between: a token
      read in the second it was checked is never reported expired, and one that had
      already expired is refused as unverifiable (403), not as expired (401). */
  lemma ExpiredOnlyAcrossASecond(v: Verification, checkedAt: int, now: int)
    requires ExpiryChecked(v, checkedAt) && checkedAt <= now
    ensures Parse(v, now).code == 0 ==> checkedAt <= v.claims.exp < now
    ensures now == checkedAt ==> Parse(v, now).code != 0
    ensures v.Verified? && v.claims.exp < checkedAt ==>
      ParseResponse(Parse(v, now)) == Reject(StatusForbidden, NotValidated)
  {
  }

  /** A token is still accepted in the second its `exp` names. */
  lemma ExpiryInclusive(c: Claims)
    ensures Parse(Verified(true, true, c), c.exp).code == 1
    ensures Parse(Verified(true, true, c), c.exp + 1).code == 0
  {
  }

  /** The header of section 2.1 of RFC 6750, "Bearer" and one space before the token,
      passes the gate and hands over exactly the token. */
  lemma StandardHeader(token: string, verifier: string -> Verification, now: int)
    ensures VerifyResponse("Bearer " + token, verifier, now) == ParseResponse(Parse(verifier(token), now))
  {
    var h := "Bearer " + token;
    assert h[..6] == "Bearer";
    assert ToUpper("Bearer") == "BEARER";
    assert h[7..] == token;
  }

  /** The scheme is matched without regard to case and the seventh byte is never looked
      at: two headers that agree on the token get the same answer. */
  lemma SeventhByteIgnored(p1: string, p2: string, c1: char, c2: char, token: string,
                           verifier: string -> Verification, now: int)
    requires |p1| == 6 && |p2| == 6 && ToUpper(p1) == "BEARER" && ToUpper(p2) == "BEARER"
    ensures VerifyResponse(p1 + [c1] + token, verifier, now) == VerifyResponse(p2 + [c2] + token, verifier, now)
    ensures VerifyResponse(p1 + [c1] + token, verifier, now) == ParseResponse(Parse(verifier(token), now))
  {
    assert (p1 + [c1] + token)[..6] == p1 && (p1 + [c1] + token)[7..] == token;
    assert (p2 + [c2] + token)[..6] == p2 && (p2 + [c2] + token)[7..] == token;
  }

  /** A header of fewer than seven bytes, "Bearer" alone included, is refused before any
      verification. */
  lemma ShortHeaderRefused(header: string, verifier: string -> Verification, now: int)
    requires |header| < 7
    ensures VerifyResponse(header, verifier, now) == Reject(StatusForbidden, InvalidEntry)
    ensures VerifyResponse("Bearer", verifier, now) == Reject(StatusForbidden, InvalidEntry)
  {
  }

  /** A token from `Generate` at time `t`, once verified, is accepted exactly up to
      `t` + 25 000 000 000 seconds: the offset counts nanoseconds, not seconds. */
  lemma GeneratedLifetime(t: int, id: int, roleId: int, role: string, now: int)
    requires Util.IsInt64(t) && t + ExpireOffset <= Util.MaxInt64
    ensures var c := Claims(id, roleId, role, Util.Wrap64(t + ExpireOffset));
      Parse(Verified(true, true, c), now).code == 1 <==> now <= t + 25_000_000_000
    ensures var c := Claims(id, roleId, role, Util.Wrap64(t + ExpireOffset));
      now <= t + 25_000_000_000 ==>
      ParseResponse(Parse(Verified(true, true, c), now)) == RunNext(Authorization.AuthContext(id, roleId, role))
  {
    assert Util.IsInt64(t + ExpireOffset);
  }
}
