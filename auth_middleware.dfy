/** The token gate in front of the protected routes: the bearer token is cut
    out of the `Authorization` header, verified, and its payload must name a
    user; the request then carries that user and the next handler runs,
    otherwise the request is answered with a 401. */
module AuthMiddleware {
  import opened Common

  const BearerPrefix: string := "Bearer "
  const MissingTokenMessage: string := "Accès non autorisé"
  const InvalidTokenMessage: string := "Token invalide"
  const UnauthorizedCode: nat := 401

  /** The decoded token payload `{ user: { id } }`; an absent or falsy part
      is None. */
  datatype PayloadUser = PayloadUser(id: Option<UserId>)
  datatype Payload = Payload(user: Option<PayloadUser>)

  /** `jwt.verify` with the server secret: the payload of a well-signed,
      unexpired token, None when it throws. */
  type Verifier = string -> Option<Payload>

  /** `req.user`. */
  datatype AuthUser = AuthUser(id: UserId)

  /** What the gate decides: call the next handler with this user, or answer
      401 with this message. */
  datatype GateResult = Next(user: AuthUser) | Unauthorized(message: string)

  /** `req.header('Authorization')?.replace('Bearer ', '')`: no header gives
      no token; otherwise the first occurrence of the prefix, wherever it is,
      is cut out, and a header without it is kept whole. */
  function ExtractToken(header: Option<string>): (token: Option<string>)
    ensures header.None? <==> token.None?
    ensures header.Some? && !Includes(header.value, BearerPrefix) ==> token == header
    ensures header.Some? && Includes(header.value, BearerPrefix) ==>
      |token.value| + |BearerPrefix| == |header.value|
    ensures header.Some? && IndexOf(header.value, BearerPrefix).Some? ==>
      var i := IndexOf(header.value, BearerPrefix).value;
      token.value == header.value[..i] + header.value[i + |BearerPrefix|..]
  {
    if header.None? then None
    else
      IncludesIffOccurs(header.value, BearerPrefix);
      Some(ReplaceFirst(header.value, BearerPrefix, ""))
  }

  /** The payload check: `decoded.user && decoded.user.id`. */
  function PayloadUserId(decoded: Payload): (id: Option<UserId>)
    ensures id.Some? <==> decoded.user.Some? && decoded.user.value.id.Some?
    ensures id.Some? ==> decoded.user == Some(PayloadUser(id))
  {
    if decoded.user.Some? && decoded.user.value.id.Some? then decoded.user.value.id else None
  }

  /** The gate's decision. A missing or empty token is "access denied"; a
      token that does not verify, or whose payload names no user, is
      "invalid token"; otherwise the request proceeds as the payload's user. */
  function Gate(header: Option<string>, verify: Verifier): (r: GateResult)
    ensures r == Unauthorized(MissingTokenMessage) <==>
      ExtractToken(header).None? || ExtractToken(header).value == ""
    ensures r == Unauthorized(InvalidTokenMessage) <==>
      ExtractToken(header).Some? && ExtractToken(header).value != ""
      && (verify(ExtractToken(header).value).None?
          || PayloadUserId(verify(ExtractToken(header).value).value).None?)
    ensures r.Next? ==>
      ExtractToken(header).Some? && ExtractToken(header).value != ""
      && verify(ExtractToken(header).value).Some?
      && verify(ExtractToken(header).value).value.user == Some(PayloadUser(Some(r.user.id)))
    ensures r.Next? <==>
      ExtractToken(header).Some? && ExtractToken(header).value != ""
      && verify(ExtractToken(header).value).Some?
      && PayloadUserId(verify(ExtractToken(header).value).value).Some?
    ensures r.Next? || r.message == MissingTokenMessage || r.message == InvalidTokenMessage
  {
    var token := ExtractToken(header);
    if token.None? || !Truthy(token.value) then Unauthorized(MissingTokenMessage)
    else
      var decoded := verify(token.value);
      if decoded.None? then Unauthorized(InvalidTokenMessage)
      else
        var id := PayloadUserId(decoded.value);
        if id.None? then Unauthorized(InvalidTokenMessage) else Next(AuthUser(id.value))
  }

  /** The prefix put in front of a token is exactly what extraction removes. */
  lemma TokenRoundTrip(token: string)
    ensures ExtractToken(Some(BearerPrefix + token)) == Some(token)
  {
    var h := BearerPrefix + token;
    assert OccursAt(h, BearerPrefix, 0) by {
      assert h[0..|BearerPrefix|] == BearerPrefix;
    }
    assert IndexOf(h, BearerPrefix) == Some(0);
    assert h[..0] + "" + h[|BearerPrefix|..] == token;
    assert ReplaceFirst(h, BearerPrefix, "") == token;
  }

  /** Only the first occurrence is removed: a doubled prefix leaves one. */
  lemma FirstPrefixOnly(token: string)
    ensures ExtractToken(Some(BearerPrefix + BearerPrefix + token)) == Some(BearerPrefix + token)
  {
    assert BearerPrefix + BearerPrefix + token == BearerPrefix + (BearerPrefix + token);
    TokenRoundTrip(BearerPrefix + token);
  }

  /** A request without the header, or whose header is the bare prefix, is
      refused as missing its token, before any verification. */
  lemma NoTokenRefused(verify: Verifier)
    ensures Gate(None, verify) == Unauthorized(MissingTokenMessage)
    ensures Gate(Some(BearerPrefix), verify) == Unauthorized(MissingTokenMessage)
  {
    TokenRoundTrip("");
    assert BearerPrefix + "" == BearerPrefix;
  }

  /** A header without the prefix is verified as it stands. */
  lemma RawHeaderVerified(header: string, verify: Verifier)
    requires !Includes(header, BearerPrefix) && header != ""
    ensures verify(header).Some? && PayloadUserId(verify(header).value).Some? ==>
      Gate(Some(header), verify) == Next(AuthUser(PayloadUserId(verify(header).value).value))
    ensures verify(header).None? ==> Gate(Some(header), verify) == Unauthorized(InvalidTokenMessage)
  {
  }

  /** The request and response objects of one call through the gate. */
  class Exchange {
    /** The `Authorization` header. */
    const header: Option<string>
    /** `req.user`. */
    var user: Option<AuthUser>
    /** The status and message sent, if any. */
    var response: Option<(nat, string)>
    /** How many times `next` was called. */
    var nextCalls: nat

    constructor (header: Option<string>)
      ensures this.header == header && user.None? && response.None? && nextCalls == 0
    {
      this.header := header;
      user := None;
      response := None;
      nextCalls := 0;
    }
  }

  /** The middleware: either `req.user` is set to exactly the payload's user
      and `next` is called once with nothing sent, or a 401 is sent and
      neither `req.user` nor `next` is touched. */
  method Authenticate(ex: Exchange, verify: Verifier)
    modifies ex
    ensures Gate(ex.header, verify).Next? ==>
      && ex.user == Some(Gate(ex.header, verify).user)
      && ex.nextCalls == old(ex.nextCalls) + 1
      && ex.response == old(ex.response)
    ensures Gate(ex.header, verify).Unauthorized? ==>
      && ex.response == Some((UnauthorizedCode, Gate(ex.header, verify).message))
      && ex.user == old(ex.user)
      && ex.nextCalls == old(ex.nextCalls)
  {
    var token := ExtractToken(ex.header);
    if token.None? || !Truthy(token.value) {
      ex.response := Some((UnauthorizedCode, MissingTokenMessage));
      return;
    }
    var decoded := verify(token.value);
    if decoded.None? {
      ex.response := Some((UnauthorizedCode, InvalidTokenMessage));
      return;
    }
    var payload := decoded.value;
    if payload.user.Some? && payload.user.value.id.Some? {
      ex.user := Some(AuthUser(payload.user.value.id.value));
    } else {
      ex.response := Some((UnauthorizedCode, InvalidTokenMessage));
      return;
    }
    ex.nextCalls := ex.nextCalls + 1;
  }
}
