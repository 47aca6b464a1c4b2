/** The access-token gate placed in front of protected routes
    (middlewares/AuthMiddleware.js). */
module AuthMiddleware {
  import opened Wrappers
  import opened Messages
  import opened Http
  import opened Crypto

  const BearerPrefix: string := "Bearer "

  predicate OccursAt(s: string, pat: string, i: nat)
  {
    i + |pat| <= |s| && s[i..i + |pat|] == pat
  }

  /** The first position at or after `from` where `pat` occurs in `s`. */
  function FirstOccurrence(s: string, pat: string, from: nat): (r: Option<nat>)
    requires from <= |s|
    decreases |s| - from
    ensures r.Some? ==> from <= r.value && OccursAt(s, pat, r.value)
    ensures r.Some? ==> forall j :: from <= j < r.value ==> !OccursAt(s, pat, j)
    ensures r.None? ==> forall j :: from <= j ==> !OccursAt(s, pat, j)
  {
    if OccursAt(s, pat, from) then Some(from)
    else if from == |s| then None
    else FirstOccurrence(s, pat, from + 1)
  }

  /** `header.replace("Bearer ", "")`: a string pattern replaces its first
      occurrence only, wherever it is. */
  function StripBearer(header: string): string
  {
    match FirstOccurrence(header, BearerPrefix, 0)
    case None => header
    case Some(i) => header[..i] + header[i + |BearerPrefix|..]
  }

  /** A header without `"Bearer "` is passed to verification unchanged. */
  lemma StripWithoutBearer(header: string)
    requires forall j :: !OccursAt(header, BearerPrefix, j)
    ensures StripBearer(header) == header
  {
  }

  /** The first `"Bearer "` is removed wherever it stands, and only that one. */
  lemma StripFirstBearer(before: string, after: string)
    requires forall j: nat :: j < |before| ==> !OccursAt(before + BearerPrefix + after, BearerPrefix, j)
    ensures StripBearer(before + BearerPrefix + after) == before + after
  {
    var h := before + BearerPrefix + after;
    assert h[|before|..|before| + |BearerPrefix|] == BearerPrefix;
    assert OccursAt(h, BearerPrefix, |before|);
    var r := FirstOccurrence(h, BearerPrefix, 0);
    assert r == Some(|before|);
    assert h[..|before|] == before;
    assert h[|before| + |BearerPrefix|..] == after;
  }

  /** `"Bearer " + t` yields `t`. */
  lemma StripBearerPrefix(t: string)
    ensures StripBearer(BearerPrefix + t) == t
  {
    StripFirstBearer([], t);
  }

  /** What the gate decides: let the request through with the decoded claims,
      or answer with a status and a message. */
  datatype Outcome = Proceed(claims: Claims) | Reject(status: int, key: ErrorKey)

  /** The decision of `checkToken` for an `Authorization` header (`None` when
      absent) and a token verifier. */
  function Gate(header: Option<string>, verify: string -> VerifyResult): (o: Outcome)
    ensures header.None? || header.value == "" ==> o == Reject(401, Unauthorized)
    ensures o.Proceed? ==> header.Some? && header.value != "" && verify(StripBearer(header.value)) == Verified(o.claims)
    ensures header.Some? && header.value != "" && verify(StripBearer(header.value)).Verified? ==> o.Proceed?
    ensures o.Reject? && o.status == 500 <==> header.Some? && header.value != "" && verify(StripBearer(header.value)) == OtherFailure
    ensures o.Reject? ==> o.status in {401, 500}
  {
    if header.None? || header.value == "" then Reject(401, Unauthorized)
    else
      match verify(StripBearer(header.value))
      case Verified(claims) => Proceed(claims)
      case Expired => Reject(401, TokenExpired)
      case Malformed => Reject(401, InvalidToken)
      case OtherFailure => Reject(500, InternalServerError)
  }

  /** An expired token is answered 401 `TOKEN_EXPIRED`, a malformed or
      badly signed one 401 `INVALID_TOKEN`. */
  lemma RejectedTokens(header: string, verify: string -> VerifyResult)
    requires header != ""
    ensures verify(StripBearer(header)) == Expired ==> Gate(Some(header), verify) == Reject(401, TokenExpired)
    ensures verify(StripBearer(header)) == Malformed ==> Gate(Some(header), verify) == Reject(401, InvalidToken)
    ensures verify(StripBearer(header)) == OtherFailure ==> Gate(Some(header), verify) == Reject(500, InternalServerError)
  {
  }

  /** The request as the middleware sees it. */
  class Request {
    const authorization: Option<string>
    var user: Option<Claims>

    constructor (authorization: Option<string>)
      ensures this.authorization == authorization && user == None
    {
      this.authorization := authorization;
      user := None;
    }
  }

  /** `checkToken(req, res, next)`; returns how many times `next()` was
      called. The messages come from utils/error.messages.js. */
  method CheckToken(req: Request, res: Res<()>, verify: string -> VerifyResult) returns (nextCalls: nat)
    requires res.attempts == []
    modifies req, res
    ensures nextCalls + |res.attempts| == 1
    ensures Gate(req.authorization, verify).Proceed? ==>
      nextCalls == 1 && req.user == Some(Gate(req.authorization, verify).claims)
    ensures Gate(req.authorization, verify).Reject? ==>
      req.user == old(req.user)
      && res.attempts == [Failure(Gate(req.authorization, verify).status, LegacyErrorText(Gate(req.authorization, verify).key))]
  {
    var token := req.authorization;
    if token.None? || token.value == "" {
      var _ := res.Json(Failure(401, LegacyErrorText(Unauthorized)));
      return 0;
    }
    var actualToken := StripBearer(token.value);
    match verify(actualToken)
    case Verified(decoded) =>
      req.user := Some(decoded);
      nextCalls := 1;
    case Expired =>
      var _ := res.Json(Failure(401, LegacyErrorText(TokenExpired)));
      nextCalls := 0;
    case Malformed =>
      var _ := res.Json(Failure(401, LegacyErrorText(InvalidToken)));
      nextCalls := 0;
    case OtherFailure =>
      var _ := res.Json(Failure(500, LegacyErrorText(InternalServerError)));
      nextCalls := 0;
  }
}
