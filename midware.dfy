/** The bearer-token authorization middleware (api/midware.go): classify the
    `Authorization` header, resolve the token with the backend's Authorize
    call, and on success store the caller's identity under "auth_payload"
    and pass control on. */
module Midware {
  import opened Wire
  import opened Pb
  import opened Strings

  const HeaderRequired := "authorization header is required"
  const HeaderInvalid := "authorization header is invalid"
  const TokenRequired := "access token is required"

  /** The request-context key the identity is stored under. */
  const AuthPayloadKey := "auth_payload"

  /** The authenticated caller, valid for one request. */
  datatype AuthPayload = AuthPayload(id: string, userId: int32, createAt: Timestamp, expiredAt: Timestamp)

  /** The local header checks: a rejection message, or the bearer token. */
  datatype HeaderCheck = Reject(message: string) | Token(token: string)

  function CheckHeader(header: string): (c: HeaderCheck)
    ensures header == [] ==> c == Reject(HeaderRequired)
    ensures c.Token? <==> |Fields(header)| >= 2 && ToLower(Fields(header)[0]) == "bearer"
    ensures c.Token? ==> c.token == Fields(header)[1] && c.token != []
    ensures c.Reject? ==> c.message == if header == [] then HeaderRequired else HeaderInvalid
  {
    if |header| == 0 then Reject(HeaderRequired)
    else
      var fields := Fields(header);
      if |fields| < 2 then Reject(HeaderInvalid)
      else if ToLower(fields[0]) != "bearer" then Reject(HeaderInvalid)
      else
        var accessToken := fields[1];
        if |accessToken| == 0 then Reject(TokenRequired)
        else Token(accessToken)
  }

  /** What the middleware decided: the status and message it writes, or the
      identity it stores. */
  datatype AuthOutcome = Deny(status: int, message: string) | Grant(payload: AuthPayload)

  datatype Authentication = Authentication(outcome: AuthOutcome, calls: seq<Call>)

  function PayloadOf(r: AuthResponse): AuthPayload {
    AuthPayload(r.id, r.userId, r.createdAt, r.expiredAt)
  }

  /** The middleware's decision for one request, as a function of the header
      and of how the backend answers Authorize. */
  function Authenticate(header: string, authorize: AuthRequest -> Reply<AuthResponse>): (a: Authentication)
    ensures |a.calls| <= 1
    ensures a.calls != [] <==> CheckHeader(header).Token?
    ensures a.calls != [] ==> a.calls == [Authorize(AuthRequest(CheckHeader(header).token))]
    ensures a.outcome.Grant? <==> a.calls != [] && authorize(a.calls[0].authReq).Ok?
    ensures a.outcome.Grant? ==> a.outcome.payload == PayloadOf(authorize(a.calls[0].authReq).value)
    ensures a.calls == [] ==> a.outcome == Deny(StatusUnauthorized, CheckHeader(header).message)
    ensures a.calls != [] && a.outcome.Deny? ==>
      var reply := authorize(a.calls[0].authReq);
      a.outcome.message == ErrorText(reply) &&
      a.outcome.status == if reply.StatusErr? && reply.code == Unauthenticated
                          then StatusUnauthorized else StatusInternalServerError
  {
    match CheckHeader(header)
    case Reject(m) => Authentication(Deny(StatusUnauthorized, m), [])
    case Token(t) =>
      var req := AuthRequest(t);
      var reply := authorize(req);
      var outcome :=
        match reply
        case Ok(result) => Grant(PayloadOf(result))
        case StatusErr(c, _) =>
          if c == Unauthenticated then Deny(StatusUnauthorized, ErrorText(reply))
          else Deny(StatusInternalServerError, ErrorText(reply))
        case _ => Deny(StatusInternalServerError, ErrorText(reply));
      Authentication(outcome, [Authorize(req)])
  }

  /** The part of a gin request context the middleware touches. */
  class GinContext {
    /** `ctx.Keys`, restricted to the values this program stores. */
    var keys: map<string, AuthPayload>
    /** Every `ctx.JSON` written so far, in order. */
    var responses: seq<Response<()>>
    /** Whether `ctx.Next()` has handed control to the rest of the chain. */
    var nextCalled: bool

    constructor (keys: map<string, AuthPayload>)
      ensures this.keys == keys && responses == [] && !nextCalled
    {
      this.keys := keys;
      responses := [];
      nextCalled := false;
    }

    /** The handler `authMiddleware` returns, run on this context. On
        failure it writes one error response and neither stores a payload
        nor calls `Next` (it does not call `Abort` either). */
    method AuthMiddleware(header: string, authorize: AuthRequest -> Reply<AuthResponse>)
      returns (calls: seq<Call>)
      modifies this
      ensures calls == Authenticate(header, authorize).calls
      ensures match Authenticate(header, authorize).outcome
        case Grant(p) =>
          keys == old(keys)[AuthPayloadKey := p] && nextCalled && responses == old(responses)
        case Deny(status, message) =>
          keys == old(keys) && nextCalled == old(nextCalled) &&
          responses == old(responses) + [Fail(status, message)]
    {
      var a := Authenticate(header, authorize);
      calls := a.calls;
      match a.outcome
      case Deny(status, message) =>
        responses := responses + [Fail(status, message)];
      case Grant(p) =>
        keys := keys[AuthPayloadKey := p];
        nextCalled := true;
    }
  }

  // ---- properties of the header classification

  /** The "access token is required" rejection can never be produced:
      `strings.Fields` never yields an empty field. */
  lemma TokenRequiredUnreachable(header: string)
    ensures CheckHeader(header) != Reject(TokenRequired)
  {
  }

  /** A header of white space only, the empty header aside, is "invalid"
      and not "required", and Authorize is not called. */
  lemma WhitespaceHeaderInvalid(header: string, authorize: AuthRequest -> Reply<AuthResponse>)
    requires header != [] && AllSpace(header)
    ensures CheckHeader(header) == Reject(HeaderInvalid)
    ensures Authenticate(header, authorize) == Authentication(Deny(StatusUnauthorized, HeaderInvalid), [])
  {
    FieldsEmptyIffAllSpace(header);
  }

  /** A header with at least two fields is accepted exactly when its first
      field is "bearer" in some letter case, and then the token is its
      second field. */
  lemma CheckHeaderOfFields(header: string)
    requires header != [] && |Fields(header)| >= 2
    ensures CheckHeader(header) ==
      if BearerSpelling(Fields(header)[0]) then Token(Fields(header)[1]) else Reject(HeaderInvalid)
  {
    BearerSchemeIff(Fields(header)[0]);
  }

  /** For a header laid out as blank-free words "<scheme> <token> <extra>...",
      with white space of any kind and length before, between and after
      them, the scheme is accepted in any letter case, only the second word
      is the token, and any other scheme is "invalid". */
  lemma SchemeAndTokenOfHeader(pre: string, ws: seq<string>, gaps: seq<string>)
    requires AllSpace(pre) && GoodGaps(ws, gaps)
    requires |ws| >= 2 && forall k :: 0 <= k < |ws| ==> IsWord(ws[k])
    ensures CheckHeader(pre + Spread(ws, gaps)) ==
      if BearerSpelling(ws[0]) then Token(ws[1]) else Reject(HeaderInvalid)
  {
    var header := pre + Spread(ws, gaps);
    FieldsOfSpread(pre, ws, gaps);
    assert |header| >= |ws[0]| > 0 by {
      assert Spread(ws, gaps) == ws[0] + gaps[0] + Spread(ws[1..], gaps[1..]);
    }
    CheckHeaderOfFields(header);
  }

  /** "<scheme><sep><token>", for any white space `sep` (blanks, tabs,
      NBSP...), is accepted with "Bearer", "BEARER" and "bearer" alike, and
      "Basic" is "invalid". */
  lemma SchemeLetterCase(scheme: string, sep: string, token: string, header: string)
    requires scheme == "Bearer" || scheme == "BEARER" || scheme == "bearer" || scheme == "Basic"
    requires sep != [] && AllSpace(sep)
    requires IsWord(token) && header == scheme + sep + token
    ensures CheckHeader(header) == if scheme == "Basic" then Reject(HeaderInvalid) else Token(token)
  {
    var ws, gaps := [scheme, token], [sep, ""];
    assert IsWord(scheme);
    assert "" + Spread(ws, gaps) == header by {
      assert ws[1..] == [token] && gaps[1..] == [""];
      assert Spread([token], [""]) == token + "" + Spread([], []);
    }
    assert BearerSpelling(scheme) <==> scheme != "Basic";
    SchemeAndTokenOfHeader("", ws, gaps);
  }

  /** "bearer tok extra" calls Authorize with exactly "tok". */
  lemma ExtraFieldsIgnored(header: string, authorize: AuthRequest -> Reply<AuthResponse>)
    requires header == "bearer tok extra"
    ensures Authenticate(header, authorize).calls == [Authorize(AuthRequest("tok"))]
  {
    var scheme, token, extra := "bearer", "tok", "extra";
    var ws, gaps := [scheme, token, extra], [" ", " ", ""];
    WordsOfExample();
    assert "" + Spread(ws, gaps) == header by {
      assert ws[1..] == [token, extra] && gaps[1..] == [" ", ""];
      assert [token, extra][1..] == [extra] && [" ", ""][1..] == [""];
      assert Spread([extra], [""]) == extra + "" + Spread([], []);
      assert Spread([token, extra], [" ", ""]) == token + " " + extra;
    }
    assert BearerSpelling(scheme);
    SchemeAndTokenOfHeader("", ws, gaps);
  }

  lemma WordsOfExample()
    ensures IsWord("bearer") && IsWord("tok") && IsWord("extra")
  {
  }
}
