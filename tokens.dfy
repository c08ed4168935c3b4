/** The access-token renewal handler (api/token.go). */
module Tokens {
  import opened Wire
  import Pb

  datatype RenewAccessTokenRequest = RenewAccessTokenRequest(refreshToken: string)
  datatype RenewAccessTokenResponse = RenewAccessTokenResponse(accessToken: string, accessExpiredAt: Timestamp)

  /** `RenewAccessToken`: exchange the supplied refresh token for a new
      access token. */
  function RenewAccessToken(
    bind: Bind<RenewAccessTokenRequest>,
    renew: Pb.RenewAccessTokenRequest -> Reply<Pb.RenewAccessTokenResponse>
  ): (h: Pb.Handled<RenewAccessTokenResponse>)
    ensures h.resp.Json?
    ensures bind.BindErr? <==> h.calls == []
    ensures bind.BindErr? ==> h.resp == Fail(StatusBadRequest, bind.text)
    ensures bind.BindOk? ==>
      var grpcReq := Pb.RenewAccessTokenRequest(bind.req.refreshToken);
      var result := renew(grpcReq);
      && h.calls == [Pb.RenewAccessToken(grpcReq)]
      && (result.Ok? ==>
            h.resp == Json(StatusOK, Payload(RenewAccessTokenResponse(result.value.accessToken, result.value.expiredAt))))
      && (result.StatusErr? ==>
            h.resp.status == if result.code == Unauthenticated then StatusUnauthorized else StatusInternalServerError)
      && (!result.Ok? ==> h.resp.body == Error(ErrorText(result)))
      && (!result.Ok? && !result.StatusErr? ==> h.resp.status == StatusInternalServerError)
  {
    match bind
    case BindErr(t) => Pb.Handled(Fail(StatusBadRequest, t), [])
    case BindOk(req) =>
      var grpcReq := Pb.RenewAccessTokenRequest(req.refreshToken);
      var result := renew(grpcReq);
      var calls := [Pb.RenewAccessToken(grpcReq)];
      if !result.Ok? then Pb.Handled(TranslateStatus(result, Unauthenticated, StatusUnauthorized), calls)
      else
        var res := RenewAccessTokenResponse(result.value.accessToken, result.value.expiredAt);
        Pb.Handled(Json(StatusOK, Payload(res)), calls)
  }

  /** Of all backend failures, only an Unauthenticated status makes the
      renewal a 401. */
  lemma RenewUnauthorizedIff(
    req: RenewAccessTokenRequest,
    renew: Pb.RenewAccessTokenRequest -> Reply<Pb.RenewAccessTokenResponse>)
    ensures RenewAccessToken(BindOk(req), renew).resp.status == StatusUnauthorized <==>
      IsStatus(renew(Pb.RenewAccessTokenRequest(req.refreshToken)), Unauthenticated)
  {
  }
}
