/** Values shared by every handler: fixed-width integers, timestamps, gRPC
    status codes, what a backend call can return, what gin's binding step can
    return, and the JSON response a handler writes. */
module Wire {

  /** Go's int32, the type of every id, quantity, price and plan field. */
  newtype int32 = x: int | -0x8000_0000 <= x < 0x8000_0000

  datatype Option<T> = None | Some(value: T)

  /** A protobuf timestamp; `AsTime` is treated as the identity on it. */
  datatype Timestamp = Timestamp(seconds: int, nanos: int)

  /** The gRPC status codes (google.golang.org/grpc/codes) other than OK: a
      status error never carries code OK. */
  datatype Code =
    | Canceled | Unknown | InvalidArgument | DeadlineExceeded | NotFound
    | AlreadyExists | PermissionDenied | ResourceExhausted | FailedPrecondition
    | Aborted | OutOfRange | Unimplemented | Internal | Unavailable | DataLoss
    | Unauthenticated

  /** `codes.Code.String()`. */
  function CodeName(c: Code): string {
    match c
    case Canceled => "Canceled"
    case Unknown => "Unknown"
    case InvalidArgument => "InvalidArgument"
    case DeadlineExceeded => "DeadlineExceeded"
    case NotFound => "NotFound"
    case AlreadyExists => "AlreadyExists"
    case PermissionDenied => "PermissionDenied"
    case ResourceExhausted => "ResourceExhausted"
    case FailedPrecondition => "FailedPrecondition"
    case Aborted => "Aborted"
    case OutOfRange => "OutOfRange"
    case Unimplemented => "Unimplemented"
    case Internal => "Internal"
    case Unavailable => "Unavailable"
    case DataLoss => "DataLoss"
    case Unauthenticated => "Unauthenticated"
  }

  /** What one backend call returned: its response, or a non-nil error of one
      of the dynamic types the handlers tell apart. */
  datatype Reply<T> =
    | Ok(value: T)
      /** an error produced by `status.Error` (status.FromError succeeds) */
    | StatusErr(code: Code, desc: string)
      /** an `*api_errors.APIError`; `text` is its Error() string */
    | ApiErr(httpCode: int, text: string)
      /** the sentinel `sql.ErrNoRows` */
    | NoRows
      /** any other error value; `text` is its Error() string */
    | OtherErr(text: string)

  const NoRowsText := "sql: no rows in result set"

  /** `err.Error()` for an error reply. For a status error this is also what
      `apiErr.Err().Error()` gives after `status.FromError`. */
  function ErrorText<T>(r: Reply<T>): string
    requires !r.Ok?
  {
    match r
    case StatusErr(c, d) => "rpc error: code = " + CodeName(c) + " desc = " + d
    case ApiErr(_, t) => t
    case NoRows => NoRowsText
    case OtherErr(t) => t
  }

  /** The reply is a gRPC status error with code `c`. */
  predicate IsStatus<T>(r: Reply<T>, c: Code) {
    r.StatusErr? && r.code == c
  }

  /** The outcome of gin's `ShouldBindJSON` / `ShouldBindUri`: the decoded
      request, or the binding/validation error's text. */
  datatype Bind<T> = BindOk(req: T) | BindErr(text: string)

  const StatusOK := 200
  const StatusBadRequest := 400
  const StatusUnauthorized := 401
  const StatusForbidden := 403
  const StatusNotFound := 404
  const StatusInternalServerError := 500

  /** A JSON body: the handler's payload, `errorResponse(err)` (which is
      `{"error": err.Error()}`), or JSON `null`. */
  datatype Body<P> = Payload(value: P) | Error(message: string) | Null

  /** What a handler leaves behind: one `ctx.JSON(status, body)`, or a Go
      runtime panic (a failed type assertion, `MustGet` on a missing key). */
  datatype Response<P> = Json(status: int, body: Body<P>) | Panicked

  /** `ctx.JSON(status, errorResponse(errors.New(message)))`. */
  function Fail<P>(status: int, message: string): Response<P> {
    Json(status, Error(message))
  }

  /** The translation the gRPC-status handlers apply to a failed call: a
      status error with code `code` is answered with `status`, every other
      error with 500; the body carries the error's own text. */
  function TranslateStatus<P, T>(reply: Reply<T>, code: Code, status: int): (r: Response<P>)
    requires !reply.Ok?
    ensures r.Json? && r.body == Error(ErrorText(reply))
    ensures IsStatus(reply, code) ==> r.status == status
    ensures !IsStatus(reply, code) ==> r.status == StatusInternalServerError
  {
    if IsStatus(reply, code) then Fail(status, ErrorText(reply))
    else Fail(StatusInternalServerError, ErrorText(reply))
  }
}
