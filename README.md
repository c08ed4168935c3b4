# galaxy_controller gateway handlers, in Dafny

galaxy_controller is an HTTP/JSON gateway in front of a gRPC backend. The
backend manages users and sessions, access tokens, inventory items and
ledger entries. This project models the gateway's request handlers in
`api/`. Each handler:

- binds the request;
- runs the local checks (bearer header, ownership, username uniqueness);
- calls the backend one or more times;
- translates the backend's outcome into an HTTP status and body.

Each handler takes every backend RPC as a function parameter (`Req -> Reply<Resp>`). It returns a `Pb.Handled(resp, calls)`, where:

- `resp` is the JSON response written, or `Panicked` when the Go code would panic;
- `calls` is the exact sequence of RPC requests made.

"No call before validation", call order and "this field reaches the backend unchanged" are then stated directly against `calls`.

Files and modules:

- `wire.dfy` (`Wire`): the shared vocabulary.
  - `int32`, timestamps, gRPC codes.
  - A backend reply: `Ok`, a gRPC status error, an `*api_errors.APIError`, `sql.ErrNoRows` or another error.
  - `err.Error()` texts, bind results, HTTP responses.
  - The gRPC-status translation rule shared by user.go and token.go.
- `pb.dfy` (`Pb`): the backend messages the handlers use, and the `Call` trace entry.
- `strings.dfy` (`Strings`): `strings.Fields`, where white space is exactly `unicode.IsSpace` (the Latin-1 spaces and every other rune with the Unicode White_Space property). Also `strings.ToLower` restricted to ASCII, and the lemmas about both.
- `binding.dfy` (`Binding`):
  - binding an integer `:id` path segment under `binding:"required"` and `binding:"required,min=1"`;
  - decoding a JSON member that is missing, `null` or a value into a pointer field or a plain field.
- `midware.dfy` (`Midware`): `authMiddleware`.
  - A pure classification of the header and of the Authorize reply (`CheckHeader`, `Authenticate`).
  - A `GinContext` class, whose method `AuthMiddleware` stores the payload, calls `Next`, or appends the error response.
- `users.dfy` (`Users`): `Login`, `CreateUser`, `UpdateUser`, `GetUser`.
- `tokens.dfy` (`Tokens`): `RenewAccessToken`.
- `items.dfy` (`Items`): item create, get, list, update and delete.
  - `ListItems` is a method.
  - Its row copy fills a fresh array in a loop, proved against `MirrorsRows`.
- `entries.dfy` (`Entries`): entry create, get, and the three listings.
  - The listings share one array-filling loop, `CopyEntries`.

Each handler's error translation follows its own file:

- **midware.go, user.go and token.go** use `status.FromError`.
  - One gRPC code is singled out per backend call: NotFound, InvalidArgument or Unauthenticated. Login and CreateUser make two calls and so single out two codes: NotFound at the lookup and InvalidArgument at the session or create call.
  - Every other error is a 500.
  - Login answers its two singled-out codes with the generic "username or password is incorrect". Every other error body is the error's own text; a status error's text is `rpc error: code = <Code> desc = <desc>`.
- **item.go** compares with `sql.ErrNoRows` in Update and Delete (400, otherwise 500). Create, Get and List answer every error with 500.
- **entry.go** type-asserts every error to `*APIError`.
  - Another error type panics; this is modelled as the `Panicked` outcome, not as a precondition.
  - An existence check answers the APIError's 404 with 400, and any other code with 500.
  - Every other failure passes the APIError's code through as the HTTP status.

## Behaviour notes

- **Error text reaches the client.** Every unclassified backend failure is answered with the error's own `err.Error()` (or `apiErr.Err()`) text; nothing is replaced by a generic message.
- **An empty bearer value.** The middleware has an "access token is required" branch. `strings.Fields` never yields an empty field, so that branch cannot be reached (`TokenRequiredUnreachable`).
- **The middleware on failure.** It writes the error but never calls `ctx.Abort()`. The model states only that no payload is stored and `Next` is not called.
- **An APIError with code 200.** entry.go passes an APIError's code through as the status, so such an error would produce a 200 carrying an error body. Success of `CreateEntry` is therefore stated through the payload body, not through the status.

## Model

| member | source | states |
|---|---|---|
| Wire.TranslateStatus | api/user.go:276-286 | a failed call is answered with the endpoint's status when it is a gRPC status with the endpoint's code and with 500 otherwise, always with the error's text |
| Binding.BindUriId | api/entry.go:82-91 | the id binds exactly when it parsed, is non-zero and, under `min=1`, is at least 1; a bound id is the parsed value |
| Binding.IntoPointer | api/item.go:126-131 | a pointer field is set exactly when the JSON member was present with a value; absent and `null` both leave it nil |
| Binding.IntoValue | api/item.go:127 | a plain field takes the present value, and the zero value when the member is absent or `null` |
| Strings.Fields | api/midware.go:32 | every field is a non-empty run of non-space runes |
| Strings.FieldsEmptyIffAllSpace | api/midware.go:32-37 | a string has no fields exactly when it is all white space |
| Strings.FieldsOfSpread | api/midware.go:32 | blank-free words laid out with white space of any kind and length before, between (at least one rune) and after them split back into exactly those words |
| Strings.SpreadOfFields | api/midware.go:32 | every string is its leading white space followed by its fields, each followed by the white space skipped after it, with every gap but the last non-empty: the fields are the maximal non-space runs in order |
| Strings.ToLower | api/midware.go:39 | lower-casing keeps the length and folds each ASCII capital letter |
| Strings.BearerSchemeIff | api/midware.go:39-40 | a scheme lower-cases to "bearer" exactly when it spells "bearer" with each letter in either case |
| Midware.CheckHeader | api/midware.go:24-51 | empty header gives "required"; a token exactly when there are at least two fields and the first lower-cases to "bearer"; the token is the second field and non-empty; every other header is "invalid" |
| Midware.Authenticate | api/midware.go:22-76 | Authorize is called at most once, exactly when every header check passed, with the token; success exactly when it is Ok, with the payload copied from the reply; Unauthenticated gives 401 and any other error 500 with the error's text; local failures give 401 with their message |
| Midware.GinContext.AuthMiddleware | api/midware.go:22-79 | on success "auth_payload" is set to the payload and `Next` is called; on failure the keys and `Next` are untouched and exactly one error response is written |
| Midware.TokenRequiredUnreachable | api/midware.go:46-51 | the "access token is required" rejection is never produced |
| Midware.WhitespaceHeaderInvalid | api/midware.go:32-37 | a non-empty all-white-space header is "invalid" with 401 and no Authorize call |
| Midware.CheckHeaderOfFields | api/midware.go:32-46 | with at least two fields, the header is accepted exactly when the scheme spells "bearer" in any case, and the token is the second field |
| Midware.SchemeAndTokenOfHeader | api/midware.go:32-46 | for any header of two or more blank-free words separated and surrounded by any white space, the second word is the token when the first spells "bearer" in any case, and otherwise the header is "invalid" |
| Midware.SchemeLetterCase | api/midware.go:39-44 | "Bearer", "BEARER" and "bearer" followed by any white space and a token are accepted with that token; "Basic" is "invalid" |
| Midware.ExtraFieldsIgnored | api/midware.go:46-57 | "bearer tok extra" calls Authorize with exactly "tok" |
| Users.Login | api/user.go:39-109 | bind error gives 400 with no calls; lookup first; `CreateSession` only after a found user whose password checks, with that user's id, the client IP and user agent, and always after such a user; every 401 says "username or password is incorrect"; 200 exactly when the session is created, with user fields, access and refresh tokens and expiries copied; other lookup and session failures give 500 with the error's text |
| Users.LoginUnauthorizedIff | api/user.go:50-88 | 401 exactly when the name is unknown (NotFound), the password is wrong, or the session request is InvalidArgument; 500 exactly for every other lookup or session failure |
| Users.LoginDoesNotRevealUsernames | api/user.go:53-67 | unknown username and known username with wrong password give the identical response |
| Users.CreateUser | api/user.go:120-183 | an existing username gives 400 "username already exists" with no CreateUser call; any other failed lookup gives 500 with its text; after a NotFound lookup the CreateUser RPC is made exactly when the password hashes, with the hash and the other fields unchanged, and a failed hash gives 500; InvalidArgument from the RPC gives 400, other errors 500 |
| Users.UpdateUser | api/user.go:195-252 | a missing "auth_payload" panics; a caller whose user id differs from the request's id gets 403 before any call; for the owner the RPC is made exactly when no present password fails to hash, and a failed hash gives 500 with its text and no call; the RPC forwards every field unchanged except a present password, which is replaced by its hash; InvalidArgument gives 400, other errors 500 |
| Users.UpdateUserForwardsPresence | api/user.go:185-225 | for the owner, when any password hashes, the update is sent and each attribute reaches the backend exactly when its JSON member was present; present zero values and empty strings are forwarded as set; the password as its hash |
| Users.SendUpdate | api/user.go:217-251 | one UpdateUser call carrying every attribute of the (re-hashed) request unchanged; success returns the backend's user and a failure is answered by `TranslateStatus` with InvalidArgument as 400 |
| Users.GetUser | api/user.go:254-300 | bind error gives 400 with no calls; a missing "auth_payload" panics; the backend is asked only for the caller's own id; another id gives 403 before any call; NotFound gives 404, other errors 500; 200 carries the backend's user |
| Users.ForeignProfileForbidden | api/user.go:265-269 | subject 1 reading user 2 gets 403 and no call, whatever the backend holds |
| Users.NotFoundIsPerEndpoint | api/user.go:277-286 | the same NotFound reply is a 404 with its text when reading a profile and the generic 401 at login |
| Tokens.RenewAccessToken | api/token.go:22-51 | bind error exactly when no call, with 400; the RPC gets exactly the supplied refresh token; Unauthenticated gives 401, any other status or non-status error 500, with the error's text; success gives 200 with the new access token and its expiry |
| Tokens.RenewUnauthorizedIff | api/token.go:34-45 | the renewal is a 401 exactly when the backend answered Unauthenticated |
| Items.CreateItem | api/item.go:24-50 | name, quantity and price are forwarded unchanged; any error gives 500 with its text; success returns the backend item's fields |
| Items.GetItem | api/item.go:52-80 | an id that does not bind or is below 1 gives 400 with the binding error's text and no call; otherwise one call with that id; any error gives 500; success returns the backend item |
| Items.GetItemReturnsBackendItem | api/item.go:63-79 | reading item 1 answers 200 with exactly the backend's (1, "widget", 5, 100) |
| Items.CopyItems | api/item.go:109-118 | the array filled by the loop mirrors the rows: same length, same order, field for field |
| Items.ListItems | api/item.go:91-124 | offset and limit are forwarded unchanged; any error gives 500; success gives 200 with the rows mirrored in order |
| Items.UpdateItem | api/item.go:126-164 | A bind error gives 400 with no call; otherwise one call carries the decoded id and the name, quantity and price exactly as present or absent, success returns the backend item, `sql.ErrNoRows` gives 400 and any other error gives 500, each with the error's text. |
| Items.UpdateItemForwardsPresence | api/item.go:126-145 | name, quantity and price reach the backend exactly when present in the JSON, with their values unchanged |
| Items.UpdateItemNullIsUnset | api/item.go:140-145 | `{"id":1,"name":"widget2","quantity":null}` sends the name as set and quantity and price as absent, not 0 |
| Items.DeleteItem | api/item.go:166-192 | An id that does not bind or is below 1 gives 400 with the binding error's text and no call; otherwise one call carries the id, success gives 200 with a null body, `sql.ErrNoRows` gives 400 and any other error gives 500, each with the error's text. |
| Items.AnyFailure | api/item.go:38-41 | every failed call is answered with 500 and the error's text |
| Items.NoRowsFailure | api/item.go:148-155 | a failed call is answered with 400 exactly when it is `sql.ErrNoRows` and with 500 otherwise, always with the error's text |
| Entries.CheckFailure | api/entry.go:36-43 | a failed existence check answers only APIErrors (anything else panics): 400 exactly when the code is 404, otherwise 500, with the error's text |
| Entries.PassThrough | api/entry.go:65-68 | an APIError's code becomes the HTTP status and its text the message; any other error panics |
| Entries.CreateEntry | api/entry.go:28-80 | GetUser first; GetItem only after GetUser succeeded; CreateEntry only after both, with user id, item id, quantity and total unchanged; check failures answered by `CheckFailure`, creation failures by `PassThrough`; a payload exactly when all three succeed |
| Entries.CreateEntryMissingReference | api/entry.go:35-55 | a user or item that is not found (404) gives 400 with its text and no entry is created |
| Entries.CreateEntryPanicsOnForeignError | api/entry.go:35-37 | a gRPC status error from the user check is not an APIError and the handler panics |
| Entries.GetEntry | api/entry.go:82-109 | an id that does not bind or is below 1 gives 400 with the binding error's text and no call; errors are passed through; success returns the backend entry |
| Entries.CopyEntries | api/entry.go:139-150 | the array filled by the loop mirrors the rows: same length, same order, field for field |
| Entries.Listing | api/entry.go:132-154 | on success 200 with the rows mirrored in order; errors passed through |
| Entries.ListEntries | api/entry.go:120-155 | offset and limit are forwarded unchanged; the reply is the listing of the backend's answer |
| Entries.ListEntriesByUser | api/entry.go:163-199 | user id, offset and limit are forwarded unchanged; the reply is the listing of the backend's answer |
| Entries.ListEntriesByItem | api/entry.go:207-243 | item id, offset and limit are forwarded unchanged; the reply is the listing of the backend's answer |

## Left out

- I/O: reading the header, the JSON body and the path, and writing the response. Requests arrive already bound as `Bind<T>` or `UriParam`; responses are values.
- gin's JSON decoder and validator messages. A bind failure is abstract text. Only the `:id` rules are modelled, and the validator's message for them is approximated by `ValidationText`.
- `ctx.ClientIP()`, the user agent and `AsTime()`. These are parameters, or timestamps copied unchanged.
- `util.HashPassword` and `util.CheckPassword` (bcrypt, not part of this model). They are function parameters.
- `ctx.MustGet(...).(*AuthPayload)` with a value of another type stored under the key. The key map only holds payloads, and only a missing key is modelled, as a panic.
- Whether `*api_errors.APIError` implements `GRPCStatus()`. That package is not part of this model; an APIError is treated as not being a gRPC status. If it were one, `status.FromError` in user.go and token.go would classify it by its own code. api/user_test.go:245-257 points the other way: it answers GetUserByUsername with `NewAPIError(404, …)` and expects CreateUser to succeed, which only holds if the APIError reports itself as a NotFound status. Under this model that lookup failure is answered with 500.
- nil protobuf messages inside a successful reply. The nil-safe getters are not modelled; a successful reply always carries its message.
- `strings.ToLower` beyond ASCII. This does not change which schemes equal "bearer": no non-ASCII rune lower-cases to one of its letters.
- Raw header bytes: the header is taken as already-decoded runes, so it is assumed to be valid UTF-8 (Go decodes an invalid byte to U+FFFD, which is never white space).
- Route registration in api/server.go, the handler chain after `Next` (including the missing `Abort`), request cancellation and concurrency.
- Generated protobuf code, configuration loading and process startup.
