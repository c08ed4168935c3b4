/** The user handlers (api/user.go): login, sign-up, profile update and
    profile lookup, each an early-return chain over backend replies. */
module Users {
  import opened Wire
  import Pb
  import opened Binding
  import opened Midware

  const IncorrectLogin := "username or password is incorrect"
  const UsernameExists := "username already exists"
  const NotAllowed := "you are not allowed to access this resource"

  /** The public user profile. */
  datatype User = User(
    id: int32, username: string, fullname: string, email: string, plan: int32,
    createdAt: Timestamp, expiredAt: Timestamp, autoRenew: bool)

  function UserOf(u: Pb.User): User {
    User(u.id, u.username, u.fullname, u.email, u.plan, u.createdAt, u.expiredAt, u.autoRenew)
  }

  /** What `util.HashPassword` returns: a hash, or an error's text. */
  datatype Hashed = Hashed(hash: string) | HashFailed(text: string)

  // ---- Login

  datatype LoginRequest = LoginRequest(username: string, password: string)

  datatype LoginResponse = LoginResponse(
    user: User, accessToken: string, accessExpiredAt: Timestamp,
    refreshToken: string, refreshExpiredAt: Timestamp)

  /** `Login`: look the user up by name, check the password against the
      stored hash (`checkPassword(plain, hash)` is `util.CheckPassword`
      succeeding), then open a session for the client's address and user
      agent. An unknown name, a wrong password and a session request the
      backend calls invalid all give the same 401 and message. */
  function Login(
    bind: Bind<LoginRequest>, clientIp: string, userAgent: string,
    getUserByUsername: Pb.GetUserByUsernameRequest -> Reply<Pb.GetUserResponse>,
    checkPassword: (string, string) -> bool,
    createSession: Pb.CreateSessionRequest -> Reply<Pb.CreateSessionResponse>
  ): (h: Pb.Handled<LoginResponse>)
    ensures h.resp.Json?
    ensures bind.BindErr? ==> h == Pb.Handled(Fail(StatusBadRequest, bind.text), [])
    ensures bind.BindOk? ==>
      1 <= |h.calls| <= 2 &&
      h.calls[0] == Pb.GetUserByUsername(Pb.GetUserByUsernameRequest(bind.req.username))
    ensures |h.calls| == 2 ==>
      var found := getUserByUsername(h.calls[0].byNameReq);
      && found.Ok?
      && checkPassword(bind.req.password, found.value.password)
      && h.calls[1] == Pb.CreateSession(Pb.CreateSessionRequest(found.value.user.id, clientIp, userAgent))
    ensures h.resp.status == StatusUnauthorized ==> h.resp.body == Error(IncorrectLogin)
    ensures h.resp.status == StatusOK <==> |h.calls| == 2 && createSession(h.calls[1].sessionReq).Ok?
    ensures h.resp.status == StatusOK ==>
      var user := getUserByUsername(h.calls[0].byNameReq).value.user;
      var result := createSession(h.calls[1].sessionReq).value;
      h.resp.body == Payload(LoginResponse(
        UserOf(user), result.accessToken, result.expiredAt,
        result.session.refreshToken, result.session.expiredAt))
    ensures bind.BindOk? ==>
      var lookup := getUserByUsername(Pb.GetUserByUsernameRequest(bind.req.username));
      && (!lookup.Ok? && !IsStatus(lookup, NotFound) ==> h.resp == Fail(StatusInternalServerError, ErrorText(lookup)))
      && (lookup.Ok? && checkPassword(bind.req.password, lookup.value.password) ==>
            var session := createSession(Pb.CreateSessionRequest(lookup.value.user.id, clientIp, userAgent));
            && |h.calls| == 2
            && (!session.Ok? && !IsStatus(session, InvalidArgument) ==>
                  h.resp == Fail(StatusInternalServerError, ErrorText(session))))
    ensures h.resp.status in {StatusOK, StatusBadRequest, StatusUnauthorized, StatusInternalServerError}
  {
    match bind
    case BindErr(t) => Pb.Handled(Fail(StatusBadRequest, t), [])
    case BindOk(req) =>
      var lookupReq := Pb.GetUserByUsernameRequest(req.username);
      var lookup := getUserByUsername(lookupReq);
      var lookedUp := [Pb.GetUserByUsername(lookupReq)];
      if !lookup.Ok? then
        var resp := if IsStatus(lookup, NotFound) then Fail(StatusUnauthorized, IncorrectLogin)
                    else Fail(StatusInternalServerError, ErrorText(lookup));
        Pb.Handled(resp, lookedUp)
      else if !checkPassword(req.password, lookup.value.password) then
        Pb.Handled(Fail(StatusUnauthorized, IncorrectLogin), lookedUp)
      else
        var sessionReq := Pb.CreateSessionRequest(lookup.value.user.id, clientIp, userAgent);
        var session := createSession(sessionReq);
        var calls := lookedUp + [Pb.CreateSession(sessionReq)];
        if !session.Ok? then
          var resp := if IsStatus(session, InvalidArgument) then Fail(StatusUnauthorized, IncorrectLogin)
                      else Fail(StatusInternalServerError, ErrorText(session));
          Pb.Handled(resp, calls)
        else
          var user := lookup.value.user;
          var result := session.value;
          var res := LoginResponse(
            UserOf(user), result.accessToken, result.expiredAt,
            result.session.refreshToken, result.session.expiredAt);
          Pb.Handled(Json(StatusOK, Payload(res)), calls)
  }

  /** The login is refused with 401 exactly when the name is unknown, the
      password does not match, or the backend calls the session request
      invalid; any other failure is a 500. */
  lemma LoginUnauthorizedIff(
    req: LoginRequest, clientIp: string, userAgent: string,
    getUserByUsername: Pb.GetUserByUsernameRequest -> Reply<Pb.GetUserResponse>,
    checkPassword: (string, string) -> bool,
    createSession: Pb.CreateSessionRequest -> Reply<Pb.CreateSessionResponse>)
    ensures
      var h := Login(BindOk(req), clientIp, userAgent, getUserByUsername, checkPassword, createSession);
      var found := getUserByUsername(Pb.GetUserByUsernameRequest(req.username));
      var session := if found.Ok? then createSession(Pb.CreateSessionRequest(found.value.user.id, clientIp, userAgent))
                     else NoRows;
      && (h.resp == Fail(StatusUnauthorized, IncorrectLogin) <==>
          || IsStatus(found, NotFound)
          || (found.Ok? && !checkPassword(req.password, found.value.password))
          || (found.Ok? && checkPassword(req.password, found.value.password) && IsStatus(session, InvalidArgument)))
      && (h.resp.status == StatusInternalServerError <==>
          || (!found.Ok? && !IsStatus(found, NotFound))
          || (found.Ok? && checkPassword(req.password, found.value.password) &&
              !session.Ok? && !IsStatus(session, InvalidArgument)))
  {
  }

  /** No user enumeration: a name the backend does not know and a known name
      with a wrong password get byte-identical responses. */
  lemma LoginDoesNotRevealUsernames(
    req: LoginRequest, clientIp: string, userAgent: string,
    unknownName: Pb.GetUserByUsernameRequest -> Reply<Pb.GetUserResponse>,
    knownName: Pb.GetUserByUsernameRequest -> Reply<Pb.GetUserResponse>,
    checkPassword: (string, string) -> bool,
    createSession: Pb.CreateSessionRequest -> Reply<Pb.CreateSessionResponse>)
    requires IsStatus(unknownName(Pb.GetUserByUsernameRequest(req.username)), NotFound)
    requires var found := knownName(Pb.GetUserByUsernameRequest(req.username));
      found.Ok? && !checkPassword(req.password, found.value.password)
    ensures
      var notFound := Login(BindOk(req), clientIp, userAgent, unknownName, checkPassword, createSession);
      var wrongPassword := Login(BindOk(req), clientIp, userAgent, knownName, checkPassword, createSession);
      notFound.resp == wrongPassword.resp == Fail(StatusUnauthorized, IncorrectLogin)
  {
  }

  // ---- CreateUser

  datatype CreateUserRequest = CreateUserRequest(
    username: string, fullname: string, email: string, password: string,
    plan: int32, autoRenew: bool)

  /** `CreateUser`: refuse a name that already exists, hash the password,
      then create the user. */
  function CreateUser(
    bind: Bind<CreateUserRequest>,
    getUserByUsername: Pb.GetUserByUsernameRequest -> Reply<Pb.GetUserResponse>,
    hashPassword: string -> Hashed,
    createUser: Pb.CreateUserRequest -> Reply<Pb.CreateUserResponse>
  ): (h: Pb.Handled<User>)
    ensures h.resp.Json?
    ensures bind.BindErr? ==> h == Pb.Handled(Fail(StatusBadRequest, bind.text), [])
    ensures bind.BindOk? ==>
      1 <= |h.calls| <= 2 &&
      h.calls[0] == Pb.GetUserByUsername(Pb.GetUserByUsernameRequest(bind.req.username))
    ensures bind.BindOk? && getUserByUsername(Pb.GetUserByUsernameRequest(bind.req.username)).Ok? ==>
      h.resp == Fail(StatusBadRequest, UsernameExists) && |h.calls| == 1
    ensures |h.calls| == 2 ==>
      var req := bind.req;
      && IsStatus(getUserByUsername(h.calls[0].byNameReq), NotFound)
      && hashPassword(req.password).Hashed?
      && h.calls[1] == Pb.CreateUser(Pb.CreateUserRequest(
           req.username, req.fullname, req.email, hashPassword(req.password).hash,
           req.plan, req.autoRenew))
    ensures h.resp.status == StatusOK <==> |h.calls| == 2 && createUser(h.calls[1].createUserReq).Ok?
    ensures h.resp.status == StatusOK ==>
      h.resp.body == Payload(UserOf(createUser(h.calls[1].createUserReq).value.user))
    ensures |h.calls| == 2 && !createUser(h.calls[1].createUserReq).Ok? ==>
      h.resp == TranslateStatus(createUser(h.calls[1].createUserReq), InvalidArgument, StatusBadRequest)
    ensures bind.BindOk? ==>
      var lookup := getUserByUsername(Pb.GetUserByUsernameRequest(bind.req.username));
      var hashed := hashPassword(bind.req.password);
      && (!lookup.Ok? && !IsStatus(lookup, NotFound) ==>
            h == Pb.Handled(Fail(StatusInternalServerError, ErrorText(lookup)),
                            [Pb.GetUserByUsername(Pb.GetUserByUsernameRequest(bind.req.username))]))
      && (IsStatus(lookup, NotFound) ==> (|h.calls| == 2 <==> hashed.Hashed?))
      && (IsStatus(lookup, NotFound) && hashed.HashFailed? ==>
            h.resp == Fail(StatusInternalServerError, hashed.text))
  {
    match bind
    case BindErr(t) => Pb.Handled(Fail(StatusBadRequest, t), [])
    case BindOk(req) =>
      var lookupReq := Pb.GetUserByUsernameRequest(req.username);
      var lookup := getUserByUsername(lookupReq);
      var lookedUp := [Pb.GetUserByUsername(lookupReq)];
      if lookup.Ok? then Pb.Handled(Fail(StatusBadRequest, UsernameExists), lookedUp)
      else if !IsStatus(lookup, NotFound) then
        Pb.Handled(Fail(StatusInternalServerError, ErrorText(lookup)), lookedUp)
      else
        match hashPassword(req.password)
        case HashFailed(t) => Pb.Handled(Fail(StatusInternalServerError, t), lookedUp)
        case Hashed(hashedPassword) =>
          var grpcReq := Pb.CreateUserRequest(
            req.username, req.fullname, req.email, hashedPassword, req.plan, req.autoRenew);
          var result := createUser(grpcReq);
          var calls := lookedUp + [Pb.CreateUser(grpcReq)];
          if !result.Ok? then Pb.Handled(TranslateStatus(result, InvalidArgument, StatusBadRequest), calls)
          else Pb.Handled(Json(StatusOK, Payload(UserOf(result.value.user))), calls)
  }

  // ---- UpdateUser

  /** The JSON body of an update: the id and one optional member per
      mutable attribute. */
  datatype UpdateUserJson = UpdateUserJson(
    id: JsonField<int32>, username: JsonField<string>, fullname: JsonField<string>,
    email: JsonField<string>, password: JsonField<string>, plan: JsonField<int32>,
    autoRenew: JsonField<bool>)

  /** The bound request: a nil pointer (None) is an attribute left out. */
  datatype UpdateUserRequest = UpdateUserRequest(
    id: int32, username: Option<string>, fullname: Option<string>,
    email: Option<string>, password: Option<string>, plan: Option<int32>,
    autoRenew: Option<bool>)

  function DecodeUpdateUser(j: UpdateUserJson): UpdateUserRequest {
    UpdateUserRequest(
      IntoValue(j.id, 0), IntoPointer(j.username), IntoPointer(j.fullname),
      IntoPointer(j.email), IntoPointer(j.password), IntoPointer(j.plan),
      IntoPointer(j.autoRenew))
  }

  /** The RPC request carries every attribute of `req` as it was, except that
      a present password is replaced by its hash. */
  predicate ForwardsUpdate(req: UpdateUserRequest, hashPassword: string -> Hashed, u: Pb.UpdateUserRequest) {
    && u.id == req.id
    && u.username == req.username && u.fullname == req.fullname && u.email == req.email
    && u.plan == req.plan && u.autoRenew == req.autoRenew
    && (req.password.None? ==> u.password.None?)
    && (req.password.Some? ==>
          hashPassword(req.password.value).Hashed? &&
          u.password == Some(hashPassword(req.password.value).hash))
  }

  /** `UpdateUser`, to be run behind the middleware: only the caller's own
      profile may be changed, and that is checked before any call. */
  function UpdateUser(
    bind: Bind<UpdateUserJson>, keys: map<string, AuthPayload>,
    hashPassword: string -> Hashed,
    updateUser: Pb.UpdateUserRequest -> Reply<Pb.UpdateUserResponse>
  ): (h: Pb.Handled<User>)
    ensures |h.calls| <= 1
    ensures bind.BindErr? ==> h == Pb.Handled(Fail(StatusBadRequest, bind.text), [])
    ensures bind.BindOk? && AuthPayloadKey !in keys ==> h == Pb.Handled(Panicked, [])
    ensures bind.BindOk? && AuthPayloadKey in keys && keys[AuthPayloadKey].userId != DecodeUpdateUser(bind.req).id ==>
      h == Pb.Handled(Fail(StatusForbidden, NotAllowed), [])
    ensures |h.calls| == 1 ==>
      && bind.BindOk? && AuthPayloadKey in keys
      && keys[AuthPayloadKey].userId == DecodeUpdateUser(bind.req).id
      && h.calls[0].UpdateUser?
      && ForwardsUpdate(DecodeUpdateUser(bind.req), hashPassword, h.calls[0].updateUserReq)
    ensures h.resp.Json? && h.resp.status == StatusOK <==> |h.calls| == 1 && updateUser(h.calls[0].updateUserReq).Ok?
    ensures h.resp.Json? && h.resp.status == StatusOK ==>
      h.resp.body == Payload(UserOf(updateUser(h.calls[0].updateUserReq).value.user))
    ensures |h.calls| == 1 && !updateUser(h.calls[0].updateUserReq).Ok? ==>
      h.resp == TranslateStatus(updateUser(h.calls[0].updateUserReq), InvalidArgument, StatusBadRequest)
    ensures bind.BindOk? && AuthPayloadKey in keys && keys[AuthPayloadKey].userId == DecodeUpdateUser(bind.req).id ==>
      var password := DecodeUpdateUser(bind.req).password;
      var hashFailed := password.Some? && hashPassword(password.value).HashFailed?;
      && (|h.calls| == 1 <==> !hashFailed)
      && (hashFailed ==> h == Pb.Handled(Fail(StatusInternalServerError, hashPassword(password.value).text), []))
  {
    match bind
    case BindErr(t) => Pb.Handled(Fail(StatusBadRequest, t), [])
    case BindOk(j) =>
      var req := DecodeUpdateUser(j);
      if AuthPayloadKey !in keys then Pb.Handled(Panicked, [])
      else if keys[AuthPayloadKey].userId != req.id then Pb.Handled(Fail(StatusForbidden, NotAllowed), [])
      else if req.password.Some? then
        match hashPassword(req.password.value)
        case HashFailed(t) => Pb.Handled(Fail(StatusInternalServerError, t), [])
        case Hashed(hashedPassword) =>
          // the handler overwrites req.Password with the hash in place
          SendUpdate(req.(password := Some(hashedPassword)), updateUser)
      else SendUpdate(req, updateUser)
  }

  /** The tail of `UpdateUser`: build the RPC request from the (possibly
      re-hashed) request, call the backend and translate its reply. */
  function SendUpdate(req: UpdateUserRequest, updateUser: Pb.UpdateUserRequest -> Reply<Pb.UpdateUserResponse>): (h: Pb.Handled<User>)
    ensures |h.calls| == 1 && h.calls[0].UpdateUser?
    ensures var u := h.calls[0].updateUserReq;
      && u.id == req.id && u.username == req.username && u.fullname == req.fullname
      && u.email == req.email && u.password == req.password && u.plan == req.plan
      && u.autoRenew == req.autoRenew
    ensures var result := updateUser(h.calls[0].updateUserReq);
      && (result.Ok? ==> h.resp == Json(StatusOK, Payload(UserOf(result.value.user))))
      && (!result.Ok? ==> h.resp == TranslateStatus(result, InvalidArgument, StatusBadRequest))
  {
    var grpcReq := Pb.UpdateUserRequest(
      req.id, req.username, req.fullname, req.email, req.password, req.plan, req.autoRenew);
    var result := updateUser(grpcReq);
    var calls := [Pb.UpdateUser(grpcReq)];
    if !result.Ok? then Pb.Handled(TranslateStatus(result, InvalidArgument, StatusBadRequest), calls)
    else Pb.Handled(Json(StatusOK, Payload(UserOf(result.value.user))), calls)
  }

  /** Partial update, from JSON to the RPC: for the caller's own profile,
      when any new password hashes, the update is sent, and an attribute
      reaches the backend exactly when its member was present with a value
      (an absent member and a `null` are both "leave untouched"); a present
      zero value is forwarded as set. */
  lemma UpdateUserForwardsPresence(
    j: UpdateUserJson, keys: map<string, AuthPayload>,
    hashPassword: string -> Hashed,
    updateUser: Pb.UpdateUserRequest -> Reply<Pb.UpdateUserResponse>)
    requires AuthPayloadKey in keys && keys[AuthPayloadKey].userId == IntoValue(j.id, 0)
    requires j.password.Present? ==> hashPassword(j.password.value).Hashed?
    ensures |UpdateUser(BindOk(j), keys, hashPassword, updateUser).calls| == 1
    ensures var u := UpdateUser(BindOk(j), keys, hashPassword, updateUser).calls[0].updateUserReq;
      && (u.username.Some? <==> j.username.Present?)
      && (u.fullname.Some? <==> j.fullname.Present?)
      && (u.email.Some? <==> j.email.Present?)
      && (u.password.Some? <==> j.password.Present?)
      && (u.plan.Some? <==> j.plan.Present?)
      && (u.autoRenew.Some? <==> j.autoRenew.Present?)
      && (j.plan == Present(0) ==> u.plan == Some(0))
      && (j.username == Present("") ==> u.username == Some(""))
      && (j.password.Present? ==> u.password == Some(hashPassword(j.password.value).hash))
  {
  }

  // ---- GetUser

  /** `GetUser`, to be run behind the middleware: only the caller's own
      profile may be read, and that is checked before any call. */
  function GetUser(
    uri: UriParam, keys: map<string, AuthPayload>,
    getUser: Pb.GetUserRequest -> Reply<Pb.GetUserResponse>
  ): (h: Pb.Handled<User>)
    ensures |h.calls| <= 1
    ensures BindUriId(uri, "GetUserRequest", Required).BindErr? ==>
      h == Pb.Handled(Fail(StatusBadRequest, BindUriId(uri, "GetUserRequest", Required).text), [])
    ensures |h.calls| == 1 ==>
      && uri.Parsed? && uri.value != 0
      && AuthPayloadKey in keys && keys[AuthPayloadKey].userId == uri.value
      && h.calls[0] == Pb.GetUser(Pb.GetUserRequest(uri.value))
    ensures BindUriId(uri, "GetUserRequest", Required).BindOk? && AuthPayloadKey !in keys ==>
      h == Pb.Handled(Panicked, [])
    ensures BindUriId(uri, "GetUserRequest", Required).BindOk? && AuthPayloadKey in keys ==>
      (|h.calls| == 1 <==> keys[AuthPayloadKey].userId == uri.value)
    ensures h.resp == Fail(StatusForbidden, NotAllowed) <==>
      && uri.Parsed? && uri.value != 0
      && AuthPayloadKey in keys && keys[AuthPayloadKey].userId != uri.value
    ensures h.resp.Json? && h.resp.status == StatusOK <==> |h.calls| == 1 && getUser(h.calls[0].getUserReq).Ok?
    ensures h.resp.Json? && h.resp.status == StatusOK ==>
      h.resp.body == Payload(UserOf(getUser(h.calls[0].getUserReq).value.user))
    ensures |h.calls| == 1 && !getUser(h.calls[0].getUserReq).Ok? ==>
      h.resp == TranslateStatus(getUser(h.calls[0].getUserReq), NotFound, StatusNotFound)
  {
    match BindUriId(uri, "GetUserRequest", Required)
    case BindErr(t) => Pb.Handled(Fail(StatusBadRequest, t), [])
    case BindOk(id) =>
      if AuthPayloadKey !in keys then Pb.Handled(Panicked, [])
      else if keys[AuthPayloadKey].userId != id then Pb.Handled(Fail(StatusForbidden, NotAllowed), [])
      else
        var grpcReq := Pb.GetUserRequest(id);
        var result := getUser(grpcReq);
        var calls := [Pb.GetUser(grpcReq)];
        if !result.Ok? then Pb.Handled(TranslateStatus(result, NotFound, StatusNotFound), calls)
        else Pb.Handled(Json(StatusOK, Payload(UserOf(result.value.user))), calls)
  }

  /** Subject 1 reading the profile of user 2 is refused with 403 before
      the backend is asked, whether or not user 2 exists. */
  lemma ForeignProfileForbidden(
    caller: AuthPayload, getUser: Pb.GetUserRequest -> Reply<Pb.GetUserResponse>)
    requires caller.userId == 1
    ensures GetUser(Parsed(2), map[AuthPayloadKey := caller], getUser) ==
      Pb.Handled(Fail(StatusForbidden, NotAllowed), [])
  {
  }

  /** The translation of NotFound is per endpoint: the same backend reply is
      a 404 carrying the backend's text when the caller reads a profile, and
      the generic 401 when it answers a login's lookup. */
  lemma NotFoundIsPerEndpoint(
    caller: AuthPayload, username: string, password: string, desc: string,
    clientIp: string, userAgent: string,
    checkPassword: (string, string) -> bool,
    createSession: Pb.CreateSessionRequest -> Reply<Pb.CreateSessionResponse>)
    requires caller.userId != 0
    ensures
      var missing: Reply<Pb.GetUserResponse> := StatusErr(NotFound, desc);
      && GetUser(Parsed(caller.userId), map[AuthPayloadKey := caller], _ => missing).resp ==
           Fail(StatusNotFound, ErrorText(missing))
      && Login(BindOk(LoginRequest(username, password)), clientIp, userAgent, _ => missing, checkPassword, createSession).resp ==
           Fail(StatusUnauthorized, IncorrectLogin)
  {
  }
}
