/**
 The gRPC handlers of the authentication API: `Register`, `Login`, `IsAdmin`.

 Each handler validates its request in a fixed order, answers
 `InvalidArgument` without touching the service when a check fails, and
 otherwise calls the service once, collapsing any error it returns to
 `Internal`. The service and the email/alphanumeric validators are
 collaborators given as function-typed fields. Each answer carries the list
 of service calls the handler made.
 */
module GrpcAuth {
  import opened Errors

  /** The zero value a request field holds when the client left it unset. */
  const EmptyValue := 0

  const InvalidEmailMessage := "invalid email"
  const InvalidPasswordMessage := "invalid password"
  const InvalidAppIDMessage := "invalid app id"
  const InvalidUserIDMessage := "invalid user id"
  const RegisterInternalMessage := "internal server error"
  const InternalMessage := "Internal server error"

  /** The gRPC status codes the handlers produce. */
  datatype Code = InvalidArgument | Internal

  datatype Status = Status(code: Code, message: string)

  /** A handler's outcome: a response message, or a status error. */
  datatype RpcResult<+T> = Respond(value: T) | Reject(status: Status)

  datatype RegisterRequest = RegisterRequest(email: string, password: string)
  datatype RegisterResponse = RegisterResponse(userId: int)
  datatype LoginRequest = LoginRequest(email: string, password: string, appId: int)
  datatype LoginResponse = LoginResponse(token: string)
  datatype IsAdminRequest = IsAdminRequest(userId: int)
  datatype IsAdminResponse = IsAdminResponse(isAdmin: bool)

  /** One call from a handler into the service layer. */
  datatype ServiceCall =
    | RegisterNewUserCall(email: string, password: string)
    | LoginCall(email: string, password: string, appID: int)
    | IsAdminCall(userID: int)

  datatype Handled<+T> = Handled(result: RpcResult<T>, calls: seq<ServiceCall>)

  /** The service interface the handlers depend on; each method answers
      Go's `(value, err)` pair. */
  datatype AuthApi = AuthApi(
    login: (string, string, int) -> (string, Option<Error>),
    registerNewUser: (string, string) -> (int, Option<Error>),
    isAdmin: int -> (bool, Option<Error>))

  /** govalidator.IsEmail and govalidator.IsAlphanumeric. */
  datatype Validator = Validator(
    isEmail: string -> bool,
    isAlphanumeric: string -> bool)

  /** A password passes when it is alphanumeric and not empty. */
  predicate ValidPassword(v: Validator, password: string) {
    v.isAlphanumeric(password) && password != ""
  }

  predicate RejectedAs<T>(h: Handled<T>, code: Code) {
    h.result.Reject? && h.result.status.code == code
  }

  /** `ServerAPI.Register`. */
  function Register(auth: AuthApi, v: Validator, req: RegisterRequest): (h: Handled<RegisterResponse>)
    // the email is checked first, then the password
    ensures !v.isEmail(req.email) ==>
              h.result == Reject(Status(InvalidArgument, InvalidEmailMessage))
    ensures v.isEmail(req.email) && !ValidPassword(v, req.password) ==>
              h.result == Reject(Status(InvalidArgument, InvalidPasswordMessage))
    // the service is called, once and with the request's fields, exactly when both checks pass
    ensures h.calls != [] <==> v.isEmail(req.email) && ValidPassword(v, req.password)
    ensures h.calls != [] ==> h.calls == [RegisterNewUserCall(req.email, req.password)]
    // InvalidArgument means "rejected before the service"; every service error is Internal
    ensures RejectedAs(h, InvalidArgument) <==> h.calls == []
    ensures h.calls != [] ==>
              (h.result.Respond? <==> auth.registerNewUser(req.email, req.password).1.None?)
    ensures h.calls != [] && h.result.Reject? ==>
              h.result.status == Status(Internal, RegisterInternalMessage)
    // the response carries the id the service returned
    ensures h.result.Respond? ==>
              h.result.value.userId == auth.registerNewUser(req.email, req.password).0
  {
    if !v.isEmail(req.email) then
      Handled(Reject(Status(InvalidArgument, InvalidEmailMessage)), [])
    else if !v.isAlphanumeric(req.password) || req.password == "" then
      Handled(Reject(Status(InvalidArgument, InvalidPasswordMessage)), [])
    else
      var calls := [RegisterNewUserCall(req.email, req.password)];
      var (id, err) := auth.registerNewUser(req.email, req.password);
      if err.Some? then
        Handled(Reject(Status(Internal, RegisterInternalMessage)), calls)
      else
        Handled(Respond(RegisterResponse(id)), calls)
  }

  /** `ServerAPI.Login`. */
  function Login(auth: AuthApi, v: Validator, req: LoginRequest): (h: Handled<LoginResponse>)
    // email, then password, then a non-zero app id
    ensures !v.isEmail(req.email) ==>
              h.result == Reject(Status(InvalidArgument, InvalidEmailMessage))
    ensures v.isEmail(req.email) && !ValidPassword(v, req.password) ==>
              h.result == Reject(Status(InvalidArgument, InvalidPasswordMessage))
    ensures v.isEmail(req.email) && ValidPassword(v, req.password) && req.appId == EmptyValue ==>
              h.result == Reject(Status(InvalidArgument, InvalidAppIDMessage))
    // the service is called, once and with the request's fields, exactly when all three pass
    ensures h.calls != [] <==>
              v.isEmail(req.email) && ValidPassword(v, req.password) && req.appId != EmptyValue
    ensures h.calls != [] ==> h.calls == [LoginCall(req.email, req.password, req.appId)]
    ensures RejectedAs(h, InvalidArgument) <==> h.calls == []
    // whatever the service's error, the client sees the same Internal status
    ensures h.calls != [] ==>
              (h.result.Respond? <==> auth.login(req.email, req.password, req.appId).1.None?)
    ensures h.calls != [] && h.result.Reject? ==>
              h.result.status == Status(Internal, InternalMessage)
    // the token is passed through unchanged
    ensures h.result.Respond? ==>
              h.result.value.token == auth.login(req.email, req.password, req.appId).0
  {
    if !v.isEmail(req.email) then
      Handled(Reject(Status(InvalidArgument, InvalidEmailMessage)), [])
    else if !v.isAlphanumeric(req.password) || req.password == "" then
      Handled(Reject(Status(InvalidArgument, InvalidPasswordMessage)), [])
    else if req.appId == EmptyValue then
      Handled(Reject(Status(InvalidArgument, InvalidAppIDMessage)), [])
    else
      var calls := [LoginCall(req.email, req.password, req.appId)];
      var (jwt, err) := auth.login(req.email, req.password, req.appId);
      if err.Some? then
        Handled(Reject(Status(Internal, InternalMessage)), calls)
      else
        Handled(Respond(LoginResponse(jwt)), calls)
  }

  /** `ServerAPI.IsAdmin`. */
  function IsAdmin(auth: AuthApi, req: IsAdminRequest): (h: Handled<IsAdminResponse>)
    ensures req.userId == EmptyValue ==>
              h.result == Reject(Status(InvalidArgument, InvalidUserIDMessage))
    ensures h.calls != [] <==> req.userId != EmptyValue
    ensures h.calls != [] ==> h.calls == [IsAdminCall(req.userId)]
    ensures RejectedAs(h, InvalidArgument) <==> h.calls == []
    ensures h.calls != [] ==>
              (h.result.Respond? <==> auth.isAdmin(req.userId).1.None?)
    ensures h.calls != [] && h.result.Reject? ==>
              h.result.status == Status(Internal, InternalMessage)
    // the flag is passed through unchanged
    ensures h.result.Respond? ==> h.result.value.isAdmin == auth.isAdmin(req.userId).0
  {
    if req.userId == EmptyValue then
      Handled(Reject(Status(InvalidArgument, InvalidUserIDMessage)), [])
    else
      var calls := [IsAdminCall(req.userId)];
      var (isAdmin, err) := auth.isAdmin(req.userId);
      if err.Some? then
        Handled(Reject(Status(Internal, InternalMessage)), calls)
      else
        Handled(Respond(IsAdminResponse(isAdmin)), calls)
  }
}
