/**
 The authentication service: `Login`, `RegisterNewUser` and `IsAdmin`.

 The stores (`UserSaver`, `UserProvider`, `AppProvider`), bcrypt and the JWT
 signer are collaborators whose behaviour is not part of this model; each is a
 function-typed field, so every statement below holds for every store and
 every library outcome. Each reply carries the trace of collaborator calls the
 operation made, in order, so that "X is never consulted" is a statement about
 the reply.
 */
module ServiceAuth {
  import opened Errors

  newtype byte = x: int | 0 <= x < 256
  type Bytes = seq<byte>

  /** models.User: identifier assigned by the store, email, bcrypt hash. */
  datatype User = User(id: int, email: string, passHash: Bytes)

  /** models.App: identifier, display name, signing secret. */
  datatype App = App(id: int, name: string, secret: string)

  const LoginOp := "auth.Login"
  const RegisterOp := "auth.RegisterNewUser"
  const IsAdminOp := "auth.IsAdmin"

  datatype UserSaver = UserSaver(saveUser: (string, Bytes) -> Result<int>)

  datatype UserProvider = UserProvider(
    user: string -> Result<User>,
    isAdmin: int -> Result<bool>)

  datatype AppProvider = AppProvider(app: int -> Result<App>)

  /** The service value: its three stores and the configured token lifetime. */
  datatype Auth = Auth(
    usrSaver: UserSaver,
    usrProvider: UserProvider,
    appProvider: AppProvider,
    tokenTTL: int)

  /** Package-level library functions the service calls.
      `compareHashAndPassword` holds when bcrypt returns no error. */
  datatype Crypto = Crypto(
    generateFromPassword: string -> Result<Bytes>,
    compareHashAndPassword: (Bytes, string) -> bool,
    newToken: (User, App, int) -> Result<string>)

  /** One call into a collaborator. */
  datatype Call =
    | LookUpUser(email: string)
    | ComparePassword(hash: Bytes)
    | LookUpApp(appID: int)
    | SignToken(userID: int, appID: int)
    | HashPassword
    | SaveUser(email: string, hash: Bytes)
    | LookUpAdminFlag(userID: int)

  /** Go's `(value, err)` return pair plus the calls that produced it. */
  datatype Reply<T> = Reply(value: T, err: Option<Error>, calls: seq<Call>)

  /** The two argument orders of `errors.Is` when testing a store error
      against a storage sentinel. */
  datatype IsOrder = SentinelFirst | ErrorFirst

  predicate Matches(order: IsOrder, err: Error, sentinel: Error) {
    match order
    case SentinelFirst => Is(sentinel, err)
    case ErrorFirst => Is(err, sentinel)
  }

  /** An error a collaborator may return without carrying one of the
      service's own sentinels. */
  predicate Foreign(e: Error) {
    !Is(e, ErrInvalidCredentials) && !Is(e, ErrAppNotFound)
  }

  predicate ErrIs(r: Option<Error>, target: Error) {
    r.Some? && Is(r.value, target)
  }

  /** The login pipeline: user by email, password check, app by id, signing.
      Each step short-circuits on failure; `order` selects how store errors
      are tested against the storage sentinels. */
  function LoginPipeline(order: IsOrder, a: Auth, cr: Crypto, email: string, password: string, appID: int)
    : (r: Reply<string>)
    // Go convention: a failure comes with the empty token, wrapped with the operation name
    ensures r.err.Some? ==> r.value == "" && r.err.value.Wrapped? && r.err.value.op == LoginOp
    // the user is always looked up first, and nothing else is consulted when that fails
    ensures 1 <= |r.calls| && r.calls[0] == LookUpUser(email)
    ensures a.usrProvider.user(email).Err? ==> r.calls == [LookUpUser(email)]
    // the password is compared against the stored hash of the user found for `email`
    ensures a.usrProvider.user(email).Ok? ==>
              |r.calls| >= 2 && r.calls[1] == ComparePassword(a.usrProvider.user(email).value.passHash)
    // the app is consulted exactly when the credentials were accepted
    ensures LookUpApp(appID) in r.calls <==>
              a.usrProvider.user(email).Ok? &&
              cr.compareHashAndPassword(a.usrProvider.user(email).value.passHash, password)
    ensures forall c :: c in r.calls && c.LookUpApp? ==> c.appID == appID
    // the signer is reached exactly when the credentials were accepted and the app was found
    ensures (exists c :: c in r.calls && c.SignToken?) <==>
              && a.usrProvider.user(email).Ok?
              && cr.compareHashAndPassword(a.usrProvider.user(email).value.passHash, password)
              && a.appProvider.app(appID).Ok?
    // success exactly when all four steps succeed, with the signer's token for that user and app
    ensures r.err.None? <==>
              && a.usrProvider.user(email).Ok?
              && cr.compareHashAndPassword(a.usrProvider.user(email).value.passHash, password)
              && a.appProvider.app(appID).Ok?
              && cr.newToken(a.usrProvider.user(email).value, a.appProvider.app(appID).value, a.tokenTTL).Ok?
    ensures r.err.None? ==>
              var user := a.usrProvider.user(email).value;
              var app := a.appProvider.app(appID).value;
              && r.value == cr.newToken(user, app, a.tokenTTL).value
              && r.calls[|r.calls| - 1] == SignToken(user.id, app.id)
    // a wrong password is a credential failure, never an app failure
    ensures a.usrProvider.user(email).Ok? &&
            !cr.compareHashAndPassword(a.usrProvider.user(email).value.passHash, password) ==>
              ErrIs(r.err, ErrInvalidCredentials) && !ErrIs(r.err, ErrAppNotFound)
    // a signing failure is passed on, wrapped, and classified as neither
    ensures a.usrProvider.user(email).Ok? && a.appProvider.app(appID).Ok? &&
            cr.compareHashAndPassword(a.usrProvider.user(email).value.passHash, password) ==>
              var signed := cr.newToken(a.usrProvider.user(email).value, a.appProvider.app(appID).value, a.tokenTTL);
              signed.Err? ==>
                && ErrIs(r.err, signed.error)
                && (Foreign(signed.error) ==> !ErrIs(r.err, ErrInvalidCredentials) && !ErrIs(r.err, ErrAppNotFound))
  {
    var looked := [LookUpUser(email)];
    match a.usrProvider.user(email)
    case Err(e) =>
      if Matches(order, e, ErrUserNotFound) then
        Reply("", Some(Wrapped(LoginOp, ErrInvalidCredentials)), looked)
      else if Matches(order, e, ErrUserExists) then
        Reply("", Some(Wrapped(LoginOp, ErrInvalidCredentials)), looked)
      else
        Reply("", Some(Wrapped(LoginOp, e)), looked)
    case Ok(user) =>
      var compared := looked + [ComparePassword(user.passHash)];
      if !cr.compareHashAndPassword(user.passHash, password) then
        Reply("", Some(Wrapped(LoginOp, ErrInvalidCredentials)), compared)
      else
        var fetched := compared + [LookUpApp(appID)];
        match a.appProvider.app(appID)
        case Err(e) =>
          if Matches(order, e, ErrStorageAppNotFound) then
            Reply("", Some(Wrapped(LoginOp, ErrAppNotFound)), fetched)
          else
            Reply("", Some(Wrapped(LoginOp, e)), fetched)
        case Ok(app) =>
          var signed := fetched + [SignToken(user.id, app.id)];
          assert signed[|signed| - 1] in signed;
          match cr.newToken(user, app, a.tokenTTL)
          case Err(e) => Reply("", Some(Wrapped(LoginOp, e)), signed)
          case Ok(token) => Reply(token, None, signed)
  }

  /** `Auth.Login` as written: store errors are tested with the sentinel as
      the first argument of `errors.Is`, which reclassifies only an error
      that IS the sentinel. */
  function Login(a: Auth, cr: Crypto, email: string, password: string, appID: int): (r: Reply<string>)
    // exactly the user-not-found or user-exists sentinel becomes invalid credentials
    ensures a.usrProvider.user(email).Err? && Foreign(a.usrProvider.user(email).error) ==>
              var e := a.usrProvider.user(email).error;
              && (ErrIs(r.err, ErrInvalidCredentials) <==> e == ErrUserNotFound || e == ErrUserExists)
              && !ErrIs(r.err, ErrAppNotFound)
              && (e != ErrUserNotFound && e != ErrUserExists ==> ErrIs(r.err, e))
    // exactly the storage app-not-found sentinel becomes app-not-found, never invalid credentials
    ensures a.usrProvider.user(email).Ok? && a.appProvider.app(appID).Err? &&
            cr.compareHashAndPassword(a.usrProvider.user(email).value.passHash, password) &&
            Foreign(a.appProvider.app(appID).error) ==>
              var e := a.appProvider.app(appID).error;
              && (ErrIs(r.err, ErrAppNotFound) <==> e == ErrStorageAppNotFound)
              && !ErrIs(r.err, ErrInvalidCredentials)
              && (e != ErrStorageAppNotFound ==> ErrIs(r.err, e))
  {
    LoginPipeline(SentinelFirst, a, cr, email, password, appID)
  }

  /** `Auth.Login` with `errors.Is(err, sentinel)`: a store error is
      reclassified whenever the sentinel is anywhere on its chain. */
  function LoginCorrected(a: Auth, cr: Crypto, email: string, password: string, appID: int): (r: Reply<string>)
    ensures a.usrProvider.user(email).Err? && Foreign(a.usrProvider.user(email).error) ==>
              var e := a.usrProvider.user(email).error;
              && (ErrIs(r.err, ErrInvalidCredentials) <==> Is(e, ErrUserNotFound) || Is(e, ErrUserExists))
              && !ErrIs(r.err, ErrAppNotFound)
              && (!Is(e, ErrUserNotFound) && !Is(e, ErrUserExists) ==> ErrIs(r.err, e))
    ensures a.usrProvider.user(email).Ok? && a.appProvider.app(appID).Err? &&
            cr.compareHashAndPassword(a.usrProvider.user(email).value.passHash, password) &&
            Foreign(a.appProvider.app(appID).error) ==>
              var e := a.appProvider.app(appID).error;
              && (ErrIs(r.err, ErrAppNotFound) <==> Is(e, ErrStorageAppNotFound))
              && !ErrIs(r.err, ErrInvalidCredentials)
              && (!Is(e, ErrStorageAppNotFound) ==> ErrIs(r.err, e))
  {
    LoginPipeline(ErrorFirst, a, cr, email, password, appID)
  }

  /** `Auth.RegisterNewUser`: hash the password, then save the user. */
  function RegisterNewUser(a: Auth, cr: Crypto, email: string, password: string): (r: Reply<int>)
    ensures r.err.Some? ==> r.value == 0 && r.err.value.Wrapped? && r.err.value.op == RegisterOp
    ensures r.err.None? <==>
              cr.generateFromPassword(password).Ok? &&
              a.usrSaver.saveUser(email, cr.generateFromPassword(password).value).Ok?
    // the id returned is the one the store assigned
    ensures r.err.None? ==> r.value == a.usrSaver.saveUser(email, cr.generateFromPassword(password).value).value
    // hashing comes first; when it fails the store is never asked to save
    ensures 1 <= |r.calls| && r.calls[0] == HashPassword
    ensures cr.generateFromPassword(password).Err? ==>
              ErrIs(r.err, cr.generateFromPassword(password).error) &&
              forall c :: c in r.calls ==> !c.SaveUser?
    ensures cr.generateFromPassword(password).Ok? &&
            a.usrSaver.saveUser(email, cr.generateFromPassword(password).value).Err? ==>
              ErrIs(r.err, a.usrSaver.saveUser(email, cr.generateFromPassword(password).value).error)
    // what is saved is the given email and the hasher's output, never the plaintext
    ensures forall c :: c in r.calls && c.SaveUser? ==>
              c.email == email && cr.generateFromPassword(password) == Ok(c.hash)
  {
    match cr.generateFromPassword(password)
    case Err(e) => Reply(0, Some(Wrapped(RegisterOp, e)), [HashPassword])
    case Ok(hash) =>
      var calls := [HashPassword, SaveUser(email, hash)];
      match a.usrSaver.saveUser(email, hash)
      case Err(e) => Reply(0, Some(Wrapped(RegisterOp, e)), calls)
      case Ok(id) => Reply(id, None, calls)
  }

  /** `Auth.IsAdmin`: one lookup, the flag passed through unchanged. */
  function IsAdmin(a: Auth, userID: int): (r: Reply<bool>)
    ensures r.calls == [LookUpAdminFlag(userID)]
    ensures r.err.None? <==> a.usrProvider.isAdmin(userID).Ok?
    ensures r.err.None? ==> r.value == a.usrProvider.isAdmin(userID).value
    ensures r.err.Some? ==>
              && !r.value
              && r.err.value.Wrapped? && r.err.value.op == IsAdminOp
              && ErrIs(r.err, a.usrProvider.isAdmin(userID).error)
  {
    match a.usrProvider.isAdmin(userID)
    case Err(e) => Reply(false, Some(Wrapped(IsAdminOp, e)), [LookUpAdminFlag(userID)])
    case Ok(flag) => Reply(flag, None, [LookUpAdminFlag(userID)])
  }

  /** As written, a user-not-found error that the store wrapped with its own
      operation name escapes reclassification: the caller sees an
      unclassified error instead of invalid credentials. */
  lemma LoginMissesWrappedUserNotFound(a: Auth, cr: Crypto, email: string, password: string, appID: int, op: string)
    requires a.usrProvider.user(email) == Err(Wrapped(op, ErrUserNotFound))
    ensures var r := Login(a, cr, email, password, appID);
            && !ErrIs(r.err, ErrInvalidCredentials)
            && ErrIs(r.err, ErrUserNotFound)
  {
    var r := Login(a, cr, email, password, appID);
    var inner := Wrapped(op, ErrUserNotFound);
    assert r.err == Some(Wrapped(LoginOp, inner));
    assert Chain(r.err.value) == [r.err.value, inner, ErrUserNotFound] by {
      assert Chain(inner) == [inner] + Chain(ErrUserNotFound);
    }
    IsIffInChain(r.err.value, ErrInvalidCredentials);
    IsIffInChain(r.err.value, ErrUserNotFound);
  }

  /** With the corrected argument order the same wrapped error is reported
      as invalid credentials, and the app store is never consulted. */
  lemma LoginCorrectedCatchesWrappedUserNotFound(a: Auth, cr: Crypto, email: string, password: string, appID: int, op: string)
    requires a.usrProvider.user(email) == Err(Wrapped(op, ErrUserNotFound))
    ensures var r := LoginCorrected(a, cr, email, password, appID);
            && ErrIs(r.err, ErrInvalidCredentials)
            && !ErrIs(r.err, ErrAppNotFound)
            && r.calls == [LookUpUser(email)]
  {
    var e := Wrapped(op, ErrUserNotFound);
    IsIffInChain(e, ErrInvalidCredentials);
    IsIffInChain(e, ErrAppNotFound);
    IsIffInChain(e, ErrUserNotFound);
  }
}
