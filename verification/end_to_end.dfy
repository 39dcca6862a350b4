/**
 Properties that span several calls or both layers: the service model plugged
 into the gRPC handlers, and scenario lemmas stated over the in-memory store.
 */
module EndToEnd {
  import opened Errors
  import opened ServiceAuth
  import opened MemoryStorage
  import GrpcAuth

  /** The service model seen through the interface the handlers depend on:
      the traces are dropped and only Go's `(value, err)` pair remains. */
  function ServiceApi(order: IsOrder, a: Auth, cr: Crypto): GrpcAuth.AuthApi
  {
    GrpcAuth.AuthApi(
      (email, password, appID) =>
        var r := LoginPipeline(order, a, cr, email, password, appID); (r.value, r.err),
      (email, password) =>
        var r := RegisterNewUser(a, cr, email, password); (r.value, r.err),
      userID =>
        var r := IsAdmin(a, userID); (r.value, r.err))
  }

  /** At the RPC boundary an unknown email, a wrong password and an unknown
      app are indistinguishable: all three become the same Internal status,
      and only a successful login yields a token. */
  lemma BoundaryHidesLoginFailures(order: IsOrder, a: Auth, cr: Crypto, v: GrpcAuth.Validator, req: GrpcAuth.LoginRequest)
    requires v.isEmail(req.email) && GrpcAuth.ValidPassword(v, req.password) && req.appId != GrpcAuth.EmptyValue
    ensures var r := LoginPipeline(order, a, cr, req.email, req.password, req.appId);
            var h := GrpcAuth.Login(ServiceApi(order, a, cr), v, req);
            && (ErrIs(r.err, ErrInvalidCredentials) || ErrIs(r.err, ErrAppNotFound) ==>
                  h.result == GrpcAuth.Reject(GrpcAuth.Status(GrpcAuth.Internal, GrpcAuth.InternalMessage)))
            && (h.result.Respond? <==> r.err.None?)
            && (h.result.Respond? ==> h.result.value.token == r.value)
  {
  }

  /** Registering a new email and then logging in with the same password
      succeeds, and the token is signed over the stored user (the id the
      store assigned, the registered email, the hash bcrypt produced) and
      the requested app. */
  lemma RegisterThenLogin(order: IsOrder, s: Store, cr: Crypto, ttl: int, email: string, password: string, appID: int)
    requires email !in s.users && appID in s.apps
    requires cr.generateFromPassword(password).Ok?
    // bcrypt accepts the password against a hash it produced for it
    requires cr.compareHashAndPassword(cr.generateFromPassword(password).value, password)
    requires cr.newToken(User(s.nextID, email, cr.generateFromPassword(password).value), s.apps[appID], ttl).Ok?
    ensures var hash := cr.generateFromPassword(password).value;
            var registered := RegisterNewUser(AuthOver(s, ttl), cr, email, password);
            var login := LoginPipeline(order, AuthOver(Insert(s, email, hash), ttl), cr, email, password, appID);
            && registered.err.None? && registered.value == s.nextID
            && login.err.None?
            && login.value == cr.newToken(User(registered.value, email, hash), s.apps[appID], ttl).value
  {
  }

  /** Against a store that answers the bare sentinels, an unknown email and
      a wrong password for a known one produce identical replies: the
      account's existence does not leak through `Login`. */
  lemma UnknownEmailLooksLikeWrongPassword(order: IsOrder, s: Store, cr: Crypto, ttl: int,
                                          unknown: string, known: string, password: string, wrong: string, appID: int)
    requires unknown !in s.users && known in s.users
    requires !cr.compareHashAndPassword(s.users[known].passHash, wrong)
    ensures var r1 := LoginPipeline(order, AuthOver(s, ttl), cr, unknown, password, appID);
            var r2 := LoginPipeline(order, AuthOver(s, ttl), cr, known, wrong, appID);
            && r1.value == r2.value && r1.err == r2.err
            && ErrIs(r1.err, ErrInvalidCredentials)
            && LookUpApp(appID) !in r1.calls && LookUpApp(appID) !in r2.calls
  {
  }

  /** Valid credentials for an app the store does not know fail with
      app-not-found, never invalid credentials. */
  lemma UnknownAppIsAppNotFound(order: IsOrder, s: Store, cr: Crypto, ttl: int, email: string, password: string, appID: int)
    requires email in s.users && appID !in s.apps
    requires cr.compareHashAndPassword(s.users[email].passHash, password)
    ensures var r := LoginPipeline(order, AuthOver(s, ttl), cr, email, password, appID);
            ErrIs(r.err, ErrAppNotFound) && !ErrIs(r.err, ErrInvalidCredentials)
  {
  }

  /** Asking whether an unknown, non-zero user id is an admin ends in the
      generic Internal status: there is no dedicated not-found answer. */
  lemma UnknownUserAdminLookupIsInternal(order: IsOrder, s: Store, cr: Crypto, ttl: int, userID: int)
    requires userID != GrpcAuth.EmptyValue && userID !in s.admins
    ensures var h := GrpcAuth.IsAdmin(ServiceApi(order, AuthOver(s, ttl), cr), GrpcAuth.IsAdminRequest(userID));
            h.result == GrpcAuth.Reject(GrpcAuth.Status(GrpcAuth.Internal, GrpcAuth.InternalMessage))
  {
  }

  /** Registering an email the store already holds passes validation, reaches
      the service, and ends in the generic Internal status: a duplicate email
      has no answer of its own. */
  lemma DuplicateEmailRegistrationIsInternal(order: IsOrder, s: Store, cr: Crypto, ttl: int,
                                            v: GrpcAuth.Validator, req: GrpcAuth.RegisterRequest)
    requires req.email in s.users
    requires v.isEmail(req.email) && GrpcAuth.ValidPassword(v, req.password)
    ensures var h := GrpcAuth.Register(ServiceApi(order, AuthOver(s, ttl), cr), v, req);
            && h.calls == [GrpcAuth.RegisterNewUserCall(req.email, req.password)]
            && h.result == GrpcAuth.Reject(GrpcAuth.Status(GrpcAuth.Internal, GrpcAuth.RegisterInternalMessage))
  {
  }
}
