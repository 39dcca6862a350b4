# GrpcAuth single-sign-on core, modelled in Dafny

This project models the decision logic of a small single-sign-on service. The service issues signed identity tokens to the users of several client apps.

It covers two layers:

- **The authentication service** (`internal/service/auth/auth.go`):
  - `Login` runs an ordered pipeline: look up the user by email, compare the password with the stored bcrypt hash, look up the app, sign a token.
  - `RegisterNewUser` hashes the password and saves the user.
  - `IsAdmin` asks the user store for the admin flag.
  - Store failures are compared against fixed sentinel errors. A store error that is exactly the user-not-found or user-exists sentinel becomes `ErrInvalidCredentials`. One that is exactly the storage app-not-found sentinel becomes `ErrAppNotFound`. A store error that only wraps one of these sentinels is not reclassified; see "## Findings". Anything else is returned wrapped with the operation name.
- **The gRPC handlers** (`internal/grpc/auth/server.go`):
  - `Register`, `Login` and `IsAdmin` check their inputs in a fixed order: email syntax, then a non-empty alphanumeric password, then a non-zero app id or user id.
  - On a failed check they answer `InvalidArgument` without calling the service.
  - Every error the service returns becomes `Internal`.

Collaborators are function-typed fields of datatypes, so every contract holds for every possible behaviour of:

- the user and app stores,
- bcrypt's hash and compare,
- the JWT signer,
- govalidator's `IsEmail` and `IsAlphanumeric`.

Each reply also carries the list of collaborator calls it made, in order. That lets properties such as "the app store is never consulted after a credential failure" and "the service is not called on invalid input" be stated about the reply.

Files:

- `errors.dfy` (module `Errors`): Go error values as a recursive datatype. `fmt.Errorf("%s: %w", …)` is `Wrapped(op, inner)`. `Is` is `errors.Is`, and it is proved equivalent to "the target is on the unwrap chain".
- `service_auth.dfy` (module `ServiceAuth`): users, apps, collaborator interfaces, and the three service operations.
- `grpc_auth.dfy` (module `GrpcAuth`): requests, responses, status codes, and the three handlers.
- `memory_storage.dfy` (module `MemoryStorage`): an in-memory store that keeps the storage contract. Lookups that miss answer the bare storage sentinels, and saving a duplicate email answers `ErrUserExists`. It is used only for the end-to-end scenarios.
- `end_to_end.dfy` (module `EndToEnd`): the service plugged into the handlers, plus scenario lemmas stated over the in-memory store.

Facts about the code that the model keeps:

- Input validation lives only in the gRPC handlers. The service operations validate nothing. The service's `IsAdmin` with user id 0, for example, goes straight to the store.
- A password must be non-empty and alphanumeric.
- A user lookup that fails with `ErrUserExists` is also reported as invalid credentials.
- The service does not turn other store errors into an "internal" kind. It returns them wrapped with the operation name. Only the gRPC layer maps every service error, including invalid-credentials and app-not-found, to `Internal`.
- Registering a duplicate email, and asking whether an unknown user is an admin, both end in `Internal` at the boundary.

## Model

| member | source | states |
|---|---|---|
| Errors.IsIffInChain | internal/service/auth/auth.go:56 | `errors.Is(err, target)` holds exactly when `target` is one of the errors on `err`'s unwrap chain |
| Errors.IsOnBareError | internal/service/auth/auth.go:56-61 | with a sentinel (which wraps nothing) as its first argument, `errors.Is` holds only when the other error IS that sentinel; an error wrapping it does not match |
| Errors.WrappingKeepsChain | internal/service/auth/auth.go:63-64 | an error wrapped with `%w` still matches everything the inner error matched, and nothing else except the wrapper itself |
| ServiceAuth.LoginPipeline | internal/service/auth/auth.go:50-86 | every failure returns the empty token and an error wrapped with `auth.Login`; the user is looked up first and alone when that fails; the password is compared with the found user's hash; the app store is consulted exactly when the user was found and the password matched; the signer is reached exactly when, in addition, the app was found; success happens exactly when all four steps succeed, and the token is then the signer's token for that user, that app and the configured TTL; a wrong password yields invalid credentials and never app-not-found; a signing error is returned wrapped and unclassified |
| ServiceAuth.Login | internal/service/auth/auth.go:54-78 | as written: for a store error without the service's own sentinels, the result is invalid credentials exactly when the user-lookup error equals the user-not-found or user-exists sentinel, and is otherwise that error wrapped (never app-not-found); after valid credentials, the result is app-not-found exactly when the app-lookup error equals the storage sentinel, and is otherwise that error wrapped (never invalid credentials) |
| ServiceAuth.LoginCorrected | internal/service/auth/auth.go:54-78 | with `errors.Is(err, sentinel)`, the same classification holds whenever the sentinel appears anywhere on the store error's chain |
| ServiceAuth.LoginMissesWrappedUserNotFound | internal/service/auth/auth.go:56-58 | as written, a store error that wraps user-not-found gives a `Login` error that is not invalid credentials and still carries user-not-found |
| ServiceAuth.LoginCorrectedCatchesWrappedUserNotFound | internal/service/auth/auth.go:56-58 | corrected, the same wrapped error gives invalid credentials (never app-not-found), and only the user store is consulted |
| ServiceAuth.RegisterNewUser | internal/service/auth/auth.go:87-104 | hashing is the first call; a hashing failure returns id 0 and the hash error wrapped, and the store is never asked to save; a save failure returns id 0 and the save error wrapped; otherwise the id is exactly the one the store assigned; what is saved is the given email and the hasher's output, never the plaintext |
| ServiceAuth.IsAdmin | internal/service/auth/auth.go:106-118 | exactly one admin-flag lookup for the given id; success exactly when the store succeeds, with its flag unchanged; on a store error the result is `false` and an error wrapping the store's error |
| GrpcAuth.Register | internal/grpc/auth/server.go:28-45 | an invalid email is rejected with InvalidArgument first, then an empty or non-alphanumeric password; the service is called once, with the request's fields, exactly when both checks pass; InvalidArgument happens exactly when the service was not called; every service error becomes Internal; the response's user id is the service's id |
| GrpcAuth.Login | internal/grpc/auth/server.go:47-68 | email, then password, then a zero app id (`emptyValue`) are rejected with InvalidArgument in that order; the service is called once exactly when all three pass; every service error becomes the same Internal status; the token is the service's token unchanged |
| GrpcAuth.IsAdmin | internal/grpc/auth/server.go:70-82 | user id 0 is rejected with InvalidArgument and the service is called exactly when the id is non-zero; service errors become Internal; the flag is the service's flag unchanged |
| EndToEnd.BoundaryHidesLoginFailures | internal/grpc/auth/server.go:60-63 | with the service model behind the handler, an invalid-credentials or app-not-found service error reaches the client as the same Internal status; a token reaches the client exactly when the service succeeded, and it is that token |
| EndToEnd.RegisterThenLogin | internal/service/auth/auth.go:50-104 | registering a new email against the store and then logging in with the same password succeeds; the registration returns the store-assigned id; the token is signed over the user with that id, the registered email and bcrypt's hash, and over the requested app |
| EndToEnd.UnknownEmailLooksLikeWrongPassword | internal/service/auth/auth.go:54-69 | against a store that answers the bare sentinels, an unknown email and a wrong password give identical token and error values, both invalid credentials, and neither consults the app store |
| EndToEnd.UnknownAppIsAppNotFound | internal/service/auth/auth.go:70-75 | valid credentials for an app the store does not hold give app-not-found, never invalid credentials |
| EndToEnd.UnknownUserAdminLookupIsInternal | internal/grpc/auth/server.go:77-80 | an admin lookup for a non-zero user id the store does not know ends in the generic Internal status |
| EndToEnd.DuplicateEmailRegistrationIsInternal | internal/grpc/auth/server.go:38-41 | registering an email the store already holds passes validation, calls the service once, and ends in the generic Internal status with "internal server error"; a duplicate email has no answer of its own |

## Left out

- Logging (`slog`), `context.Context` and error message text are left out. They do not affect returned values. The operation name in each wrapped error is kept, and so are the handlers' status messages.
- bcrypt, JWT signing and govalidator are left out. They are foreign library calls and are modelled only as function-typed parameters. The claims inside a token are not modelled because `internal/lib/jwt` is not part of this model. The model pins only which user, app and TTL the signer is given.
- The randomness of bcrypt's salt is folded into the hashing parameter. Each call site sees one outcome.
- The SQL storage package is not part of this model. The in-memory store is a stand-in that keeps the contract the service relies on.
- Integer widths are not modelled. Ids and the TTL are unbounded `int`s. The handler's `int(req.GetAppID())` conversion is widening, so it loses nothing.
- The files as shown disagree on the service interface. `server.go` declares `Login(..., appID int)`, while the service takes `int64`. The model uses one integer type.
- gRPC server wiring (`Register(gRPC, auth)`, `internal/app/grpc/app.go`), process start-up and signal handling (`cmd/sso/main.go`), configuration loading (`internal/config/config.go`) and migrations (`cmd/migrator/main.go`) are left out. They are I/O and process plumbing.
- Go errors are compared structurally, not by pointer identity. This matters only when two distinct errors carry the same text, and the service only ever compares against sentinels.
- Concurrency is left out. Each operation is a pure function of its collaborators' answers.

## Findings

| source | as written | input that shows it | evidently intended | confidence | as-written member | corrected member |
|---|---|---|---|---|---|---|
| internal/service/auth/auth.go:56 | `errors.Is(storage.ErrUserNotFound, err)` (sentinel first; also at lines 59 and 72) reclassifies only a store error that is the bare sentinel | the user store returns `fmt.Errorf("storage.User: %w", storage.ErrUserNotFound)` for an unknown email; `Login` returns that error wrapped, not invalid credentials | `errors.Is(err, storage.ErrUserNotFound)`, so that any store error wrapping the sentinel is classified as invalid credentials (likewise user-exists and app-not-found) | medium, not executed; it shows only with a storage layer that wraps its sentinels | ServiceAuth.LoginMissesWrappedUserNotFound | ServiceAuth.LoginCorrectedCatchesWrappedUserNotFound |
