/**
 Go's error values as the authentication core uses them.

 An error is either one of the package-level sentinels (created once with
 `errors.New` and compared by identity), an opaque failure raised by a
 collaborator, or a wrapper built by `fmt.Errorf("%s: %w", op, inner)`.
 `Is` is the standard library's `errors.Is`: it walks the chain of its FIRST
 argument, unwrapping one layer at a time, looking for the second.
 */
module Errors {

  datatype Option<+T> = None | Some(value: T)

  /** A collaborator's `(value, error)` pair: exactly one side is meaningful. */
  datatype Result<+T> = Ok(value: T) | Err(error: Error)

  datatype Error =
    | ErrUserNotFound             // storage.ErrUserNotFound
    | ErrUserExists               // storage.ErrUserExists
    | ErrStorageAppNotFound       // storage.ErrAppNotFound
    | ErrInvalidCredentials       // auth.ErrInvalidCredentials
    | ErrAppNotFound              // auth.ErrAppNotFound
    | Failure(cause: string)      // any other error a collaborator creates
    | Wrapped(op: string, inner: Error)  // fmt.Errorf("%s: %w", op, inner)

  /** An error that wraps nothing: a sentinel or a plain failure. */
  predicate IsBare(e: Error) {
    !e.Wrapped?
  }

  /** `errors.Is(err, target)`: does `target` occur on the unwrap chain of `err`? */
  function Is(err: Error, target: Error): bool
    decreases err
  {
    err == target || (err.Wrapped? && Is(err.inner, target))
  }

  /** The unwrap chain of an error, outermost first, as an explicit sequence. */
  function Chain(err: Error): seq<Error>
    decreases err
  {
    match err
    case Wrapped(_, inner) => [err] + Chain(inner)
    case _ => [err]
  }

  /** `errors.Is` agrees with its definition in the Go documentation: it holds
      exactly when the target is one of the errors on the chain. */
  lemma {:induction false} IsIffInChain(err: Error, target: Error)
    ensures Is(err, target) <==> target in Chain(err)
    decreases err
  {
    match err
    case Wrapped(_, inner) =>
      IsIffInChain(inner, target);
      assert Chain(err) == [err] + Chain(inner);
    case _ =>
  }

  /** Called with a bare error as its FIRST argument, `errors.Is` degenerates
      to identity: nothing that merely wraps the bare error matches. */
  lemma IsOnBareError(bare: Error, err: Error)
    requires IsBare(bare)
    ensures Is(bare, err) <==> bare == err
  {
  }

  /** Wrapping keeps everything the inner error matched, and adds only the
      wrapper itself. */
  lemma {:induction false} WrappingKeepsChain(op: string, inner: Error, target: Error)
    ensures Is(Wrapped(op, inner), target) <==> target == Wrapped(op, inner) || target in Chain(inner)
  {
    IsIffInChain(inner, target);
  }
}
