/** The crate's error taxonomy: `io::Error` as a kind plus a message, and the
    crate's own `Error`, which sets a lock held by someone else apart from every
    other I/O failure. */
module Errors {

  /** The `io::ErrorKind`s the lockfile life cycle can meet; `Other` stands for
      every remaining kind. */
  datatype ErrorKind =
    | NotFound
    | PermissionDenied
    | AlreadyExists
    | NotADirectory
    | IsADirectory
    | StorageFull
    | Other

  /** An `io::Error`: its kind and the description it carries. */
  datatype IoError = IoError(kind: ErrorKind, message: string)

  /** `lockfile::Error`. */
  datatype Error = Io(inner: IoError) | LockTaken

  /** The description `into_inner` gives the error it makes for `LockTaken`. */
  const LockTakenMessage: string := "lock already taken"

  /** `Error::into_inner`: the underlying `io::Error`. An `Io` error gives back
      exactly the error it wraps; `LockTaken` becomes a fresh `AlreadyExists`
      error. */
  function IntoInner(e: Error): (r: IoError)
    ensures e.Io? ==> r == e.inner
    ensures e.LockTaken? ==> r.kind == AlreadyExists && r.message == LockTakenMessage
  {
    match e
    case Io(err) => err
    case LockTaken => IoError(AlreadyExists, LockTakenMessage)
  }

  /** `Error::from_io`: the classification applied to the error of the final
      create-new open. Exactly the `AlreadyExists` kind means the lock is taken;
      any other error is kept, unchanged, as `Io`. */
  function FromIo(e: IoError): (r: Error)
    ensures r.LockTaken? <==> e.kind == AlreadyExists
    ensures r.Io? ==> r.inner == e
  {
    match e.kind
    case AlreadyExists => LockTaken
    case _ => Io(e)
  }

  /** Classifying and then unwrapping keeps the kind of every error: a caller
      that only looks at the kind loses nothing by going through `Error`. */
  lemma IntoInnerFromIoKind(e: IoError)
    ensures IntoInner(FromIo(e)).kind == e.kind
    ensures e.kind != AlreadyExists ==> IntoInner(FromIo(e)) == e
  {
  }

  /** On the errors `from_io` can produce, `from_io` undoes `into_inner`: an
      `Io` error never wraps an `AlreadyExists` once it has been classified. */
  lemma FromIoIntoInner(x: Error)
    requires x.LockTaken? || x.inner.kind != AlreadyExists
    ensures FromIo(IntoInner(x)) == x
  {
  }

  /** Two `io::Error`s classify alike only if they are equal or are both of
      kind `AlreadyExists`: the classification forgets nothing else. */
  lemma FromIoInjectiveOffAlreadyExists(e1: IoError, e2: IoError)
    requires FromIo(e1) == FromIo(e2)
    ensures e1 == e2 || (e1.kind == AlreadyExists && e2.kind == AlreadyExists)
  {
  }
}
