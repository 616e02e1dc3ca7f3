# lockfile: a Dafny model of an existence-based lock file

The `lockfile` crate marks a location in the filesystem as locked. It takes the
lock by creating a file with create-new semantics, which fails if anything
already exists at the path. It gives the lock up by deleting the file, either
explicitly with `release` or implicitly when the `Lockfile` is dropped. The
crate has one error type. It tells "the lock is already taken" (`LockTaken`)
apart from every other I/O failure (`Io`).

This project models that life cycle and its error classification, and proves
them against an abstract filesystem. This is the existence-based design only.
The crate has no OS advisory-lock (`flock`) variant.

- `errors.dfy` (module `Errors`): `io::Error` is a kind plus a message.
  `lockfile::Error` and the two pure mappings `into_inner` and `from_io` are
  here, with the lemmas that relate them.
- `fs.dfy` (module `Fs`): the filesystem is a class `FileSystem` with a set of
  directory paths, a set of file paths and a table of open handles. A path is
  a sequence of components below one fixed base directory; the empty path is
  the base directory itself. Its methods stand for `fs::create_dir_all`, the
  create-new `OpenOptions::open`, `fs::remove_file` and closing a `File`. The
  model decides the structural outcomes itself: the path exists, a parent is
  missing, or an ancestor is a plain file. Any other refusal by the operating
  system (permissions, a full disk, a device error) is an explicit `fault`
  argument of the call.
- `lockfile.dfy` (module `Lock`): the class `Lockfile` has the mutable field
  `handle: Option<HandleId>` and the immutable `path`. It has `Create`, `Path`,
  `AsRef`, `Release` and `Drop`. Its invariant `Valid()` ties the handle to an
  open handle on the path. A ghost counter ties "the handle is gone" to "the
  file was asked to be removed exactly once".
- `scenarios.dfy` (module `Scenarios`): client methods on a fresh filesystem.
  They mirror the crate's tests and documented usage. Each method's
  postcondition is what the caller observes, and it is proved from the
  contracts alone.
- `results.dfy` (module `Results`): `Option`, `Result` and `Outcome`
  (`Result<(), E>`).

`create` panics when the path has no parent directory, that is when
`Path::parent` returns `None`: for the empty path or the root. A
single-component relative path has the empty path (the current directory) as
its parent, and `create_dir_all` of the empty path succeeds. So the model
requires only a non-empty path (`path != []`); the parent itself may be the
base directory.

## Model

| member | source | states |
|---|---|---|
| `Errors.IntoInner` | src/lib.rs:62-67 | an `Io` error gives back exactly the `io::Error` it wraps; `LockTaken` gives an `AlreadyExists` error ("lock already taken") |
| `Errors.FromIo` | src/lib.rs:69-74 | the result is `LockTaken` if and only if the error's kind is `AlreadyExists`; otherwise it is `Io` carrying the same error, unchanged |
| `Errors.IntoInnerFromIoKind` | src/lib.rs:62-74 | `into_inner(from_io(e))` always has the kind of `e`, and is `e` itself unless the kind is `AlreadyExists` |
| `Errors.FromIoIntoInner` | src/lib.rs:62-74 | on every error `from_io` can produce, `from_io(into_inner(x)) == x` |
| `Errors.FromIoInjectiveOffAlreadyExists` | src/lib.rs:69-74 | two errors classify alike only if they are equal or both of kind `AlreadyExists` |
| `Fs.Parent` | src/lib.rs:105 | `Path::parent` is `None` exactly for the empty path; otherwise it is the path less its last component |
| `Fs.DirAncestorsAreDirs` | src/lib.rs:104-106 | in a directory tree, every ancestor of a directory is a directory, so an existing parent directory is found and left as it is |
| `Fs.FileSystem.CreateDirAll` | src/lib.rs:106 | an existing directory is found and nothing changes; a file at the directory gives `AlreadyExists`, and a file above it gives `NotADirectory`; otherwise the directory and its missing ancestors are created, unless the system refuses; the tree stays valid |
| `Fs.FileSystem.CreateNew` | src/lib.rs:113-115 | an existing path gives `AlreadyExists` and nothing changes; when the parent is a directory, the call succeeds exactly when the system does not refuse, and then it adds the file and a fresh handle on it |
| `Fs.FileSystem.Close` | src/lib.rs:138 | closing the handle removes it from the open handles and changes nothing else |
| `Fs.FileSystem.RemoveFile` | src/lib.rs:139 | removal succeeds exactly when the file is present and the system does not refuse, and then the file is gone; otherwise it reports the refusal, `IsADirectory` or `NotFound`, and nothing changes |
| `Lock.Lockfile.Held` | src/lib.rs:118-121 | the new lockfile holds `Some(handle)` on the given path and is valid |
| `Lock.Lockfile.Create` | src/lib.rs:101-122 | an existing path gives `LockTaken` and leaves the filesystem untouched; a file in the way of the parent directory gives `Io` (kind `AlreadyExists` or `NotADirectory`), never `LockTaken`; a refusal while creating directories is returned as `Io` unchanged; a refusal of the open goes through `from_io`; the parent directories are skipped when present, and otherwise exactly the missing ancestors of the parent are created, unless that step fails, in which case none are; a fresh path with a creatable parent is locked; on success the file exists, the new lockfile is valid with `handle` `Some` and `path` equal to the input; on failure no file or handle is added |
| `Lock.Lockfile.Path` | src/lib.rs:128-130 | returns the stored path, which `Create` set to exactly the input path |
| `Lock.Lockfile.AsRef` | src/lib.rs:164-166 | gives the same path as `Path()` |
| `Lock.Lockfile.Release` | src/lib.rs:136-142 | requires a present handle; closes it and sets it to `None`; succeeds exactly when the file was present and the system does not refuse, and then the path no longer exists; otherwise returns the removal error |
| `Lock.Lockfile.Drop` | src/lib.rs:146-159 | with a handle present: closes it, sets it to `None` and removes the file, unless the system refuses (the error is not surfaced); with no handle (after `release`), the filesystem and the removal count are unchanged, so the file is removed at most once |
| `Scenarios.Smoke` | src/lib.rs:227-237 | create, then `path()` equals the input, `release` succeeds, and the path no longer exists |
| `Scenarios.ParentsCreated` | src/lib.rs:104-106 | missing parent directories are created; `as_ref()` gives the input path |
| `Scenarios.LockTwice` | src/lib.rs:240-248 | a second `create` on a held path gives `LockTaken` (in this model the existing file decides the outcome before any other refusal of the open), and the first lockfile still holds its handle and file |
| `Scenarios.DropRemovesFile` | src/lib.rs:146-159 | the file exists while the lockfile is held and is gone after the lockfile is dropped |
| `Scenarios.ParentIsFile` | src/lib.rs:34-37 | a plain file at the parent gives `Io` with kind `AlreadyExists`, not `LockTaken`; a plain file further up gives `Io` with kind `NotADirectory` |
| `Scenarios.ReleaseReportsFailure` | src/lib.rs:136-142 | a refused removal is returned by `release`; the drop that follows does not retry, and the file remains |
| `Scenarios.ReleaseAfterExternalRemoval` | src/lib.rs:139 | if someone else deleted the file, `release` reports `NotFound` |
| `Scenarios.DropAfterReleaseSparesNextHolder` | src/lib.rs:136-159 | after `a` is released and `b` takes the same lock, dropping `a` leaves `b` holding its handle and its file |

## Left out

- The `Read`, `Write` and `Seek` pass-through implementations (src/lib.rs:169-209): they only delegate to the `File` and hold no lock logic.
- Logging through `debug!` and `warn!`: observability only. `Drop` discards the removal error where the source logs it.
- The internals of `fs::create_dir_all`, `OpenOptions::open` and `fs::remove_file`: they are replaced by the abstract filesystem. Error messages of operating-system errors are illustrative.
- `Fs.FileSystem.CreateDirAll`: a refused directory creation leaves the filesystem unchanged. The real call may leave some of the ancestors it already created.
- Fs.FileSystem.CreateNew: an existing path always gives `AlreadyExists`, before any other refusal. A real `open` can fail first for another reason, such as a full descriptor table (`EMFILE`) or a parent directory without search permission (`EACCES`). `create` then returns `Io`, not `LockTaken`. The model does not capture that ordering.
- Concurrency between processes: contention is modelled as sequential calls against one shared `FileSystem`. The atomicity of the create-new open is assumed from the operating system.
- Rust's move semantics: `release` consumes the lockfile, so its "handle already dropped" panic cannot happen. `Lock.Lockfile.Release` states this as the precondition that the handle is present. The drop that ends a released lockfile is an explicit `Drop` call in the scenarios.
- The `#[non_exhaustive]` and `Debug` attributes of the error and lockfile types: they have no behaviour to model.
- The test helper `tmp_path` and the `tempfile` dependency: the scenarios start from an empty filesystem instead.
