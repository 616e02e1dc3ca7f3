/** Client code run against a fresh filesystem, mirroring the crate's tests and
    its documented usage. Each scenario states, as its postcondition, what a
    caller observes; the proofs rest on nothing but the contracts of `Lockfile`
    and of the filesystem primitives. */
module Scenarios {
  import opened Results
  import opened Errors
  import opened Fs
  import opened Lock

  /** Create, read the path back, release: the release succeeds and the path
      is gone afterwards (`metadata` reports not found). */
  method Smoke(p: Path) returns (seen: Path, released: Outcome<IoError>, existsAfter: bool)
    requires p != []
    ensures seen == p && released == Pass && !existsAfter
  {
    var fs := new FileSystem();
    var r := Lockfile.Create(fs, p, None, None);
    var lockfile := r.value;
    seen := lockfile.Path();
    released := lockfile.Release(None);
    lockfile.Drop(None);  // `release` consumes the lockfile; its drop finds no handle
    existsAfter := fs.Exists(p);
  }

  /** Missing parent directories are created on the way to the lock file. */
  method ParentsCreated(p: Path) returns (parentIsDir: bool, seen: Path)
    requires |p| >= 2
    ensures parentIsDir && seen == p
  {
    var fs := new FileSystem();
    var r := Lockfile.Create(fs, p, None, None);
    var lockfile := r.value;
    assert p[..|p| - 1] in fs.dirs;
    parentIsDir := p[..|p| - 1] in fs.dirs;
    seen := lockfile.AsRef();
    lockfile.Drop(None);
  }

  /** Locking the same path twice: the second attempt fails with `LockTaken`
      and the first lockfile still holds its handle and its file. */
  method LockTwice(p: Path) returns (second: Option<Error>, firstHeld: bool)
    requires p != []
    ensures second == Some(LockTaken) && firstHeld
  {
    var fs := new FileSystem();
    var r1 := Lockfile.Create(fs, p, None, None);
    var first := r1.value;
    // in this model, whatever else the operating system would have said, the answer is LockTaken
    var r2 := Lockfile.Create(fs, p, Some(IoError(PermissionDenied, "denied")),
                              Some(IoError(PermissionDenied, "denied")));
    second := if r2.Failure? then Some(r2.error) else None;
    firstHeld := first.handle.Some? && first.handle.value in fs.handles
                 && fs.handles[first.handle.value] == p && fs.Exists(p);
    first.Drop(None);
  }

  /** Letting the lockfile go out of scope removes the file. */
  method DropRemovesFile(p: Path) returns (existsWhileHeld: bool, existsAfter: bool)
    requires p != []
    ensures existsWhileHeld && !existsAfter
  {
    var fs := new FileSystem();
    var r := Lockfile.Create(fs, p, None, None);
    var lockfile := r.value;
    existsWhileHeld := fs.Exists(p);
    lockfile.Drop(None);
    existsAfter := fs.Exists(p);
  }

  /** A plain file where the parent directory should be: `create` fails with an
      `Io` error of kind `AlreadyExists`, not with `LockTaken`. A plain file
      further up gives `NotADirectory`. */
  method ParentIsFile(name: string, lockName: string)
    returns (atParent: Option<Error>, aboveParent: Option<Error>)
    ensures atParent.Some? && atParent.value.Io?
    ensures atParent.value.inner.kind == AlreadyExists
    ensures aboveParent.Some? && aboveParent.value.Io?
    ensures aboveParent.value.inner.kind == NotADirectory
  {
    var fs := new FileSystem();
    assert [name][..0] == [];
    var other := fs.CreateNew([name], None);  // some other program's file
    assert [name, lockName][..1] == [name];
    assert fs.Blocked([name]) by { assert [name][..1] == [name]; }
    var r1 := Lockfile.Create(fs, [name, lockName], None, None);
    atParent := if r1.Failure? then Some(r1.error) else None;
    assert fs.Blocked([name, "sub"]) by { assert [name, "sub"][..1] == [name]; }
    assert [name, "sub", lockName][..2] == [name, "sub"];
    var r2 := Lockfile.Create(fs, [name, "sub", lockName], None, None);
    aboveParent := if r2.Failure? then Some(r2.error) else None;
  }

  /** A failed removal is reported by `release`, and the drop that follows does
      not try again: the file stays where it is. */
  method ReleaseReportsFailure(p: Path, e: IoError) returns (released: Outcome<IoError>, existsAfter: bool)
    requires p != []
    ensures released == Fail(e) && existsAfter
  {
    var fs := new FileSystem();
    var r := Lockfile.Create(fs, p, None, None);
    var lockfile := r.value;
    released := lockfile.Release(Some(e));
    lockfile.Drop(None);
    existsAfter := fs.Exists(p);
  }

  /** Someone else deleted the lock file: `release` reports `NotFound`. */
  method ReleaseAfterExternalRemoval(p: Path) returns (released: Outcome<IoError>)
    requires p != []
    ensures released.Fail? && released.error.kind == NotFound
  {
    var fs := new FileSystem();
    var r := Lockfile.Create(fs, p, None, None);
    var lockfile := r.value;
    var _ := fs.RemoveFile(p, None);
    released := lockfile.Release(None);
  }

  /** `release` consumes `a`, and `a` is dropped when `release` returns. Here
      `b` stands for another process that creates the lock file between the
      `remove_file` inside `release` and that drop: the drop does not remove
      `b`'s file, so each lockfile removes its file at most once. */
  method DropAfterReleaseSparesNextHolder(p: Path) returns (aHeld: bool, bHeld: bool)
    requires p != []
    ensures !aHeld && bHeld
  {
    var fs := new FileSystem();
    var ra := Lockfile.Create(fs, p, None, None);
    var a := ra.value;
    var _ := a.Release(None);
    var rb := Lockfile.Create(fs, p, None, None);
    var b := rb.value;
    a.Drop(None);
    aHeld := a.handle.Some?;
    bHeld := b.handle.Some? && b.handle.value in fs.handles
             && fs.handles[b.handle.value] == p && fs.Exists(p);
    b.Drop(None);
  }
}
