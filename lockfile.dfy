/** The `Lockfile` type: a lock that is held while a file exists at its path.
    `Create` takes the lock by creating the file with create-new semantics;
    `Release` and `Drop` give it up by removing the file. The handle is `Some`
    exactly while the lock is held, which is what makes the file be removed at
    most once per lockfile. */
module Lock {
  import opened Results
  import opened Errors
  import opened Fs

  class Lockfile {
    /** The open file; `None` once the lockfile has been released or dropped. */
    var handle: Option<HandleId>
    /** The path the lock was created at; it never changes. */
    const path: Path
    /** The filesystem the lock file lives in (the process's global
        filesystem, shared with every other lockfile and process). */
    const fs: FileSystem
    /** How many times this lockfile has asked for its file to be removed. */
    ghost var removals: nat

    /** The handle, while present, is an open handle on the lock's path, and
        the file has been asked to be removed exactly once after the handle is
        gone, never before. */
    ghost predicate Valid()
      reads this, fs
    {
      && fs.Valid()
      && path != []
      && (handle.Some? ==> handle.value in fs.handles && fs.handles[handle.value] == path)
      && removals == (if handle.Some? then 0 else 1)
    }

    /** The `Lockfile { handle: Some(lockfile), path }` value `create` returns. */
    constructor Held(fs: FileSystem, path: Path, h: HandleId)
      requires fs.Valid() && path != []
      requires h in fs.handles && fs.handles[h] == path
      ensures Valid()
      ensures this.fs == fs && this.path == path && handle == Some(h)
    {
      this.fs := fs;
      this.path := path;
      handle := Some(h);
      removals := 0;
    }

    /** `Lockfile::create`. The path must have a parent (`Path::parent` panics
        on the empty path). The parent directories are created first and their
        failure is returned as `Io`, whatever its kind; then the file is created
        with create-new semantics and its failure is classified by `FromIo`, so
        an existing path means `LockTaken`. No lockfile is returned on failure,
        and no file is created or opened. */
    static method Create(fs: FileSystem, path: Path, dirFault: Fault, openFault: Fault)
      returns (r: Result<Lockfile, Error>)
      requires fs.Valid()
      requires path != []
      modifies fs
      ensures fs.Valid()
      // the parent directories are created if necessary and skipped if present;
      // a blocked or refused directory creation adds none
      ensures fs.dirs == if old(fs.Blocked(Parent(path).value))
                            || (old(Parent(path).value !in fs.dirs) && dirFault.Some?)
                         then old(fs.dirs)
                         else old(fs.dirs) + Ancestors(Parent(path).value)
      ensures old(Parent(path).value in fs.dirs) ==> fs.dirs == old(fs.dirs)
      ensures r.Success? ==>
                && fresh(r.value) && r.value.Valid()
                && r.value.fs == fs && r.value.path == path && r.value.handle.Some?
                && !old(fs.Exists(path)) && path in fs.files
                && r.value.handle.value !in old(fs.handles)
                && fs.handles == old(fs.handles)[r.value.handle.value := path]
                && fs.files == old(fs.files) + {path}
      ensures r.Failure? ==> fs.files == old(fs.files) && fs.handles == old(fs.handles)
      // the lock is taken: the existing file is left alone and nothing changes
      ensures old(fs.Exists(path)) ==> r == Failure(LockTaken) && unchanged(fs)
      // a plain file where a parent directory should be is an `Io` error,
      // even when its kind is `AlreadyExists`
      ensures old(fs.Blocked(Parent(path).value)) ==>
                && r.Failure? && r.error.Io?
                && r.error.inner.kind == (if old(Parent(path).value in fs.files)
                                          then AlreadyExists else NotADirectory)
      // any refusal while creating the parent directories is returned as `Io`
      ensures old(Parent(path).value !in fs.dirs) && !old(fs.Blocked(Parent(path).value))
              && dirFault.Some?
              ==> r == Failure(Io(dirFault.value))
      // a refusal of the create-new open is classified by `FromIo`
      ensures !old(fs.Exists(path)) && !old(fs.Blocked(Parent(path).value))
              && (dirFault.None? || old(Parent(path).value in fs.dirs))
              && openFault.Some?
              ==> r == Failure(FromIo(openFault.value))
      // a fresh path whose parent can be created is locked
      ensures !old(fs.Exists(path)) && !old(fs.Blocked(Parent(path).value))
              && (dirFault.None? || old(Parent(path).value in fs.dirs)) && openFault.None?
              ==> r.Success?
      ensures r.Failure? && r.error.LockTaken? ==>
                old(fs.Exists(path)) || (openFault.Some? && openFault.value.kind == AlreadyExists)
    {
      var dir := Parent(path).value;
      assert fs.Exists(path) ==> dir in fs.dirs;
      var made := fs.CreateDirAll(dir, dirFault);
      if made.Fail? {
        return Failure(Io(made.error));
      }
      var file := fs.CreateNew(path, openFault);
      if file.Failure? {
        return Failure(FromIo(file.error));
      }
      var lockfile := new Lockfile.Held(fs, path, file.value);
      return Success(lockfile);
    }

    /** `Lockfile::path`: the path given to `create`, untouched. */
    function Path(): (p: Fs.Path)
      ensures p == path
    {
      path
    }

    /** `AsRef<Path> for Lockfile`: the same path `Path()` gives. */
    function AsRef(): (p: Fs.Path)
      ensures p == Path()
    {
      path
    }

    /** `Lockfile::release`: closes the handle, then removes the file and
        reports the outcome of the removal. The lockfile is consumed, so it is
        only ever called while the handle is present (otherwise the source
        panics with "handle already dropped"); the drop that ends it then finds
        no handle and removes nothing. */
    method Release(fault: Fault) returns (r: Outcome<IoError>)
      requires Valid() && handle.Some?
      modifies this, fs
      ensures Valid() && handle.None? && removals == 1
      ensures fs.dirs == old(fs.dirs) && fs.nextHandle == old(fs.nextHandle)
      ensures fs.handles == old(fs.handles) - {old(handle.value)}
      ensures fs.files == if r.Pass? then old(fs.files) - {path} else old(fs.files)
      ensures r.Pass? <==> old(path in fs.files) && fault.None?
      ensures r.Pass? ==> !fs.Exists(path)
      ensures r.Fail? ==> r.error == if old(path in fs.files) then fault.value
                                     else if path in fs.dirs then IoError(IsADirectory, "Is a directory")
                                     else IoError(NotFound, "No such file or directory")
    {
      var h := handle.value;
      handle := None;
      fs.Close(h);
      r := fs.RemoveFile(path, fault);
      removals := removals + 1;
    }

    /** `Drop for Lockfile`: if the handle is still present, closes it and
        removes the file; a failure to remove is only logged, never surfaced.
        Without a handle (after `release`) it does nothing at all. */
    method Drop(fault: Fault)
      requires Valid()
      modifies this, fs
      ensures Valid() && handle.None? && removals == 1
      ensures old(handle.None?) ==> unchanged(fs) && removals == old(removals)
      ensures old(handle.Some?) ==>
                && fs.handles == old(fs.handles) - {old(handle.value)}
                && fs.files == (if old(path in fs.files) && fault.None?
                                then old(fs.files) - {path} else old(fs.files))
                && fs.dirs == old(fs.dirs) && fs.nextHandle == old(fs.nextHandle)
    {
      if handle.Some? {
        var h := handle.value;
        handle := None;
        fs.Close(h);
        var _ := fs.RemoveFile(path, fault);
        removals := removals + 1;
      }
    }
  }
}
