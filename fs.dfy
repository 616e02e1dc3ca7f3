/** The filesystem the lock lives in, modelled abstractly: a set of directory
    paths, a set of file paths and the table of open file handles. A path is the
    sequence of its components below one fixed base directory; the empty path is
    that base directory, which always exists and has no parent.

    The primitives below stand for `fs::create_dir_all`, `OpenOptions::open`
    with create-new semantics, `fs::remove_file` and closing a `File`. Each
    decides the structural outcomes itself (the path exists, a parent is missing,
    an ancestor is a plain file); every other refusal by the operating system
    (permissions, a full disk, a device error) is the `fault` argument. */
module Fs {
  import opened Results
  import opened Errors

  type Path = seq<string>
  type HandleId = nat

  /** What the operating system answers to a call beyond the structural
      outcomes: `Some(e)` when it refuses the call with `e`, `None` otherwise. */
  type Fault = Option<IoError>

  /** `Path::parent`: `None` for the base directory, the path without its last
      component otherwise. */
  function Parent(p: Path): (r: Option<Path>)
    ensures r.None? <==> p == []
    ensures r.Some? ==> |r.value| + 1 == |p| && r.value == p[..|r.value|]
  {
    if p == [] then None else Some(p[..|p| - 1])
  }

  /** The path itself and every directory above it, down to the base. */
  function Ancestors(p: Path): (r: set<Path>)
    ensures p in r && [] in r
    ensures forall q :: q in r ==> |q| <= |p| && q == p[..|q|]
  {
    assert p[..|p|] == p && p[..0] == [];
    set i | 0 <= i <= |p| :: p[..i]
  }

  /** Every non-empty path in `s` has its parent in `dirs`. */
  ghost predicate ParentsIn(s: set<Path>, dirs: set<Path>)
  {
    forall q | q in s && q != [] :: q[..|q| - 1] in dirs
  }

  /** Adding all ancestors of a path to a directory tree keeps it a tree. */
  lemma AncestorsParentsIn(dirs: set<Path>, p: Path)
    requires ParentsIn(dirs, dirs)
    ensures ParentsIn(dirs + Ancestors(p), dirs + Ancestors(p))
  {
    forall q | q in dirs + Ancestors(p) && q != []
      ensures q[..|q| - 1] in dirs + Ancestors(p)
    {
      if q in Ancestors(p) {
        assert q == p[..|q|];
        assert q[..|q| - 1] == p[..|q| - 1];
      }
    }
  }

  /** Some ancestor of `dir`, or `dir` itself, is one of `files`. */
  predicate BlockedIn(files: set<Path>, dir: Path)
  {
    exists i | 0 <= i <= |dir| :: dir[..i] in files
  }

  /** Creating all ancestors of an unblocked path keeps files and directories
      apart and keeps the tree closed under parents. */
  lemma AddAncestorsKeepsTree(dirs: set<Path>, files: set<Path>, p: Path)
    requires dirs !! files && ParentsIn(dirs, dirs) && ParentsIn(files, dirs)
    requires !BlockedIn(files, p)
    ensures dirs + Ancestors(p) !! files
    ensures ParentsIn(dirs + Ancestors(p), dirs + Ancestors(p))
    ensures ParentsIn(files, dirs + Ancestors(p))
  {
    AncestorsParentsIn(dirs, p);
    forall q | q in Ancestors(p) ensures q !in files {
      assert q == p[..|q|];
    }
  }

  /** In a directory tree rooted at the base, every ancestor of a directory is
      a directory. */
  lemma {:induction false} DirAncestorsAreDirs(dirs: set<Path>, d: Path)
    requires [] in dirs && ParentsIn(dirs, dirs)
    requires d in dirs
    ensures Ancestors(d) <= dirs
    decreases |d|
  {
    if d != [] {
      var up := d[..|d| - 1];
      DirAncestorsAreDirs(dirs, up);
      forall q | q in Ancestors(d) ensures q in dirs {
        if |q| < |d| {
          assert q == up[..|q|];
        } else {
          assert q == d;
        }
      }
    }
  }

  class FileSystem {
    var dirs: set<Path>
    var files: set<Path>
    /** Open file handles and the path each was opened on. */
    var handles: map<HandleId, Path>
    /** The next handle the filesystem gives out; every handle below it has
        been given out already. */
    var nextHandle: HandleId

    /** A directory tree rooted at the base: no path is both a file and a
        directory, and every entry's parent is a directory. */
    ghost predicate Valid()
      reads this
    {
      && [] in dirs
      && dirs !! files
      && ParentsIn(dirs, dirs)
      && ParentsIn(files, dirs)
      && (forall h | h in handles :: h < nextHandle)
    }

    /** `fs::metadata(p).is_ok()`. */
    predicate Exists(p: Path)
      reads this
    {
      p in dirs || p in files
    }

    /** Some ancestor of `dir`, or `dir` itself, is a plain file, so `dir`
        cannot be made a directory. */
    predicate Blocked(dir: Path)
      reads this
    {
      BlockedIn(files, dir)
    }

    /** An empty filesystem: only the base directory. */
    constructor ()
      ensures Valid()
      ensures dirs == {[]} && files == {} && handles == map[]
    {
      dirs, files, handles, nextHandle := {[]}, {}, map[], 0;
    }

    /** `fs::create_dir_all(dir)`: an existing directory is found and nothing
        changes; a plain file at `dir` fails with `AlreadyExists`, a plain file
        above it with `NotADirectory`; otherwise `dir` and all its missing
        ancestors are created, unless the system refuses with `fault`. */
    method CreateDirAll(dir: Path, fault: Fault) returns (r: Outcome<IoError>)
      requires Valid()
      modifies this
      ensures Valid()
      ensures files == old(files) && handles == old(handles) && nextHandle == old(nextHandle)
      ensures dirs == if r.Pass? then old(dirs) + Ancestors(dir) else old(dirs)
      ensures old(dir in dirs) ==> r == Pass && unchanged(this)
      ensures old(dir in files) ==> r.Fail? && r.error.kind == AlreadyExists
      ensures old(Blocked(dir)) && old(dir !in files) ==> r.Fail? && r.error.kind == NotADirectory
      ensures old(dir !in dirs) && !old(Blocked(dir)) ==>
                r == if fault.Some? then Fail(fault.value) else Pass
      ensures r.Pass? ==> dir in dirs
    {
      if dir in dirs {
        DirAncestorsAreDirs(dirs, dir);
        return Pass;
      }
      assert dir[..|dir|] == dir;
      if Blocked(dir) {
        if dir in files {
          return Fail(IoError(AlreadyExists, "File exists"));
        }
        return Fail(IoError(NotADirectory, "Not a directory"));
      }
      if fault.Some? {
        return Fail(fault.value);
      }
      AddAncestorsKeepsTree(dirs, files, dir);
      dirs := dirs + Ancestors(dir);
      return Pass;
    }

    /** `OpenOptions::new().create_new(true).read(true).write(true).open(p)`:
        fails with `AlreadyExists` when anything is at `p`, fails when the
        parent is not a directory, and otherwise creates the file and opens a
        new handle on it, unless the system refuses with `fault`. */
    method CreateNew(p: Path, fault: Fault) returns (r: Result<HandleId, IoError>)
      requires Valid()
      modifies this
      ensures Valid()
      ensures dirs == old(dirs)
      ensures old(Exists(p)) ==> r.Failure? && r.error.kind == AlreadyExists
      ensures !old(Exists(p)) && p[..|p| - 1] in dirs ==>
                (r.Success? <==> fault.None?)
      ensures !old(Exists(p)) && p[..|p| - 1] in dirs && fault.Some? ==>
                r == Failure(fault.value)
      ensures r.Success? ==>
                && !old(Exists(p))
                && r.value == old(nextHandle) && r.value !in old(handles)
                && files == old(files) + {p}
                && handles == old(handles)[r.value := p]
                && nextHandle == old(nextHandle) + 1
      ensures r.Failure? ==> unchanged(this)
    {
      if Exists(p) {
        return Failure(IoError(AlreadyExists, "File exists"));
      }
      assert p != [];
      var parent := p[..|p| - 1];
      if parent !in dirs {
        if parent in files {
          return Failure(IoError(NotADirectory, "Not a directory"));
        }
        return Failure(IoError(NotFound, "No such file or directory"));
      }
      if fault.Some? {
        return Failure(fault.value);
      }
      var h := nextHandle;
      files := files + {p};
      handles := handles[h := p];
      nextHandle := nextHandle + 1;
      return Success(h);
    }

    /** Dropping a `File`: its handle is closed. Closing never fails in a way
        the caller sees. */
    method Close(h: HandleId)
      requires Valid()
      requires h in handles
      modifies this
      ensures Valid()
      ensures dirs == old(dirs) && files == old(files) && nextHandle == old(nextHandle)
      ensures handles == old(handles) - {h}
    {
      handles := handles - {h};
    }

    /** `fs::remove_file(p)`: a file is unlinked, unless the system refuses
        with `fault`; a directory gives `IsADirectory`; nothing at `p` gives
        `NotFound`. Open handles are not affected. */
    method RemoveFile(p: Path, fault: Fault) returns (r: Outcome<IoError>)
      requires Valid()
      modifies this
      ensures Valid()
      ensures dirs == old(dirs) && handles == old(handles) && nextHandle == old(nextHandle)
      ensures files == if r.Pass? then old(files) - {p} else old(files)
      ensures r.Pass? <==> old(p in files) && fault.None?
      ensures r.Fail? ==> r.error == if old(p in files) then fault.value
                                     else if p in dirs then IoError(IsADirectory, "Is a directory")
                                     else IoError(NotFound, "No such file or directory")
    {
      if p in files {
        if fault.Some? {
          return Fail(fault.value);
        }
        files := files - {p};
        return Pass;
      }
      if p in dirs {
        return Fail(IoError(IsADirectory, "Is a directory"));
      }
      return Fail(IoError(NotFound, "No such file or directory"));
    }
  }
}
