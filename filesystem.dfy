/** The abstract filesystem the programs act on: regular files holding
    bytes, a set of directories, and the lines printed to standard output.
    The library calls that change it (os.makedirs, shutil.copy, Path.unlink,
    open(..., "wb")) are specified here by pure functions on a snapshot, and
    performed by the methods of class Disk. */
module FileSystem {
  import opened Paths

  newtype byte = x: int | 0 <= x < 256
  type Bytes = seq<byte>

  datatype ErrorKind = FileNotFound | FileExists | IsADirectory | NotADirectory | SameFile

  /** An exception that ends a work item: an OSError on a path, sys.exit, a
      subprocess run with check=True that exited non-zero, or an exception
      that is not an OSError raised while decoding the file at `path`. */
  datatype Error =
    | OsError(kind: ErrorKind, path: Path)
    | SystemExit(code: int)
    | CalledProcessError(path: Path)
    | DecodeError(path: Path)

  datatype Outcome = Ok | Raised(error: Error)

  datatype State = State(files: map<Path, Bytes>, dirs: set<Path>, out: seq<string>)

  /** A tree-shaped filesystem: nothing is both a file and a directory, the
      root is a directory, and every ancestor of a file is a directory. */
  ghost predicate Valid(st: State) {
    && st.files.Keys !! st.dirs
    && [] in st.dirs
    && forall p, k | p in st.files && 0 <= k < |p| :: p[..k] in st.dirs
  }

  predicate Exists(st: State, p: Path) {
    p in st.files || p in st.dirs
  }

  /** The path and all its ancestors, the root included. */
  function Prefixes(p: Path): (r: set<Path>)
    ensures forall q :: q in r <==> IsPrefix(q, p)
  {
    var r := set k | 0 <= k <= |p| :: p[..k];
    assert forall q :: IsPrefix(q, p) ==> q == p[..|q|] && q in r;
    r
  }

  /** The error for a path that does not exist: NotADirectory when one of
      its ancestors is a regular file, FileNotFound otherwise. */
  function MissingKind(st: State, p: Path): (k: ErrorKind)
    ensures k == NotADirectory <==> exists j :: 0 < j < |p| && p[..j] in st.files
    ensures k == FileNotFound || k == NotADirectory
  {
    if exists j :: 0 < j < |p| && p[..j] in st.files then NotADirectory else FileNotFound
  }

  /** os.makedirs(p, exist_ok=True): creates `p` and its missing ancestors;
      fails when `p` or one of its ancestors is a regular file. */
  function MakeDirsSpec(st: State, p: Path): (State, Outcome) {
    if p in st.files then (st, Raised(OsError(FileExists, p)))
    else if exists k :: 0 < k < |p| && p[..k] in st.files then (st, Raised(OsError(NotADirectory, p)))
    else (st.(dirs := st.dirs + Prefixes(p)), Ok)
  }

  /** The path shutil.copy(src, dst) writes: into `dst` when it is a
      directory, under the source file's own name. */
  function CopyDestination(st: State, src: Path, dst: Path): Path {
    if dst in st.dirs then dst + [LastName(src)] else dst
  }

  /** shutil.copy(src, dst), file bytes only. */
  function CopySpec(st: State, src: Path, dst: Path): (State, Outcome) {
    var target := CopyDestination(st, src, dst);
    if src !in st.files then
      (st, Raised(OsError(if src in st.dirs then IsADirectory else MissingKind(st, src), src)))
    else if target == src then (st, Raised(OsError(SameFile, target)))
    else WriteSpec(st, target, st.files[src])
  }

  /** open(p, "wb") followed by writing `data`. */
  function WriteSpec(st: State, p: Path, data: Bytes): (State, Outcome) {
    if p in st.dirs then (st, Raised(OsError(IsADirectory, p)))
    else if Parent(p) !in st.dirs then (st, Raised(OsError(MissingKind(st, p), p)))
    else (st.(files := st.files[p := data]), Ok)
  }

  /** Path.unlink(): removes a regular file; a directory or a missing path is an error. */
  function UnlinkSpec(st: State, p: Path): (State, Outcome) {
    if p in st.files then (st.(files := st.files - {p}), Ok)
    else (st, Raised(OsError(if p in st.dirs then IsADirectory else MissingKind(st, p), p)))
  }

  /** Path.mkdir(parents=False, exist_ok=True). */
  function MkdirSpec(st: State, p: Path): (State, Outcome) {
    if p in st.dirs then (st, Ok)
    else if p in st.files then (st, Raised(OsError(FileExists, p)))
    else if Parent(p) !in st.dirs then (st, Raised(OsError(MissingKind(st, p), p)))
    else (st.(dirs := st.dirs + {p}), Ok)
  }

  function PrintSpec(st: State, line: string): State {
    st.(out := st.out + [line])
  }

  /** Only a successful write changes the files, and only at the written path. */
  lemma WriteFrame(st: State, p: Path, data: Bytes)
    ensures var (st', o) := WriteSpec(st, p, data);
      && st'.dirs == st.dirs && st'.out == st.out
      && (o == Ok <==> p !in st.dirs && Parent(p) in st.dirs)
      && st'.files == (if o == Ok then st.files[p := data] else st.files)
  {
  }

  class Disk {
    var files: map<Path, Bytes>
    var dirs: set<Path>
    var out: seq<string>

    function Snapshot(): State
      reads this
    {
      State(files, dirs, out)
    }

    method Print(line: string)
      modifies this
      ensures Snapshot() == PrintSpec(old(Snapshot()), line)
    {
      out := out + [line];
    }

    method MakeDirs(p: Path) returns (o: Outcome)
      modifies this
      ensures (Snapshot(), o) == MakeDirsSpec(old(Snapshot()), p)
    {
      if p in files {
        o := Raised(OsError(FileExists, p));
      } else if exists k :: 0 < k < |p| && p[..k] in files {
        o := Raised(OsError(NotADirectory, p));
      } else {
        dirs := dirs + Prefixes(p);
        o := Ok;
      }
    }

    method Write(p: Path, data: Bytes) returns (o: Outcome)
      modifies this
      ensures (Snapshot(), o) == WriteSpec(old(Snapshot()), p, data)
    {
      if p in dirs {
        o := Raised(OsError(IsADirectory, p));
      } else if Parent(p) !in dirs {
        o := Raised(OsError(MissingKind(Snapshot(), p), p));
      } else {
        files := files[p := data];
        o := Ok;
      }
    }

    method Copy(src: Path, dst: Path) returns (o: Outcome)
      modifies this
      ensures (Snapshot(), o) == CopySpec(old(Snapshot()), src, dst)
    {
      var target := if dst in dirs then dst + [LastName(src)] else dst;
      if src !in files {
        o := Raised(OsError(if src in dirs then IsADirectory else MissingKind(Snapshot(), src), src));
      } else if target == src {
        o := Raised(OsError(SameFile, target));
      } else {
        o := Write(target, files[src]);
      }
    }

    method Unlink(p: Path) returns (o: Outcome)
      modifies this
      ensures (Snapshot(), o) == UnlinkSpec(old(Snapshot()), p)
    {
      if p in files {
        files := files - {p};
        o := Ok;
      } else {
        o := Raised(OsError(if p in dirs then IsADirectory else MissingKind(Snapshot(), p), p));
      }
    }

    /** The effect of an external program on the tree, given as the state it
        leaves behind. */
    method Become(st: State)
      modifies this
      ensures Snapshot() == st
    {
      files, dirs, out := st.files, st.dirs, st.out;
    }

    method Mkdir(p: Path) returns (o: Outcome)
      modifies this
      ensures (Snapshot(), o) == MkdirSpec(old(Snapshot()), p)
    {
      if p in dirs {
        o := Ok;
      } else if p in files {
        o := Raised(OsError(FileExists, p));
      } else if Parent(p) !in dirs {
        o := Raised(OsError(MissingKind(Snapshot(), p), p));
      } else {
        dirs := dirs + {p};
        o := Ok;
      }
    }
  }
}
