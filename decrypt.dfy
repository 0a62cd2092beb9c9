/** The decryptor (src/decrypt_gpg/decrypt.py): walks a source tree in
    sorted order, decrypts every `.gpg` file with gpg, copies every other
    file, unpacks `.tgz`/`.tar.gz`/`.tar` archives with tar and `.gz` files
    with gzip, and mirrors the tree under an output directory.

    gpg, tar and the gzip decoder are external: they reach the model as the
    fields of a `Tools` value.  The directory listing that `iterdir` and
    `is_dir` produce is given as a `Node` tree. */
module Decrypt {
  import opened Paths
  import opened FileSystem

  // ---------------------------------------------------------------------
  // pathlib.Path as the program builds it: relative or absolute
  // ---------------------------------------------------------------------

  /** A pathlib path before it is resolved against the working directory. */
  datatype PurePath = PurePath(absolute: bool, parts: seq<Name>)

  /** `a / b`: an absolute right-hand side replaces the left-hand side. */
  function PJoin(a: PurePath, b: PurePath): (r: PurePath)
    ensures b.absolute ==> r == b
    ensures !b.absolute ==> r.absolute == a.absolute && r.parts == a.parts + b.parts
  {
    if b.absolute then b else PurePath(a.absolute, a.parts + b.parts)
  }

  /** `a / n` for one name; joining "" leaves the path unchanged. */
  function PJoinName(a: PurePath, n: Name): (r: PurePath)
    ensures r.absolute == a.absolute
    ensures n == "" ==> r == a
    ensures n != "" ==> r.parts == a.parts + [n]
  {
    PurePath(a.absolute, Join(a.parts, n))
  }

  /** The directory-entry path `src_dir / name` that iterdir yields. */
  function Child(dir: PurePath, n: Name): PurePath {
    PJoinName(dir, n)
  }

  /** The path the operating system opens, given the working directory. */
  function Resolve(cwd: Path, p: PurePath): Path {
    if p.absolute then p.parts else cwd + p.parts
  }

  /** str(p): "." for the empty relative path. */
  function RenderPure(p: PurePath): string {
    if p.absolute then Render(p.parts)
    else if p.parts == [] then "."
    else RenderRelative(p.parts)
  }

  function RenderRelative(parts: seq<Name>): string
    requires parts != []
  {
    if |parts| == 1 then parts[0] else parts[0] + "/" + RenderRelative(parts[1..])
  }

  // ---------------------------------------------------------------------
  // Names
  // ---------------------------------------------------------------------

  /** The name a decrypted file gets: `filename[:-4]` for a `.gpg` file. */
  function DecryptedName(filename: Name): (r: Name)
    ensures EndsWith(filename, ".gpg") ==> r + ".gpg" == filename
    ensures !EndsWith(filename, ".gpg") ==> r == filename
  {
    if EndsWith(filename, ".gpg") then filename[..|filename| - 4] else filename
  }

  /** Path.with_suffix(""): the same directory, the name without its suffix. */
  function WithoutSuffix(p: Path): (r: Path)
    ensures p != [] ==> Parent(r) == Parent(p) && LastName(r) == Stem(LastName(p))
  {
    if p == [] then [] else Parent(p) + [Stem(LastName(p))]
  }

  /** What handle_archive does with a file, in the order handle_archive tests them. */
  datatype ArchiveKind = TarGz | Tar | Gz | Plain

  function KindOf(name: Name): ArchiveKind {
    var suffix := Suffix(name);
    if suffix == ".tgz" || EndsWith(name, ".tar.gz") then TarGz
    else if suffix == ".tar" then Tar
    else if suffix == ".gz" then Gz
    else Plain
  }

  // ---------------------------------------------------------------------
  // The external tools
  // ---------------------------------------------------------------------

  /** How reading a gzip stream ended: completely, with BadGzipFile (an
      OSError), or with EOFError or zlib.error (which are not OSErrors). */
  datatype GzStatus = Complete | BadGzip | Undecodable

  /** The bytes shutil.copyfileobj wrote before the stream ended, and how it ended. */
  datatype Inflated = Inflated(data: Bytes, status: GzStatus)

  /** The bytes gpg wrote to its standard output, and whether it exited
      with status 0.  A failing run may have written part of the plaintext. */
  datatype Decrypted = Decrypted(data: Bytes, ok: bool)

  /** gpg: passphrase and ciphertext to what it writes and how it exits.
      tar: the tree, the working directory, the archive name and
      whether it is gzip-compressed, to the tree it leaves or None for a
      non-zero exit.  gunzip: the decoder behind gzip.open. */
  datatype Tools = Tools(
    gpg: (string, Bytes) -> Decrypted,
    tar: (State, Path, Name, bool) -> Option<State>,
    gunzip: Bytes -> Inflated)

  // ---------------------------------------------------------------------
  // Specifications of the per-file steps
  // ---------------------------------------------------------------------

  function FailedToDecompress(p: Path): string {
    "\nFailed to decompress " + Render(p)
  }

  function ErrorDecrypting(p: Path): string {
    "\nError decrypting " + Render(p)
  }

  /** extract_gz: open the input, open the output for writing, copy the
      decoded stream, then unlink the input; every OSError prints a message
      and exits with status 1. */
  function ExtractGzSpec(st: State, p: Path, T: Tools): (State, Outcome) {
    var outPath := WithoutSuffix(p);
    if p !in st.files then (PrintSpec(st, FailedToDecompress(p)), Raised(SystemExit(1)))
    else
      var (st1, o1) := WriteSpec(st, outPath, []);
      if o1.Raised? then (PrintSpec(st1, FailedToDecompress(p)), Raised(SystemExit(1)))
      else
        var r := T.gunzip(st1.files[p]);
        var st2 := WriteSpec(st1, outPath, r.data).0;
        match r.status
        case BadGzip => (PrintSpec(st2, FailedToDecompress(p)), Raised(SystemExit(1)))
        case Undecodable => (st2, Raised(DecodeError(p)))
        case Complete =>
          var (st3, o3) := UnlinkSpec(st2, p);
          if o3.Raised? then (PrintSpec(st3, FailedToDecompress(p)), Raised(SystemExit(1)))
          else (st3, Ok)
  }

  /** `tar x[z]f name` run in `wd`, then unlink of the archive `p`. */
  function UntarSpec(st: State, wd: Path, name: Name, gz: bool, p: Path, T: Tools): (State, Outcome) {
    match T.tar(st, wd, name, gz)
    case None => (st, Raised(CalledProcessError(p)))
    case Some(st1) => UnlinkSpec(st1.(out := st.out), p)
  }

  /** handle_archive(file_path, working_dir). */
  function HandleArchiveSpec(st: State, cwd: Path, filePath: PurePath, workingDir: PurePath, T: Tools): (State, Outcome) {
    var name := LastName(filePath.parts);
    var p := Resolve(cwd, filePath);
    match KindOf(name)
    case TarGz => UntarSpec(st, Resolve(cwd, workingDir), name, true, p, T)
    case Tar => UntarSpec(st, Resolve(cwd, workingDir), name, false, p, T)
    case Gz => ExtractGzSpec(st, p, T)
    case Plain => (st, Ok)
  }

  /** Decryptor.decrypt_gpg_file: the output is opened (and so created
      empty) before gpg runs and receives whatever gpg writes; a gpg failure
      then prints and exits with status 1.  gpg cannot open a missing input
      and writes nothing. */
  function DecryptGpgFileSpec(st: State, src: Path, dest: Path, pw: string, T: Tools): (State, Outcome) {
    var (st1, o1) := WriteSpec(st, dest, []);
    if o1.Raised? then (st1, o1)
    else
      var r := if src in st1.files then T.gpg(pw, st1.files[src]) else Decrypted([], false);
      var st2 := WriteSpec(st1, dest, r.data).0;
      if r.ok then (st2, Ok)
      else (PrintSpec(st2, ErrorDecrypting(src)), Raised(SystemExit(1)))
  }

  /** Where process_file puts an entry: its name, less ".gpg" when it has
      that ending, inside `targetDir`. */
  function TargetPath(entry: PurePath, targetDir: PurePath): PurePath {
    PJoinName(targetDir, DecryptedName(LastName(entry.parts)))
  }

  /** The first half of process_file: decrypt a `.gpg` entry, copy any other. */
  function FetchSpec(st: State, cwd: Path, entry: PurePath, targetDir: PurePath, pw: string, T: Tools): (State, Outcome) {
    if EndsWith(LastName(entry.parts), ".gpg") then
      DecryptGpgFileSpec(st, Resolve(cwd, entry), Resolve(cwd, TargetPath(entry, targetDir)), pw, T)
    else CopySpec(st, Resolve(cwd, entry), Resolve(cwd, TargetPath(entry, targetDir)))
  }

  /** The second half: unpack the result, then print a progress dot. */
  function FinishSpec(st: State, cwd: Path, targetPath: PurePath, targetDir: PurePath, T: Tools): (State, Outcome) {
    var (st2, o2) := HandleArchiveSpec(st, cwd, targetPath, targetDir, T);
    if o2.Raised? then (st2, o2) else (PrintSpec(st2, "."), Ok)
  }

  /** Decryptor.process_file. */
  function ProcessFileSpec(st: State, cwd: Path, entry: PurePath, targetDir: PurePath, pw: string, T: Tools): (State, Outcome) {
    var (st1, o1) := FetchSpec(st, cwd, entry, targetDir, pw, T);
    if o1.Raised? then (st1, o1) else FinishSpec(st1, cwd, TargetPath(entry, targetDir), targetDir, T)
  }

  /** Decryptor.process_files: every file is processed; the first error
      (in list order) is the one re-raised. */
  function ProcessFilesFrom(st: State, first: Outcome, cwd: Path, files: seq<PurePath>, targetDir: PurePath, pw: string, T: Tools): (State, Outcome)
    decreases |files|
  {
    if files == [] then (st, first)
    else
      var (st1, o) := ProcessFileSpec(st, cwd, files[0], targetDir, pw, T);
      ProcessFilesFrom(st1, if first.Raised? then first else o, cwd, files[1..], targetDir, pw, T)
  }

  // ---------------------------------------------------------------------
  // The directory listing and the order of the walk
  // ---------------------------------------------------------------------

  /** What iterdir and is_dir report, as a tree. */
  datatype Node = FileNode(name: Name) | DirNode(name: Name, children: seq<Node>)

  /** The listing `node` is what iterdir and is_dir report for the path `p`
      in the state `st`: it is a directory exactly when `p` is one, and then
      its entries have distinct non-empty names, each an existing entry of
      `st` listed in turn, and every entry of `st` directly below `p` is
      among them. */
  ghost predicate ListingOf(st: State, p: Path, node: Node)
    decreases node
  {
    && (node.DirNode? <==> p in st.dirs)
    && (node.DirNode? ==>
        && (forall i, j :: 0 <= i < j < |node.children| ==> node.children[i].name != node.children[j].name)
        && (forall c :: c in node.children ==> c.name != "" && Exists(st, p + [c.name]) && ListingOf(st, p + [c.name], c))
        && (forall q :: Exists(st, q) && StrictlyUnder(q, p) && |q| == |p| + 1 ==> exists c :: c in node.children && q == p + [c.name]))
  }

  predicate Hidden(n: Node) {
    StartsWith(n.name, ".")
  }

  /** The entries recurse keeps: those whose name does not start with ".". */
  function Visible(ns: seq<Node>): (r: seq<Node>)
    ensures forall x :: x in r <==> x in ns && !Hidden(x)
  {
    if ns == [] then []
    else if Hidden(ns[0]) then Visible(ns[1..])
    else [ns[0]] + Visible(ns[1..])
  }

  /** Python's `<` on str: lexicographic by code point. */
  predicate Before(a: string, b: string)
    decreases |a|
  {
    if a == [] then b != []
    else if b == [] then false
    else if a[0] != b[0] then a[0] < b[0]
    else Before(a[1..], b[1..])
  }

  lemma {:induction false} BeforeAsymmetric(a: string, b: string)
    ensures Before(a, b) ==> !Before(b, a)
    decreases |a|
  {
    if a != [] && b != [] && a[0] == b[0] {
      BeforeAsymmetric(a[1..], b[1..]);
    }
  }

  predicate NameLe(a: Node, b: Node) {
    !Before(b.name, a.name)
  }

  predicate SortedByName(s: seq<Node>) {
    forall i :: 0 <= i < |s| - 1 ==> NameLe(s[i], s[i + 1])
  }

  function Insert(x: Node, s: seq<Node>): (r: seq<Node>)
    requires SortedByName(s)
    ensures SortedByName(r)
    ensures multiset(r) == multiset(s) + multiset{x}
    ensures |r| == |s| + 1
    ensures r[0] == x || (s != [] && r[0] == s[0])
  {
    if s == [] then [x]
    else if NameLe(x, s[0]) then [x] + s
    else
      BeforeAsymmetric(s[0].name, x.name);
      var t := Insert(x, s[1..]);
      assert s == [s[0]] + s[1..];
      [s[0]] + t
  }

  /** sorted(): for entries of one directory, Path order is name order. */
  function SortByName(s: seq<Node>): (r: seq<Node>)
    ensures SortedByName(r)
    ensures multiset(r) == multiset(s)
  {
    if s == [] then []
    else
      assert s == [s[0]] + s[1..];
      Insert(s[0], SortByName(s[1..]))
  }

  /** The sorted, visible entries of a directory. */
  function Entries(node: Node): (r: seq<Node>)
    requires node.DirNode?
    ensures SortedByName(r)
    ensures forall x :: x in r <==> x in node.children && !Hidden(x)
  {
    var r := SortByName(Visible(node.children));
    assert forall x :: x in r <==> x in multiset(r);
    r
  }

  /** The file entries, in order, as paths below `dir`. */
  function FilesOf(dir: PurePath, es: seq<Node>): (r: seq<PurePath>)
    ensures |r| <= |es|
  {
    if es == [] then []
    else if es[0].DirNode? then FilesOf(dir, es[1..])
    else [Child(dir, es[0].name)] + FilesOf(dir, es[1..])
  }

  /** The directory entries, in order. */
  function SubdirsOf(es: seq<Node>): (r: seq<Node>)
    ensures forall x :: x in r <==> x in es && x.DirNode?
  {
    if es == [] then []
    else if es[0].DirNode? then [es[0]] + SubdirsOf(es[1..])
    else SubdirsOf(es[1..])
  }

  /** One call of recurse: the directory, whether it is one, the files it
      hands to process_files, and whether the caller printed a blank line
      before the call. */
  datatype Visit = Visit(dir: PurePath, isDir: bool, files: seq<PurePath>, sep: bool)

  /** The calls of recurse, in the order they happen, starting at `dir`. */
  function Visits(node: Node, dir: PurePath, sep: bool): (r: seq<Visit>)
    ensures r != [] && r[0].dir == dir && r[0].sep == sep
    decreases node, 1, 0
  {
    if node.FileNode? then [Visit(dir, false, [], sep)]
    else
      var es := Entries(node);
      [Visit(dir, true, FilesOf(dir, es), sep)] + VisitsBelow(node, SubdirsOf(es), dir)
  }

  /** The calls made for `subs`, each preceded by a blank line. */
  function VisitsBelow(parent: Node, subs: seq<Node>, dir: PurePath): seq<Visit>
    requires parent.DirNode?
    requires forall s :: s in subs ==> s in parent.children
    decreases parent, 0, |subs|
  {
    if subs == [] then []
    else
      assert subs[0] in parent.children;
      Visits(subs[0], Child(dir, subs[0].name), true) + VisitsBelow(parent, subs[1..], dir)
  }

  /** The effect of one recurse call, not counting the calls it makes. */
  function RunVisit(st: State, cwd: Path, v: Visit, decRoot: PurePath, pw: string, T: Tools): (State, Outcome) {
    var st0 := if v.sep then PrintSpec(st, "") else st;
    var st1 := PrintSpec(st0, RenderPure(v.dir));
    if !v.isDir then (PrintSpec(st1, "\nSkipping non-directory: " + RenderPure(v.dir)), Ok)
    else
      var target := PJoin(decRoot, v.dir);
      var (st2, o2) := MakeDirsSpec(st1, Resolve(cwd, target));
      if o2.Raised? then (st2, o2)
      else ProcessFilesFrom(st2, Ok, cwd, v.files, target, pw, T)
  }

  /** The calls run in order; the first exception ends the walk. */
  function RunVisits(st: State, cwd: Path, vs: seq<Visit>, decRoot: PurePath, pw: string, T: Tools): (State, Outcome)
    decreases |vs|
  {
    if vs == [] then (st, Ok)
    else
      var (st1, o1) := RunVisit(st, cwd, vs[0], decRoot, pw, T);
      if o1.Raised? then (st1, o1) else RunVisits(st1, cwd, vs[1..], decRoot, pw, T)
  }

  lemma {:induction false} RunVisitsAppend(st: State, cwd: Path, a: seq<Visit>, b: seq<Visit>, decRoot: PurePath, pw: string, T: Tools)
    ensures RunVisits(st, cwd, a + b, decRoot, pw, T) ==
      var (m, om) := RunVisits(st, cwd, a, decRoot, pw, T);
      if om.Raised? then (m, om) else RunVisits(m, cwd, b, decRoot, pw, T)
    decreases |a|
  {
    if a == [] {
      assert a + b == b;
    } else {
      assert (a + b)[1..] == a[1..] + b;
      var (st1, o1) := RunVisit(st, cwd, a[0], decRoot, pw, T);
      if !o1.Raised? {
        RunVisitsAppend(st1, cwd, a[1..], b, decRoot, pw, T);
      }
    }
  }

  /** A blank line printed by the caller is the same as the `sep` flag. */
  lemma SeparatorFirst(st: State, cwd: Path, node: Node, dir: PurePath, decRoot: PurePath, pw: string, T: Tools)
    ensures RunVisits(st, cwd, Visits(node, dir, true), decRoot, pw, T)
         == RunVisits(PrintSpec(st, ""), cwd, Visits(node, dir, false), decRoot, pw, T)
  {
    var vt := Visits(node, dir, true);
    var vf := Visits(node, dir, false);
    assert vt[1..] == vf[1..];
    assert RunVisit(st, cwd, vt[0], decRoot, pw, T) == RunVisit(PrintSpec(st, ""), cwd, vf[0], decRoot, pw, T);
  }

  /** main: check the base directory, build the Decryptor (prompting for the
      password), create the output directory, walk, and report the time. */
  function RunSpec(st: State, cwd: Path, baseDir: PurePath, output: PurePath, typed: Option<string>, listing: Node, T: Tools): (State, Outcome) {
    RunWith(st, cwd, baseDir, output, typed, Visits(listing, baseDir, false), T)
  }

  /** main, for a walk made of the calls `vs`. */
  function RunWith(st: State, cwd: Path, baseDir: PurePath, output: PurePath, typed: Option<string>, vs: seq<Visit>, T: Tools): (State, Outcome) {
    if Resolve(cwd, baseDir) !in st.dirs then
      (PrintSpec(st, "Error: '" + RenderPure(baseDir) + "' is not a valid directory."), Raised(SystemExit(1)))
    else match typed
      case None => (PrintSpec(st, "\n"), Raised(SystemExit(1)))
      case Some(pw) =>
        var (st1, o1) := MkdirSpec(st, Resolve(cwd, output));
        if o1.Raised? then (st1, o1)
        else
          var (st2, o2) := RunVisits(st1, cwd, vs, output, pw, T);
          if o2.Raised? then (st2, o2) else (PrintSpec(st2, "\ntook"), Ok)
  }

  // ---------------------------------------------------------------------
  // The program
  // ---------------------------------------------------------------------

  method ExtractGz(disk: Disk, p: Path, T: Tools) returns (o: Outcome)
    modifies disk
    ensures (disk.Snapshot(), o) == ExtractGzSpec(old(disk.Snapshot()), p, T)
  {
    var outPath := WithoutSuffix(p);
    if p !in disk.files {
      disk.Print(FailedToDecompress(p));
      return Raised(SystemExit(1));
    }
    o := disk.Write(outPath, []);
    if o.Raised? {
      disk.Print(FailedToDecompress(p));
      return Raised(SystemExit(1));
    }
    var r := T.gunzip(disk.files[p]);
    o := disk.Write(outPath, r.data);
    match r.status
    case BadGzip =>
      disk.Print(FailedToDecompress(p));
      o := Raised(SystemExit(1));
    case Undecodable =>
      o := Raised(DecodeError(p));
    case Complete =>
      o := disk.Unlink(p);
      if o.Raised? {
        disk.Print(FailedToDecompress(p));
        o := Raised(SystemExit(1));
      }
  }

  method Finish(disk: Disk, cwd: Path, targetPath: PurePath, targetDir: PurePath, T: Tools) returns (o: Outcome)
    modifies disk
    ensures (disk.Snapshot(), o) == FinishSpec(old(disk.Snapshot()), cwd, targetPath, targetDir, T)
  {
    o := HandleArchive(disk, cwd, targetPath, targetDir, T);
    if o.Raised? {
      return;
    }
    disk.Print(".");
  }

  method Untar(disk: Disk, wd: Path, name: Name, gz: bool, p: Path, T: Tools) returns (o: Outcome)
    modifies disk
    ensures (disk.Snapshot(), o) == UntarSpec(old(disk.Snapshot()), wd, name, gz, p, T)
  {
    var r := T.tar(disk.Snapshot(), wd, name, gz);
    if r.None? {
      return Raised(CalledProcessError(p));
    }
    disk.Become(r.value.(out := disk.out));
    o := disk.Unlink(p);
  }

  method HandleArchive(disk: Disk, cwd: Path, filePath: PurePath, workingDir: PurePath, T: Tools) returns (o: Outcome)
    modifies disk
    ensures (disk.Snapshot(), o) == HandleArchiveSpec(old(disk.Snapshot()), cwd, filePath, workingDir, T)
  {
    var name := LastName(filePath.parts);
    var p := Resolve(cwd, filePath);
    match KindOf(name)
    case TarGz =>
      o := Untar(disk, Resolve(cwd, workingDir), name, true, p, T);
    case Tar =>
      o := Untar(disk, Resolve(cwd, workingDir), name, false, p, T);
    case Gz =>
      o := ExtractGz(disk, p, T);
    case Plain =>
      o := Ok;
  }

  class Decryptor {
    var password: string

    constructor (password: string)
      ensures this.password == password
    {
      this.password := password;
    }

    /** getpass; None stands for a KeyboardInterrupt at the prompt. */
    method PromptForPassword(disk: Disk, typed: Option<string>) returns (o: Outcome)
      modifies this, disk
      ensures typed.Some? ==> o == Ok && password == typed.value && disk.Snapshot() == old(disk.Snapshot())
      ensures typed.None? ==> o == Raised(SystemExit(1)) && disk.Snapshot() == PrintSpec(old(disk.Snapshot()), "\n")
    {
      match typed
      case Some(pw) =>
        password := pw;
        o := Ok;
      case None =>
        disk.Print("\n");
        o := Raised(SystemExit(1));
    }

    method DecryptGpgFile(disk: Disk, src: Path, dest: Path, T: Tools) returns (o: Outcome)
      modifies disk
      ensures (disk.Snapshot(), o) == DecryptGpgFileSpec(old(disk.Snapshot()), src, dest, password, T)
    {
      o := disk.Write(dest, []);
      if o.Raised? {
        return;
      }
      var r := if src in disk.files then T.gpg(password, disk.files[src]) else Decrypted([], false);
      o := disk.Write(dest, r.data);
      if !r.ok {
        disk.Print(ErrorDecrypting(src));
        return Raised(SystemExit(1));
      }
      o := Ok;
    }

    method ProcessFile(disk: Disk, cwd: Path, entry: PurePath, targetDir: PurePath, T: Tools) returns (o: Outcome)
      modifies disk
      ensures (disk.Snapshot(), o) == ProcessFileSpec(old(disk.Snapshot()), cwd, entry, targetDir, password, T)
    {
      o := Fetch(disk, cwd, entry, targetDir, T);
      if o.Raised? {
        return;
      }
      o := Finish(disk, cwd, TargetPath(entry, targetDir), targetDir, T);
    }

    method Fetch(disk: Disk, cwd: Path, entry: PurePath, targetDir: PurePath, T: Tools) returns (o: Outcome)
      modifies disk
      ensures (disk.Snapshot(), o) == FetchSpec(old(disk.Snapshot()), cwd, entry, targetDir, password, T)
    {
      var targetPath := TargetPath(entry, targetDir);
      if EndsWith(LastName(entry.parts), ".gpg") {
        o := DecryptGpgFile(disk, Resolve(cwd, entry), Resolve(cwd, targetPath), T);
      } else {
        o := disk.Copy(Resolve(cwd, entry), Resolve(cwd, targetPath));
      }
    }

    /** Every file is processed, in list order; the first error is returned. */
    method ProcessFiles(disk: Disk, cwd: Path, files: seq<PurePath>, targetDir: PurePath, T: Tools)
      returns (o: Outcome)
      modifies disk
      ensures (disk.Snapshot(), o) == ProcessFilesFrom(old(disk.Snapshot()), Ok, cwd, files, targetDir, password, T)
    {
      ghost var goal := ProcessFilesFrom(disk.Snapshot(), Ok, cwd, files, targetDir, password, T);
      o := Ok;
      for k := 0 to |files|
        invariant ProcessFilesFrom(disk.Snapshot(), o, cwd, files[k..], targetDir, password, T) == goal
      {
        ghost var before := disk.Snapshot();
        var r := ProcessFile(disk, cwd, files[k], targetDir, T);
        ProcessFilesAdvance(before, o, cwd, files, k, targetDir, password, T, disk.Snapshot(), r);
        if !o.Raised? {
          o := r;
        }
      }
      assert files[|files|..] == [];
    }

    /** Decryptor.recurse, over the listing `node` of `srcDir`. */
    method Recurse(disk: Disk, cwd: Path, node: Node, srcDir: PurePath, decRoot: PurePath, T: Tools) returns (o: Outcome)
      modifies disk
      ensures (disk.Snapshot(), o) == RunVisits(old(disk.Snapshot()), cwd, Visits(node, srcDir, false), decRoot, password, T)
      decreases node
    {
      ghost var st := disk.Snapshot();
      if node.FileNode? {
        disk.Print(RenderPure(srcDir));
        disk.Print("\nSkipping non-directory: " + RenderPure(srcDir));
        return Ok;
      }
      var entries := Entries(node);
      var subdirs, files := Split(srcDir, entries);
      ghost var v0 := Visit(srcDir, true, files, false);
      ghost var below := VisitsBelow(node, subdirs, srcDir);
      RunVisitsFirst(st, cwd, v0, below, decRoot, password, T);
      o := Visit1(disk, cwd, srcDir, files, decRoot, T);
      if o.Raised? {
        return;
      }
      o := RecurseBelow(disk, cwd, node, subdirs, srcDir, decRoot, T);
    }

    /** The part of recurse before it descends: print, mkdir, process_files. */
    method Visit1(disk: Disk, cwd: Path, srcDir: PurePath, files: seq<PurePath>, decRoot: PurePath, T: Tools) returns (o: Outcome)
      modifies disk
      ensures (disk.Snapshot(), o) == RunVisit(old(disk.Snapshot()), cwd, Visit(srcDir, true, files, false), decRoot, password, T)
    {
      disk.Print(RenderPure(srcDir));
      var targetDir := PJoin(decRoot, srcDir);
      o := disk.MakeDirs(Resolve(cwd, targetDir));
      if o.Raised? {
        return;
      }
      o := ProcessFiles(disk, cwd, files, targetDir, T);
    }

    /** `for subdir in subdirs: print(); self.recurse(subdir, dec_root)` */
    method RecurseBelow(disk: Disk, cwd: Path, node: Node, subdirs: seq<Node>, srcDir: PurePath, decRoot: PurePath, T: Tools) returns (o: Outcome)
      requires node.DirNode?
      requires forall s :: s in subdirs ==> s in node.children
      modifies disk
      ensures (disk.Snapshot(), o) == RunVisits(old(disk.Snapshot()), cwd, VisitsBelow(node, subdirs, srcDir), decRoot, password, T)
      decreases node, 0
    {
      ghost var goal := RunVisits(disk.Snapshot(), cwd, VisitsBelow(node, subdirs, srcDir), decRoot, password, T);
      assert subdirs[0..] == subdirs;
      o := Ok;
      for k := 0 to |subdirs|
        invariant RunVisits(disk.Snapshot(), cwd, VisitsBelow(node, subdirs[k..], srcDir), decRoot, password, T) == goal
        invariant o == Ok
      {
        RecurseBelowStep(disk.Snapshot(), cwd, node, subdirs, k, srcDir, decRoot, password, T);
        var dir := Child(srcDir, subdirs[k].name);
        disk.Print("");
        o := Recurse(disk, cwd, subdirs[k], dir, decRoot, T);
        if o.Raised? {
          return;
        }
      }
      assert subdirs[|subdirs|..] == [];
    }
  }

  /** One turn of the loop over the subdirectories: a blank line, then the
      walk of the `k`-th one, then (unless it failed) the rest. */
  lemma RecurseBelowStep(st: State, cwd: Path, node: Node, subdirs: seq<Node>, k: nat, srcDir: PurePath,
                         decRoot: PurePath, pw: string, T: Tools)
    requires node.DirNode? && forall s :: s in subdirs ==> s in node.children
    requires k < |subdirs|
    ensures subdirs[k] in node.children
    ensures RunVisits(st, cwd, VisitsBelow(node, subdirs[k..], srcDir), decRoot, pw, T) ==
      var (m, om) := RunVisits(PrintSpec(st, ""), cwd, Visits(subdirs[k], Child(srcDir, subdirs[k].name), false), decRoot, pw, T);
      if om.Raised? then (m, om) else RunVisits(m, cwd, VisitsBelow(node, subdirs[k + 1..], srcDir), decRoot, pw, T)
  {
    var dir := Child(srcDir, subdirs[k].name);
    assert subdirs[k] in node.children;
    assert subdirs[k..][1..] == subdirs[k + 1..];
    RunVisitsAppend(st, cwd, Visits(subdirs[k], dir, true), VisitsBelow(node, subdirs[k + 1..], srcDir), decRoot, pw, T);
    SeparatorFirst(st, cwd, subdirs[k], dir, decRoot, pw, T);
  }

  /** The loop that splits the entries into subdirectories and files. */
  method Split(srcDir: PurePath, entries: seq<Node>) returns (subdirs: seq<Node>, files: seq<PurePath>)
    ensures subdirs == SubdirsOf(entries)
    ensures files == FilesOf(srcDir, entries)
  {
    subdirs, files := [], [];
    for k := 0 to |entries|
      invariant subdirs == SubdirsOf(entries[..k])
      invariant files == FilesOf(srcDir, entries[..k])
    {
      SplitStep(srcDir, entries, k);
      if entries[k].DirNode? {
        subdirs := subdirs + [entries[k]];
      } else {
        files := files + [Child(srcDir, entries[k].name)];
      }
    }
    assert entries[..|entries|] == entries;
  }

  /** Running a walk one visit at a time. */
  lemma RunVisitsFirst(st: State, cwd: Path, v: Visit, rest: seq<Visit>, decRoot: PurePath, pw: string, T: Tools)
    ensures RunVisits(st, cwd, [v] + rest, decRoot, pw, T) ==
      var (m, om) := RunVisit(st, cwd, v, decRoot, pw, T);
      if om.Raised? then (m, om) else RunVisits(m, cwd, rest, decRoot, pw, T)
  {
    assert ([v] + rest)[1..] == rest;
  }

  lemma ProcessFilesAdvance(st: State, first: Outcome, cwd: Path, files: seq<PurePath>, k: nat, targetDir: PurePath, pw: string, T: Tools,
                            st1: State, o: Outcome)
    requires k < |files|
    requires (st1, o) == ProcessFileSpec(st, cwd, files[k], targetDir, pw, T)
    ensures ProcessFilesFrom(st, first, cwd, files[k..], targetDir, pw, T)
         == ProcessFilesFrom(st1, if first.Raised? then first else o, cwd, files[k + 1..], targetDir, pw, T)
  {
    assert files[k..][0] == files[k];
    assert files[k..][1..] == files[k + 1..];
  }

  lemma SplitStep(dir: PurePath, es: seq<Node>, k: nat)
    requires k < |es|
    ensures SubdirsOf(es[..k + 1]) == SubdirsOf(es[..k]) + (if es[k].DirNode? then [es[k]] else [])
    ensures FilesOf(dir, es[..k + 1]) == FilesOf(dir, es[..k]) + (if es[k].DirNode? then [] else [Child(dir, es[k].name)])
  {
    assert es[..k + 1] == es[..k] + [es[k]];
    SubdirsAppend(es[..k], [es[k]]);
    FilesAppend(dir, es[..k], [es[k]]);
  }

  lemma {:induction false} SubdirsAppend(a: seq<Node>, b: seq<Node>)
    ensures SubdirsOf(a + b) == SubdirsOf(a) + SubdirsOf(b)
  {
    if a == [] {
      assert a + b == b;
    } else {
      assert (a + b)[0] == a[0];
      assert (a + b)[1..] == a[1..] + b;
      SubdirsAppend(a[1..], b);
    }
  }

  lemma {:induction false} FilesAppend(dir: PurePath, a: seq<Node>, b: seq<Node>)
    ensures FilesOf(dir, a + b) == FilesOf(dir, a) + FilesOf(dir, b)
  {
    if a == [] {
      assert a + b == b;
    } else {
      assert (a + b)[0] == a[0];
      assert (a + b)[1..] == a[1..] + b;
      FilesAppend(dir, a[1..], b);
    }
  }

  /** main(), with the password prompt's answer and the base directory's
      listing, as the walk finds it at the start, as inputs.  `built` and `walked` record whether a Decryptor
      was created and whether the walk started. */
  method Run(disk: Disk, cwd: Path, baseDir: PurePath, output: PurePath, typed: Option<string>, listing: Node, T: Tools)
    returns (o: Outcome, ghost built: bool, ghost walked: bool)
    requires ListingOf(disk.Snapshot(), Resolve(cwd, baseDir), listing)
    modifies disk
    ensures (disk.Snapshot(), o) == RunSpec(old(disk.Snapshot()), cwd, baseDir, output, typed, listing, T)
    ensures Resolve(cwd, baseDir) !in old(disk.dirs) ==> !built && !walked
    ensures walked ==> Resolve(cwd, baseDir) in old(disk.dirs) && typed.Some?
  {
    built, walked := false, false;
    if Resolve(cwd, baseDir) !in disk.dirs {
      disk.Print("Error: '" + RenderPure(baseDir) + "' is not a valid directory.");
      return Raised(SystemExit(1)), built, walked;
    }
    var decrypt := new Decryptor("");
    built := true;
    o := decrypt.PromptForPassword(disk, typed);
    if o.Raised? {
      return;
    }
    o := disk.Mkdir(Resolve(cwd, output));
    if o.Raised? {
      return;
    }
    walked := true;
    o := decrypt.Recurse(disk, cwd, listing, baseDir, output, T);
    if o.Raised? {
      return;
    }
    disk.Print("\ntook");
  }
}
