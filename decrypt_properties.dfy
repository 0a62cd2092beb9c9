/** What the decryptor promises: which files are unpacked and how, what a
    failed decryption leaves behind, where every directory's output goes, and
    that the walk visits each visible directory exactly once. */
module DecryptProperties {
  import opened Paths
  import opened FileSystem
  import opened Decrypt

  // ---------------------------------------------------------------------
  // Archive dispatch
  // ---------------------------------------------------------------------

  /** A name ending in ".tar.gz" has the suffix ".gz". */
  lemma TarGzNameHasGzSuffix(name: Name)
    requires EndsWith(name, ".tar.gz")
    ensures Suffix(name) == ".gz"
  {
    var n := |name|;
    assert name[n - 7..] == ".tar.gz";
    assert name[n - 3] == '.' && name[n - 2] == 'g' && name[n - 1] == 'z' by {
      assert name[n - 3] == name[n - 7..][4];
      assert name[n - 2] == name[n - 7..][5];
      assert name[n - 1] == name[n - 7..][6];
    }
    assert name[..n - 1][..n - 2] == name[..n - 2];
    assert RFind(name[..n - 2], '.') == n - 3;
    assert RFind(name, '.') == n - 3;
    assert name[n - 3..] == ".gz";
  }

  /** The kind of a file is decided by its suffix, except that a ".gz"
      file whose name ends in ".tar.gz" goes to tar. */
  lemma KindBySuffix(name: Name)
    ensures KindOf(name) == Plain <==> Suffix(name) != ".tgz" && Suffix(name) != ".tar" && Suffix(name) != ".gz"
    ensures KindOf(name) == Tar <==> Suffix(name) == ".tar"
    ensures KindOf(name) == Gz <==> Suffix(name) == ".gz" && !EndsWith(name, ".tar.gz")
    ensures KindOf(name) == TarGz <==> Suffix(name) == ".tgz" || EndsWith(name, ".tar.gz")
  {
    if EndsWith(name, ".tar.gz") {
      TarGzNameHasGzSuffix(name);
    }
  }

  /** The suffix of a name whose last dot is at `i`. */
  lemma SuffixAt(name: Name, i: int)
    requires 0 < i < |name| - 1 && name[i] == '.'
    requires forall j :: i < j < |name| ==> name[j] != '.'
    ensures Suffix(name) == name[i..] && Stem(name) == name[..i]
  {
    var k := RFind(name, '.');
    assert k == i;
  }

  /** The archive names of the tar tests. */
  lemma TarArchiveNames()
    ensures KindOf("archive.tgz") == TarGz
    ensures KindOf("archive.tar.gz") == TarGz
    ensures KindOf("archive.tar") == Tar
  {
    assert "archive.tar.gz"[7..] == ".tar.gz";
    SuffixAt("archive.tgz", 7);
    assert "archive.tgz"[7..] == ".tgz";
    SuffixAt("archive.tar", 7);
    assert "archive.tar"[7..] == ".tar";
    assert !EndsWith("archive.tar", ".tar.gz");
  }

  /** The ".gz" names of the gzip tests, and the names they decompress to. */
  lemma GzNames(dir: Path)
    ensures KindOf("file.gz") == Gz && WithoutSuffix(dir + ["file.gz"]) == dir + ["file"]
    ensures KindOf("test.txt.gz") == Gz && WithoutSuffix(dir + ["test.txt.gz"]) == dir + ["test.txt"]
  {
    SuffixAt("file.gz", 4);
    assert "file.gz"[4..] == ".gz" && "file.gz"[..4] == "file";
    assert !EndsWith("file.gz", ".tar.gz");
    SuffixAt("test.txt.gz", 8);
    assert "test.txt.gz"[8..] == ".gz" && "test.txt.gz"[..8] == "test.txt";
    assert "test.txt.gz"[4..] != ".tar.gz";
    assert Parent(dir + ["file.gz"]) == dir;
    assert Parent(dir + ["test.txt.gz"]) == dir;
  }

  /** The copy test's file is left as it is. */
  lemma PlainName()
    ensures KindOf("original.txt") == Plain
  {
    SuffixAt("original.txt", 8);
    assert "original.txt"[8..] == ".txt";
    assert "original.txt"[5..] != ".tar.gz";
  }

  /** Stripping ".gpg" undoes appending it, so "x.tar.gz.gpg" is unpacked
      as "x.tar.gz" once decrypted. */
  lemma GpgNameRoundTrip(n: Name)
    ensures DecryptedName(n + ".gpg") == n
    ensures KindOf(DecryptedName(n + ".gpg")) == KindOf(n)
  {
    assert EndsWith(n + ".gpg", ".gpg") by {
      assert (n + ".gpg")[|n|..] == ".gpg";
    }
    assert (n + ".gpg")[..|n|] == n;
  }

  // ---------------------------------------------------------------------
  // extract_gz and decrypt_gpg_file
  // ---------------------------------------------------------------------

  /** A ".gz" file is replaced by its decoded contents under the name
      without the suffix; when decoding fails the partial output stays,
      the input is kept, and only a BadGzipFile prints and exits. */
  lemma ExtractGzOutcome(st: State, p: Path, T: Tools)
    requires p != [] && Suffix(LastName(p)) == ".gz"
    requires p in st.files && Parent(p) in st.dirs && WithoutSuffix(p) !in st.dirs
    ensures WithoutSuffix(p) != p
    ensures var out := WithoutSuffix(p);
      var r := T.gunzip(st.files[p]);
      var (st', o) := ExtractGzSpec(st, p, T);
      && st'.dirs == st.dirs
      && (r.status == Complete ==>
            o == Ok && st'.files == (st.files - {p})[out := r.data] && st'.out == st.out)
      && (r.status == BadGzip ==>
            o == Raised(SystemExit(1)) && st'.files == st.files[out := r.data]
            && st'.out == st.out + [FailedToDecompress(p)])
      && (r.status == Undecodable ==>
            o == Raised(DecodeError(p)) && st'.files == st.files[out := r.data] && st'.out == st.out)
  {
    var out := WithoutSuffix(p);
    StemSuffix(LastName(p));
    assert LastName(out) != LastName(p);
    var st1 := st.(files := st.files[out := []]);
    assert WriteSpec(st, out, []) == (st1, Ok);
    assert st1.files[p] == st.files[p];
    var r := T.gunzip(st.files[p]);
    assert WriteSpec(st1, out, r.data).0 == st.(files := st.files[out := r.data]);
    if r.status == Complete {
      assert st.files[out := r.data] - {p} == (st.files - {p})[out := r.data];
    }
  }

  /** The output file is created before gpg runs, so it exists whether or
      not decryption succeeds and holds exactly what gpg wrote (nothing when
      the input is missing); a failure then prints and exits. */
  lemma DecryptOpensOutputFirst(st: State, src: Path, dest: Path, pw: string, T: Tools)
    requires dest !in st.dirs && Parent(dest) in st.dirs && src != dest
    ensures var (st', o) := DecryptGpgFileSpec(st, src, dest, pw, T);
      && dest in st'.files && st'.dirs == st.dirs
      && st'.files == st.files[dest := if src in st.files then T.gpg(pw, st.files[src]).data else []]
      && (o == Ok <==> src in st.files && T.gpg(pw, st.files[src]).ok)
      && (o == Ok ==> st'.out == st.out)
      && (o != Ok ==> o == Raised(SystemExit(1)) && st'.out == st.out + [ErrorDecrypting(src)])
  {
    var st1 := st.(files := st.files[dest := []]);
    assert WriteSpec(st, dest, []) == (st1, Ok);
    assert src in st1.files <==> src in st.files;
    if src in st.files {
      assert st1.files[src] == st.files[src];
    }
  }

  /** An OSError when opening the output is not caught: no message, no exit. */
  lemma DecryptIntoDirectoryRaises(st: State, src: Path, dest: Path, pw: string, T: Tools)
    requires dest in st.dirs
    ensures DecryptGpgFileSpec(st, src, dest, pw, T) == (st, Raised(OsError(IsADirectory, dest)))
  {
  }

  // ---------------------------------------------------------------------
  // process_file
  // ---------------------------------------------------------------------

  /** A file that is neither encrypted nor an archive is copied into the
      target directory under its own name, followed by a progress dot. */
  lemma PlainFileIsCopied(st: State, cwd: Path, entry: PurePath, targetDir: PurePath, pw: string, T: Tools)
    requires LastName(entry.parts) != "" && !EndsWith(LastName(entry.parts), ".gpg")
    requires KindOf(LastName(entry.parts)) == Plain
    requires Resolve(cwd, entry) in st.files && Resolve(cwd, targetDir) in st.dirs
    requires Resolve(cwd, targetDir) + [LastName(entry.parts)] !in st.dirs
    requires Resolve(cwd, targetDir) + [LastName(entry.parts)] != Resolve(cwd, entry)
    ensures var tgt := Resolve(cwd, targetDir) + [LastName(entry.parts)];
      ProcessFileSpec(st, cwd, entry, targetDir, pw, T)
        == (st.(files := st.files[tgt := st.files[Resolve(cwd, entry)]], out := st.out + ["."]), Ok)
  {
    var name := LastName(entry.parts);
    var tp := PJoinName(targetDir, name);
    assert Resolve(cwd, tp) == Resolve(cwd, targetDir) + [name];
    assert Parent(Resolve(cwd, targetDir) + [name]) == Resolve(cwd, targetDir);
    assert LastName(tp.parts) == name;
  }

  /** An entry named just ".gpg" decrypts onto the target directory itself,
      which open() refuses. */
  lemma BareGpgNameTargetsDirectory(st: State, cwd: Path, entry: PurePath, targetDir: PurePath, pw: string, T: Tools)
    requires LastName(entry.parts) == ".gpg"
    requires Resolve(cwd, targetDir) in st.dirs
    ensures ProcessFileSpec(st, cwd, entry, targetDir, pw, T)
         == (st, Raised(OsError(IsADirectory, Resolve(cwd, targetDir))))
  {
    assert EndsWith(".gpg", ".gpg");
    assert DecryptedName(".gpg") == "";
  }

  /** When the target directory is the entry's own directory (as it is for
      an absolute base directory), copying a plain file onto itself raises
      SameFileError. */
  lemma InPlaceCopyIsSameFile(st: State, cwd: Path, entry: PurePath, pw: string, T: Tools)
    requires entry.parts != [] && LastName(entry.parts) != "" && !EndsWith(LastName(entry.parts), ".gpg")
    requires Resolve(cwd, entry) in st.files && Resolve(cwd, entry) !in st.dirs
    ensures ProcessFileSpec(st, cwd, entry, PurePath(entry.absolute, Parent(entry.parts)), pw, T)
         == (st, Raised(OsError(SameFile, Resolve(cwd, entry))))
  {
    ParentJoin(entry.parts);
    var tp := PJoinName(PurePath(entry.absolute, Parent(entry.parts)), LastName(entry.parts));
    assert tp == entry;
  }

  // ---------------------------------------------------------------------
  // process_files
  // ---------------------------------------------------------------------

  /** Every file of the list completes without an exception, the state
      threaded from one to the next. */
  predicate AllSucceed(st: State, cwd: Path, files: seq<PurePath>, targetDir: PurePath, pw: string, T: Tools)
    decreases |files|
  {
    files == [] ||
      var (st1, o) := ProcessFileSpec(st, cwd, files[0], targetDir, pw, T);
      o == Ok && AllSucceed(st1, cwd, files[1..], targetDir, pw, T)
  }

  /** Once an exception is recorded it is the one re-raised, whatever the
      remaining files do. */
  lemma {:induction false} FirstFileErrorSticks(st: State, e: Error, cwd: Path, files: seq<PurePath>, targetDir: PurePath, pw: string, T: Tools)
    ensures ProcessFilesFrom(st, Raised(e), cwd, files, targetDir, pw, T).1 == Raised(e)
    decreases |files|
  {
    if files != [] {
      var (st1, o) := ProcessFileSpec(st, cwd, files[0], targetDir, pw, T);
      FirstFileErrorSticks(st1, e, cwd, files[1..], targetDir, pw, T);
    }
  }

  /** process_files returns normally exactly when every file succeeds. */
  lemma {:induction false} ProcessFilesOkIffAllSucceed(st: State, cwd: Path, files: seq<PurePath>, targetDir: PurePath, pw: string, T: Tools)
    ensures ProcessFilesFrom(st, Ok, cwd, files, targetDir, pw, T).1 == Ok <==> AllSucceed(st, cwd, files, targetDir, pw, T)
    decreases |files|
  {
    if files != [] {
      var (st1, o) := ProcessFileSpec(st, cwd, files[0], targetDir, pw, T);
      if o.Raised? {
        FirstFileErrorSticks(st1, o.error, cwd, files[1..], targetDir, pw, T);
      } else {
        ProcessFilesOkIffAllSucceed(st1, cwd, files[1..], targetDir, pw, T);
      }
    }
  }

  // ---------------------------------------------------------------------
  // The walk
  // ---------------------------------------------------------------------

  /** Every directory of the walk lies at or below where it started. */
  lemma {:induction false} VisitsStayBelow(node: Node, dir: PurePath, sep: bool)
    ensures forall v :: v in Visits(node, dir, sep) ==>
      v.dir.absolute == dir.absolute && IsPrefix(dir.parts, v.dir.parts)
    decreases node, 1, 0
  {
    if node.DirNode? {
      VisitsBelowStayBelow(node, SubdirsOf(Entries(node)), dir);
    }
  }

  lemma {:induction false} VisitsBelowStayBelow(parent: Node, subs: seq<Node>, dir: PurePath)
    requires parent.DirNode?
    requires forall s :: s in subs ==> s in parent.children
    ensures forall v :: v in VisitsBelow(parent, subs, dir) ==>
      v.dir.absolute == dir.absolute && IsPrefix(dir.parts, v.dir.parts)
    decreases parent, 0, |subs|
  {
    if subs != [] {
      var child := Child(dir, subs[0].name);
      assert subs[0] in parent.children;
      VisitsStayBelow(subs[0], child, true);
      VisitsBelowStayBelow(parent, subs[1..], dir);
      assert IsPrefix(dir.parts, child.parts);
      forall v | v in Visits(subs[0], child, true)
        ensures IsPrefix(dir.parts, v.dir.parts)
      {
        PrefixTransitive(dir.parts, child.parts, v.dir.parts);
      }
    }
  }

  /** Where recurse writes: with an absolute base directory every target is
      the source directory itself; with a relative one the tree is mirrored
      below the output directory. */
  lemma WalkTargets(node: Node, dir: PurePath, decRoot: PurePath, sep: bool)
    ensures forall v :: v in Visits(node, dir, sep) ==>
      && (dir.absolute ==> PJoin(decRoot, v.dir) == v.dir)
      && (!dir.absolute ==> PJoin(decRoot, v.dir) == PurePath(decRoot.absolute, decRoot.parts + v.dir.parts))
  {
    VisitsStayBelow(node, dir, sep);
  }

  lemma {:induction false} FilesOfMembers(dir: PurePath, es: seq<Node>)
    ensures forall f :: f in FilesOf(dir, es) <==> exists n :: n in es && n.FileNode? && f == Child(dir, n.name)
  {
    if es != [] {
      FilesOfMembers(dir, es[1..]);
      assert forall n :: n in es <==> n == es[0] || n in es[1..];
    }
  }

  /** A directory hands process_files exactly its visible non-directory
      entries. */
  lemma VisitHandsOverVisibleFiles(node: Node, dir: PurePath, sep: bool)
    requires node.DirNode?
    ensures Visits(node, dir, sep)[0].isDir
    ensures forall f :: f in Visits(node, dir, sep)[0].files <==>
      exists n :: n in node.children && n.FileNode? && !Hidden(n) && f == Child(dir, n.name)
  {
    FilesOfMembers(dir, Entries(node));
  }

  /** An entry of a faithful listing is a file entry exactly when the
      filesystem has a file at its path. */
  lemma ListedEntry(st: State, p: Path, node: Node, c: Node)
    requires Valid(st) && ListingOf(st, p, node) && node.DirNode? && c in node.children
    ensures c.name != "" && (c.FileNode? <==> p + [c.name] in st.files)
  {
  }

  /** Every file directly below a listed directory has an entry. */
  lemma FileListed(st: State, p: Path, node: Node, n: Name) returns (c: Node)
    requires ListingOf(st, p, node) && node.DirNode? && p + [n] in st.files
    ensures c in node.children && c.name == n
  {
    var q := p + [n];
    assert StrictlyUnder(q, p) && |q| == |p| + 1 by {
      assert q[..|p|] == p;
    }
    c :| c in node.children && q == p + [c.name];
    assert q[|p|] == n;
  }

  /** With a listing that agrees with the filesystem, the first call of
      recurse treats `dir` as a directory exactly when the filesystem has one
      there. */
  lemma ListingFirstVisit(st: State, cwd: Path, node: Node, dir: PurePath, sep: bool)
    requires ListingOf(st, Resolve(cwd, dir), node)
    ensures Visits(node, dir, sep)[0].isDir <==> Resolve(cwd, dir) in st.dirs
  {
  }

  /** And a directory's first call hands process_files exactly the regular
      files directly in it whose names do not start with ".". */
  lemma ListingHandsOverFiles(st: State, cwd: Path, node: Node, dir: PurePath, sep: bool)
    requires Valid(st) && ListingOf(st, Resolve(cwd, dir), node) && node.DirNode?
    ensures forall n :: n != "" ==>
      (Child(dir, n) in Visits(node, dir, sep)[0].files <==> Resolve(cwd, dir) + [n] in st.files && !StartsWith(n, "."))
  {
    var p := Resolve(cwd, dir);
    var fs := Visits(node, dir, sep)[0].files;
    VisitHandsOverVisibleFiles(node, dir, sep);
    forall n | n != ""
      ensures Child(dir, n) in fs <==> p + [n] in st.files && !StartsWith(n, ".")
    {
      if Child(dir, n) in fs {
        var c :| c in node.children && c.FileNode? && !Hidden(c) && Child(dir, n) == Child(dir, c.name);
        ListedEntry(st, p, node, c);
        assert n == c.name by {
          assert Child(dir, n).parts[|dir.parts|] == n;
        }
      }
      if p + [n] in st.files && !StartsWith(n, ".") {
        var c := FileListed(st, p, node, n);
        ListedEntry(st, p, node, c);
      }
    }
  }

  /** The number of directories a walk from `n` reaches: `n` itself and,
      recursively, every directory entry whose name does not start with ".". */
  function DirCount(n: Node): nat
    decreases n, 1, 0
  {
    if n.FileNode? then 1 else 1 + DirsFrom(n, 0)
  }

  function DirsFrom(parent: Node, i: nat): nat
    requires parent.DirNode? && i <= |parent.children|
    decreases parent, 0, |parent.children| - i
  {
    if i == |parent.children| then 0
    else
      var c := parent.children[i];
      (if c.DirNode? && !Hidden(c) then DirCount(c) else 0) + DirsFrom(parent, i + 1)
  }

  function Weight(c: Node): nat {
    if c.DirNode? && !Hidden(c) then DirCount(c) else 0
  }

  function SumWeights(s: seq<Node>): nat {
    if s == [] then 0 else Weight(s[0]) + SumWeights(s[1..])
  }

  function SumCounts(s: seq<Node>): nat {
    if s == [] then 0 else DirCount(s[0]) + SumCounts(s[1..])
  }

  lemma {:induction false} SumWeightsAppend(a: seq<Node>, b: seq<Node>)
    ensures SumWeights(a + b) == SumWeights(a) + SumWeights(b)
  {
    if a == [] {
      assert a + b == b;
    } else {
      assert (a + b)[1..] == a[1..] + b;
      SumWeightsAppend(a[1..], b);
    }
  }

  lemma {:induction false} SumWeightsPermutation(a: seq<Node>, b: seq<Node>)
    requires multiset(a) == multiset(b)
    ensures SumWeights(a) == SumWeights(b)
    decreases |a|
  {
    if a == [] {
      assert |b| == |multiset(b)| == 0;
    } else {
      assert a[0] in multiset(b);
      var i :| 0 <= i < |b| && b[i] == a[0];
      RemoveAt(a, b, i);
      SumWeightsPermutation(a[1..], b[..i] + b[i + 1..]);
    }
  }

  /** Taking the first element of `a` out of `b` keeps the two equal as
      multisets and takes its weight out of the sum. */
  lemma RemoveAt(a: seq<Node>, b: seq<Node>, i: nat)
    requires a != [] && i < |b| && b[i] == a[0] && multiset(a) == multiset(b)
    ensures multiset(a[1..]) == multiset(b[..i] + b[i + 1..])
    ensures SumWeights(b) == Weight(b[i]) + SumWeights(b[..i] + b[i + 1..])
  {
    var l, r := b[..i], b[i + 1..];
    assert b == l + ([b[i]] + r);
    MultisetRemove(a, l, b[i], r);
    SumWeightsSplit(l, b[i], r);
  }

  lemma MultisetRemove(a: seq<Node>, l: seq<Node>, x: Node, r: seq<Node>)
    requires a != [] && a[0] == x && multiset(a) == multiset(l + ([x] + r))
    ensures multiset(a[1..]) == multiset(l + r)
  {
    assert a == [x] + a[1..];
    assert multiset(a) == multiset{x} + multiset(a[1..]);
    assert multiset(l + ([x] + r)) == multiset(l) + multiset{x} + multiset(r);
    assert multiset(l + r) == multiset(l) + multiset(r);
    assert multiset(a[1..]) == multiset(a) - multiset{x};
    assert multiset(l + r) == multiset(l + ([x] + r)) - multiset{x};
  }

  lemma SumWeightsSplit(l: seq<Node>, x: Node, r: seq<Node>)
    ensures SumWeights(l + ([x] + r)) == Weight(x) + SumWeights(l + r)
  {
    SumWeightsAppend(l, [x] + r);
    SumWeightsAppend(l, r);
    assert ([x] + r)[1..] == r;
  }

  lemma {:induction false} SumWeightsVisible(s: seq<Node>)
    ensures SumWeights(Visible(s)) == SumWeights(s)
  {
    if s != [] {
      SumWeightsVisible(s[1..]);
      if !Hidden(s[0]) {
        assert ([s[0]] + Visible(s[1..]))[1..] == Visible(s[1..]);
      }
    }
  }

  lemma {:induction false} SumWeightsSubdirs(es: seq<Node>)
    requires forall x :: x in es ==> !Hidden(x)
    ensures SumCounts(SubdirsOf(es)) == SumWeights(es)
  {
    if es != [] {
      SumWeightsSubdirs(es[1..]);
      if es[0].DirNode? {
        assert ([es[0]] + SubdirsOf(es[1..]))[1..] == SubdirsOf(es[1..]);
      }
    }
  }

  lemma {:induction false} DirsFromIsSum(parent: Node, i: nat)
    requires parent.DirNode? && i <= |parent.children|
    ensures DirsFrom(parent, i) == SumWeights(parent.children[i..])
    decreases |parent.children| - i
  {
    if i < |parent.children| {
      DirsFromIsSum(parent, i + 1);
      assert parent.children[i..][1..] == parent.children[i + 1..];
    }
  }

  /** recurse is called once for every directory of the listing that is
      not hidden, so process_files runs once per such directory. */
  lemma {:induction false} VisitCount(node: Node, dir: PurePath, sep: bool)
    ensures |Visits(node, dir, sep)| == DirCount(node)
    decreases node, 1, 0
  {
    if node.DirNode? {
      var es := Entries(node);
      VisitsBelowCount(node, SubdirsOf(es), dir);
      SumWeightsSubdirs(es);
      SumWeightsPermutation(es, Visible(node.children));
      SumWeightsVisible(node.children);
      DirsFromIsSum(node, 0);
      assert node.children[0..] == node.children;
    }
  }

  lemma {:induction false} VisitsBelowCount(parent: Node, subs: seq<Node>, dir: PurePath)
    requires parent.DirNode?
    requires forall s :: s in subs ==> s in parent.children
    ensures |VisitsBelow(parent, subs, dir)| == SumCounts(subs)
    decreases parent, 0, |subs|
  {
    if subs != [] {
      assert subs[0] in parent.children;
      VisitCount(subs[0], Child(dir, subs[0].name), true);
      VisitsBelowCount(parent, subs[1..], dir);
    }
  }

  /** Only the starting path can be something other than a directory:
      recurse descends into directory entries only. */
  lemma {:induction false} VisitsAreDirs(node: Node, dir: PurePath, sep: bool)
    requires node.DirNode?
    ensures forall v :: v in Visits(node, dir, sep) ==> v.isDir
    decreases node, 1, 0
  {
    VisitsBelowAreDirs(node, SubdirsOf(Entries(node)), dir);
  }

  lemma {:induction false} VisitsBelowAreDirs(parent: Node, subs: seq<Node>, dir: PurePath)
    requires parent.DirNode?
    requires forall s :: s in subs ==> s in parent.children && s.DirNode?
    ensures forall v :: v in VisitsBelow(parent, subs, dir) ==> v.isDir
    decreases parent, 0, |subs|
  {
    if subs != [] {
      assert subs[0] in parent.children;
      VisitsAreDirs(subs[0], Child(dir, subs[0].name), true);
      VisitsBelowAreDirs(parent, subs[1..], dir);
    }
  }

  /** The tree of the recurse test: base/file1.txt and base/subdir/file2.txt. */
  function TestTree(): Node {
    DirNode("base", [FileNode("file1.txt"), DirNode("subdir", [FileNode("file2.txt")])])
  }

  /** Walked from an absolute path, the test tree makes two recurse calls,
      both on directories, so process_files runs twice, each time with the
      source directory itself as the target. */
  lemma RecurseTestTree(tree: Node, base: PurePath, decRoot: PurePath)
    requires tree == TestTree() && base.absolute
    ensures |Visits(tree, base, false)| == 2
    ensures forall v :: v in Visits(tree, base, false) ==> v.isDir && PJoin(decRoot, v.dir) == v.dir
  {
    VisitCount(tree, base, false);
    VisitsAreDirs(tree, base, false);
    WalkTargets(tree, base, decRoot, false);
    assert "subdir"[..1] == "s";
    var sd := DirNode("subdir", [FileNode("file2.txt")]);
    assert DirCount(sd) == 1;
  }

  // ---------------------------------------------------------------------
  // main
  // ---------------------------------------------------------------------

  /** A base path that is not a directory, or an interrupted password
      prompt, exits with status 1 and leaves the tree as it was. */
  lemma RunEarlyExits(st: State, cwd: Path, baseDir: PurePath, output: PurePath, typed: Option<string>, vs: seq<Visit>, T: Tools)
    requires Resolve(cwd, baseDir) !in st.dirs || typed.None?
    ensures var (st', o) := RunWith(st, cwd, baseDir, output, typed, vs, T);
      o == Raised(SystemExit(1)) && st'.files == st.files && st'.dirs == st.dirs && |st'.out| == |st.out| + 1
  {
  }

  /** The output directory is created (or found) before the walk starts;
      a regular file in its place stops the program before the walk. */
  lemma RunMakesOutputFirst(st: State, cwd: Path, baseDir: PurePath, output: PurePath, pw: string, vs: seq<Visit>, T: Tools)
    requires Resolve(cwd, baseDir) in st.dirs
    ensures var out := Resolve(cwd, output);
      var (st', o) := RunWith(st, cwd, baseDir, output, Some(pw), vs, T);
      && (out in st.files && out !in st.dirs ==> (st', o) == (st, Raised(OsError(FileExists, out))))
      && (out !in st.files && Parent(out) in st.dirs ==>
            var (st2, o2) := RunVisits(st.(dirs := st.dirs + {out}), cwd, vs, output, pw, T);
            (st', o) == if o2.Raised? then (st2, o2) else (PrintSpec(st2, "\ntook"), Ok))
  {
    var out := Resolve(cwd, output);
    if out in st.dirs {
      assert st.(dirs := st.dirs + {out}) == st;
    }
  }
}
