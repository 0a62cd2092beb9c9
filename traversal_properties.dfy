/** Properties of the traversals as a whole: how the work items are grouped,
    that grouping is invisible when nothing fails, that a copy run converges
    and a second one does nothing, and what a delete run removes and keeps. */
module TraversalProperties {
  import opened Paths
  import opened FileSystem
  import opened Sync
  import opened SyncProperties

  function Flatten(bs: seq<seq<Job>>): seq<Job> {
    if bs == [] then [] else bs[0] + Flatten(bs[1..])
  }

  function Dests(jobs: seq<Job>): set<Path> {
    set a | a in jobs :: a.dest
  }

  function Sources(jobs: seq<Job>): set<Path> {
    set a | a in jobs :: a.src
  }

  // ---------------------------------------------------------------------
  // Batches
  // ---------------------------------------------------------------------

  /** The batches hold the items in submission order; every batch but the
      last holds exactly cap + 1 items (the backlog is awaited as soon as it
      exceeds cap) and the last, the final drain, at most cap. */
  lemma {:induction false} BatchesPartition(jobs: seq<Job>, cap: nat)
    ensures Flatten(Batches(jobs, cap)) == jobs
    ensures var bs := Batches(jobs, cap);
      && |bs| > 0 && |bs[|bs| - 1]| <= cap
      && forall i :: 0 <= i < |bs| - 1 ==> |bs[i]| == cap + 1
    decreases |jobs|
  {
    if |jobs| > cap {
      var rest := Batches(jobs[cap + 1..], cap);
      BatchesPartition(jobs[cap + 1..], cap);
      var bs := Batches(jobs, cap);
      assert bs == [jobs[..cap + 1]] + rest;
      assert bs[1..] == rest;
      assert jobs[..cap + 1] + jobs[cap + 1..] == jobs;
      forall i | 0 <= i < |bs| - 1
        ensures |bs[i]| == cap + 1
      {
        if i > 0 {
          assert bs[i] == rest[i - 1];
        }
      }
    }
  }

  /** Once an item of a batch has failed, the batch reports that failure. */
  lemma {:induction false} FirstErrorSticks(st: State, e: Error, batch: seq<Job>, dryrun: bool, H: Bytes -> Digest)
    ensures RunFrom(st, Raised(e), batch, dryrun, H).1 == Raised(e)
    decreases |batch|
  {
    if batch != [] {
      var st' := Perform(st, batch[0], dryrun, H).0;
      FirstErrorSticks(st', e, batch[1..], dryrun, H);
    }
  }

  /** Running a batch in two parts is running it whole. */
  lemma {:induction false} RunFromAppend(st: State, first: Outcome, a: seq<Job>, b: seq<Job>, dryrun: bool, H: Bytes -> Digest)
    ensures var (m, om) := RunFrom(st, first, a, dryrun, H);
      RunFrom(st, first, a + b, dryrun, H) == RunFrom(m, om, b, dryrun, H)
    decreases |a|
  {
    if a == [] {
      assert a + b == b;
    } else {
      var (st', o) := Perform(st, a[0], dryrun, H);
      assert (a + b)[0] == a[0];
      assert (a + b)[1..] == a[1..] + b;
      RunFromAppend(st', if first.Raised? then first else o, a[1..], b, dryrun, H);
    }
  }

  /** Batches that all succeed do what one sequential run of their items
      does, and they all succeed exactly when that sequential run does. */
  lemma {:induction false} BatchingInvisibleWithoutErrors(st: State, bs: seq<seq<Job>>, dryrun: bool, H: Bytes -> Digest)
    ensures RunBatches(st, bs, dryrun, H).1 == Ok <==> RunBatch(st, Flatten(bs), dryrun, H).1 == Ok
    ensures RunBatches(st, bs, dryrun, H).1 == Ok ==> RunBatches(st, bs, dryrun, H) == RunBatch(st, Flatten(bs), dryrun, H)
    decreases |bs|
  {
    if bs != [] {
      var (m, om) := RunBatch(st, bs[0], dryrun, H);
      RunFromAppend(st, Ok, bs[0], Flatten(bs[1..]), dryrun, H);
      if om.Raised? {
        FirstErrorSticks(m, om.error, Flatten(bs[1..]), dryrun, H);
      } else {
        BatchingInvisibleWithoutErrors(m, bs[1..], dryrun, H);
      }
    }
  }

  /** A traversal succeeds exactly when running its items one after the
      other succeeds, and then it has the same effect. */
  lemma TraversalIsSequentialWhenOk(st: State, jobs: seq<Job>, cpus: nat, dryrun: bool, H: Bytes -> Digest)
    ensures Traversal(st, jobs, cpus, dryrun, H).1 == Ok <==> RunBatch(st, jobs, dryrun, H).1 == Ok
    ensures Traversal(st, jobs, cpus, dryrun, H).1 == Ok ==> Traversal(st, jobs, cpus, dryrun, H) == RunBatch(st, jobs, dryrun, H)
  {
    BatchesPartition(jobs, 3 * cpus);
    BatchingInvisibleWithoutErrors(st, Batches(jobs, 3 * cpus), dryrun, H);
  }

  // ---------------------------------------------------------------------
  // Copy: convergence and idempotence
  // ---------------------------------------------------------------------

  /** Copy items that cannot interfere: no destination is at or above
      another item's destination, nor at or above any item's source. */
  ghost predicate Disjoint(jobs: seq<Job>) {
    && (forall a :: a in jobs ==> a.CopyJob? && a.dest != [])
    && (forall a, b :: a in jobs && b in jobs && a != b ==> !IsPrefix(a.dest, b.dest))
    && (forall a, b :: a in jobs && b in jobs ==> !IsPrefix(a.dest, b.src))
  }

  lemma DisjointSplit(done: seq<Job>, j: Job, rest: seq<Job>)
    requires Disjoint(done + ([j] + rest))
    ensures Disjoint((done + [j]) + rest)
    ensures j in done + ([j] + rest)
  {
    assert (done + [j]) + rest == done + ([j] + rest);
  }

  /** One successful real copy keeps every already converged item converged. */
  lemma CopyStepKeeps(st: State, j: Job, done: seq<Job>, rest: seq<Job>, H: Bytes -> Digest)
    requires Disjoint(done + ([j] + rest))
    requires j.dest !in st.dirs
    requires forall a :: a in done ==> SameContent(st, a.src, a.dest, H)
    requires forall a :: a in rest ==> a.dest !in st.dirs
    requires CopyStep(st, j.src, j.dest, false, H).1 == Ok
    ensures var st1 := CopyStep(st, j.src, j.dest, false, H).0;
      && (forall a :: a in done + [j] ==> SameContent(st1, a.src, a.dest, H))
      && (forall a :: a in rest ==> a.dest !in st1.dirs)
  {
    var all := done + ([j] + rest);
    assert j in all;
    var st1 := CopyStep(st, j.src, j.dest, false, H).0;
    CopyOutcome(st, j.src, j.dest, H);
    forall a | a in done + [j]
      ensures SameContent(st1, a.src, a.dest, H)
    {
      if a != j {
        assert a in done && a in all;
        assert !IsPrefix(j.dest, a.dest) && !IsPrefix(j.dest, a.src);
      }
    }
    forall a | a in rest
      ensures a.dest !in st1.dirs
    {
      assert a in all;
      if a.dest in Prefixes(Parent(j.dest)) {
        PrefixTransitive(a.dest, Parent(j.dest), j.dest);
      }
    }
  }

  /** `fin` has every item of `all` converged, and agrees with `st` on
      every file that is not a destination of `todo`. */
  ghost predicate ConvergedFrom(st: State, fin: State, all: seq<Job>, todo: seq<Job>, H: Bytes -> Digest) {
    && (forall a :: a in all ==> SameContent(fin, a.src, a.dest, H))
    && (forall p :: p !in Dests(todo) ==> (p in fin.files <==> p in st.files))
    && (forall p :: p !in Dests(todo) && p in st.files ==> fin.files[p] == st.files[p])
  }

  /** One successful copy in front of a converged run keeps it converged. */
  lemma ConvergedStep(st: State, j: Job, done: seq<Job>, rest: seq<Job>, fin: State, H: Bytes -> Digest)
    requires j.dest !in st.dirs && j.dest != []
    requires CopyStep(st, j.src, j.dest, false, H).1 == Ok
    requires ConvergedFrom(CopyStep(st, j.src, j.dest, false, H).0, fin, (done + [j]) + rest, rest, H)
    ensures ConvergedFrom(st, fin, done + ([j] + rest), [j] + rest, H)
  {
    assert (done + [j]) + rest == done + ([j] + rest);
    CopyOutcome(st, j.src, j.dest, H);
    assert Dests([j] + rest) == {j.dest} + Dests(rest);
  }

  /** Running copy items that cannot interfere, with no failure, leaves every
      item converged (the destination has the source's size and hash) and
      changes no file that is not one of their destinations. */
  lemma {:induction false} CopiesConverge(st: State, first: Outcome, done: seq<Job>, todo: seq<Job>, H: Bytes -> Digest)
    requires Disjoint(done + todo)
    requires forall a :: a in todo ==> a.dest !in st.dirs
    requires forall a :: a in done ==> SameContent(st, a.src, a.dest, H)
    requires RunFrom(st, first, todo, false, H).1 == Ok
    ensures ConvergedFrom(st, RunFrom(st, first, todo, false, H).0, done + todo, todo, H)
    decreases |todo|
  {
    if todo == [] {
      assert done + todo == done;
    } else {
      var j := todo[0];
      var rest := todo[1..];
      assert todo == [j] + rest;
      assert j in done + todo;
      var (st1, o) := CopyStep(st, j.src, j.dest, false, H);
      assert Perform(st, j, false, H) == (st1, o);
      if first.Raised? {
        FirstErrorSticks(st1, first.error, rest, false, H);
      } else if o.Raised? {
        FirstErrorSticks(st1, o.error, rest, false, H);
      } else {
        CopyStepKeeps(st, j, done, rest, H);
        DisjointSplit(done, j, rest);
        CopiesConverge(st1, Ok, done + [j], rest, H);
        ConvergedStep(st, j, done, rest, RunFrom(st1, Ok, rest, false, H).0, H);
      }
    }
  }

  /** Every copy item of a walk pairs a source file with its mapped name:
      the managed root followed by the file's path below the source root. */
  predicate CopyPair(src: Path, tgt: Path, a: Job) {
    && a.CopyJob? && StrictlyUnder(a.src, src)
    && a.dest == ManagedRoot(src, tgt) + a.src[|src|..]
  }

  lemma {:induction false} CopyJobsInShape(src: Path, tgt: Path, dirpath: Path, names: seq<Name>)
    requires IsPrefix(src, dirpath) && LastName(src) != ""
    ensures forall a :: a in CopyJobsIn(src, tgt, dirpath, names) ==> CopyPair(src, tgt, a)
    ensures Sources(CopyJobsIn(src, tgt, dirpath, names)) == set p | p in EntryFiles(WalkEntry(dirpath, names))
    decreases |names|
  {
    if names != [] {
      var s := dirpath + [names[0]];
      CopyJobsInShape(src, tgt, dirpath, names[1..]);
      assert s[..|src|] == dirpath[..|src|];
      PrefixTransitive(Parent(src), src, s);
      var jobs := CopyJobsIn(src, tgt, dirpath, names);
      assert jobs == [CopyJob(s, CopyTarget(s, src, tgt))] + CopyJobsIn(src, tgt, dirpath, names[1..]);
      var here := EntryFiles(WalkEntry(dirpath, names));
      var later := EntryFiles(WalkEntry(dirpath, names[1..]));
      assert here == [s] + later;
      assert Sources(jobs) == {s} + Sources(CopyJobsIn(src, tgt, dirpath, names[1..]));
      assert (set p | p in here) == {s} + (set p | p in later);
    }
  }

  lemma {:induction false} CopyJobsShape(src: Path, tgt: Path, walk: seq<WalkEntry>)
    requires WalksUnder(walk, src) && LastName(src) != ""
    ensures forall a :: a in CopyJobs(src, tgt, walk) ==> CopyPair(src, tgt, a)
    ensures Sources(CopyJobs(src, tgt, walk)) == set p | p in WalkFiles(walk)
    decreases |walk|
  {
    if walk != [] {
      CopyJobsInShape(src, tgt, walk[0].dirpath, walk[0].filenames);
      CopyJobsShape(src, tgt, walk[1..]);
      var here := CopyJobsIn(src, tgt, walk[0].dirpath, walk[0].filenames);
      var later := CopyJobs(src, tgt, walk[1..]);
      assert Sources(here + later) == Sources(here) + Sources(later);
    }
  }

  /** The source subtree and the managed subtree of the target are disjoint. */
  predicate RootsApart(src: Path, tgt: Path) {
    !IsPrefix(src, ManagedRoot(src, tgt)) && !IsPrefix(ManagedRoot(src, tgt), src)
  }

  /** A path below one of two disjoint roots is not at or above a path
      below the other. */
  lemma ApartBelow(r1: Path, r2: Path, x: Path, y: Path)
    requires !IsPrefix(r1, r2) && !IsPrefix(r2, r1)
    requires IsPrefix(r1, x) && IsPrefix(r2, y)
    ensures !IsPrefix(x, y)
  {
  }

  /** Two file paths of a tree-shaped filesystem are equal or unrelated. */
  lemma FilesUnrelated(st: State, p: Path, q: Path)
    requires Valid(st) && p in st.files && q in st.files
    ensures IsPrefix(p, q) ==> p == q
  {
  }

  /** Moving two paths from below `r1` to below `r2` nests them only if they
      were nested before. */
  lemma RebasedPrefix(r1: Path, r2: Path, x: Path, y: Path)
    requires IsPrefix(r1, x) && IsPrefix(r1, y)
    ensures IsPrefix(r2 + x[|r1|..], r2 + y[|r1|..]) ==> IsPrefix(x, y)
  {
    var rx, ry := x[|r1|..], y[|r1|..];
    if IsPrefix(r2 + rx, r2 + ry) {
      assert x == r1 + rx && y == r1 + ry;
      assert ry[..|rx|] == (r2 + ry)[|r2|..|r2 + rx|];
      assert y[..|x|] == r1 + ry[..|rx|];
    }
  }

  lemma PairsDisjoint(st: State, src: Path, tgt: Path, jobs: seq<Job>)
    requires Valid(st) && LastName(src) != "" && RootsApart(src, tgt)
    requires forall a :: a in jobs ==> CopyPair(src, tgt, a) && a.src in st.files
    ensures Disjoint(jobs)
  {
    var m := ManagedRoot(src, tgt);
    forall a, b | a in jobs && b in jobs && a != b
      ensures !IsPrefix(a.dest, b.dest)
    {
      RebasedPrefix(src, m, a.src, b.src);
      FilesUnrelated(st, a.src, b.src);
    }
    forall a, b | a in jobs && b in jobs
      ensures !IsPrefix(a.dest, b.src)
    {
      assert a.dest[..|m|] == m;
      ApartBelow(m, src, a.dest, b.src);
    }
  }

  /** traverse_for_copy with force, when it reports no error, leaves every
      file below the source root with a copy of the same size and hash at its
      mapped name, and changes no file in the source. Preconditions: a tree-
      shaped filesystem, a complete walk, disjoint source and managed
      subtrees, and no mapped name already a directory. */
  lemma CopyTraversalConverges(st: State, src: Path, tgt: Path, walk: seq<WalkEntry>, cpus: nat, H: Bytes -> Digest)
    requires Valid(st) && WalkOf(st, src, walk) && LastName(src) != "" && RootsApart(src, tgt)
    requires forall a :: a in CopyJobs(src, tgt, walk) ==> a.dest !in st.dirs
    requires Traversal(st, CopyJobs(src, tgt, walk), cpus, false, H).1 == Ok
    ensures Sources(CopyJobs(src, tgt, walk)) == set p | p in st.files && StrictlyUnder(p, src)
    ensures forall a :: a in CopyJobs(src, tgt, walk) ==> CopyPair(src, tgt, a)
    ensures var fin := Traversal(st, CopyJobs(src, tgt, walk), cpus, false, H).0;
      && (forall a :: a in CopyJobs(src, tgt, walk) ==> SameContent(fin, a.src, a.dest, H))
      && (forall p :: StrictlyUnder(p, src) ==> (p in fin.files <==> p in st.files))
      && (forall p :: StrictlyUnder(p, src) && p in st.files ==> fin.files[p] == st.files[p])
      && WalkOf(fin, src, walk)
  {
    var jobs := CopyJobs(src, tgt, walk);
    CopyJobsShape(src, tgt, walk);
    assert forall a :: a in jobs ==> a.src in Sources(jobs);
    PairsDisjoint(st, src, tgt, jobs);
    TraversalIsSequentialWhenOk(st, jobs, cpus, false, H);
    assert [] + jobs == jobs;
    CopiesConverge(st, Ok, [], jobs, H);
    CopyDestsOutsideSource(src, tgt, jobs);
  }

  lemma CopyDestsOutsideSource(src: Path, tgt: Path, jobs: seq<Job>)
    requires LastName(src) != "" && RootsApart(src, tgt)
    requires forall a :: a in jobs ==> CopyPair(src, tgt, a)
    ensures forall p :: StrictlyUnder(p, src) ==> p !in Dests(jobs)
  {
    var m := ManagedRoot(src, tgt);
    forall p, a | StrictlyUnder(p, src) && a in jobs
      ensures a.dest != p
    {
      assert a.dest[..|m|] == m;
      ApartBelow(m, src, a.dest, p);
    }
  }

  /** A copy run over items that have all converged changes nothing and
      prints nothing, in dry-run as well. */
  lemma {:induction false} ConvergedBatchIsNoOp(st: State, first: Outcome, jobs: seq<Job>, dryrun: bool, H: Bytes -> Digest)
    requires forall a :: a in jobs ==> a.CopyJob? && SameContent(st, a.src, a.dest, H)
    ensures RunFrom(st, first, jobs, dryrun, H) == (st, first)
    decreases |jobs|
  {
    if jobs != [] {
      assert jobs[0] in jobs;
      CopySkipsExactlyWhenSame(st, jobs[0].src, jobs[0].dest, dryrun, H);
      ConvergedBatchIsNoOp(st, first, jobs[1..], dryrun, H);
    }
  }

  /** Idempotence: running the same copy traversal again right after one
      that reported no error does nothing at all. */
  lemma CopyTwiceIsCopyOnce(st: State, src: Path, tgt: Path, walk: seq<WalkEntry>, cpus: nat, dryrun: bool, H: Bytes -> Digest)
    requires Valid(st) && WalkOf(st, src, walk) && LastName(src) != "" && RootsApart(src, tgt)
    requires forall a :: a in CopyJobs(src, tgt, walk) ==> a.dest !in st.dirs
    requires Traversal(st, CopyJobs(src, tgt, walk), cpus, false, H).1 == Ok
    ensures var fin := Traversal(st, CopyJobs(src, tgt, walk), cpus, false, H).0;
      Traversal(fin, CopyJobs(src, tgt, walk), cpus, dryrun, H) == (fin, Ok)
  {
    var jobs := CopyJobs(src, tgt, walk);
    var fin := Traversal(st, jobs, cpus, false, H).0;
    CopyTraversalConverges(st, src, tgt, walk, cpus, H);
    ConvergedBatchIsNoOp(fin, Ok, jobs, dryrun, H);
    TraversalIsSequentialWhenOk(fin, jobs, cpus, dryrun, H);
  }

  // ---------------------------------------------------------------------
  // Delete: what is removed and what is kept
  // ---------------------------------------------------------------------

  /** The shape of every delete item of a walk whose directories are mapped
      back through `root`: its target file lies strictly under `root` and its
      source is that file's path below `root`, placed under the source root.
      The code as written uses the root dest/<stem> (Sync.StemRoot); the
      corrected mapping uses dest/<name> (Sync.ManagedRoot). */
  predicate DeletePair(src: Path, root: Path, a: Job) {
    && a.DeleteJob? && StrictlyUnder(a.dest, root)
    && a.src == src + a.dest[|root|..]
  }

  lemma {:induction false} DeleteJobsInShape(src: Path, root: Path, dirpath: Path, names: seq<Name>)
    ensures forall a :: a in DeleteJobsIn(src, root, dirpath, names) ==> DeletePair(src, root, a)
    ensures forall g :: g in EntryFiles(WalkEntry(dirpath, names)) && StrictlyUnder(g, root) ==>
      DeleteJob(g, src + g[|root|..]) in DeleteJobsIn(src, root, dirpath, names)
    decreases |names|
  {
    if names != [] {
      DeleteJobsInShape(src, root, dirpath, names[1..]);
      var g := dirpath + [names[0]];
      var here := EntryFiles(WalkEntry(dirpath, names));
      assert here == [g] + EntryFiles(WalkEntry(dirpath, names[1..]));
      if IsPrefix(root, dirpath) {
        assert g[..|root|] == dirpath[..|root|];
        assert src + dirpath[|root|..] + [names[0]] == src + g[|root|..];
      }
    }
  }

  lemma {:induction false} DeleteJobsShape(src: Path, root: Path, walk: seq<WalkEntry>)
    ensures forall a :: a in DeleteJobs(src, root, walk) ==> DeletePair(src, root, a)
    ensures forall g :: g in WalkFiles(walk) && StrictlyUnder(g, root) ==>
      DeleteJob(g, src + g[|root|..]) in DeleteJobs(src, root, walk)
    decreases |walk|
  {
    if walk != [] {
      DeleteJobsInShape(src, root, walk[0].dirpath, walk[0].filenames);
      DeleteJobsShape(src, root, walk[1..]);
    }
  }

  /** Delete items only ever remove files: no directory changes, no file
      appears or changes, and only their targets can go. */
  ghost predicate OnlyRemoves(st: State, fin: State, gone: set<Path>) {
    && fin.dirs == st.dirs
    && (forall p :: p in fin.files ==> p in st.files && fin.files[p] == st.files[p])
    && (forall p :: p !in gone && p in st.files ==> p in fin.files)
  }

  lemma {:induction false} DeleteBatchOnlyRemoves(st: State, first: Outcome, jobs: seq<Job>, dryrun: bool)
    requires forall a :: a in jobs ==> a.DeleteJob?
    ensures OnlyRemoves(st, RunFrom(st, first, jobs, dryrun, NoHash).0, Dests(jobs))
    decreases |jobs|
  {
    if jobs != [] {
      var j := jobs[0];
      assert j in jobs;
      var (st1, o) := DeleteStep(st, j.dest, j.src, dryrun);
      DeleteDecision(st, j.dest, j.src, dryrun);
      DeleteBatchOnlyRemoves(st1, if first.Raised? then first else o, jobs[1..], dryrun);
      assert Dests(jobs) == {j.dest} + Dests(jobs[1..]);
    }
  }

  lemma {:induction false} DeleteBatchesOnlyRemove(st: State, bs: seq<seq<Job>>, dryrun: bool)
    requires forall a :: a in Flatten(bs) ==> a.DeleteJob?
    ensures OnlyRemoves(st, RunBatches(st, bs, dryrun, NoHash).0, Dests(Flatten(bs)))
    decreases |bs|
  {
    if bs != [] {
      assert Flatten(bs) == bs[0] + Flatten(bs[1..]);
      DeleteBatchOnlyRemoves(st, Ok, bs[0], dryrun);
      var (st1, o) := RunBatch(st, bs[0], dryrun, NoHash);
      if !o.Raised? {
        DeleteBatchesOnlyRemove(st1, bs[1..], dryrun);
      }
      assert Dests(Flatten(bs)) == Dests(bs[0]) + Dests(Flatten(bs[1..]));
    }
  }

  /** traverse_for_delete, whether or not it fails and in dry-run or not,
      creates and changes nothing, and removes no file outside the subtree
      `root` its directories are mapped through. */
  lemma DeleteTraversalFrame(st: State, src: Path, root: Path, walk: seq<WalkEntry>, cpus: nat, dryrun: bool)
    ensures var fin := Traversal(st, DeleteJobs(src, root, walk), cpus, dryrun, NoHash).0;
      && fin.dirs == st.dirs
      && (forall p :: p in fin.files ==> p in st.files && fin.files[p] == st.files[p])
      && (forall p :: p in st.files && !StrictlyUnder(p, root) ==> p in fin.files)
  {
    var jobs := DeleteJobs(src, root, walk);
    DeleteJobsShape(src, root, walk);
    BatchesPartition(jobs, 3 * cpus);
    DeleteBatchesOnlyRemove(st, Batches(jobs, 3 * cpus), dryrun);
    forall p | p in Dests(jobs)
      ensures StrictlyUnder(p, root)
    {
      var a :| a in jobs && a.dest == p;
    }
  }

  /** Delete items whose sources are never among their targets, and whose
      targets each come with one source. */
  ghost predicate Unambiguous(jobs: seq<Job>) {
    && (forall a :: a in jobs ==> a.DeleteJob? && a.src !in Dests(jobs))
    && (forall a, b :: a in jobs && b in jobs && a.dest == b.dest ==> a == b)
  }

  /** A delete run with no failure removes exactly the targets whose source
      was missing when it started. */
  lemma {:induction false} DeletesDecideBySource(st: State, first: Outcome, todo: seq<Job>, all: seq<Job>)
    requires Unambiguous(all) && forall a :: a in todo ==> a in all
    requires RunFrom(st, first, todo, false, NoHash).1 == Ok
    ensures var fin := RunFrom(st, first, todo, false, NoHash).0;
      forall a :: a in todo && a.dest in st.files ==> (a.dest in fin.files <==> Exists(st, a.src))
    decreases |todo|
  {
    if todo != [] {
      var j := todo[0];
      var rest := todo[1..];
      assert j in todo && j in all;
      var (st1, o) := DeleteStep(st, j.dest, j.src, false);
      DeleteDecision(st, j.dest, j.src, false);
      if first.Raised? {
        FirstErrorSticks(st1, first.error, rest, false, NoHash);
      } else if o.Raised? {
        FirstErrorSticks(st1, o.error, rest, false, NoHash);
      } else {
        assert forall a :: a in rest ==> a in todo;
        DeletesDecideBySource(st1, Ok, rest, all);
        DeleteBatchOnlyRemoves(st1, Ok, rest, false);
        var fin := RunFrom(st1, Ok, rest, false, NoHash).0;
        forall a | a in todo && a.dest in st.files
          ensures a.dest in fin.files <==> Exists(st, a.src)
        {
          assert a in all;
          assert a.src != j.dest;
          if a.dest == j.dest {
            assert a == j;
            if a in rest {
              assert Exists(st1, a.src) <==> Exists(st, a.src);
            } else {
              assert a.dest !in Dests(rest);
            }
          } else {
            assert Exists(st1, a.src) <==> Exists(st, a.src);
            assert a in rest;
          }
        }
      }
    }
  }

  /** traverse_for_delete with force, when it reports no error, removes a
      file under the subtree `root` of the target exactly when the file at
      its mapped source path existed as no kind of entry, given a complete
      walk of the target, a root at or below the target and a source subtree
      disjoint from it. */
  lemma DeleteTraversalRemovesOrphans(st: State, src: Path, dest: Path, root: Path, walk: seq<WalkEntry>, cpus: nat)
    requires WalkOf(st, dest, walk) && IsPrefix(dest, root) && !IsPrefix(src, root) && !IsPrefix(root, src)
    requires Traversal(st, DeleteJobs(src, root, walk), cpus, false, NoHash).1 == Ok
    ensures var fin := Traversal(st, DeleteJobs(src, root, walk), cpus, false, NoHash).0;
      forall g :: g in st.files && StrictlyUnder(g, root) ==>
        (g in fin.files <==> Exists(st, src + g[|root|..]))
  {
    var jobs := DeleteJobs(src, root, walk);
    DeleteJobsShape(src, root, walk);
    TraversalIsSequentialWhenOk(st, jobs, cpus, false, NoHash);
    forall a, b | a in jobs && b in jobs
      ensures b.dest != a.src
    {
      assert b.dest[..|root|] == root;
      assert a.src[..|src|] == src;
      ApartBelow(root, src, b.dest, a.src);
    }
    forall a, b | a in jobs && b in jobs && a.dest == b.dest
      ensures a == b
    {
    }
    DeletesDecideBySource(st, Ok, jobs, jobs);
    forall g | g in st.files && StrictlyUnder(g, root)
      ensures DeleteJob(g, src + g[|root|..]) in jobs
    {
      assert g[..|dest|] == dest by {
        assert g[..|root|][..|dest|] == g[..|dest|];
      }
    }
  }

  /** The delete traversal as written (root dest/<stem>) removes, for a
      source root whose name has no suffix, exactly the orphans of the
      managed subtree dest/<name> where the copy direction writes. */
  lemma DeleteTraversalAsWrittenRemovesOrphans(st: State, src: Path, dest: Path, walk: seq<WalkEntry>, cpus: nat)
    requires WalkOf(st, dest, walk) && Suffix(LastName(src)) == "" && RootsApart(src, dest)
    requires Traversal(st, DeleteJobs(src, StemRoot(src, dest), walk), cpus, false, NoHash).1 == Ok
    ensures var fin := Traversal(st, DeleteJobs(src, StemRoot(src, dest), walk), cpus, false, NoHash).0;
      forall g :: g in st.files && StrictlyUnder(g, ManagedRoot(src, dest)) ==>
        (g in fin.files <==> Exists(st, src + g[|ManagedRoot(src, dest)|..]))
  {
    StemMappingAgrees(src, dest, dest);
    var m := ManagedRoot(src, dest);
    assert IsPrefix(dest, m) by {
      assert m[..|dest|] == dest;
    }
    DeleteTraversalRemovesOrphans(st, src, dest, m, walk, cpus);
  }
}
