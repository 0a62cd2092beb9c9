/** The earlier variant of the sync engine (copy-usb.py). Its copy and
    delete helpers, its hash and its log are those of the sync engine; what
    differs is the mapping (the path relative to one root, placed under the
    other, with no nesting of the root's name), the backlog (a dictionary
    from submitted future to file, emptied entry by entry) and the command
    line (dry-run is opt-in, nothing is validated). */
module CopyUsb {
  import opened Paths
  import opened FileSystem
  import opened Sync
  import opened SyncProperties
  import opened TraversalProperties

  /** `abspath(join(tgt, relpath(s, src)))`. */
  function UsbTarget(s: Path, src: Path, tgt: Path): (r: Path)
    requires IsPrefix(src, s)
    ensures IsPrefix(tgt, r) && |r| - |tgt| == |s| - |src|
  {
    tgt + s[|src|..]
  }

  /** Mapping a file from one root to the other and back gives the file. */
  lemma UsbRoundTrip(s: Path, src: Path, tgt: Path)
    requires IsPrefix(src, s)
    ensures UsbTarget(UsbTarget(s, src, tgt), tgt, src) == s
    ensures StrictlyUnder(s, src) <==> StrictlyUnder(UsbTarget(s, src, tgt), tgt)
  {
    var r := UsbTarget(s, src, tgt);
    assert r[|tgt|..] == s[|src|..];
    assert src + s[|src|..] == s by {
      assert s[..|src|] == src;
    }
  }

  /** The function handed to traverse. */
  datatype Action = CopyAction | DeleteAction

  /** `fn(s, mapped)`: copy_if_needed(s, mapped), or
      delete_if_not_exists(dest=s, src=mapped) when the roots are flipped. */
  function UsbJob(fn: Action, s: Path, mapped: Path): Job {
    match fn
    case CopyAction => CopyJob(s, mapped)
    case DeleteAction => DeleteJob(s, mapped)
  }

  function UsbJobsIn(fn: Action, src: Path, tgt: Path, dirpath: Path, names: seq<Name>): seq<Job>
    requires IsPrefix(src, dirpath)
  {
    if names == [] then []
    else
      var s := dirpath + [names[0]];
      [UsbJob(fn, s, UsbTarget(s, src, tgt))] + UsbJobsIn(fn, src, tgt, dirpath, names[1..])
  }

  /** The work items of traverse(src, tgt, fn), in walk order. */
  function UsbJobs(fn: Action, src: Path, tgt: Path, walk: seq<WalkEntry>): seq<Job>
    requires WalksUnder(walk, src)
  {
    if walk == [] then []
    else UsbJobsIn(fn, src, tgt, walk[0].dirpath, walk[0].filenames) + UsbJobs(fn, src, tgt, walk[1..])
  }

  // ---------------------------------------------------------------------
  // The backlog dictionary
  // ---------------------------------------------------------------------

  /** The dictionary of outstanding futures: the items submitted since the
      last drain, each under the number of its submission. */
  function Backlog(lo: nat, pending: seq<Job>): map<nat, Job>
    decreases |pending|
  {
    if pending == [] then map[]
    else Backlog(lo, pending[..|pending| - 1])[lo + |pending| - 1 := pending[|pending| - 1]]
  }

  /** The keys of `m` are those from `lo` up to but not including `hi`. */
  ghost predicate KeysFrom(m: map<nat, Job>, lo: nat, hi: nat) {
    forall k :: k in m <==> lo <= k < hi
  }

  /** The backlog holds the `i`-th outstanding item under key `lo + i`. */
  lemma {:induction false} BacklogEntries(lo: nat, pending: seq<Job>)
    ensures KeysFrom(Backlog(lo, pending), lo, lo + |pending|)
    ensures forall k :: k in Backlog(lo, pending) ==> Backlog(lo, pending)[k] == pending[k - lo]
    decreases |pending|
  {
    if pending != [] {
      var init := pending[..|pending| - 1];
      BacklogEntries(lo, init);
    }
  }

  /** The dictionary holds one entry per outstanding item. */
  lemma {:induction false} BacklogSize(lo: nat, pending: seq<Job>)
    ensures |Backlog(lo, pending)| == |pending|
    decreases |pending|
  {
    if pending != [] {
      var init := pending[..|pending| - 1];
      BacklogSize(lo, init);
      BacklogEntries(lo, init);
      assert lo + |init| !in Backlog(lo, init);
    }
  }

  /** Submitting one more item adds it under the next key. */
  lemma BacklogAppend(lo: nat, pending: seq<Job>, job: Job)
    ensures Backlog(lo, pending)[lo + |pending| := job] == Backlog(lo, pending + [job])
  {
    assert (pending + [job])[..|pending|] == pending;
  }

  lemma DropKey(m: map<nat, Job>, lo: nat, hi: nat)
    requires KeysFrom(m, lo, hi)
    ensures KeysFrom(m - {lo}, lo + 1, hi)
  {
  }

  lemma NoKeys(m: map<nat, Job>, hi: nat)
    requires KeysFrom(m, hi, hi)
    ensures m == map[]
  {
    assert m.Keys == {};
  }

  /** `for e in as_completed(execs): e.result()`, and with `remove` also
      `del execs[e]`: every outstanding item is awaited (in submission order
      here) and the first failure is the one raised. */
  method Await(disk: Disk, execs: map<nat, Job>, lo: nat, hi: nat, remove: bool, dryrun: bool, H: Bytes -> Digest,
               ghost w: Worker, ghost pending: seq<Job>)
    returns (o: Outcome, execs': map<nat, Job>)
    requires execs == Backlog(lo, pending) && hi == lo + |pending| && Performs(w, dryrun, H)
    modifies disk
    ensures (disk.Snapshot(), o) == RunBatchWith(old(disk.Snapshot()), pending, w)
    ensures execs' == if remove then map[] else execs
  {
    BacklogEntries(lo, pending);
    o, execs' := Ok, execs;
    var k := lo;
    while k < hi
      invariant lo <= k <= hi
      invariant remove ==> KeysFrom(execs', k, hi)
      invariant !remove ==> execs' == execs
      invariant RunFromWith(disk.Snapshot(), o, pending[k - lo..], w) == RunBatchWith(old(disk.Snapshot()), pending, w)
    {
      var job := execs[k];
      ghost var st := disk.Snapshot();
      var r := Execute(disk, job, dryrun, H, w);
      RunFromStep(st, o, pending, k - lo, w, disk.Snapshot(), r);
      if o == Ok {
        o := r;
      }
      if remove {
        DropKey(execs', k, hi);
        execs' := execs' - {k};
      }
      k := k + 1;
    }
    if remove {
      NoKeys(execs', hi);
    }
  }

  /** The state of traverse between two submissions. */
  ghost predicate Pending(execs: map<nat, Job>, lo: nat, hi: nat, pending: seq<Job>) {
    execs == Backlog(lo, pending) && hi == lo + |pending|
  }

  /** One submission keeps the dictionary in step with the backlog. */
  lemma PendingAppend(execs: map<nat, Job>, lo: nat, hi: nat, pending: seq<Job>, job: Job)
    requires Pending(execs, lo, hi, pending)
    ensures Pending(execs[hi := job], lo, hi + 1, pending + [job])
    ensures |execs[hi := job]| == |pending + [job]|
  {
    BacklogAppend(lo, pending, job);
    BacklogSize(lo, pending);
    BacklogEntries(lo, pending);
    assert hi !in execs;
  }

  /** `execs[executor.submit(fn, s, mapped)] = s` and the backlog check. */
  method SubmitUsb(disk: Disk, execs: map<nat, Job>, lo: nat, hi: nat, job: Job, cpus: nat, dryrun: bool, H: Bytes -> Digest,
                   ghost w: Worker, ghost pending: seq<Job>, ghost rest: seq<Job>, ghost goal: (State, Outcome))
    returns (execs': map<nat, Job>, lo': nat, hi': nat, o: Outcome, ghost pending': seq<Job>)
    requires Pending(execs, lo, hi, pending) && Performs(w, dryrun, H)
    requires OnTrack(disk.Snapshot(), pending, [job] + rest, 3 * cpus, w, goal)
    modifies disk
    ensures |pending + [job]| <= 3 * cpus + 1
    ensures o.Raised? ==> (disk.Snapshot(), o) == goal
    ensures o.Ok? ==> Pending(execs', lo', hi', pending') && OnTrack(disk.Snapshot(), pending', rest, 3 * cpus, w, goal)
  {
    ghost var st0 := disk.Snapshot();
    SubmitTrack(st0, pending, job, rest, 3 * cpus, w, goal);
    PendingAppend(execs, lo, hi, pending, job);
    execs', lo', hi', o, pending' := execs[hi := job], lo, hi + 1, Ok, pending + [job];
    if |execs'| > cpus * 3 {
      ghost var r := RunBatchWith(st0, pending', w);
      o, execs' := Await(disk, execs', lo', hi', true, dryrun, H, w, pending');
      assert (disk.Snapshot(), o) == r;
      lo', pending' := hi', [];
      assert Backlog(lo', []) == map[];
    }
  }

  /** The inner loop of traverse: one item per file of one directory. */
  method SubmitAllIn(disk: Disk, fn: Action, src: Path, tgt: Path, dirpath: Path, filenames: seq<Name>,
                     execs: map<nat, Job>, lo: nat, hi: nat, cpus: nat, dryrun: bool, H: Bytes -> Digest,
                     ghost w: Worker, ghost pending: seq<Job>, ghost later: seq<Job>, ghost goal: (State, Outcome))
    returns (execs': map<nat, Job>, lo': nat, hi': nat, o: Outcome, ghost pending': seq<Job>)
    requires IsPrefix(src, dirpath)
    requires Pending(execs, lo, hi, pending) && Performs(w, dryrun, H)
    requires OnTrack(disk.Snapshot(), pending, UsbJobsIn(fn, src, tgt, dirpath, filenames) + later, 3 * cpus, w, goal)
    modifies disk
    ensures o.Raised? ==> (disk.Snapshot(), o) == goal
    ensures o.Ok? ==> Pending(execs', lo', hi', pending') && OnTrack(disk.Snapshot(), pending', later, 3 * cpus, w, goal)
  {
    execs', lo', hi', o, pending' := execs, lo, hi, Ok, pending;
    var j := 0;
    while j < |filenames|
      invariant 0 <= j <= |filenames| && o == Ok
      invariant Pending(execs', lo', hi', pending')
      invariant OnTrack(disk.Snapshot(), pending', UsbJobsIn(fn, src, tgt, dirpath, filenames[j..]) + later, 3 * cpus, w, goal)
    {
      var s := dirpath + [filenames[j]];
      var job := UsbJob(fn, s, UsbTarget(s, src, tgt));
      ghost var rest := UsbJobsIn(fn, src, tgt, dirpath, filenames[j + 1..]) + later;
      UsbJobsInStep(fn, src, tgt, dirpath, filenames, j, later);
      execs', lo', hi', o, pending' := SubmitUsb(disk, execs', lo', hi', job, cpus, dryrun, H, w, pending', rest, goal);
      if o.Raised? {
        return;
      }
      j := j + 1;
    }
    assert filenames[j..] == [];
    assert [] + later == later;
  }

  lemma UsbJobsInStep(fn: Action, src: Path, tgt: Path, dirpath: Path, filenames: seq<Name>, j: nat, later: seq<Job>)
    requires IsPrefix(src, dirpath) && j < |filenames|
    ensures IsPrefix(src, dirpath + [filenames[j]])
    ensures var s := dirpath + [filenames[j]];
      UsbJobsIn(fn, src, tgt, dirpath, filenames[j..]) + later
      == [UsbJob(fn, s, UsbTarget(s, src, tgt))] + (UsbJobsIn(fn, src, tgt, dirpath, filenames[j + 1..]) + later)
  {
    assert filenames[j..][1..] == filenames[j + 1..];
  }

  /** traverse(src, tgt, fn) on a pool of `cpus` workers over the walk
      `walk` of `src`: the same batches as the sync engine's traversals. */
  method Traverse(disk: Disk, fn: Action, src: Path, tgt: Path, walk: seq<WalkEntry>, cpus: nat, dryrun: bool, H: Bytes -> Digest,
                  ghost w: Worker)
    returns (o: Outcome)
    requires cpus > 0 && WalksUnder(walk, src) && Performs(w, dryrun, H)
    modifies disk
    ensures (disk.Snapshot(), o) == TraversalWith(old(disk.Snapshot()), UsbJobs(fn, src, tgt, walk), cpus, w)
  {
    var execs: map<nat, Job> := map[];
    var lo, hi := 0, 0;
    ghost var pending: seq<Job> := [];
    ghost var goal := TraversalWith(disk.Snapshot(), UsbJobs(fn, src, tgt, walk), cpus, w);
    var i := 0;
    assert pending + UsbJobs(fn, src, tgt, walk[i..]) == UsbJobs(fn, src, tgt, walk);
    while i < |walk|
      invariant 0 <= i <= |walk|
      invariant Pending(execs, lo, hi, pending)
      invariant OnTrack(disk.Snapshot(), pending, UsbJobs(fn, src, tgt, walk[i..]), 3 * cpus, w, goal)
    {
      assert walk[i..][1..] == walk[i + 1..];
      ghost var later := UsbJobs(fn, src, tgt, walk[i + 1..]);
      execs, lo, hi, o, pending := SubmitAllIn(disk, fn, src, tgt, walk[i].dirpath, walk[i].filenames,
                                               execs, lo, hi, cpus, dryrun, H, w, pending, later, goal);
      if o.Raised? {
        return;
      }
      i := i + 1;
    }
    assert pending + UsbJobs(fn, src, tgt, walk[i..]) == pending;
    FinalDrain(disk.Snapshot(), pending, 3 * cpus, w);
    o, execs := Await(disk, execs, lo, hi, false, dryrun, H, w, pending);
  }

  // ---------------------------------------------------------------------
  // What the delete direction removes
  // ---------------------------------------------------------------------

  lemma {:induction false} UsbDeleteJobsInShape(start: Path, target: Path, dirpath: Path, names: seq<Name>)
    requires IsPrefix(target, dirpath)
    ensures forall a :: a in UsbJobsIn(DeleteAction, target, start, dirpath, names) ==>
      a.DeleteJob? && StrictlyUnder(a.dest, target) && a.src == start + a.dest[|target|..]
    ensures forall g :: g in EntryFiles(WalkEntry(dirpath, names)) ==>
      DeleteJob(g, start + g[|target|..]) in UsbJobsIn(DeleteAction, target, start, dirpath, names)
    decreases |names|
  {
    if names != [] {
      UsbDeleteJobsInShape(start, target, dirpath, names[1..]);
      var g := dirpath + [names[0]];
      assert g[..|target|] == dirpath[..|target|];
      assert EntryFiles(WalkEntry(dirpath, names)) == [g] + EntryFiles(WalkEntry(dirpath, names[1..]));
    }
  }

  lemma {:induction false} UsbDeleteJobsShape(start: Path, target: Path, walk: seq<WalkEntry>)
    requires WalksUnder(walk, target)
    ensures forall a :: a in UsbJobs(DeleteAction, target, start, walk) ==>
      a.DeleteJob? && StrictlyUnder(a.dest, target) && a.src == start + a.dest[|target|..]
    ensures forall g :: g in WalkFiles(walk) && IsPrefix(target, g) ==> DeleteJob(g, start + g[|target|..]) in UsbJobs(DeleteAction, target, start, walk)
    decreases |walk|
  {
    if walk != [] {
      UsbDeleteJobsInShape(start, target, walk[0].dirpath, walk[0].filenames);
      UsbDeleteJobsShape(start, target, walk[1..]);
    }
  }

  /** `traverse(target, start, delete_if_not_exists)` without dry-run, when
      it reports no error, removes a target file exactly when the path with
      the same relative name under `start` exists as no kind of entry: every
      file of the target counts, none is exempt. */
  lemma UsbDeleteRemovesEveryOrphan(st: State, start: Path, target: Path, walk: seq<WalkEntry>, cpus: nat)
    requires WalkOf(st, target, walk) && !IsPrefix(start, target) && !IsPrefix(target, start)
    requires Traversal(st, UsbJobs(DeleteAction, target, start, walk), cpus, false, NoHash).1 == Ok
    ensures var fin := Traversal(st, UsbJobs(DeleteAction, target, start, walk), cpus, false, NoHash).0;
      forall g :: g in st.files && StrictlyUnder(g, target) ==> (g in fin.files <==> Exists(st, start + g[|target|..]))
  {
    var jobs := UsbJobs(DeleteAction, target, start, walk);
    UsbDeleteJobsShape(start, target, walk);
    TraversalIsSequentialWhenOk(st, jobs, cpus, false, NoHash);
    forall a | a in jobs
      ensures a.src !in Dests(jobs)
    {
      if a.src in Dests(jobs) {
        var b :| b in jobs && b.dest == a.src;
        assert b.dest[..|target|] == target;
        assert a.src[..|start|] == start;
        ApartBelow(target, start, b.dest, a.src);
      }
    }
    DeletesDecideBySource(st, Ok, jobs, jobs);
  }

  /** The copy direction without dry-run, when it reports no error, leaves
      every file below `start` with a copy of the same size and hash at the
      same relative name under `target`. */
  lemma UsbCopyConverges(st: State, start: Path, target: Path, walk: seq<WalkEntry>, cpus: nat, H: Bytes -> Digest)
    requires Valid(st) && WalkOf(st, start, walk) && !IsPrefix(start, target) && !IsPrefix(target, start)
    requires forall a :: a in UsbJobs(CopyAction, start, target, walk) ==> a.dest !in st.dirs
    requires Traversal(st, UsbJobs(CopyAction, start, target, walk), cpus, false, H).1 == Ok
    ensures var fin := Traversal(st, UsbJobs(CopyAction, start, target, walk), cpus, false, H).0;
      forall s :: s in st.files && StrictlyUnder(s, start) ==> SameContent(fin, s, target + s[|start|..], H)
  {
    var jobs := UsbJobs(CopyAction, start, target, walk);
    UsbCopyJobsShape(start, target, walk);
    UsbPairsDisjoint(st, start, target, jobs);
    TraversalIsSequentialWhenOk(st, jobs, cpus, false, H);
    assert [] + jobs == jobs;
    CopiesConverge(st, Ok, [], jobs, H);
  }

  lemma {:induction false} UsbCopyJobsInShape(start: Path, target: Path, dirpath: Path, names: seq<Name>)
    requires IsPrefix(start, dirpath)
    ensures forall a :: a in UsbJobsIn(CopyAction, start, target, dirpath, names) ==>
      a.CopyJob? && StrictlyUnder(a.src, start) && a.dest == target + a.src[|start|..] && a.src in EntryFiles(WalkEntry(dirpath, names))
    ensures forall s :: s in EntryFiles(WalkEntry(dirpath, names)) ==>
      CopyJob(s, target + s[|start|..]) in UsbJobsIn(CopyAction, start, target, dirpath, names)
    decreases |names|
  {
    if names != [] {
      UsbCopyJobsInShape(start, target, dirpath, names[1..]);
      var s := dirpath + [names[0]];
      assert s[..|start|] == dirpath[..|start|];
      assert EntryFiles(WalkEntry(dirpath, names)) == [s] + EntryFiles(WalkEntry(dirpath, names[1..]));
    }
  }

  lemma {:induction false} UsbCopyJobsShape(start: Path, target: Path, walk: seq<WalkEntry>)
    requires WalksUnder(walk, start)
    ensures forall a :: a in UsbJobs(CopyAction, start, target, walk) ==>
      a.CopyJob? && StrictlyUnder(a.src, start) && a.dest == target + a.src[|start|..] && a.src in WalkFiles(walk)
    ensures forall s :: s in WalkFiles(walk) && IsPrefix(start, s) ==> CopyJob(s, target + s[|start|..]) in UsbJobs(CopyAction, start, target, walk)
    decreases |walk|
  {
    if walk != [] {
      UsbCopyJobsInShape(start, target, walk[0].dirpath, walk[0].filenames);
      UsbCopyJobsShape(start, target, walk[1..]);
    }
  }

  lemma UsbPairsDisjoint(st: State, start: Path, target: Path, jobs: seq<Job>)
    requires Valid(st) && !IsPrefix(start, target) && !IsPrefix(target, start)
    requires forall a :: a in jobs ==>
      a.CopyJob? && StrictlyUnder(a.src, start) && a.dest == target + a.src[|start|..] && a.src in st.files
    ensures Disjoint(jobs)
  {
    forall a | a in jobs
      ensures a.dest != []
    {
      assert |a.dest| > |target|;
    }
    forall a, b | a in jobs && b in jobs && a != b
      ensures !IsPrefix(a.dest, b.dest)
    {
      RebasedPrefix(start, target, a.src, b.src);
      FilesUnrelated(st, a.src, b.src);
    }
    forall a, b | a in jobs && b in jobs
      ensures !IsPrefix(a.dest, b.src)
    {
      assert a.dest[..|target|] == target;
      ApartBelow(target, start, a.dest, b.src);
    }
  }

  // ---------------------------------------------------------------------
  // The command
  // ---------------------------------------------------------------------

  /** The `__main__` block up to the end of the copy direction: the roots
      line, then (if asked) the copy traversal over the walk `walk` of
      `start`. */
  function UsbCopyPhase(st: State, start: Path, target: Path, copy: bool, dryrun: bool, cpus: nat,
                        walk: seq<WalkEntry>, H: Bytes -> Digest): (State, Outcome)
    requires WalksUnder(walk, start)
  {
    var st1 := PrintSpec(st, Log(dryrun, Render(start) + " -> " + Render(target)));
    if copy then Traversal(st1, UsbJobs(CopyAction, start, target, walk), cpus, dryrun, H) else (st1, Ok)
  }

  /** The whole `__main__` block after parsing: a failing copy propagates
      before the delete direction starts; the delete direction walks
      `target` and looks each file up under `start`. */
  function UsbPlan(st: State, start: Path, target: Path, copy: bool, dryrun: bool, delete: bool, cpus: nat,
                   copyWalk: seq<WalkEntry>, deleteWalk: seq<WalkEntry>, H: Bytes -> Digest): (State, Outcome)
    requires WalksUnder(copyWalk, start) && WalksUnder(deleteWalk, target)
  {
    var (st2, o2) := UsbCopyPhase(st, start, target, copy, dryrun, cpus, copyWalk, H);
    if o2.Raised? || !delete then (st2, o2)
    else Traversal(st2, UsbJobs(DeleteAction, target, start, deleteWalk), cpus, dryrun, H)
  }

  /** The `__main__` block after parsing: log the two roots, copy if asked,
      then delete if asked, over walks of the tree as it is when each
      direction starts. Nothing is validated. */
  method UsbMain(disk: Disk, start: Path, target: Path, copy: bool, dryrun: bool, delete: bool, cpus: nat, H: Bytes -> Digest)
    returns (o: Outcome, ghost copyWalk: seq<WalkEntry>, ghost deleteWalk: seq<WalkEntry>)
    requires cpus > 0
    modifies disk
    ensures WalksUnder(copyWalk, start) && WalksUnder(deleteWalk, target)
    ensures copy ==> WalkOf(old(disk.Snapshot()), start, copyWalk)
    ensures delete && UsbCopyPhase(old(disk.Snapshot()), start, target, copy, dryrun, cpus, copyWalk, H).1 == Ok ==>
      WalkOf(UsbCopyPhase(old(disk.Snapshot()), start, target, copy, dryrun, cpus, copyWalk, H).0, target, deleteWalk)
    ensures (disk.Snapshot(), o) == UsbPlan(old(disk.Snapshot()), start, target, copy, dryrun, delete, cpus, copyWalk, deleteWalk, H)
  {
    disk.Print(Log(dryrun, Render(start) + " -> " + Render(target)));
    o, copyWalk, deleteWalk := Ok, [], [];
    if copy {
      var walk := Walk(disk, start);
      copyWalk := walk;
      PoolPerforms(dryrun, H);
      o := Traverse(disk, CopyAction, start, target, walk, cpus, dryrun, H, Pool(dryrun, H));
      if o.Raised? {
        return;
      }
    }
    if delete {
      var walk := Walk(disk, target);
      deleteWalk := walk;
      PoolPerforms(dryrun, H);
      o := Traverse(disk, DeleteAction, target, start, walk, cpus, dryrun, H, Pool(dryrun, H));
    }
  }

  /** Errors that escape the `__main__` block are file-system errors of a
      traversal that was asked for. */
  lemma UsbPlanRaisesOsErrors(st: State, start: Path, target: Path, copy: bool, dryrun: bool, delete: bool, cpus: nat,
                              copyWalk: seq<WalkEntry>, deleteWalk: seq<WalkEntry>, H: Bytes -> Digest)
    requires WalksUnder(copyWalk, start) && WalksUnder(deleteWalk, target)
    ensures var o := UsbPlan(st, start, target, copy, dryrun, delete, cpus, copyWalk, deleteWalk, H).1;
      o.Raised? ==> o.error.OsError? && (copy || delete)
  {
    var st1 := PrintSpec(st, Log(dryrun, Render(start) + " -> " + Render(target)));
    TraversalRaisesOsErrors(st1, Batches(UsbJobs(CopyAction, start, target, copyWalk), 3 * cpus), dryrun, H);
    var st2 := UsbCopyPhase(st, start, target, copy, dryrun, cpus, copyWalk, H).0;
    TraversalRaisesOsErrors(st2, Batches(UsbJobs(DeleteAction, target, start, deleteWalk), 3 * cpus), dryrun, H);
  }

  /** With `-d`, or with neither `-c` nor `-D`, no file or directory changes. */
  lemma UsbPlanKeepsTree(st: State, start: Path, target: Path, copy: bool, dryrun: bool, delete: bool, cpus: nat,
                         copyWalk: seq<WalkEntry>, deleteWalk: seq<WalkEntry>, H: Bytes -> Digest)
    requires WalksUnder(copyWalk, start) && WalksUnder(deleteWalk, target)
    requires dryrun || (!copy && !delete)
    ensures SameTree(UsbPlan(st, start, target, copy, dryrun, delete, cpus, copyWalk, deleteWalk, H).0, st)
  {
    if dryrun {
      var st1 := PrintSpec(st, Log(dryrun, Render(start) + " -> " + Render(target)));
      DryRunKeepsTree(st1, Batches(UsbJobs(CopyAction, start, target, copyWalk), 3 * cpus), H);
      var st2 := UsbCopyPhase(st, start, target, copy, dryrun, cpus, copyWalk, H).0;
      DryRunKeepsTree(st2, Batches(UsbJobs(DeleteAction, target, start, deleteWalk), 3 * cpus), H);
    }
  }

  /** The roots line is the first thing printed, and the traversals only
      append after it. */
  lemma UsbPlanLogsRootsFirst(st: State, start: Path, target: Path, copy: bool, dryrun: bool, delete: bool, cpus: nat,
                              copyWalk: seq<WalkEntry>, deleteWalk: seq<WalkEntry>, H: Bytes -> Digest)
    requires WalksUnder(copyWalk, start) && WalksUnder(deleteWalk, target)
    ensures var fin := UsbPlan(st, start, target, copy, dryrun, delete, cpus, copyWalk, deleteWalk, H).0;
      |fin.out| > |st.out| && fin.out[..|st.out| + 1] == st.out + [Log(dryrun, Render(start) + " -> " + Render(target))]
  {
    var st1 := PrintSpec(st, Log(dryrun, Render(start) + " -> " + Render(target)));
    TraversalKeepsOutput(st1, Batches(UsbJobs(CopyAction, start, target, copyWalk), 3 * cpus), dryrun, H);
    var st2 := UsbCopyPhase(st, start, target, copy, dryrun, cpus, copyWalk, H).0;
    TraversalKeepsOutput(st2, Batches(UsbJobs(DeleteAction, target, start, deleteWalk), 3 * cpus), dryrun, H);
    var fin := UsbPlan(st, start, target, copy, dryrun, delete, cpus, copyWalk, deleteWalk, H).0;
    assert |st1.out| <= |st2.out| && st2.out[..|st1.out|] == st1.out;
    assert |st2.out| <= |fin.out| && fin.out[..|st2.out|] == st2.out;
    assert fin.out[..|st1.out|] == fin.out[..|st2.out|][..|st1.out|];
  }

  /** A traversal only appends to the output. */
  lemma {:induction false} BatchKeepsOutput(st: State, first: Outcome, batch: seq<Job>, dryrun: bool, H: Bytes -> Digest)
    ensures var fin := RunFrom(st, first, batch, dryrun, H).0;
      |fin.out| >= |st.out| && fin.out[..|st.out|] == st.out
    decreases |batch|
  {
    if batch != [] {
      var (st', o) := Perform(st, batch[0], dryrun, H);
      if batch[0].CopyJob? {
        CopySkipsExactlyWhenSame(st, batch[0].src, batch[0].dest, dryrun, H);
      }
      BatchKeepsOutput(st', if first.Raised? then first else o, batch[1..], dryrun, H);
      var fin := RunFrom(st', if first.Raised? then first else o, batch[1..], dryrun, H).0;
      assert fin.out[..|st.out|] == fin.out[..|st'.out|][..|st.out|];
    }
  }

  lemma {:induction false} TraversalKeepsOutput(st: State, batches: seq<seq<Job>>, dryrun: bool, H: Bytes -> Digest)
    ensures var fin := RunBatches(st, batches, dryrun, H).0;
      |fin.out| >= |st.out| && fin.out[..|st.out|] == st.out
    decreases |batches|
  {
    if batches != [] {
      BatchKeepsOutput(st, Ok, batches[0], dryrun, H);
      var (st', o) := RunBatch(st, batches[0], dryrun, H);
      if !o.Raised? {
        TraversalKeepsOutput(st', batches[1..], dryrun, H);
        var fin := RunBatches(st', batches[1..], dryrun, H).0;
        assert fin.out[..|st.out|] == fin.out[..|st'.out|][..|st.out|];
      }
    }
  }
}
