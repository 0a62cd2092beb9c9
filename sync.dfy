/** The one-way tree sync engine: content identity, the copy and delete
    decisions, the two path mappings, and the batched traversals that submit
    one work item per walked file. Work items run sequentially here: a batch
    is run when it is awaited, every item of an awaited batch runs, and the
    first failure of the batch is the one raised. */
module Sync {
  import opened Paths
  import opened FileSystem

  const BUF_SIZE: nat := 65536
  const DRYRUN_STR: string := "(dryrun) "

  type Digest = string

  // ---------------------------------------------------------------------
  // Pool size
  // ---------------------------------------------------------------------

  /** get_cpu_count: the operating system's count, or 2 when it reports
      none (None, or the falsy 0). */
  function GetCpuCount(osCount: Option<nat>): (cpus: nat)
    ensures cpus > 0
    ensures osCount.Some? && osCount.value > 0 ==> cpus == osCount.value
    ensures osCount.None? || osCount.value == 0 ==> cpus == 2
  {
    if osCount.Some? && osCount.value > 0 then osCount.value else 2
  }

  // ---------------------------------------------------------------------
  // Content identity
  // ---------------------------------------------------------------------

  /** What f.read(BUF_SIZE) returns when the file offset is `pos`. */
  function ReadChunk(content: Bytes, pos: nat): (r: Bytes)
    requires pos <= |content|
    ensures |r| <= BUF_SIZE && pos + |r| <= |content| && r == content[pos..pos + |r|]
    ensures r == [] <==> pos == |content|
    ensures |r| < BUF_SIZE ==> pos + |r| == |content|
  {
    content[pos..if pos + BUF_SIZE <= |content| then pos + BUF_SIZE else |content|]
  }

  function Concat(chunks: seq<Bytes>): Bytes {
    if chunks == [] then [] else Concat(chunks[..|chunks| - 1]) + chunks[|chunks| - 1]
  }

  /** filehash: reads the content in chunks of at most BUF_SIZE bytes until
      the first empty read and feeds each chunk to a streaming hasher. The
      hasher is modelled by the bytes fed to it so far; its digest is `H` of
      that input, with `H` standing for SHA-256's hexdigest. */
  method FileHash(content: Bytes, H: Bytes -> Digest) returns (digest: Digest, ghost chunks: seq<Bytes>)
    ensures digest == H(content)
    ensures Concat(chunks) == content
    ensures forall i :: 0 <= i < |chunks| ==> 0 < |chunks[i]| <= BUF_SIZE
    ensures forall i :: 0 <= i < |chunks| - 1 ==> |chunks[i]| == BUF_SIZE
  {
    var fed: Bytes := [];
    var pos: nat := 0;
    chunks := [];
    while true
      invariant pos <= |content| && fed == content[..pos] && Concat(chunks) == fed
      invariant forall i :: 0 <= i < |chunks| ==> 0 < |chunks[i]| <= BUF_SIZE
      invariant forall i :: 0 <= i < |chunks| - 1 ==> |chunks[i]| == BUF_SIZE
      invariant chunks != [] && |chunks[|chunks| - 1]| < BUF_SIZE ==> pos == |content|
      decreases |content| - pos
    {
      var data := ReadChunk(content, pos);
      if data == [] {
        break;
      }
      assert content[..pos + |data|] == content[..pos] + data;
      fed := fed + data;
      chunks := chunks + [data];
      pos := pos + |data|;
    }
    assert content[..|content|] == content;
    digest := H(fed);
  }

  // ---------------------------------------------------------------------
  // Log lines
  // ---------------------------------------------------------------------

  /** log: the dry-run prefix is present exactly when dry-run is on. */
  function Log(dryrun: bool, msg: string): string {
    (if dryrun then DRYRUN_STR else "") + msg
  }

  function CopyMessage(src: Path, dest: Path): string {
    Render(src) + " -> " + Render(dest)
  }

  function DeleteMessage(dest: Path): string {
    "DELETE: " + Render(dest)
  }

  // ---------------------------------------------------------------------
  // Decision policy
  // ---------------------------------------------------------------------

  /** The skip condition of copy_if_needed: `dest` is a regular file with the
      size and the hash of `src`. */
  predicate SameContent(st: State, src: Path, dest: Path, H: Bytes -> Digest) {
    && dest in st.files && src in st.files
    && |st.files[dest]| == |st.files[src]|
    && H(st.files[src]) == H(st.files[dest])
  }

  /** copy_if_needed on a snapshot. Checking sizes needs `src` to exist once
      `dest` is a file; otherwise the copy is logged and, unless dry-run,
      the parent directories are created and the bytes copied. */
  function CopyStep(st: State, src: Path, dest: Path, dryrun: bool, H: Bytes -> Digest): (State, Outcome) {
    if dest in st.files && src !in st.files then (st, Raised(OsError(MissingKind(st, src), src)))
    else if SameContent(st, src, dest, H) then (st, Ok)
    else
      var st1 := PrintSpec(st, Log(dryrun, CopyMessage(src, dest)));
      if dryrun then (st1, Ok)
      else
        var (st2, o) := MakeDirsSpec(st1, Parent(dest));
        if o.Raised? then (st2, o) else CopySpec(st2, src, dest)
  }

  /** delete_if_not_exists on a snapshot: only a `src` that exists as no
      kind of entry leads to deleting `dest`. */
  function DeleteStep(st: State, dest: Path, src: Path, dryrun: bool): (State, Outcome) {
    if Exists(st, src) then (st, Ok)
    else
      var st1 := PrintSpec(st, Log(dryrun, DeleteMessage(dest)));
      if dryrun then (st1, Ok) else UnlinkSpec(st1, dest)
  }

  method CopyIfNeeded(disk: Disk, src: Path, dest: Path, dryrun: bool, H: Bytes -> Digest) returns (o: Outcome)
    modifies disk
    ensures (disk.Snapshot(), o) == CopyStep(old(disk.Snapshot()), src, dest, dryrun, H)
  {
    if dest in disk.files {
      if src !in disk.files {
        return Raised(OsError(MissingKind(disk.Snapshot(), src), src));
      }
      if |disk.files[dest]| == |disk.files[src]| {
        var srcHash, _ := FileHash(disk.files[src], H);
        var destHash, _ := FileHash(disk.files[dest], H);
        if srcHash == destHash {
          return Ok;
        }
      }
    }
    disk.Print(Log(dryrun, CopyMessage(src, dest)));
    o := Ok;
    if !dryrun {
      o := disk.MakeDirs(Parent(dest));
      if o.Raised? {
        return;
      }
      o := disk.Copy(src, dest);
    }
  }

  method DeleteIfNotExists(disk: Disk, dest: Path, src: Path, dryrun: bool) returns (o: Outcome)
    modifies disk
    ensures (disk.Snapshot(), o) == DeleteStep(old(disk.Snapshot()), dest, src, dryrun)
  {
    o := Ok;
    if !(src in disk.files || src in disk.dirs) {
      disk.Print(Log(dryrun, DeleteMessage(dest)));
      if !dryrun {
        o := disk.Unlink(dest);
      }
    }
  }

  // ---------------------------------------------------------------------
  // Path mapping
  // ---------------------------------------------------------------------

  /** The copy direction: `tgt / s.relative_to(src.parent)`. The source
      root's own name is nested under the target. */
  function CopyTarget(s: Path, src: Path, tgt: Path): (r: Path)
    requires IsPrefix(Parent(src), s)
    ensures src != [] && IsPrefix(src, s) ==> r == tgt + [LastName(src)] + s[|src|..]
    ensures src == [] ==> r == tgt + s
  {
    NestedSlice(s, src);
    tgt + s[|Parent(src)|..]
  }

  lemma NestedSlice(s: Path, src: Path)
    requires IsPrefix(Parent(src), s)
    ensures src != [] && IsPrefix(src, s) ==> s[|Parent(src)|..] == [LastName(src)] + s[|src|..]
  {
    if src != [] && IsPrefix(src, s) {
      assert s[|src| - 1] == src[|src| - 1];
    }
  }

  /** `src / subdir.relative_to(root)`: the source directory that the
      destination directory `subdir` stands for when the prefix `root` is
      stripped. None is the ValueError raised when `subdir` is not below
      `root`, on which the delete traversal skips the file. */
  function SourceUnder(src: Path, root: Path, subdir: Path): Option<Path> {
    match RelativeTo(subdir, root)
    case None => None
    case Some(rel) => Some(src + rel)
  }

  /** The prefix get_filepath_in_source strips as written: `dest / src.stem`. */
  function StemRoot(src: Path, dest: Path): Path {
    Join(dest, Stem(LastName(src)))
  }

  /** get_filepath_in_source exactly as written: it strips `dest / src.stem`,
      while the copy direction nests `src.name`. */
  function SourceForAsWritten(src: Path, dest: Path, subdir: Path): Option<Path> {
    SourceUnder(src, StemRoot(src, dest), subdir)
  }

  /** The managed subtree of the target: where the copy direction writes. */
  function ManagedRoot(src: Path, dest: Path): Path {
    Join(dest, LastName(src))
  }

  /** get_filepath_in_source with the prefix the copy direction uses:
      `src / subdir.relative_to(dest / src.name)`. */
  function SourceFor(src: Path, dest: Path, subdir: Path): Option<Path> {
    SourceUnder(src, ManagedRoot(src, dest), subdir)
  }

  // ---------------------------------------------------------------------
  // Walks and work items
  // ---------------------------------------------------------------------

  /** One triple of os.walk, without the subdirectory names. */
  datatype WalkEntry = WalkEntry(dirpath: Path, filenames: seq<Name>)

  function EntryFiles(e: WalkEntry): seq<Path> {
    seq(|e.filenames|, i requires 0 <= i < |e.filenames| => e.dirpath + [e.filenames[i]])
  }

  /** The files of a walk, in the order the walk lists them. */
  function WalkFiles(walk: seq<WalkEntry>): seq<Path> {
    if walk == [] then [] else EntryFiles(walk[0]) + WalkFiles(walk[1..])
  }

  lemma {:induction false} WalkFilesAppend(walk: seq<WalkEntry>, e: WalkEntry)
    ensures WalkFiles(walk + [e]) == WalkFiles(walk) + EntryFiles(e)
  {
    if walk == [] {
      assert [] + [e] == [e];
    } else {
      assert (walk + [e])[1..] == walk[1..] + [e];
      WalkFilesAppend(walk[1..], e);
    }
  }

  predicate NoDups<T(==)>(s: seq<T>) {
    forall i, j :: 0 <= i < j < |s| ==> s[i] != s[j]
  }

  predicate WalksUnder(walk: seq<WalkEntry>, root: Path) {
    forall i :: 0 <= i < |walk| ==> IsPrefix(root, walk[i].dirpath)
  }

  /** `walk` is a listing of `root` in `st`, in some order: every regular file
      strictly below `root` appears exactly once, and nothing else does. */
  ghost predicate WalkOf(st: State, root: Path, walk: seq<WalkEntry>) {
    && WalksUnder(walk, root)
    && NoDups(WalkFiles(walk))
    && forall p :: p in WalkFiles(walk) <==> p in st.files && StrictlyUnder(p, root)
  }

  datatype Job = CopyJob(src: Path, dest: Path) | DeleteJob(dest: Path, src: Path)

  function Perform(st: State, job: Job, dryrun: bool, H: Bytes -> Digest): (State, Outcome) {
    match job
    case CopyJob(s, d) => CopyStep(st, s, d, dryrun, H)
    case DeleteJob(d, s) => DeleteStep(st, d, s, dryrun)
  }

  /** The copy work items of one directory of the walk, in walk order. */
  function CopyJobsIn(src: Path, tgt: Path, dirpath: Path, names: seq<Name>): seq<Job>
    requires IsPrefix(src, dirpath)
  {
    if names == [] then []
    else
      var s := dirpath + [names[0]];
      PrefixTransitive(Parent(src), src, s);
      [CopyJob(s, CopyTarget(s, src, tgt))] + CopyJobsIn(src, tgt, dirpath, names[1..])
  }

  function CopyJobs(src: Path, tgt: Path, walk: seq<WalkEntry>): seq<Job>
    requires WalksUnder(walk, src)
  {
    if walk == [] then []
    else CopyJobsIn(src, tgt, walk[0].dirpath, walk[0].filenames) + CopyJobs(src, tgt, walk[1..])
  }

  /** The delete work items of one directory of the destination walk, for
      a traversal that strips the prefix `root`: a file whose directory does
      not map back into the source is skipped. */
  function DeleteJobsIn(src: Path, root: Path, dirpath: Path, names: seq<Name>): seq<Job> {
    if names == [] then []
    else
      (match SourceUnder(src, root, dirpath)
       case None => []
       case Some(sdir) => [DeleteJob(dirpath + [names[0]], sdir + [names[0]])])
      + DeleteJobsIn(src, root, dirpath, names[1..])
  }

  function DeleteJobs(src: Path, root: Path, walk: seq<WalkEntry>): seq<Job> {
    if walk == [] then []
    else DeleteJobsIn(src, root, walk[0].dirpath, walk[0].filenames) + DeleteJobs(src, root, walk[1..])
  }

  // ---------------------------------------------------------------------
  // Batches
  // ---------------------------------------------------------------------

  /** What the pool runs for one work item. */
  type Worker = (State, Job) -> (State, Outcome)

  /** The traversals' worker: copy_if_needed or delete_if_not_exists. */
  function Pool(dryrun: bool, H: Bytes -> Digest): Worker {
    (st: State, job: Job) => Perform(st, job, dryrun, H)
  }

  /** `w` does to every item what Perform does. The methods below are
      stated for any such `w`; the traversals' results are then those of
      Pool. */
  ghost predicate Performs(w: Worker, dryrun: bool, H: Bytes -> Digest) {
    forall st: State, job: Job {:trigger Perform(st, job, dryrun, H)} :: w(st, job) == Perform(st, job, dryrun, H)
  }

  lemma PoolPerforms(dryrun: bool, H: Bytes -> Digest)
    ensures Performs(Pool(dryrun, H), dryrun, H)
  {
  }

  /** Awaiting submitted items: each runs; the first failure is remembered. */
  function RunFromWith(st: State, first: Outcome, batch: seq<Job>, w: Worker): (State, Outcome)
    decreases |batch|
  {
    if batch == [] then (st, first)
    else
      var (st', o) := w(st, batch[0]);
      RunFromWith(st', if first.Raised? then first else o, batch[1..], w)
  }

  function RunBatchWith(st: State, batch: seq<Job>, w: Worker): (State, Outcome) {
    RunFromWith(st, Ok, batch, w)
  }

  /** How the traversals group their items: a batch is awaited as soon as it
      holds more than `cap` items, and the rest in a final drain. */
  function Batches(jobs: seq<Job>, cap: nat): seq<seq<Job>>
    decreases |jobs|
  {
    if |jobs| <= cap then [jobs] else [jobs[..cap + 1]] + Batches(jobs[cap + 1..], cap)
  }

  /** Runs the batches in order; a failing batch raises once it has drained,
      and nothing after it is submitted. */
  function RunBatchesWith(st: State, batches: seq<seq<Job>>, w: Worker): (State, Outcome)
    decreases |batches|
  {
    if batches == [] then (st, Ok)
    else
      var (st', o) := RunBatchWith(st, batches[0], w);
      if o.Raised? then (st', o) else RunBatchesWith(st', batches[1..], w)
  }

  /** What a traversal does with its items on a pool of `cpus` workers. */
  function TraversalWith(st: State, jobs: seq<Job>, cpus: nat, w: Worker): (State, Outcome) {
    RunBatchesWith(st, Batches(jobs, 3 * cpus), w)
  }

  /** The same, with the traversals' own worker. */
  function RunFrom(st: State, first: Outcome, batch: seq<Job>, dryrun: bool, H: Bytes -> Digest): (State, Outcome) {
    RunFromWith(st, first, batch, Pool(dryrun, H))
  }

  function RunBatch(st: State, batch: seq<Job>, dryrun: bool, H: Bytes -> Digest): (State, Outcome) {
    RunFrom(st, Ok, batch, dryrun, H)
  }

  function RunBatches(st: State, batches: seq<seq<Job>>, dryrun: bool, H: Bytes -> Digest): (State, Outcome) {
    RunBatchesWith(st, batches, Pool(dryrun, H))
  }

  function Traversal(st: State, jobs: seq<Job>, cpus: nat, dryrun: bool, H: Bytes -> Digest): (State, Outcome) {
    RunBatches(st, Batches(jobs, 3 * cpus), dryrun, H)
  }

  method Execute(disk: Disk, job: Job, dryrun: bool, H: Bytes -> Digest, ghost w: Worker) returns (o: Outcome)
    requires Performs(w, dryrun, H)
    modifies disk
    ensures (disk.Snapshot(), o) == w(old(disk.Snapshot()), job)
  {
    ghost var st0 := disk.Snapshot();
    match job {
      case CopyJob(s, d) =>
        o := CopyIfNeeded(disk, s, d, dryrun, H);
      case DeleteJob(d, s) =>
        o := DeleteIfNotExists(disk, d, s, dryrun);
    }
    assert w(st0, job) == Perform(st0, job, dryrun, H);
  }

  /** One more awaited item, in terms of the items still outstanding. */
  lemma RunFromStep(st: State, first: Outcome, batch: seq<Job>, k: nat, w: Worker, st1: State, o: Outcome)
    requires k < |batch| && (st1, o) == w(st, batch[k])
    ensures RunFromWith(st, first, batch[k..], w) == RunFromWith(st1, if first.Raised? then first else o, batch[k + 1..], w)
  {
    assert batch[k..][0] == batch[k];
    assert batch[k..][1..] == batch[k + 1..];
  }

  /** `for e in as_completed(execs): e.result()`, items taken in submission order. */
  method Drain(disk: Disk, execs: seq<Job>, dryrun: bool, H: Bytes -> Digest, ghost w: Worker) returns (o: Outcome)
    requires Performs(w, dryrun, H)
    modifies disk
    ensures (disk.Snapshot(), o) == RunBatchWith(old(disk.Snapshot()), execs, w)
  {
    o := Ok;
    var k := 0;
    while k < |execs|
      invariant 0 <= k <= |execs|
      invariant RunFromWith(disk.Snapshot(), o, execs[k..], w) == RunBatchWith(old(disk.Snapshot()), execs, w)
    {
      ghost var st := disk.Snapshot();
      var r := Execute(disk, execs[k], dryrun, H, w);
      RunFromStep(st, o, execs, k, w, disk.Snapshot(), r);
      if o == Ok {
        o := r;
      }
      k := k + 1;
    }
  }

  /** Submitting one more item: a full backlog is drained and reset. The
      backlog and the items still to come together give the same batches. */
  lemma SubmitStep(execs: seq<Job>, job: Job, rest: seq<Job>, cap: nat)
    requires |execs| <= cap
    ensures (execs + [job]) + rest == execs + ([job] + rest)
    ensures |execs + [job]| > cap ==> Batches((execs + [job]) + rest, cap) == [execs + [job]] + Batches([] + rest, cap)
  {
    var p := execs + [job];
    if |p| > cap {
      assert (p + rest)[..cap + 1] == p;
      assert (p + rest)[cap + 1..] == rest;
      assert [] + rest == rest;
    }
  }

  /** The final drain: a backlog no longer than the bound is one batch. */
  lemma FinalDrain(st: State, execs: seq<Job>, cap: nat, w: Worker)
    requires |execs| <= cap
    ensures RunBatchesWith(st, Batches(execs, cap), w) == RunBatchWith(st, execs, w)
  {
    assert Batches(execs, cap) == [execs];
  }

  /** The state of a traversal between two submissions: running the backlog
      and the items still to come gives the traversal's overall result. */
  ghost predicate OnTrack(st: State, execs: seq<Job>, rest: seq<Job>, cap: nat, w: Worker, goal: (State, Outcome)) {
    |execs| <= cap && RunBatchesWith(st, Batches(execs + rest, cap), w) == goal
  }

  /** Where one submission leaves a traversal that is on track: a backlog
      that is now over the bound is run as one batch, after which either the
      traversal has failed with that batch's result or it is on track with an
      empty backlog. */
  lemma SubmitTrack(st: State, pending: seq<Job>, job: Job, rest: seq<Job>, cap: nat, w: Worker, goal: (State, Outcome))
    requires OnTrack(st, pending, [job] + rest, cap, w, goal)
    ensures |pending + [job]| <= cap + 1
    ensures |pending + [job]| <= cap ==> OnTrack(st, pending + [job], rest, cap, w, goal)
    ensures |pending + [job]| > cap ==>
      var r := RunBatchWith(st, pending + [job], w);
      (r.1.Raised? ==> r == goal) && (r.1.Ok? ==> OnTrack(r.0, [], rest, cap, w, goal))
  {
    SubmitStep(pending, job, rest, cap);
    var bs := Batches((pending + [job]) + rest, cap);
    if |pending + [job]| > cap {
      assert bs[0] == pending + [job];
      assert bs[1..] == Batches([] + rest, cap);
    }
  }

  /** `execs.append(executor.submit(...))` followed by the backlog check. */
  method Submit(disk: Disk, execs: seq<Job>, job: Job, cap: nat, dryrun: bool, H: Bytes -> Digest,
                ghost w: Worker, ghost rest: seq<Job>, ghost goal: (State, Outcome))
    returns (execs': seq<Job>, o: Outcome)
    requires Performs(w, dryrun, H) && OnTrack(disk.Snapshot(), execs, [job] + rest, cap, w, goal)
    modifies disk
    ensures |execs + [job]| <= cap + 1
    ensures o.Raised? ==> (disk.Snapshot(), o) == goal
    ensures o.Ok? ==> OnTrack(disk.Snapshot(), execs', rest, cap, w, goal)
  {
    SubmitTrack(disk.Snapshot(), execs, job, rest, cap, w, goal);
    execs' := execs + [job];
    o := Ok;
    if |execs'| > cap {
      o := Drain(disk, execs', dryrun, H, w);
      execs' := [];
    }
  }

  /** The inner loop of traverse_for_copy: one work item per file of one
      directory of the walk. */
  method SubmitCopies(disk: Disk, src: Path, tgt: Path, dirpath: Path, filenames: seq<Name>, execs: seq<Job>,
                      cap: nat, dryrun: bool, H: Bytes -> Digest, ghost w: Worker, ghost later: seq<Job>, ghost goal: (State, Outcome))
    returns (execs': seq<Job>, o: Outcome)
    requires IsPrefix(src, dirpath) && Performs(w, dryrun, H)
    requires OnTrack(disk.Snapshot(), execs, CopyJobsIn(src, tgt, dirpath, filenames) + later, cap, w, goal)
    modifies disk
    ensures o.Raised? ==> (disk.Snapshot(), o) == goal
    ensures o.Ok? ==> OnTrack(disk.Snapshot(), execs', later, cap, w, goal)
  {
    execs', o := execs, Ok;
    var j := 0;
    while j < |filenames|
      invariant 0 <= j <= |filenames| && o == Ok
      invariant OnTrack(disk.Snapshot(), execs', CopyJobsIn(src, tgt, dirpath, filenames[j..]) + later, cap, w, goal)
    {
      var s := dirpath + [filenames[j]];
      CopyJobsInStep(src, tgt, dirpath, filenames, j, later);
      var r := CopyTarget(s, src, tgt);
      ghost var rest := CopyJobsIn(src, tgt, dirpath, filenames[j + 1..]) + later;
      execs', o := Submit(disk, execs', CopyJob(s, r), cap, dryrun, H, w, rest, goal);
      if o.Raised? {
        return;
      }
      j := j + 1;
    }
    assert filenames[j..] == [];
    assert [] + later == later;
  }

  lemma CopyJobsInStep(src: Path, tgt: Path, dirpath: Path, filenames: seq<Name>, j: nat, later: seq<Job>)
    requires IsPrefix(src, dirpath) && j < |filenames|
    ensures IsPrefix(src, dirpath + [filenames[j]]) && IsPrefix(Parent(src), dirpath + [filenames[j]])
    ensures CopyJobsIn(src, tgt, dirpath, filenames[j..]) + later
         == [CopyJob(dirpath + [filenames[j]], CopyTarget(dirpath + [filenames[j]], src, tgt))] + (CopyJobsIn(src, tgt, dirpath, filenames[j + 1..]) + later)
  {
    PrefixTransitive(Parent(src), src, dirpath + [filenames[j]]);
    assert filenames[j..][1..] == filenames[j + 1..];
  }

  /** traverse_for_copy over the walk `walk` of `src`; the backlog is
      flushed whenever it reaches 3 * cpus items (see Submit). */
  method TraverseForCopy(disk: Disk, src: Path, tgt: Path, walk: seq<WalkEntry>, osCount: Option<nat>, dryrun: bool, H: Bytes -> Digest,
                         ghost w: Worker)
    returns (o: Outcome)
    requires WalksUnder(walk, src) && Performs(w, dryrun, H)
    modifies disk
    ensures (disk.Snapshot(), o) == TraversalWith(old(disk.Snapshot()), CopyJobs(src, tgt, walk), GetCpuCount(osCount), w)
  {
    var execs: seq<Job> := [];
    var cpus := GetCpuCount(osCount);
    ghost var goal := TraversalWith(disk.Snapshot(), CopyJobs(src, tgt, walk), cpus, w);
    var i := 0;
    assert execs + CopyJobs(src, tgt, walk[i..]) == CopyJobs(src, tgt, walk);
    while i < |walk|
      invariant 0 <= i <= |walk|
      invariant OnTrack(disk.Snapshot(), execs, CopyJobs(src, tgt, walk[i..]), 3 * cpus, w, goal)
    {
      assert walk[i..][1..] == walk[i + 1..];
      ghost var later := CopyJobs(src, tgt, walk[i + 1..]);
      execs, o := SubmitCopies(disk, src, tgt, walk[i].dirpath, walk[i].filenames, execs, 3 * cpus, dryrun, H, w, later, goal);
      if o.Raised? {
        return;
      }
      i := i + 1;
    }
    assert execs + CopyJobs(src, tgt, walk[i..]) == execs;
    FinalDrain(disk.Snapshot(), execs, 3 * cpus, w);
    o := Drain(disk, execs, dryrun, H, w);
  }

  /** The inner loop of traverse_for_delete: a file whose directory does not
      map back into the source is skipped (the `except ValueError: continue`). */
  method SubmitDeletes(disk: Disk, src: Path, dest: Path, dirpath: Path, filenames: seq<Name>, execs: seq<Job>,
                       cap: nat, dryrun: bool, ghost w: Worker, ghost later: seq<Job>, ghost goal: (State, Outcome))
    returns (execs': seq<Job>, o: Outcome)
    requires Performs(w, dryrun, NoHash)
    requires OnTrack(disk.Snapshot(), execs, DeleteJobsIn(src, StemRoot(src, dest), dirpath, filenames) + later, cap, w, goal)
    modifies disk
    ensures o.Raised? ==> (disk.Snapshot(), o) == goal
    ensures o.Ok? ==> OnTrack(disk.Snapshot(), execs', later, cap, w, goal)
  {
    execs', o := execs, Ok;
    var j := 0;
    while j < |filenames|
      invariant 0 <= j <= |filenames| && o == Ok
      invariant OnTrack(disk.Snapshot(), execs', DeleteJobsIn(src, StemRoot(src, dest), dirpath, filenames[j..]) + later, cap, w, goal)
    {
      var r := dirpath + [filenames[j]];
      ghost var rest := DeleteJobsIn(src, StemRoot(src, dest), dirpath, filenames[j + 1..]) + later;
      DeleteJobsInStep(src, StemRoot(src, dest), dirpath, filenames, j, later);
      var mapped := SourceForAsWritten(src, dest, dirpath);
      if mapped.None? {
        j := j + 1;
        continue;
      }
      var s := mapped.value + [filenames[j]];
      execs', o := Submit(disk, execs', DeleteJob(r, s), cap, dryrun, NoHash, w, rest, goal);
      if o.Raised? {
        return;
      }
      j := j + 1;
    }
    assert filenames[j..] == [];
    assert [] + later == later;
  }

  lemma DeleteJobsInStep(src: Path, root: Path, dirpath: Path, filenames: seq<Name>, j: nat, later: seq<Job>)
    requires j < |filenames|
    ensures var rest := DeleteJobsIn(src, root, dirpath, filenames[j + 1..]) + later;
      DeleteJobsIn(src, root, dirpath, filenames[j..]) + later
      == match SourceUnder(src, root, dirpath)
         case None => rest
         case Some(sdir) => [DeleteJob(dirpath + [filenames[j]], sdir + [filenames[j]])] + rest
  {
    assert filenames[j..][1..] == filenames[j + 1..];
  }

  /** traverse_for_delete over the walk `walk` of `dest`, as written: each
      directory is mapped back to `src` through the stem-named root
      dest/<stem of src's name> (SourceForAsWritten). */
  method TraverseForDelete(disk: Disk, src: Path, dest: Path, walk: seq<WalkEntry>, osCount: Option<nat>, dryrun: bool,
                           ghost w: Worker)
    returns (o: Outcome)
    requires Performs(w, dryrun, NoHash)
    modifies disk
    ensures (disk.Snapshot(), o) == TraversalWith(old(disk.Snapshot()), DeleteJobs(src, StemRoot(src, dest), walk), GetCpuCount(osCount), w)
  {
    var execs: seq<Job> := [];
    var cpus := GetCpuCount(osCount);
    ghost var goal := TraversalWith(disk.Snapshot(), DeleteJobs(src, StemRoot(src, dest), walk), cpus, w);
    var i := 0;
    assert execs + DeleteJobs(src, StemRoot(src, dest), walk[i..]) == DeleteJobs(src, StemRoot(src, dest), walk);
    while i < |walk|
      invariant 0 <= i <= |walk|
      invariant OnTrack(disk.Snapshot(), execs, DeleteJobs(src, StemRoot(src, dest), walk[i..]), 3 * cpus, w, goal)
    {
      assert walk[i..][1..] == walk[i + 1..];
      ghost var later := DeleteJobs(src, StemRoot(src, dest), walk[i + 1..]);
      execs, o := SubmitDeletes(disk, src, dest, walk[i].dirpath, walk[i].filenames, execs, 3 * cpus, dryrun, w, later, goal);
      if o.Raised? {
        return;
      }
      i := i + 1;
    }
    assert execs + DeleteJobs(src, StemRoot(src, dest), walk[i..]) == execs;
    FinalDrain(disk.Snapshot(), execs, 3 * cpus, w);
    o := Drain(disk, execs, dryrun, NoHash, w);
  }

  // ---------------------------------------------------------------------
  // Dry-run leaves the tree alone
  // ---------------------------------------------------------------------

  /** Two snapshots with the same files and directories (output may differ). */
  predicate SameTree(a: State, b: State) {
    a.files == b.files && a.dirs == b.dirs
  }

  lemma {:induction false} DryRunBatchKeepsTree(st: State, first: Outcome, batch: seq<Job>, H: Bytes -> Digest)
    ensures SameTree(RunFrom(st, first, batch, true, H).0, st)
    decreases |batch|
  {
    if batch != [] {
      var (st', o) := Perform(st, batch[0], true, H);
      DryRunBatchKeepsTree(st', if first.Raised? then first else o, batch[1..], H);
    }
  }

  /** With dry-run on, no traversal changes a file or a directory. */
  lemma {:induction false} DryRunKeepsTree(st: State, batches: seq<seq<Job>>, H: Bytes -> Digest)
    ensures SameTree(RunBatches(st, batches, true, H).0, st)
    decreases |batches|
  {
    if batches != [] {
      DryRunBatchKeepsTree(st, Ok, batches[0], H);
      var (st', o) := RunBatch(st, batches[0], true, H);
      if !o.Raised? {
        DryRunKeepsTree(st', batches[1..], H);
      }
    }
  }

  /** Work items only ever raise OS errors. */
  lemma {:induction false} BatchRaisesOsErrors(st: State, first: Outcome, batch: seq<Job>, dryrun: bool, H: Bytes -> Digest)
    requires first.Raised? ==> first.error.OsError?
    ensures var o := RunFrom(st, first, batch, dryrun, H).1; o.Raised? ==> o.error.OsError?
    decreases |batch|
  {
    if batch != [] {
      var (st', o) := Perform(st, batch[0], dryrun, H);
      BatchRaisesOsErrors(st', if first.Raised? then first else o, batch[1..], dryrun, H);
    }
  }

  lemma {:induction false} TraversalRaisesOsErrors(st: State, batches: seq<seq<Job>>, dryrun: bool, H: Bytes -> Digest)
    ensures var o := RunBatches(st, batches, dryrun, H).1; o.Raised? ==> o.error.OsError?
    decreases |batches|
  {
    if batches != [] {
      BatchRaisesOsErrors(st, Ok, batches[0], dryrun, H);
      var (st', o) := RunBatch(st, batches[0], dryrun, H);
      if !o.Raised? {
        TraversalRaisesOsErrors(st', batches[1..], dryrun, H);
      }
    }
  }

  // ---------------------------------------------------------------------
  // Walking a tree, and the command itself
  // ---------------------------------------------------------------------

  /** os.walk(root), in an order of the model's choosing: each file strictly
      below `root` becomes its own entry. */
  method Walk(disk: Disk, root: Path) returns (walk: seq<WalkEntry>)
    ensures WalkOf(disk.Snapshot(), root, walk)
  {
    var todo := set p | p in disk.files && StrictlyUnder(p, root);
    ghost var all := todo;
    walk := [];
    while todo != {}
      invariant todo <= all
      invariant WalksUnder(walk, root)
      invariant NoDups(WalkFiles(walk))
      invariant forall p :: p in WalkFiles(walk) <==> p in all && p !in todo
      decreases |todo|
    {
      var p :| p in todo;
      var e := WalkEntry(Parent(p), [LastName(p)]);
      ParentJoin(p);
      assert EntryFiles(e) == [p];
      WalkFilesAppend(walk, e);
      walk := walk + [e];
      todo := todo - {p};
    }
  }

  /** The parsed command line (MyArgs). */
  datatype Args = Args(start: string, target: string, copy: bool, delete: bool, force: bool, dryrun: bool)

  /** get_args: dry-run is the default and -f/--force turns it off. */
  function GetArgs(start: string, target: string, copy: bool, force: bool, delete: bool): (a: Args)
    ensures a.dryrun <==> !force
    ensures a.start == start && a.target == target && a.copy == copy && a.delete == delete && a.force == force
  {
    Args(start, target, copy, delete, force, !force)
  }

  /** The roots `run` refuses: a missing argument, a start that is not a
      directory, or a target that exists as something other than a directory. */
  predicate BadRoots(st: State, args: Args, start: Path, target: Path) {
    args.start == "" || args.target == "" ||
    start !in st.dirs || (Exists(st, target) && target !in st.dirs)
  }

  /** The part of run after the roots are accepted, up to the end of the
      copy traversal: the roots line, then (if asked) "Copying..." and the
      copy traversal over the walk `walk` of `start`. */
  function CopyPhase(st: State, args: Args, start: Path, target: Path, cpus: nat, walk: seq<WalkEntry>, H: Bytes -> Digest): (State, Outcome)
    requires WalksUnder(walk, start)
  {
    var st1 := PrintSpec(st, Log(args.dryrun, Render(start) + " -> " + Render(target)));
    if args.copy then
      Traversal(PrintSpec(st1, Log(args.dryrun, "Copying...")), CopyJobs(start, target, walk), cpus, args.dryrun, H)
    else (st1, Ok)
  }

  /** The rest of run: (if asked) "Deleting non-existing files..." and the
      delete traversal over the walk `walk` of `target`. */
  function DeletePhase(st: State, args: Args, start: Path, target: Path, cpus: nat, walk: seq<WalkEntry>): (State, Outcome) {
    if args.delete then
      Traversal(PrintSpec(st, Log(args.dryrun, "Deleting non-existing files...")), DeleteJobs(start, StemRoot(start, target), walk), cpus, args.dryrun, NoHash)
    else (st, Ok)
  }

  /** run with accepted roots: copy first; a failed copy ends the run before
      the delete direction starts. */
  function RunPlan(st: State, args: Args, start: Path, target: Path, cpus: nat,
                   copyWalk: seq<WalkEntry>, deleteWalk: seq<WalkEntry>, H: Bytes -> Digest): (State, Outcome)
    requires WalksUnder(copyWalk, start)
  {
    var (st2, o2) := CopyPhase(st, args, start, target, cpus, copyWalk, H);
    if o2.Raised? then (st2, o2) else DeletePhase(st2, args, start, target, cpus, deleteWalk)
  }

  /** With dry-run on, run changes no file and no directory. */
  lemma RunPlanDryRunKeepsTree(st: State, args: Args, start: Path, target: Path, cpus: nat,
                               copyWalk: seq<WalkEntry>, deleteWalk: seq<WalkEntry>, H: Bytes -> Digest)
    requires WalksUnder(copyWalk, start) && args.dryrun
    ensures SameTree(RunPlan(st, args, start, target, cpus, copyWalk, deleteWalk, H).0, st)
  {
    var st1 := PrintSpec(st, Log(args.dryrun, Render(start) + " -> " + Render(target)));
    var st2 := PrintSpec(st1, Log(args.dryrun, "Copying..."));
    DryRunKeepsTree(st2, Batches(CopyJobs(start, target, copyWalk), 3 * cpus), H);
    var mid := CopyPhase(st, args, start, target, cpus, copyWalk, H).0;
    var st3 := PrintSpec(mid, Log(args.dryrun, "Deleting non-existing files..."));
    DryRunKeepsTree(st3, Batches(DeleteJobs(start, StemRoot(start, target), deleteWalk), 3 * cpus), NoHash);
  }

  /** With neither direction asked for, run prints the roots line and
      succeeds. */
  lemma RunPlanNoOp(st: State, args: Args, start: Path, target: Path, cpus: nat,
                    copyWalk: seq<WalkEntry>, deleteWalk: seq<WalkEntry>, H: Bytes -> Digest)
    requires WalksUnder(copyWalk, start) && !args.copy && !args.delete
    ensures RunPlan(st, args, start, target, cpus, copyWalk, deleteWalk, H)
      == (PrintSpec(st, Log(args.dryrun, Render(start) + " -> " + Render(target))), Ok)
    ensures SameTree(RunPlan(st, args, start, target, cpus, copyWalk, deleteWalk, H).0, st)
  {
  }

  /** Once the roots are accepted, the only errors run reports are the
      file-system errors of its work items, never an exit. */
  lemma RunPlanRaisesOsErrors(st: State, args: Args, start: Path, target: Path, cpus: nat,
                              copyWalk: seq<WalkEntry>, deleteWalk: seq<WalkEntry>, H: Bytes -> Digest)
    requires WalksUnder(copyWalk, start)
    ensures var o := RunPlan(st, args, start, target, cpus, copyWalk, deleteWalk, H).1;
      o.Raised? ==> o.error.OsError?
  {
    var st1 := PrintSpec(st, Log(args.dryrun, Render(start) + " -> " + Render(target)));
    var st2 := PrintSpec(st1, Log(args.dryrun, "Copying..."));
    TraversalRaisesOsErrors(st2, Batches(CopyJobs(start, target, copyWalk), 3 * cpus), args.dryrun, H);
    var mid := CopyPhase(st, args, start, target, cpus, copyWalk, H).0;
    var st3 := PrintSpec(mid, Log(args.dryrun, "Deleting non-existing files..."));
    TraversalRaisesOsErrors(st3, Batches(DeleteJobs(start, StemRoot(start, target), deleteWalk), 3 * cpus), args.dryrun, NoHash);
  }

  /** The copy half of run: the roots line, then, when asked, "Copying..."
      and the copy traversal over a fresh walk of `start`. */
  method CopyDirection(disk: Disk, args: Args, start: Path, target: Path, osCount: Option<nat>, H: Bytes -> Digest)
    returns (o: Outcome, ghost walk: seq<WalkEntry>)
    modifies disk
    ensures WalksUnder(walk, start)
    ensures args.copy ==> WalkOf(old(disk.Snapshot()), start, walk)
    ensures (disk.Snapshot(), o) == CopyPhase(old(disk.Snapshot()), args, start, target, GetCpuCount(osCount), walk, H)
  {
    disk.Print(Log(args.dryrun, Render(start) + " -> " + Render(target)));
    o, walk := Ok, [];
    if args.copy {
      disk.Print(Log(args.dryrun, "Copying..."));
      var w := Walk(disk, start);
      walk := w;
      PoolPerforms(args.dryrun, H);
      o := TraverseForCopy(disk, start, target, w, osCount, args.dryrun, H, Pool(args.dryrun, H));
    }
  }

  /** The delete half of run: when asked, "Deleting non-existing files..."
      and the delete traversal over a fresh walk of `target`. */
  method DeleteDirection(disk: Disk, args: Args, start: Path, target: Path, osCount: Option<nat>)
    returns (o: Outcome, ghost walk: seq<WalkEntry>)
    modifies disk
    ensures args.delete ==> WalkOf(old(disk.Snapshot()), target, walk)
    ensures (disk.Snapshot(), o) == DeletePhase(old(disk.Snapshot()), args, start, target, GetCpuCount(osCount), walk)
  {
    o, walk := Ok, [];
    if args.delete {
      disk.Print(Log(args.dryrun, "Deleting non-existing files..."));
      var w := Walk(disk, target);
      walk := w;
      PoolPerforms(args.dryrun, NoHash);
      o := TraverseForDelete(disk, start, target, w, osCount, args.dryrun, Pool(args.dryrun, NoHash));
    }
  }

  /** run: validates the roots, then copies (if asked) and then deletes (if
      asked). `start` and `target` are the resolved forms of the two
      arguments; `copyWalk` and `deleteWalk` are the walks it makes. A run
      that rejects its roots prints one message and changes nothing; any
      other run is the plan above over walks of the tree as it then is. */
  method Run(disk: Disk, args: Args, start: Path, target: Path, osCount: Option<nat>, H: Bytes -> Digest)
    returns (o: Outcome, ghost copyWalk: seq<WalkEntry>, ghost deleteWalk: seq<WalkEntry>)
    modifies disk
    ensures o == Raised(SystemExit(1)) <==> BadRoots(old(disk.Snapshot()), args, start, target)
    ensures BadRoots(old(disk.Snapshot()), args, start, target) ==>
      SameTree(disk.Snapshot(), old(disk.Snapshot()))
      && disk.out == old(disk.out) + [if args.start == "" || args.target == "" then "Needs start and target locations"
                                      else "start and target need to be directories"]
    ensures !BadRoots(old(disk.Snapshot()), args, start, target) ==>
      && WalksUnder(copyWalk, start)
      && (args.copy ==> WalkOf(old(disk.Snapshot()), start, copyWalk))
      && (disk.Snapshot(), o) == RunPlan(old(disk.Snapshot()), args, start, target, GetCpuCount(osCount), copyWalk, deleteWalk, H)
      && (args.delete && CopyPhase(old(disk.Snapshot()), args, start, target, GetCpuCount(osCount), copyWalk, H).1 == Ok ==>
            WalkOf(CopyPhase(old(disk.Snapshot()), args, start, target, GetCpuCount(osCount), copyWalk, H).0, target, deleteWalk))
  {
    copyWalk, deleteWalk := [], [];
    if args.start == "" || args.target == "" {
      disk.Print("Needs start and target locations");
      return Raised(SystemExit(1)), copyWalk, deleteWalk;
    }
    if start !in disk.dirs || ((target in disk.files || target in disk.dirs) && target !in disk.dirs) {
      disk.Print("start and target need to be directories");
      return Raised(SystemExit(1)), copyWalk, deleteWalk;
    }
    ghost var st0 := disk.Snapshot();
    o, copyWalk := CopyDirection(disk, args, start, target, osCount, H);
    if !o.Raised? {
      o, deleteWalk := DeleteDirection(disk, args, start, target, osCount);
    }
    RunPlanRaisesOsErrors(st0, args, start, target, GetCpuCount(osCount), copyWalk, deleteWalk, H);
  }

  /** Delete items never hash; the traversal runs them with this placeholder. */
  function NoHash(b: Bytes): Digest {
    ""
  }
}
