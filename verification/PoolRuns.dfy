/** Whole runs of the pool and its log: cache transparency and the write-ahead rule, across crashes. */
module PoolRuns {
  import opened Util
  import opened Replacement
  import opened Storage
  import opened FlatPool
  import opened PoolModel
  import opened PoolProof
  import Bytes
  import Log
  import Wal

  datatype Op =
    | Fetch(pid: PageId, fetched: Result<nat, Error>)
    | NewPage(made: Result<(nat, PageId), Error>)
    | Write(pid: PageId, f: nat, page: Page)
    | Unpin(pid: PageId, dirty: bool)
    | FlushOne(pid: PageId)
    | FlushAll
    | Append(record: Wal.Record)
    | FlushLog
    | Restart
    | Crash(keep: nat)

  /** The pool is gone with its process. */
  predicate EndsProcess(op: Op) {
    op.Restart? || op.Crash?
  }

  /** A new process: an empty pool over the disk as it is, and the log reopened. */
  ghost predicate Reopened(s: Pool, log: Option<Log.State>, s': Pool) {
    && s'.table == map[] && s'.view == View({}, {}) && s'.touched == {}
    && |s'.frames| == |s'.descs|
    && (forall f :: 0 <= f < |s'.descs| ==> s'.descs[f] == Descriptor(None, 0, false))
    && (forall f :: 0 <= f < |s'.frames| ==> PageLsn(s'.frames[f]) == 0)
    && s'.disk.pages == s.disk.pages
    && s'.log == log
  }

  /** A crash cuts the log to a prefix that holds all that was synced. */
  ghost predicate MayCut(s: Pool, keep: nat) {
    s.log.Some? ==> s.log.value.Valid() && s.log.value.synced <= keep <= |s.log.value.file|
  }

  /** One step, taken by clients that write only pages they hold and release them dirty. */
  ghost predicate Step(s: Pool, op: Op, s': Pool)
    requires s.Inv()
  {
    match op
    case Fetch(pid, r) => FetchStep(s, pid, r, s')
    case NewPage(r) => NewPageStep(s, r, s')
    case Write(pid, f, p) => s.Pinned(f) && s.descs[f].page == Some(pid) && s' == WriteFrame(s, f, p)
    case Unpin(pid, dirty) =>
      MayUnpin(s, pid, dirty) &&
      UnpinStep(s, pid, dirty, if pid in s.table then Ok(()) else Err(PageNotFound), s')
    case FlushOne(pid) => s' == PageFlushed(s, pid).0
    case FlushAll => s' == FlushFrom(s, 0)
    case Append(r) =>
      && s.log.Some? && s.log.value.Valid() && |s.log.value.file| + 12 + |Wal.Serialize(r)| < U64
      && s' == s.(log := Some(Log.Appended(s.log.value, r)))
    case FlushLog => s.log.Some? && s' == s.(log := Some(Log.Flushed(s.log.value)))
    case Restart =>
      && (s.log.Some? ==> s.log.value.Valid())
      && Reopened(s, if s.log.Some? then Some(Log.Restarted(s.log.value)) else None, s')
    case Crash(keep) =>
      && MayCut(s, keep)
      && Reopened(s, if s.log.Some? then Some(Log.Crashed(s.log.value, keep)) else None, s')
  }

  ghost predicate Run(states: seq<Pool>, ops: seq<Op>) {
    && |states| == |ops| + 1
    && states[0].Inv()
    && forall i :: 0 <= i < |ops| ==> (states[i].Inv() ==> Step(states[i], ops[i], states[i + 1]))
  }

  // ----- The flat machine the pool must be mistaken for -----

  ghost function FlatNext(a: Flat<Page>, op: Op): (a': Flat<Page>)
    requires a.Total()
    ensures a'.Total()
  {
    match op
    case Fetch(pid, r) => if r.Ok? then a.(pins := a.pins[pid := a.pins[pid] + 1]) else a
    case NewPage(r) => if r.Ok? then a.(pins := a.pins[r.value.1 := a.pins[r.value.1] + 1]) else a
    case Write(pid, _, p) => a.(store := a.store[pid := p])
    case Unpin(pid, _) => if a.pins[pid] > 0 then a.(pins := a.pins[pid := a.pins[pid] - 1]) else a
    case _ => a
  }

  ghost function FlatRun(a: Flat<Page>, ops: seq<Op>): (a': Flat<Page>)
    requires a.Total()
    ensures a'.Total()
  {
    if ops == [] then a else FlatNext(FlatRun(a, ops[..|ops| - 1]), ops[|ops| - 1])
  }

  lemma FetchFollowsFlat(s: Pool, op: Op, s': Pool)
    requires s.Inv() && Step(s, op, s') && (op.Fetch? || op.NewPage?)
    ensures s'.Inv() && s'.Abs() == FlatNext(s.Abs(), op)
  {
    hide Pool.Inv, Pool.Abs, Install, PinFrame;
    if op.Fetch? {
      FetchKeeps(s, op.pid, op.fetched, s');
    } else {
      NewPageKeeps(s, op.made, s');
    }
  }

  lemma HolderFollowsFlat(s: Pool, op: Op, s': Pool)
    requires s.Inv() && Step(s, op, s') && (op.Write? || op.Unpin?)
    ensures s'.Inv() && s'.Abs() == FlatNext(s.Abs(), op)
  {
    if op.Write? {
      WriteKeeps(s, op.pid, op.f, op.page);
    } else {
      UnpinKeeps(s, op.pid, op.dirty, if op.pid in s.table then Ok(()) else Err(PageNotFound), s');
    }
  }

  lemma SaverFollowsFlat(s: Pool, op: Op, s': Pool)
    requires s.Inv() && Step(s, op, s') && (op.FlushOne? || op.FlushAll? || op.Append? || op.FlushLog?)
    ensures s'.Inv() && s'.Abs() == FlatNext(s.Abs(), op)
  {
    assert |s.frames| == |s.descs|;
    if op.FlushOne? {
      FlushPageKeeps(s, op.pid);
    } else if op.FlushAll? {
      FlushFromKeeps(s, 0);
    } else {
      LogIsInvisible(s, s'.log);
    }
    hide Pool.Inv, Pool.Abs, Pool.Contents, Pool.Pins, WriteBack, FlushFrom;
  }

  /** The invariant survives every step, so a run need only start from it. */
  lemma StepKeepsInv(s: Pool, op: Op, s': Pool)
    requires s.Inv() && Step(s, op, s')
    ensures s'.Inv()
    ensures !EndsProcess(op) ==> s'.Abs() == FlatNext(s.Abs(), op)
  {
    if op.Fetch? || op.NewPage? {
      FetchFollowsFlat(s, op, s');
    } else if op.Write? || op.Unpin? {
      HolderFollowsFlat(s, op, s');
    } else if !EndsProcess(op) {
      SaverFollowsFlat(s, op, s');
    }
  }

  /** Cache transparency. Over every run, whatever the replacement policy evicts, the pool shows exactly
      what a flat map would after the same writes, and through every pinned frame. */
  lemma {:induction false} CacheTransparency(states: seq<Pool>, ops: seq<Op>)
    requires Run(states, ops) && forall op :: op in ops ==> !EndsProcess(op)
    ensures states[|ops|].Inv()
    ensures var s := states[|ops|];
            var flat := FlatRun(states[0].Abs(), ops);
            && s.Abs() == flat
            && forall f: nat :: s.Pinned(f) ==> s.Resident(f) && s.frames[f] == flat.store[s.descs[f].page.value]
  {
    hide Step, FlatNext, Pool.Inv, Pool.Abs;
    if ops != [] {
      var n := |ops| - 1;
      CacheTransparency(states[..|ops|], ops[..n]);
      StepKeepsInv(states[n], ops[n], states[n + 1]);
    }
    PinnedFramesShowPages(states[|ops|]);
  }

  lemma PinnedFramesShowPages(s: Pool)
    requires s.Inv()
    ensures forall f: nat :: s.Pinned(f) ==> s.Resident(f) && s.frames[f] == s.Abs().store[s.descs[f].page.value]
  {
    forall f: nat | s.Pinned(f)
      ensures s.Resident(f) && s.frames[f] == s.Abs().store[s.descs[f].page.value]
    {
      assert s.Resident(f) && s.Contents(s.descs[f].page.value) == s.frames[f];
    }
  }

  ghost predicate SameBytes(s: Pool, s': Pool, f: nat) {
    f < |s.frames| && f < |s'.frames| && s'.frames[f] == s.frames[f]
  }

  ghost predicate SamePage(s: Pool, s': Pool, f: nat) {
    s.Resident(f) && s'.Resident(f) && s'.descs[f].page == s.descs[f].page
  }

  lemma InstallSpares(s: Pool, victim: nat, pid: PageId, f: nat)
    requires |s.frames| == |s.descs| && victim < |s.descs| && s.Resident(f) && f != victim
    ensures SamePage(s, Install(s, victim, pid), f) && SameBytes(s, Install(s, victim, pid), f)
  {
  }

  lemma FetchSparesPinned(s: Pool, pid: PageId, r: Result<nat, Error>, s': Pool, f: nat)
    requires s.Inv() && FetchStep(s, pid, r, s') && s.Pinned(f)
    ensures SamePage(s, s', f) && SameBytes(s, s', f)
  {
    assert |s.frames| == |s.descs| && s.Resident(f);
    hide Pool.Core, Install;
    if pid !in s.table && r.Ok? {
      VictimIsFree(s, pid, r, s');
      InstallSpares(Untracked(s, r.value), r.value, pid, f);
    }
  }

  /** A pinned frame keeps its page, and its bytes unless its holder writes them. */
  lemma PinnedFrameIsNotReplaced(s: Pool, op: Op, s': Pool, f: nat)
    requires s.Inv() && Step(s, op, s') && s.Pinned(f) && !EndsProcess(op)
    ensures SamePage(s, s', f)
    ensures !(op.Write? && op.f == f) ==> SameBytes(s, s', f)
  {
    hide FetchStep, Pool.Abs;
    if op.Fetch? {
      FetchSparesPinned(s, op.pid, op.fetched, s', f);
    } else if op.NewPage? {
      var (disk, pid) := s.disk.Allocate();
      DiskCounterIsInvisible(s, disk);
      FetchSparesPinned(s.(disk := disk), pid, if op.made.Ok? then Ok(op.made.value.0) else Err(op.made.error), s', f);
    } else if op.FlushAll? {
      FlushLeavesFrames(s, 0, f);
    }
  }

  lemma {:induction false} FlushLeavesFrames(s: Pool, i: nat, f: nat)
    requires |s.frames| == |s.descs| && i <= |s.descs| && s.Resident(f)
    ensures FlushFrom(s, i).Resident(f) && FlushFrom(s, i).descs[f].page == s.descs[f].page
    ensures FlushFrom(s, i).frames == s.frames
    decreases |s.descs| - i
  {
    if i < |s.descs| {
      FlushLeavesFrames(if s.descs[i].dirty && s.Resident(i) then WriteBack(s, i) else s, i + 1, f);
    }
  }

  /** With every page flushed and no writer outstanding, a crash loses nothing. */
  lemma FlushedPoolSurvivesCrash(s: Pool, keep: nat, s': Pool)
    requires s.Inv() && s.touched == {}
    requires Step(FlushedPool(s), Crash(keep), s')
    ensures s'.Inv() && s'.Abs().store == s.Abs().store
  {
    StepKeepsInv(FlushedPool(s), Crash(keep), s');
    forall pid: PageId
      ensures FlushedPool(s).disk.Read(pid) == s.Contents(pid)
    {
      FlushAllReachesDisk(s, pid);
    }
    CrashShowsDisk(FlushedPool(s), keep, s');
    assert s'.Abs().store == s.Abs().store by {
      hide FlushedPool, Pool.Inv, Step;
    }
  }

  lemma CrashShowsDisk(s: Pool, keep: nat, s': Pool)
    requires s.Inv() && Step(s, Crash(keep), s')
    ensures |s'.frames| == |s'.descs| && forall pid :: s'.Contents(pid) == s.disk.Read(pid)
  {
    hide Pool.Core;
  }

  ghost function FlushedPool(s: Pool): (s': Pool)
    requires s.Inv()
    ensures s'.Inv()
  {
    FlushFromKeeps(s, 0);
    FlushFrom(s, 0)
  }

  // ----- The write-ahead rule -----

  /** No page on disk is ahead of the flushed log; no page in memory is ahead of the log. */
  ghost predicate WalRule(s: Pool) {
    s.log.Some? ==>
      && s.log.value.Valid()
      && (forall pid :: PageLsn(s.disk.Read(pid)) <= s.log.value.flushedLsn)
      && (forall f :: 0 <= f < |s.frames| ==> PageLsn(s.frames[f]) < s.log.value.nextLsn)
  }

  /** And what is reported as flushed is on stable storage. */
  ghost predicate WalSafe(s: Pool) {
    WalRule(s) && (s.log.Some? ==> s.log.value.Truthful())
  }

  /** Pages are stamped with LSNs that `append_record` has returned, and a process flushes the log before it ends. */
  ghost predicate Disciplined(s: Pool, op: Op) {
    && (op.Write? && s.log.Some? ==> PageLsn(op.page) < s.log.value.nextLsn)
    && (op.Restart? && s.log.Some? ==> s.log.value.FlushedLast())
  }

  lemma {:induction false} ZeroesAreZero(bytes: seq<byte>)
    requires forall i :: 0 <= i < |bytes| ==> bytes[i] == 0
    ensures LeNat(bytes) == 0
  {
    if bytes != [] {
      ZeroesAreZero(bytes[1..]);
    }
  }

  lemma WriteBackIsSafe(s: Pool, f: nat)
    requires WalSafe(s) && |s.frames| == |s.descs| && s.Resident(f)
    ensures WalSafe(WriteBack(s, f))
  {
    var s', written := WriteBack(s, f), s.descs[f].page.value;
    assert forall pid :: s'.disk.Read(pid) == if pid == written then s.frames[f] else s.disk.Read(pid);
  }

  lemma InstallIsSafe(s: Pool, f: nat, pid: PageId)
    requires WalSafe(s) && |s.frames| == |s.descs| && f < |s.descs|
    ensures WalSafe(Install(s, f, pid))
  {
    if s.descs[f].dirty && s.descs[f].page.Some? {
      WriteBackIsSafe(s, f);
    }
  }

  lemma {:induction false} FlushFromIsSafe(s: Pool, i: nat)
    requires WalSafe(s) && |s.frames| == |s.descs| && i <= |s.descs|
    ensures WalSafe(FlushFrom(s, i))
    decreases |s.descs| - i
  {
    if i < |s.descs| {
      var s1 := if s.descs[i].dirty && s.Resident(i) then WriteBack(s, i) else s;
      if s.descs[i].dirty && s.Resident(i) {
        WriteBackIsSafe(s, i);
      }
      FlushFromIsSafe(s1, i + 1);
    }
  }

  lemma FetchIsSafe(s: Pool, pid: PageId, r: Result<nat, Error>, s': Pool)
    requires s.Inv() && WalSafe(s) && FetchStep(s, pid, r, s')
    ensures WalSafe(s')
  {
    assert |s.frames| == |s.descs|;
    hide Pool.Core, Install;
    if pid !in s.table && r.Ok? {
      VictimIsFree(s, pid, r, s');
      InstallIsSafe(Untracked(s, r.value), r.value, pid);
    }
  }

  lemma TableIsResident(s: Pool)
    requires s.Inv()
    ensures |s.frames| == |s.descs| && forall pid :: pid in s.table ==> s.Resident(s.table[pid])
  {
  }

  lemma CrashIsSafe(s: Pool, keep: nat, s': Pool)
    requires WalSafe(s) && MayCut(s, keep)
    requires Reopened(s, if s.log.Some? then Some(Log.Crashed(s.log.value, keep)) else None, s')
    ensures WalSafe(s')
  {
    assert forall pid :: s'.disk.Read(pid) == s.disk.Read(pid);
    if s.log.Some? {
      Log.CrashLosesNothingFlushed(s.log.value, keep);
      hide Log.State.Valid;
    }
  }

  lemma RestartIsSafe(s: Pool, s': Pool)
    requires WalSafe(s) && (s.log.Some? ==> s.log.value.FlushedLast())
    requires s.log.Some? ==> s.log.value.Valid()
    requires Reopened(s, if s.log.Some? then Some(Log.Restarted(s.log.value)) else None, s')
    ensures WalSafe(s')
  {
    assert forall pid :: s'.disk.Read(pid) == s.disk.Read(pid);
    hide Log.State.Holds, Log.State.Durable;
  }

  lemma StepIsSafe(s: Pool, op: Op, s': Pool)
    requires s.Inv() && WalSafe(s) && Step(s, op, s') && Disciplined(s, op)
    ensures WalSafe(s')
  {
    hide Pool.Inv, Pool.Core, Install, WriteBack, FetchStep, FlushFrom;
    TableIsResident(s);
    match op
    case Fetch(pid, r) => FetchIsSafe(s, pid, r, s');
    case NewPage(r) =>
      var (disk, pid) := s.disk.Allocate();
      assert forall p :: disk.Read(p) == s.disk.Read(p);
      DiskCounterIsInvisible(s, disk);
      FetchIsSafe(s.(disk := disk), pid, if r.Ok? then Ok(r.value.0) else Err(r.error), s');
    case FlushOne(pid) =>
      if pid in s.table {
        WriteBackIsSafe(s, s.table[pid]);
      }
    case FlushAll => FlushFromIsSafe(s, 0);
    case Restart => RestartIsSafe(s, s');
    case Crash(keep) => CrashIsSafe(s, keep, s');
    case _ =>
  }

  /** Runs cover crashes inside an operation too. Saving a page is a flush of the log, if one is needed, and then
      the write: stopped in between it leaves a state that `FlushLog` reaches, and what a fetch does after the write
      is in memory and lost. */
  lemma CrashInsideSave(s: Pool, f: nat, keep: nat, s': Pool)
    requires s.Inv() && WalSafe(s) && s.log.Some? && s.Resident(f)
    requires Step(LogFlushedFor(s, f), Crash(keep), s')
    ensures var mid := LogFlushedFor(s, f);
            && (mid == s || Step(s, FlushLog, mid))
            && WriteBack(mid, f) == WriteBack(s, f) == PageFlushed(s, s.descs[f].page.value).0
    ensures s'.Inv() && WalSafe(s')
  {
    var mid := LogFlushedFor(s, f);
    if mid != s {
      StepIsSafe(s, FlushLog, mid);
    }
    hide WalSafe, Pool.Core;
    StepKeepsInv(mid, Crash(keep), s');
    StepIsSafe(mid, Crash(keep), s');
  }

  ghost function LogFlushedFor(s: Pool, f: nat): (s': Pool)
    requires s.Inv() && f < |s.frames|
    ensures s'.Inv()
  {
    s.(log := WalFlushed(s.log, s.frames[f]))
  }

  /** Write-ahead logging over every run, crashes included: at each moment no page on disk carries an LSN
      beyond the flushed one, so every change on disk is described by the synced part of the log; and
      whatever a crash spares, LSNs issued afterwards are above those of all surviving records and pages. */
  lemma {:induction false} WalBeforeData(states: seq<Pool>, ops: seq<Op>)
    requires Run(states, ops) && states[0].log.Some? && WalSafe(states[0])
    requires forall i :: 0 <= i < |ops| ==> Disciplined(states[i], ops[i])
    ensures states[|ops|].Inv() && states[|ops|].log.Some? && WalSafe(states[|ops|])
    ensures var s := states[|ops|];
            var l := s.log.value;
            && (forall pid :: PageLsn(s.disk.Read(pid)) <= l.flushedLsn < l.nextLsn)
            && (forall p :: p in l.placed ==> p.entry.lsn < l.nextLsn)
            && (forall p :: p in l.placed && p.entry.lsn <= l.flushedLsn ==>
                  p.start <= p.end <= l.synced && l.file[p.start..p.end] == Wal.Frame(p.entry))
  {
    if ops != [] {
      var n := |ops| - 1;
      WalBeforeData(states[..|ops|], ops[..n]);
      assert Step(states[n], ops[n], states[n + 1]);
      StepKeepsInv(states[n], ops[n], states[n + 1]);
      StepIsSafe(states[n], ops[n], states[n + 1]);
      StepKeepsLog(states[n], ops[n], states[n + 1]);
    }
    var l := states[|ops|].log.value;
    assert forall p :: p in l.placed ==> l.Holds(p);
  }

  lemma StepKeepsLog(s: Pool, op: Op, s': Pool)
    requires s.Inv() && Step(s, op, s')
    ensures s.log.Some? == s'.log.Some?
  {
    SameSize(s);
    hide Pool.Inv, Pool.Core;
    if op.FlushAll? {
      FlushKeepsLog(s, 0);
    }
  }

  lemma {:induction false} FlushKeepsLog(s: Pool, i: nat)
    requires |s.frames| == |s.descs| && i <= |s.descs|
    ensures FlushFrom(s, i).log.Some? == s.log.Some?
    decreases |s.descs| - i
  {
    if i < |s.descs| {
      FlushKeepsLog(if s.descs[i].dirty && s.Resident(i) then WriteBack(s, i) else s, i + 1);
    }
  }

  // ----- A process that ends without flushing its log -----

  lemma PageWithLsn(lsn: u64) returns (page: Page)
    ensures PageLsn(page) == lsn
  {
    page := Bytes.Splice(ZeroPage(), 0, LeBytes(lsn, 8));
    Bytes.SpliceReads(ZeroPage(), 0, LeBytes(lsn, 8), 0, 8);
    Bytes.U64RoundTrip(page, 0, lsn);
    assert page[..8] == page[0..8];
  }

  /** An empty pool takes a page into its first frame. */
  lemma FirstFetch(s: Pool, pid: PageId)
    requires s.Inv() && s.table == map[] && |s.descs| > 0 && s.descs[0] == Descriptor(None, 0, false)
    ensures var s' := Install(s, 0, pid);
            && Step(s, Fetch(pid, Ok(0)), s') && s'.Inv() && s'.log == s.log
            && s'.Pinned(0) && s'.descs[0].page == Some(pid) && |s'.frames| > 0
  {
    assert FirstEmpty(s.descs) == 0;
    FetchKeeps(s, pid, Ok(0), Install(s, 0, pid));
    hide Pool.Core, Pool.Abs;
  }

  lemma FirstWrite(s: Pool, pid: PageId, page: Page)
    requires s.Inv() && s.Pinned(0) && |s.frames| > 0 && s.descs[0].page == Some(pid)
    ensures var s' := WriteFrame(s, 0, page);
            && Step(s, Write(pid, 0, page), s') && s'.Inv() && s'.log == s.log
            && s'.Resident(0) && s'.frames[0] == page && pid in s'.table && s'.table[pid] == 0
            && s'.descs[0].page == Some(pid)
  {
    WriteKeeps(s, pid, 0, page);
    assert s.Resident(0) && s.table[pid] == 0;
    hide Pool.Inv, Pool.Core, Pool.Abs;
  }

  /** Flushing a page puts it on disk, and leaves the log alone if that claims to be flushed so far. */
  lemma FirstFlush(s: Pool, pid: PageId, page: Page)
    requires s.Inv() && |s.frames| == |s.descs| && s.Resident(0) && s.frames[0] == page
    requires pid in s.table && s.table[pid] == 0 && s.descs[0].page == Some(pid)
    requires s.log.Some? && PageLsn(page) <= s.log.value.flushedLsn
    ensures var s' := PageFlushed(s, pid).0;
            Step(s, FlushOne(pid), s') && s'.Inv() && s'.log == s.log && s'.disk.Read(pid) == page
  {
    FlushPageKeeps(s, pid);
    hide Pool.Inv, Pool.Core, Pool.Abs, PageLsn;
  }

  function Blank(s: Pool, was: Pool, log: Option<Log.State>): Pool {
    Pool(map[], was.descs, was.frames, View({}, {}), s.disk, log, {})
  }

  /** The pages on disk are then ahead of what a crash leaves of the log. */
  lemma CrashBehindPage(s: Pool, was: Pool, pid: PageId, page: Page)
    requires s.Inv() && s.log.Some? && s.log.value.Valid() && s.disk.Read(pid) == page
    requires PageLsn(page) > s.log.value.synced
    requires |was.frames| == |was.descs|
    requires forall f :: 0 <= f < |was.descs| ==> was.descs[f] == Descriptor(None, 0, false)
    requires forall f :: 0 <= f < |was.frames| ==> PageLsn(was.frames[f]) == 0
    ensures var keep := s.log.value.synced;
            && keep <= |s.log.value.file|
            && var s' := Blank(s, was, Some(Log.Crashed(s.log.value, keep)));
            && Step(s, Crash(keep), s') && !WalRule(s')
  {
    var keep := s.log.value.synced;
    var s' := Blank(s, was, Some(Log.Crashed(s.log.value, keep)));
    assert s'.disk.Read(pid) == page && s'.log.value.flushedLsn == keep;
    hide Pool.Inv, Pool.Core, PageLsn, Log.State.Valid;
  }

  ghost predicate DisciplinedRun(states: seq<Pool>, ops: seq<Op>) {
    Run(states, ops) && forall i :: 0 <= i < |ops| ==> Disciplined(states[i], ops[i])
  }

  /** Five states in which a disciplined client of the reopened log breaks the rule. */
  lemma UnflushedRestartBreaksRule(s: Pool, s': Pool) returns (states: seq<Pool>, ops: seq<Op>)
    requires s.Inv() && WalSafe(s) && s.log.Some? && !s.log.value.FlushedLast() && |s.log.value.file| < U64
    requires Step(s, Restart, s') && |s'.frames| > 0
    ensures DisciplinedRun(states, ops) && states[0] == s' && !WalRule(states[|ops|])
  {
    hide Pool.Inv, Pool.Core, Step, Install, WriteFrame, PageFlushed, WalRule, WalSafe, PageLsn, Blank;
    hide Log.State.Valid, Log.Crashed, Run, Pool.Resident, Pool.Pinned, Log.State.FlushedLast;
    RestartIs(s, s');
    StepKeepsInv(s, Restart, s');
    var pid, l := PageId(0, 0), s'.log.value;
    var page := PageWithLsn(|l.file|);
    FirstFetch(s', pid);
    var fetched := Install(s', 0, pid);
    FirstWrite(fetched, pid, page);
    var written := WriteFrame(fetched, 0, page);
    SameSize(written);
    FirstFlush(written, pid, page);
    var flushed := PageFlushed(written, pid).0;
    CrashBehindPage(flushed, s', pid, page);
    var lost := Blank(flushed, s', Some(Log.Crashed(l, l.synced)));
    states := [s', fetched, written, flushed, lost];
    ops := [Fetch(pid, Ok(0)), Write(pid, 0, page), FlushOne(pid), Crash(l.synced)];
    FourSteps(s', fetched, written, flushed, lost, ops);
  }

  lemma SameSize(s: Pool)
    requires s.Inv()
    ensures |s.frames| == |s.descs|
  {
  }

  lemma FourSteps(s0: Pool, s1: Pool, s2: Pool, s3: Pool, s4: Pool, ops: seq<Op>)
    requires |ops| == 4 && s0.Inv() && s1.Inv() && s2.Inv() && s3.Inv()
    requires Step(s0, ops[0], s1) && Step(s1, ops[1], s2) && Step(s2, ops[2], s3) && Step(s3, ops[3], s4)
    ensures Run([s0, s1, s2, s3, s4], ops)
  {
    hide Step, Pool.Inv;
  }

  lemma RestartIs(s: Pool, s': Pool)
    requires s.Inv() && WalSafe(s) && s.log.Some? && Step(s, Restart, s')
    ensures s'.log.Some? && s'.log.value.Valid() && s'.table == map[] && |s'.frames| == |s'.descs|
    ensures forall f :: 0 <= f < |s'.descs| ==> s'.descs[f] == Descriptor(None, 0, false)
    ensures forall f :: 0 <= f < |s'.frames| ==> PageLsn(s'.frames[f]) == 0
    ensures var l, l' := s.log.value, s'.log.value;
            && l'.file == l.file && l'.flushedLsn == |l.file| < l'.nextLsn && l'.synced == l.synced <= |l.file|
            && (l.FlushedLast() <==> l.synced == |l.file|)
  {
    hide Pool.Inv, PageLsn, Log.State.Holds, Log.State.Durable;
  }

  /** A restart is safe, for every later run of disciplined clients, if and only if the process had flushed its log
      last: otherwise some such run puts a page on disk that a crash leaves ahead of the log. */
  lemma RestartIsSafeIff(s: Pool, s': Pool)
    requires s.Inv() && WalSafe(s) && s.log.Some? && |s.log.value.file| < U64
    requires Step(s, Restart, s') && |s'.frames| > 0
    ensures s.log.value.FlushedLast() <==>
            forall states, ops :: DisciplinedRun(states, ops) && states[0] == s' ==> WalRule(states[|ops|])
  {
    RestartIs(s, s');
    if s.log.value.FlushedLast() {
      StepIsSafe(s, Restart, s');
      forall states, ops | DisciplinedRun(states, ops) && states[0] == s'
        ensures WalRule(states[|ops|])
      {
        WalBeforeData(states, ops);
      }
    } else {
      var states, ops := UnflushedRestartBreaksRule(s, s');
    }
  }

  /** Opening a pool over blank storage starts every run. */
  lemma FreshPoolIsSafe(s: Pool, file: seq<byte>)
    requires s.table == map[] && s.view == View({}, {}) && s.touched == {} && |s.frames| == |s.descs|
    requires forall f :: 0 <= f < |s.descs| ==> s.descs[f] == Descriptor(None, 0, false)
    requires forall f :: 0 <= f < |s.frames| ==> PageLsn(s.frames[f]) == 0
    requires s.disk.pages == map[] && s.log == Some(Log.Opened(file, |file|, []))
    ensures s.Inv() && WalSafe(s)
  {
    ZeroesAreZero(ZeroPage()[..8]);
  }
}
