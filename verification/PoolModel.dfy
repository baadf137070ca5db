/** The buffer pool as a transition system over values (wasdb_buffer/src/buffer_pool.rs). */
module PoolModel {
  import opened Util
  import opened Replacement
  import opened Storage
  import opened FlatPool
  import Log
  import Wal

  datatype Descriptor = Descriptor(page: Option<PageId>, pins: nat, dirty: bool)

  /** `Panic` stands for the failed assertion on a pin count of zero. */
  datatype Error = NoFreeFrames | PageNotFound | Panic

  /** `touched` is history: the frames written since they were last unpinned dirty or written to disk. */
  datatype Pool = Pool(
    table: map<PageId, nat>,
    descs: seq<Descriptor>,
    frames: seq<Page>,
    view: View,
    disk: Disk,
    log: Option<Log.State>,
    touched: set<nat>)
  {
    predicate Resident(f: nat) {
      f < |descs| && descs[f].page.Some?
    }

    predicate Pinned(f: nat) {
      f < |descs| && descs[f].pins > 0
    }

    /** Everything but which frames the replacer tracks. */
    ghost predicate Core() {
      && |frames| == |descs|
      && (forall pid :: pid in table ==> Resident(table[pid]) && descs[table[pid]].page == Some(pid))
      && (forall f: nat :: Resident(f) ==> descs[f].page.value in table && table[descs[f].page.value] == f)
      && (forall f: nat :: f in view.pinned <==> Pinned(f))
      && (forall f: nat :: f < |descs| && !Resident(f) ==> !Pinned(f) && !descs[f].dirty)
      && (forall f: nat :: f in touched ==> Pinned(f))
      && (forall f: nat :: Resident(f) && !descs[f].dirty && f !in touched ==>
            frames[f] == disk.Read(descs[f].page.value))
    }

    ghost predicate Inv() {
      && Core()
      && (forall f: nat :: f in view.tracked <==> Resident(f))
    }

    /** The contents of a page as the pool presents it. */
    function Contents(pid: PageId): Page
      requires |frames| == |descs|
    {
      if pid in table && table[pid] < |frames| then frames[table[pid]] else disk.Read(pid)
    }

    function Pins(pid: PageId): nat {
      if pid in table && table[pid] < |descs| then descs[table[pid]].pins else 0
    }

    ghost function Abs(): (a: Flat<Page>)
      requires |frames| == |descs|
      ensures a.Total()
    {
      Flat(imap pid: PageId | true :: Contents(pid), imap pid: PageId | true :: Pins(pid))
    }
  }

  // ----- Operations -----

  /** The log is flushed before a page goes out whose LSN it has not reached. */
  function WalFlushed(log: Option<Log.State>, p: Page): Option<Log.State> {
    if log.Some? && log.value.flushedLsn < PageLsn(p) then Some(Log.Flushed(log.value)) else log
  }

  function WriteBack(s: Pool, f: nat): Pool
    requires |s.frames| == |s.descs| && s.Resident(f)
  {
    s.(log := WalFlushed(s.log, s.frames[f]),
       disk := s.disk.Write(s.descs[f].page.value, s.frames[f]),
       descs := s.descs[f := s.descs[f].(dirty := false)],
       touched := s.touched - {f})
  }

  function FirstEmpty(descs: seq<Descriptor>): (f: nat)
    ensures f <= |descs|
    ensures f < |descs| ==> descs[f].page.None?
    ensures forall i :: 0 <= i < f ==> descs[i].page.Some?
  {
    if descs == [] || descs[0].page.None? then 0 else 1 + FirstEmpty(descs[1..])
  }

  function PinFrame(s: Pool, f: nat): Pool
    requires f < |s.descs|
  {
    s.(descs := s.descs[f := s.descs[f].(pins := s.descs[f].pins + 1)],
       view := View(s.view.tracked + {f}, s.view.pinned + {f}))
  }

  /** Points the page table at the frame's new page. */
  function Remap(s: Pool, f: nat, pid: PageId): Pool
    requires f < |s.descs|
  {
    var kept := if s.descs[f].page.Some? then s.table - {s.descs[f].page.value} else s.table;
    s.(table := kept[pid := f], descs := s.descs[f := s.descs[f].(page := Some(pid))])
  }

  /** Brings a page into a frame: saves a dirty occupant, remaps, reads from disk, pins. */
  function Install(s: Pool, f: nat, pid: PageId): Pool
    requires |s.frames| == |s.descs| && f < |s.descs|
  {
    var saved := if s.descs[f].dirty && s.descs[f].page.Some? then WriteBack(s, f) else s;
    var mapped := Remap(saved, f, pid);
    PinFrame(mapped.(frames := mapped.frames[f := mapped.disk.Read(pid)]), f)
  }

  /** `fetch_page`, for every choice a replacement policy may make. */
  ghost predicate FetchStep(s: Pool, pid: PageId, r: Result<nat, Error>, s': Pool)
    requires |s.frames| == |s.descs|
  {
    if pid in s.table then
      r == Ok(s.table[pid]) && s.table[pid] < |s.descs| && s' == PinFrame(s, s.table[pid])
    else if FirstEmpty(s.descs) < |s.descs| then
      r == Ok(FirstEmpty(s.descs)) && s' == Install(s, FirstEmpty(s.descs), pid)
    else if r.Ok? then
      && r.value in s.view.Evictable() && r.value < |s.descs|
      && s' == Install(s.(view := View(s.view.tracked - {r.value}, s.view.pinned)), r.value, pid)
    else
      r == Err(NoFreeFrames) && s.view.Evictable() == {} && s' == s
  }

  ghost predicate NewPageStep(s: Pool, r: Result<(nat, PageId), Error>, s': Pool)
    requires |s.frames| == |s.descs|
  {
    var (disk, pid) := s.disk.Allocate();
    && (r.Ok? ==> r.value.1 == pid)
    && FetchStep(s.(disk := disk), pid, if r.Ok? then Ok(r.value.0) else Err(r.error), s')
  }

  /** Takes a pin off a frame. The count wraps around at zero. */
  function DropPin(s: Pool, f: nat, dirty: bool): Pool
    requires f < |s.descs|
  {
    var d := s.descs[f];
    s.(descs := s.descs[f := Descriptor(d.page, if d.pins > 0 then d.pins - 1 else U32 - 1, d.dirty || dirty)],
       touched := if dirty then s.touched - {f} else s.touched)
  }

  /** `unpin_page`. Releasing a pin that is not held fails an assertion, after the count has changed. */
  ghost predicate UnpinStep(s: Pool, pid: PageId, dirty: bool, r: Result<(), Error>, s': Pool)
  {
    if pid !in s.table then r == Err(PageNotFound) && s' == s
    else
      var f := s.table[pid];
      && f < |s.descs|
      && r == (if s.Pinned(f) then Ok(()) else Err(Panic))
      && s' == DropPin(s, f, dirty).(view := s'.view)
      && if s.descs[f].pins == 1 then PinSpec(s.view, f, false, s'.view) else s'.view == s.view
  }

  function PageFlushed(s: Pool, pid: PageId): (Pool, Result<(), Error>)
    requires |s.frames| == |s.descs| && (pid in s.table ==> s.Resident(s.table[pid]))
  {
    if pid in s.table then (WriteBack(s, s.table[pid]), Ok(())) else (s, Err(PageNotFound))
  }

  /** `flush_all_pages` from frame `i` on. */
  function FlushFrom(s: Pool, i: nat): (s': Pool)
    requires |s.frames| == |s.descs| && i <= |s.descs|
    ensures |s'.frames| == |s'.descs| == |s.descs|
    decreases |s.descs| - i
  {
    if i == |s.descs| then s
    else FlushFrom(if s.descs[i].dirty && s.Resident(i) then WriteBack(s, i) else s, i + 1)
  }

  /** A client changes the page in a frame through its write guard. */
  function WriteFrame(s: Pool, f: nat, p: Page): Pool
    requires f < |s.frames|
  {
    s.(frames := s.frames[f := p], touched := s.touched + {f})
  }
}
