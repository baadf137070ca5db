/** The buffer pool manager over its frame descriptors, page table, replacer, disk and log
    (wasdb_buffer/src/buffer_pool.rs, wasdb_buffer/src/frame.rs). */
module BufferPool {
  import opened Util
  import opened Replacement
  import opened Replacer
  import opened Storage
  import opened FlatPool
  import opened PoolModel
  import opened PoolProof
  import opened PolicySteps
  import Log
  import SlottedPages

  class FrameDescriptor {
    var pageId: Option<PageId>
    var pinCount: nat
    var isDirty: bool

    function Value(): Descriptor
      reads this
    {
      Descriptor(pageId, pinCount, isDirty)
    }

    constructor ()
      ensures Value() == Descriptor(None, 0, false)
    {
      pageId, pinCount, isDirty := None, 0, false;
    }

    method Pin()
      modifies this
      ensures Value() == old(Value()).(pins := old(pinCount) + 1)
    {
      pinCount := pinCount + 1;
    }

    /** The count wraps around at zero, and then an assertion fails. */
    method Unpin() returns (ok: bool)
      modifies this
      ensures ok == (old(pinCount) > 0)
      ensures Value() == old(Value()).(pins := if ok then old(pinCount) - 1 else U32 - 1)
    {
      ok := pinCount > 0;
      pinCount := if ok then pinCount - 1 else U32 - 1;
    }
  }

  /** The contents of a frame before its first page. */
  function InitialisedPage(): (p: Page)
    ensures PageLsn(p) == 0
  {
    SlottedPages.InitRealises(ZeroPage());
    SlottedPages.InitBytes(ZeroPage())
  }

  method NewDescriptors(n: nat) returns (descs: seq<FrameDescriptor>)
    ensures |descs| == n && fresh(set d | d in descs)
    ensures forall i, j :: 0 <= i < j < n ==> descs[i] != descs[j]
    ensures forall i :: 0 <= i < n ==> descs[i].Value() == Descriptor(None, 0, false)
  {
    descs := [];
    while |descs| < n
      invariant |descs| <= n
      invariant fresh(set d | d in descs)
      invariant forall i, j :: 0 <= i < j < |descs| ==> descs[i] != descs[j]
      invariant forall i :: 0 <= i < |descs| ==> descs[i].Value() == Descriptor(None, 0, false)
    {
      var d := new FrameDescriptor();
      descs := descs + [d];
    }
  }

  class BufferPoolManager {
    var frames: seq<Page>
    const descriptors: seq<FrameDescriptor>
    var pageTable: map<PageId, nat>
    const diskManager: DiskManager
    const replacer: Policy
    const logManager: Option<Log.LogManager>
    ghost var touched: set<nat>

    ghost function Repr(): set<object> {
      {this, diskManager, replacer.Obj()} + (set d | d in descriptors)
      + if logManager.Some? then {logManager.value} else {}
    }

    ghost function Descs(): (ds: seq<Descriptor>)
      reads Repr()
      ensures |ds| == |descriptors| && forall i :: 0 <= i < |ds| ==> ds[i] == descriptors[i].Value()
    {
      seq(|descriptors|, i requires 0 <= i < |descriptors| reads Repr() => descriptors[i].Value())
    }

    ghost function LogValue(): Option<Log.State>
      reads Repr()
    {
      if logManager.Some? then Some(logManager.value.Value()) else None
    }

    ghost function State(): Pool
      reads Repr()
    {
      Pool(pageTable, Descs(), frames, replacer.AsView(), diskManager.Value(), LogValue(), touched)
    }

    ghost predicate Shape()
      reads Repr()
    {
      && |frames| == |descriptors| == replacer.Capacity()
      && (forall i, j :: 0 <= i < j < |descriptors| ==> descriptors[i] != descriptors[j])
      && replacer.Valid()
    }

    ghost predicate Valid()
      reads Repr()
    {
      Shape() && State().Inv()
    }

    constructor (poolSize: nat, diskManager: DiskManager, replacer: Policy, logManager: Option<Log.LogManager>)
      requires replacer.Valid() && replacer.Capacity() == poolSize && replacer.AsView() == View({}, {})
      ensures Valid() && |descriptors| == poolSize && pageTable == map[] && touched == {}
      ensures this.diskManager == diskManager && this.replacer == replacer && this.logManager == logManager
      ensures forall f :: f in frames ==> PageLsn(f) == 0
      ensures fresh(this) && fresh(set d | d in descriptors)
    {
      var page := InitialisedPage();
      this.diskManager, this.replacer, this.logManager := diskManager, replacer, logManager;
      frames := seq(poolSize, _ => page);
      pageTable, touched := map[], {};
      var descs := NewDescriptors(poolSize);
      descriptors := descs;
    }

    method FlushWal(page: Page)
      requires Shape()
      modifies if logManager.Some? then {logManager.value} else {}
      ensures Shape() && State() == old(State()).(log := WalFlushed(old(LogValue()), page))
      ensures logManager.Some? ==>
                var l, l' := old(LogValue()).value, LogValue().value;
                && l'.file == l.file && l'.nextLsn == l.nextLsn
                && if PageLsn(page) <= l.flushedLsn then l'.flushedLsn == l.flushedLsn && l'.synced == l.synced
                   else l'.flushedLsn == l.nextLsn - 1 && l'.synced == |l.file|
    {
      if logManager.Some? {
        var lsn := PageLsn(page);
        if logManager.value.flushedLsn < lsn {
          logManager.value.Flush();
        }
      }
    }

    /** Saves the page in a frame: log first, then the page, then the dirty flag. */
    method WriteBackFrame(frameId: nat)
      requires Shape() && State().Resident(frameId)
      modifies this`touched, descriptors[frameId], diskManager
      modifies if logManager.Some? then {logManager.value} else {}
      ensures Shape() && State() == WriteBack(old(State()), frameId) && replacer.Value() == old(replacer.Value())
    {
      hide Policy.Valid, Policy.AsView, Policy.Capacity, Log.LogManager.Value, DiskManager.Value;
      assert replacer.Obj() != this;
      var desc := descriptors[frameId];
      FlushWal(frames[frameId]);
      diskManager.WritePage(desc.pageId.value, frames[frameId]);
      desc.isDirty := false;
      touched := touched - {frameId};
      assert State().descs == WriteBack(old(State()), frameId).descs;
    }

    /** A free frame: the first empty one, else a victim of the replacement policy. */
    method FindVictimFrame() returns (r: Result<nat, Error>)
      requires Shape()
      modifies replacer.Obj()
      ensures Shape()
      ensures var s := old(State());
              var e := FirstEmpty(s.descs);
              if e < |s.descs| then r == Ok(e) && State() == s
              else match r
                   case Ok(f) => f in s.view.Evictable() && f < |s.descs| && State() == Untracked(s, f)
                   case Err(error) => error == NoFreeFrames && s.view.Evictable() == {} && State() == s
      ensures var p := old(replacer.Value());
              && p.Valid()
              && if FirstEmpty(old(State()).descs) < |old(State()).descs| then replacer.Value() == p
                 else
                   && p.Victim() == (if r.Ok? then Some(r.value) else None)
                   && replacer.Value() == if r.Ok? then p.Evicted() else p
    {
      replacer.ValueIsValid();
      hide Policy.Value, PolicyState.Valid, PolicyState.Victim, PolicyState.Evicted, Policy.AsView, Policy.Capacity;
      var i := 0;
      while i < |descriptors|
        invariant i <= |descriptors|
        invariant forall j :: 0 <= j < i ==> descriptors[j].pageId.Some?
      {
        if descriptors[i].pageId.None? {
          assert FirstEmpty(Descs()) == i;
          return Ok(i);
        }
        i := i + 1;
      }
      var victim := replacer.Evict();
      assert Descs() == old(Descs());
      r := if victim.Some? then Ok(victim.value) else Err(NoFreeFrames);
    }

    /** Pins a frame and tells the replacer it is pinned and in use. */
    method Acquire(frameId: nat)
      requires Shape() && frameId < |descriptors|
      modifies descriptors[frameId], replacer.Obj()
      ensures Shape() && State() == PinFrame(old(State()), frameId)
      ensures old(replacer.Value()).Valid() && replacer.Value() == old(replacer.Value()).Taken(frameId)
    {
      hide Policy.Valid, Policy.AsView, Policy.Capacity, Log.LogManager.Value, DiskManager.Value;
      hide Policy.Value, PolicyState.Valid, PolicyState.PinSet, PolicyState.Accessed;
      descriptors[frameId].Pin();
      replacer.SetPin(frameId, true);
      replacer.RecordAccess(frameId);
      assert State().descs == PinFrame(old(State()), frameId).descs;
    }

    /** Points the page table at the frame's new page. */
    method RemapFrame(frameId: nat, pageId: PageId)
      requires Shape() && frameId < |descriptors|
      modifies this`pageTable, descriptors[frameId]
      ensures Shape() && State() == Remap(old(State()), frameId, pageId)
    {
      hide Policy.Valid, Policy.AsView, Policy.Capacity, Log.LogManager.Value, DiskManager.Value;
      assert replacer.Obj() != this;
      var desc := descriptors[frameId];
      if desc.pageId.Some? {
        pageTable := pageTable - {desc.pageId.value};
      }
      desc.pageId := Some(pageId);
      pageTable := pageTable[pageId := frameId];
      assert State().descs == Remap(old(State()), frameId, pageId).descs;
    }

    /** Remaps the frame and reads its new page in. */
    method LoadPage(frameId: nat, pageId: PageId)
      requires Shape() && frameId < |descriptors|
      modifies this`frames, this`pageTable, descriptors[frameId]
      ensures Shape()
      ensures var mapped := Remap(old(State()), frameId, pageId);
              State() == mapped.(frames := mapped.frames[frameId := mapped.disk.Read(pageId)])
    {
      RemapFrame(frameId, pageId);
      hide Remap, Policy.Valid, Policy.AsView, Policy.Capacity, Log.LogManager.Value, DiskManager.Value;
      assert replacer.Obj() != this;
      ghost var mapped := State();
      var data := diskManager.ReadPage(pageId);
      frames := frames[frameId := data];
      assert Descs() == mapped.descs;
    }

    /** Gives a frame to another page, saving a dirty occupant first. */
    method InstallPage(frameId: nat, pageId: PageId)
      requires Shape() && frameId < |descriptors|
      modifies this`frames, this`pageTable, this`touched, descriptors[frameId], diskManager, replacer.Obj()
      modifies if logManager.Some? then {logManager.value} else {}
      ensures Shape() && State() == Install(old(State()), frameId, pageId)
      ensures old(replacer.Value()).Valid() && replacer.Value() == old(replacer.Value()).Taken(frameId)
    {
      hide WriteBack, Remap, PinFrame, Policy.Value, PolicyState.Taken, PolicyState.Valid;
      if descriptors[frameId].isDirty && descriptors[frameId].pageId.Some? {
        WriteBackFrame(frameId);
      }
      LoadPage(frameId, pageId);
      Acquire(frameId);
    }

    method FetchPage(pageId: PageId) returns (r: Result<nat, Error>)
      requires Valid()
      modifies Repr()
      ensures Valid() && FetchStep(old(State()), pageId, r, State())
      ensures FetchSpec(old(State().Abs()), pageId, r.Ok?, State().Abs())
      ensures r.Ok? ==> State().Pinned(r.value) && State().descs[r.value].page == Some(pageId)
      ensures Spare(old(State().Abs()).pins, |frames|, 1) ==> r.Ok?
      ensures FetchTells(old(State()), old(replacer.Value()), pageId, r, replacer.Value())
      ensures r.Ok? ==>
                Descs()[r.value] ==
                if pageId in old(pageTable) then old(Descs())[r.value].(pins := old(Descs())[r.value].pins + 1)
                else Descriptor(Some(pageId), 1, false)
    {
      ghost var s := State();
      Described();
      assert pageId in pageTable ==> pageTable[pageId] < |descriptors|;
      assert |s.frames| == |frames| == |descriptors|;
      r := TakeFrame(pageId);
      assert |frames| == |s.frames|;
      hide *;
      Described();
      FetchKeeps(s, pageId, r, State());
      if r.Ok? {
        FetchDescribes(s, pageId, r, State());
      }
      if Spare(s.Abs().pins, |frames|, 1) {
        SpareFrameServes(s, pageId, r, State());
      }
    }

    lemma Described()
      ensures State().descs == Descs() && State().table == pageTable
    {
    }

    method TakeFrame(pageId: PageId) returns (r: Result<nat, Error>)
      requires Shape() && (pageId in pageTable ==> pageTable[pageId] < |descriptors|)
      modifies Repr()
      ensures Shape() && FetchStep(old(State()), pageId, r, State())
      ensures FetchTells(old(State()), old(replacer.Value()), pageId, r, replacer.Value())
    {
      hide Policy.Valid, Policy.AsView, Policy.Capacity, Log.LogManager.Value, DiskManager.Value, Install, PinFrame;
      if pageId in pageTable {
        Acquire(pageTable[pageId]);
        return Ok(pageTable[pageId]);
      }
      r := FindVictimFrame();
      if r.Ok? {
        InstallPage(r.value, pageId);
      }
    }

    /** A holder that gives up the last pin of a page it changed without saying so breaks the pool. */
    method UnpinPage(pageId: PageId, isDirty: bool) returns (r: Result<(), Error>)
      requires Valid()
      modifies Repr()
      ensures Shape() && UnpinStep(old(State()), pageId, isDirty, r, State())
      ensures MayUnpin(old(State()), pageId, isDirty) ==>
                Valid() && UnpinSpec(old(State().Abs()), pageId, r.Ok?, State().Abs())
      ensures UnpinTells(old(State()), old(replacer.Value()), pageId, replacer.Value())
    {
      ghost var s := State();
      replacer.ValueIsValid();
      if pageId !in pageTable {
        r := Err(PageNotFound);
        UnpinKeeps(s, pageId, isDirty, r, s);
        return;
      }
      assert pageTable[pageId] < |descriptors| && Descs() == s.descs;
      var ok := ReleaseFrame(pageTable[pageId], isDirty);
      r := if ok then Ok(()) else Err(Panic);
      assert UnpinStep(s, pageId, isDirty, r, State());
      hide Pool.Core, Pool.Abs, UnpinStep;
      if MayUnpin(s, pageId, isDirty) {
        UnpinKeeps(s, pageId, isDirty, r, State());
      }
    }

    method ReleaseFrame(frameId: nat, isDirty: bool) returns (ok: bool)
      requires Shape() && frameId < |descriptors|
      modifies this`touched, descriptors[frameId], replacer.Obj()
      ensures Shape() && ok == old(State()).Pinned(frameId)
      ensures State() == DropPin(old(State()), frameId, isDirty).(view := State().view)
      ensures if old(Descs())[frameId].pins == 1 then PinSpec(old(State()).view, frameId, false, State().view)
              else State().view == old(State()).view
      ensures old(replacer.Value()).Valid()
      ensures replacer.Value() == if old(Descs())[frameId].pins == 1 then old(replacer.Value()).PinSet(frameId, false)
                                  else old(replacer.Value())
    {
      replacer.ValueIsValid();
      ok := DropFramePin(frameId, isDirty);
      hide *;
      if ok && descriptors[frameId].pinCount == 0 {
        TellUnpinned(frameId);
      }
    }

    method DropFramePin(frameId: nat, isDirty: bool) returns (ok: bool)
      requires Shape() && frameId < |descriptors|
      modifies this`touched, descriptors[frameId]
      ensures Shape() && ok == old(State()).Pinned(frameId)
      ensures State() == DropPin(old(State()), frameId, isDirty)
      ensures descriptors[frameId].pinCount == State().descs[frameId].pins
    {
      hide Policy.Valid, Policy.AsView, Policy.Capacity, Log.LogManager.Value, DiskManager.Value;
      assert replacer.Obj() != this;
      var desc := descriptors[frameId];
      ghost var d := Descs()[frameId];
      if isDirty {
        desc.isDirty := true;
        touched := touched - {frameId};
      }
      ok := desc.Unpin();
      assert State().descs == DropPin(old(State()), frameId, isDirty).descs;
    }

    method TellUnpinned(frameId: nat)
      requires Shape() && frameId < |descriptors|
      modifies replacer.Obj()
      ensures Shape() && State() == old(State()).(view := State().view)
      ensures PinSpec(old(State()).view, frameId, false, State().view)
      ensures old(replacer.Value()).Valid() && replacer.Value() == old(replacer.Value()).PinSet(frameId, false)
    {
      hide Policy.Valid, Policy.AsView, Policy.Capacity, Log.LogManager.Value, DiskManager.Value;
      replacer.SetPin(frameId, false);
      assert Descs() == old(Descs());
    }

    method FlushPage(pageId: PageId) returns (r: Result<(), Error>)
      requires Valid()
      modifies Repr()
      ensures Valid() && (State(), r) == PageFlushed(old(State()), pageId) && replacer.Value() == old(replacer.Value())
      ensures State().Abs() == old(State().Abs())
      ensures r.Ok? <==> pageId in pageTable
      ensures r.Ok? ==> var f := pageTable[pageId];
                        f < |descriptors| && !Descs()[f].dirty && diskManager.Value().Read(pageId) == frames[f]
    {
      hide Policy.Value, Policy.AsView, Policy.Valid, Policy.Capacity;
      FlushPageKeeps(State(), pageId);
      if pageId !in pageTable {
        return Err(PageNotFound);
      }
      assert State().Resident(pageTable[pageId]);
      hide Pool.Inv, Pool.Abs, WriteBack;
      WriteBackFrame(pageTable[pageId]);
      r := Ok(());
    }

    method FlushAllPages()
      requires Valid()
      modifies Repr()
      ensures Valid() && State() == FlushFrom(old(State()), 0) && replacer.Value() == old(replacer.Value())
      ensures State().Abs() == old(State().Abs())
      ensures forall f :: 0 <= f < |descriptors| ==> !Descs()[f].dirty
      ensures forall pid: PageId :: (pid in pageTable ==> pageTable[pid] !in old(touched)) ==>
                diskManager.Value().Read(pid) == old(State().Contents(pid))
    {
      ghost var s := State();
      FlushFromKeeps(s, 0);
      forall pid: PageId
        ensures (pid in s.table ==> s.table[pid] !in s.touched) ==> FlushFrom(s, 0).disk.Read(pid) == s.Contents(pid)
      {
        FlushAllReachesDisk(s, pid);
      }
      assert forall f :: 0 <= f < |s.descs| ==> !FlushFrom(s, 0).descs[f].dirty;
      hide Pool.Inv, Pool.Core, Pool.Abs, Pool.Contents, FlushFrom, Policy.Value, Policy.AsView, Policy.Valid;
      WriteBackDirtyFrames();
    }

    method WriteBackDirtyFrames()
      requires Shape()
      modifies this`touched, descriptors, diskManager
      modifies if logManager.Some? then {logManager.value} else {}
      ensures Shape() && State() == FlushFrom(old(State()), 0) && replacer.Value() == old(replacer.Value())
    {
      hide WriteBack, Policy.Value;
      ghost var s := State();
      var i := 0;
      while i < |descriptors|
        invariant i <= |descriptors| && Shape() && replacer.Value() == old(replacer.Value())
        invariant FlushFrom(State(), i) == FlushFrom(s, 0)
      {
        assert Descs()[i] == descriptors[i].Value();
        if descriptors[i].isDirty && descriptors[i].pageId.Some? {
          WriteBackFrame(i);
        }
        i := i + 1;
      }
    }

    /** Reading through the guard of a pinned frame shows the page. */
    method ReadPage(frameId: nat) returns (page: Page)
      requires Valid() && State().Pinned(frameId)
      ensures State().Resident(frameId) && page == State().Contents(State().descs[frameId].page.value)
    {
      page := frames[frameId];
    }

    method WritePage(frameId: nat, page: Page)
      requires Valid() && State().Pinned(frameId)
      modifies this`frames, this`touched
      ensures Valid() && State() == WriteFrame(old(State()), frameId, page)
      ensures WriteSpec(old(State().Abs()), old(State()).descs[frameId].page.value, page, State().Abs())
    {
      ghost var s := State();
      assert s.Resident(frameId);
      WriteKeeps(s, s.descs[frameId].page.value, frameId, page);
      hide Pool.Inv, Pool.Abs, WriteFrame, Pool.Pinned;
      StoreInFrame(frameId, page);
    }

    method StoreInFrame(frameId: nat, page: Page)
      requires Shape() && frameId < |frames|
      modifies this`frames, this`touched
      ensures Shape() && State() == WriteFrame(old(State()), frameId, page)
    {
      frames := frames[frameId := page];
      touched := touched + {frameId};
      assert Descs() == old(Descs());
    }

    method NewPage(fileId: u32) returns (r: Result<(nat, PageId), Error>)
      requires Valid()
      modifies Repr()
      ensures Valid() && NewPageStep(old(State()), r, State())
      ensures FetchTells(old(State()), old(replacer.Value()), PageId(0, old(diskManager.totalPages)),
                         if r.Ok? then Ok(r.value.0) else Err(r.error), replacer.Value())
      ensures FetchSpec(old(State().Abs()), PageId(0, old(diskManager.totalPages)), r.Ok?, State().Abs())
      ensures r.Ok? ==> r.value.1 == PageId(0, old(diskManager.totalPages))
      ensures diskManager.totalPages ==
              if old(diskManager.totalPages) == 0xFFFF_FFFF then 0 else old(diskManager.totalPages) + 1
    {
      hide *;
      ghost var s := State();
      CounterShown();
      r := AllocateAndFetch(fileId);
      CounterShown();
      NewPageNumber(s, r, State());
      NewPageKeeps(s, r, State());
    }

    lemma CounterShown()
      requires Valid()
      ensures State().disk.totalPages == diskManager.totalPages && State().Inv() && |State().frames| == |State().descs|
    {
      hide Pool.Core;
    }

    method AllocateAndFetch(fileId: u32) returns (r: Result<(nat, PageId), Error>)
      requires Valid()
      modifies Repr()
      ensures Valid() && NewPageStep(old(State()), r, State())
      ensures FetchTells(old(State()), old(replacer.Value()), PageId(0, old(diskManager.totalPages)),
                         if r.Ok? then Ok(r.value.0) else Err(r.error), replacer.Value())
    {
      ghost var s, p := State(), replacer.Value();
      DiskCounterIsInvisible(s, s.disk.Allocate().0);
      AllocatedPage();
      hide Pool.Inv, Pool.Core, Pool.Abs, FetchStep, FetchTells, Policy.Value, Policy.AsView, Policy.Valid;
      hide FetchSpec, Spare;
      var pageId := AllocatePageId(fileId);
      var frame := FetchPage(pageId);
      DiskTellsNothing(s, s.disk.Allocate().0, p, pageId, frame, replacer.Value());
      r := if frame.Ok? then Ok((frame.value, pageId)) else Err(frame.error);
    }

    lemma AllocatedPage()
      requires Shape()
      ensures State().disk.Allocate().1 == PageId(0, diskManager.totalPages)
    {
    }

    method AllocatePageId(fileId: u32) returns (pageId: PageId)
      requires Shape()
      modifies diskManager
      ensures Shape() && pageId == old(State()).disk.Allocate().1
      ensures State() == old(State()).(disk := old(State()).disk.Allocate().0)
      ensures replacer.Value() == old(replacer.Value())
    {
      pageId := diskManager.AllocatePage(fileId);
      assert Descs() == old(Descs());
    }
  }
}
