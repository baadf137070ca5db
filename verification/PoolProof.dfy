/** Every pool operation keeps the pool invariant and behaves, page by page, like a flat map. */
module PoolProof {
  import opened Util
  import opened Replacement
  import opened Storage
  import opened FlatPool
  import opened PoolModel
  import Log

  /** Pointwise equal contents and pins make equal flat views. */
  lemma SameAbs(s': Pool, a: Flat<Page>)
    requires |s'.frames| == |s'.descs| && a.Total()
    requires forall p :: s'.Contents(p) == a.store[p] && s'.Pins(p) == a.pins[p]
    ensures s'.Abs() == a
  {
  }

  ghost function OneMorePin(a: Flat<Page>, pid: PageId): (a': Flat<Page>)
    requires a.Total()
    ensures a'.Total()
  {
    a.(pins := a.pins[pid := a.pins[pid] + 1])
  }

  /** Saving a frame changes nothing a client can see. */
  lemma WriteBackKeeps(s: Pool, f: nat)
    requires s.Core() && s.Resident(f)
    ensures var s' := WriteBack(s, f);
            && s'.Core() && s'.table == s.table && s'.view == s.view && s'.Abs() == s.Abs()
            && (forall g :: s'.Resident(g) == s.Resident(g) && s'.Pinned(g) == s.Pinned(g))
            && |s'.descs| == |s.descs| && s'.touched <= s.touched
            && (forall g: nat :: g < |s.descs| ==> s'.descs[g].dirty == (s.descs[g].dirty && g != f))
  {
    WriteBackStaysCore(s, f);
    SameAbs(WriteBack(s, f), s.Abs());
  }

  lemma WriteBackStaysCore(s: Pool, f: nat)
    requires s.Core() && s.Resident(f)
    ensures WriteBack(s, f).Core()
  {
  }

  lemma PinStaysCore(s: Pool, f: nat)
    requires s.Core() && s.Resident(f)
    ensures PinFrame(s, f).Core()
  {
  }

  lemma PinKeeps(s: Pool, f: nat)
    requires s.Core() && s.Resident(f)
    ensures var s' := PinFrame(s, f);
            && s'.Core() && s'.Abs() == OneMorePin(s.Abs(), s.descs[f].page.value)
            && (forall g :: s'.Resident(g) == s.Resident(g))
  {
    PinStaysCore(s, f);
    PinShows(s, f);
    hide Pool.Core, Pool.Contents, Pool.Pins, Pool.Abs, OneMorePin;
    SameAbs(PinFrame(s, f), OneMorePin(s.Abs(), s.descs[f].page.value));
  }

  lemma PinShows(s: Pool, f: nat)
    requires s.Core() && s.Resident(f)
    ensures var s', a := PinFrame(s, f), OneMorePin(s.Abs(), s.descs[f].page.value);
            |s'.frames| == |s'.descs| && forall p :: s'.Contents(p) == a.store[p] && s'.Pins(p) == a.pins[p]
  {
  }

  /** Reusing an unpinned clean frame for an absent page loses nothing. */
  lemma RemapKeeps(s: Pool, f: nat, pid: PageId)
    requires s.Core() && f < |s.descs| && !s.Pinned(f) && !s.descs[f].dirty && pid !in s.table
    ensures var mapped := Remap(s, f, pid);
            var s' := mapped.(frames := mapped.frames[f := mapped.disk.Read(pid)]);
            && s'.Core() && s'.Resident(f) && s'.descs[f].page == Some(pid) && s'.Abs() == s.Abs()
            && (forall g :: s'.Resident(g) == (s.Resident(g) || g == f))
  {
    var mapped := Remap(s, f, pid);
    var s' := mapped.(frames := mapped.frames[f := mapped.disk.Read(pid)]);
    RemapStaysCore(s, f, pid);
    RemapShows(s, f, pid);
    hide Pool.Core, Pool.Contents, Pool.Pins, Pool.Abs;
    SameAbs(s', s.Abs());
  }

  lemma RemapShows(s: Pool, f: nat, pid: PageId)
    requires s.Core() && f < |s.descs| && !s.Pinned(f) && !s.descs[f].dirty && pid !in s.table
    ensures var mapped := Remap(s, f, pid);
            var s' := mapped.(frames := mapped.frames[f := mapped.disk.Read(pid)]);
            && |s'.frames| == |s'.descs|
            && forall p :: s'.Contents(p) == s.Abs().store[p] && s'.Pins(p) == s.Abs().pins[p]
  {
  }

  lemma RemapStaysCore(s: Pool, f: nat, pid: PageId)
    requires s.Core() && f < |s.descs| && !s.Pinned(f) && !s.descs[f].dirty && pid !in s.table
    ensures var mapped := Remap(s, f, pid);
            mapped.(frames := mapped.frames[f := mapped.disk.Read(pid)]).Core()
  {
  }

  lemma InstallKeeps(s: Pool, f: nat, pid: PageId)
    requires s.Core() && f < |s.descs| && !s.Pinned(f) && pid !in s.table
    ensures var s' := Install(s, f, pid);
            && s'.Core() && s'.view == View(s.view.tracked + {f}, s.view.pinned + {f})
            && s'.Pinned(f) && s'.descs[f].page == Some(pid) && s'.Abs() == OneMorePin(s.Abs(), pid)
            && (forall g :: s'.Resident(g) == (s.Resident(g) || g == f))
  {
    var saved := if s.descs[f].dirty && s.descs[f].page.Some? then WriteBack(s, f) else s;
    if s.descs[f].dirty && s.descs[f].page.Some? {
      WriteBackKeeps(s, f);
    }
    RemapKeeps(saved, f, pid);
    var mapped := Remap(saved, f, pid);
    PinKeeps(mapped.(frames := mapped.frames[f := mapped.disk.Read(pid)]), f);
  }

  /** The pool as the replacer leaves it once it stops tracking a frame. */
  function Untracked(s: Pool, f: nat): Pool {
    s.(view := View(s.view.tracked - {f}, s.view.pinned))
  }

  lemma UntrackedIsInvisible(s: Pool, f: nat)
    requires s.Core()
    ensures Untracked(s, f).Core() && Untracked(s, f).Abs() == s.Abs()
  {
    SameAbs(Untracked(s, f), s.Abs());
  }

  /** A missing page goes to a frame that nobody holds. */
  lemma VictimIsFree(s: Pool, pid: PageId, r: Result<nat, Error>, s': Pool)
    requires s.Inv() && FetchStep(s, pid, r, s') && pid !in s.table && r.Ok?
    ensures r.value < |s.descs| && !s.Pinned(r.value)
    ensures s' == Install(Untracked(s, r.value), r.value, pid)
  {
    if FirstEmpty(s.descs) < |s.descs| {
      assert !s.Resident(r.value);
      assert s.view.tracked - {r.value} == s.view.tracked;
    }
  }

  lemma MissKeeps(s: Pool, f: nat, pid: PageId)
    requires s.Inv() && f < |s.descs| && !s.Pinned(f) && pid !in s.table
    ensures var s' := Install(Untracked(s, f), f, pid);
            && s'.Inv() && s'.Abs() == OneMorePin(s.Abs(), pid)
            && s'.Pinned(f) && s'.descs[f].page == Some(pid)
  {
    hide Install, Pool.Abs;
    UntrackedIsInvisible(s, f);
    InstallKeeps(Untracked(s, f), f, pid);
  }

  /** `fetch_page` pins the page in one frame and moves no bytes as far as clients can tell. */
  lemma FetchKeeps(s: Pool, pid: PageId, r: Result<nat, Error>, s': Pool)
    requires s.Inv() && FetchStep(s, pid, r, s')
    ensures s'.Inv()
    ensures FetchSpec(s.Abs(), pid, r.Ok?, s'.Abs())
    ensures r.Ok? ==> s'.Pinned(r.value) && s'.descs[r.value].page == Some(pid)
  {
    hide Install, Untracked;
    if pid in s.table {
      PinKeeps(s, s.table[pid]);
    } else if r.Ok? {
      VictimIsFree(s, pid, r, s');
      MissKeeps(s, r.value, pid);
    }
  }

  /** A page that was there has one more pin; one that was not has its first, and is clean. */
  lemma FetchDescribes(s: Pool, pid: PageId, r: Result<nat, Error>, s': Pool)
    requires s.Inv() && FetchStep(s, pid, r, s') && r.Ok?
    ensures r.value < |s'.descs| && r.value < |s.descs|
    ensures s'.descs[r.value] ==
            if pid in s.table then s.descs[r.value].(pins := s.descs[r.value].pins + 1)
            else Descriptor(Some(pid), 1, false)
  {
    if pid !in s.table {
      VictimIsFree(s, pid, r, s');
    }
  }

  /** Fetching fails exactly when the page is absent and every frame is pinned. */
  lemma FetchFailsIff(s: Pool, pid: PageId, r: Result<nat, Error>, s': Pool)
    requires s.Inv() && FetchStep(s, pid, r, s')
    ensures r.Err? <==> pid !in s.table && forall f: nat :: f < |s.descs| ==> s.Pinned(f)
    ensures r.Err? ==> r.error == NoFreeFrames && s' == s
  {
    if r.Err? {
      forall f: nat | f < |s.descs|
        ensures s.Pinned(f)
      {
        assert s.Resident(f) && f !in s.view.Evictable();
      }
    }
  }

  /** The pages in the first `k` frames, all pinned, are `k` pages. */
  lemma {:induction false} PagesInFrames(s: Pool, k: nat) returns (pages: set<PageId>)
    requires s.Inv() && k <= |s.descs| && forall f: nat :: f < k ==> s.Pinned(f)
    ensures |pages| == k && forall p :: p in pages <==> p in s.table && s.table[p] < k
  {
    if k == 0 {
      pages := {};
    } else {
      pages := PagesInFrames(s, k - 1);
      assert s.Pinned(k - 1) && s.Resident(k - 1);
      var p := s.descs[k - 1].page.value;
      assert p !in pages;
      pages := pages + {p};
    }
  }

  /** A pool with a frame to spare serves every fetch. */
  lemma SpareFrameServes(s: Pool, pid: PageId, r: Result<nat, Error>, s': Pool)
    requires s.Inv() && FetchStep(s, pid, r, s') && Spare(s.Abs().pins, |s.frames|, 1)
    ensures r.Ok?
  {
    FetchFailsIff(s, pid, r, s');
    if r.Err? {
      var pages := PagesInFrames(s, |s.descs|);
      var cover :| Covers(cover, s.Abs().pins) && |cover| + 1 <= |s.frames|;
      forall p | p in pages
        ensures p in cover
      {
        assert s.Pinned(s.table[p]) && s.Abs().pins[p] == s.Pins(p) > 0;
      }
      SubsetIsSmaller(pages, cover);
    }
  }

  lemma InstallKeepsCounter(s: Pool, f: nat, pid: PageId)
    requires |s.frames| == |s.descs| && f < |s.descs|
    ensures Install(s, f, pid).disk.totalPages == s.disk.totalPages
  {
  }

  lemma FetchKeepsCounter(s: Pool, pid: PageId, r: Result<nat, Error>, s': Pool)
    requires |s.frames| == |s.descs| && FetchStep(s, pid, r, s')
    ensures s'.disk.totalPages == s.disk.totalPages
  {
    if pid !in s.table && r.Ok? {
      InstallKeepsCounter(s, r.value, pid);
      InstallKeepsCounter(Untracked(s, r.value), r.value, pid);
    }
    hide Install;
  }

  lemma DiskCounterIsInvisible(s: Pool, disk: Disk)
    requires s.Inv() && disk.pages == s.disk.pages
    ensures s.(disk := disk).Inv() && s.(disk := disk).Abs() == s.Abs()
  {
    SameAbs(s.(disk := disk), s.Abs());
  }

  /** A new page has the number that the counter shows, which moves on. */
  lemma NewPageNumber(s: Pool, r: Result<(nat, PageId), Error>, s': Pool)
    requires |s.frames| == |s.descs| && NewPageStep(s, r, s')
    ensures r.Ok? ==> r.value.1 == PageId(0, s.disk.totalPages)
    ensures s'.disk.totalPages == if s.disk.totalPages == 0xFFFF_FFFF then 0 else s.disk.totalPages + 1
  {
    hide FetchStep;
    FetchKeepsCounter(s.(disk := s.disk.Allocate().0), s.disk.Allocate().1,
                      if r.Ok? then Ok(r.value.0) else Err(r.error), s');
  }

  lemma NewPageKeeps(s: Pool, r: Result<(nat, PageId), Error>, s': Pool)
    requires s.Inv() && NewPageStep(s, r, s')
    ensures s'.Inv()
    ensures FetchSpec(s.Abs(), PageId(0, s.disk.totalPages), r.Ok?, s'.Abs())
    ensures r.Ok? ==> r.value.1 == PageId(0, s.disk.totalPages)
    ensures r.Ok? ==> s'.Pinned(r.value.0) && s'.descs[r.value.0].page == Some(r.value.1)
  {
    var (disk, pid) := s.disk.Allocate();
    var s1 := s.(disk := disk);
    DiskCounterIsInvisible(s, disk);
    hide Pool.Inv, Pool.Core, Pool.Abs, Install;
    FetchKeeps(s1, pid, if r.Ok? then Ok(r.value.0) else Err(r.error), s');
  }

  /** The duty of whoever wrote a page: do not give up its last pin clean. */
  ghost predicate MayUnpin(s: Pool, pid: PageId, dirty: bool) {
    pid in s.table ==> s.Pinned(s.table[pid]) &&
                       (!dirty && s.table[pid] in s.touched ==> s.descs[s.table[pid]].pins >= 2)
  }

  /** Reusing an unpinned frame keeps its old page's contents exactly when the frame is marked dirty or never
      diverged from the disk. */
  lemma ReuseLosesUpdateIff(s: Pool, f: nat, was: PageId, pid: PageId)
    requires |s.frames| == |s.descs| && f < |s.descs| && s.descs[f].page == Some(was)
    requires was in s.table && s.table[was] == f && pid != was
    ensures Install(s, f, pid).Contents(was) == s.Contents(was) <==>
            s.descs[f].dirty || s.frames[f] == s.disk.Read(was)
  {
  }

  /** What is left once a pin is given up: a frame that nobody holds has no writer. */
  function Released(s: Pool, f: nat): Pool {
    if s.Pinned(f) then s else s.(touched := s.touched - {f})
  }

  /** Why that duty exists: giving up a pin leaves the pool in order exactly when another pin remains, the caller
      says the page is dirty or it already was, or the frame equals the disk. */
  lemma UnpinIsSafeIff(s: Pool, pid: PageId, dirty: bool, s': Pool)
    requires s.Inv() && pid in s.table && UnpinStep(s, pid, dirty, Ok(()), s')
    ensures var f := s.table[pid];
            Released(s', f).Inv() <==>
            s.descs[f].pins >= 2 || dirty || s.descs[f].dirty || s.frames[f] == s.disk.Read(pid)
  {
    var f := s.table[pid];
    var r := Released(s', f);
    assert r.Resident(f) && r.descs[f].page == Some(pid);
    if s.descs[f].pins >= 2 || dirty || s.descs[f].dirty || s.frames[f] == s.disk.Read(pid) {
      ReleasedStaysCore(s, pid, dirty, s');
    }
  }

  /** The last pin is given up and the frame goes to another page: the page that was in it keeps its contents exactly
      when the caller says it is dirty or it already was, or the frame equals the disk. */
  lemma ReuseAfterUnpinIff(s: Pool, pid: PageId, dirty: bool, s': Pool, other: PageId)
    requires s.Inv() && pid in s.table && s.descs[s.table[pid]].pins == 1 && other != pid
    requires UnpinStep(s, pid, dirty, Ok(()), s')
    ensures |s'.frames| == |s'.descs|
    ensures var f := s.table[pid];
            Install(s', f, other).Contents(pid) == s.Contents(pid) <==>
            dirty || s.descs[f].dirty || s.frames[f] == s.disk.Read(pid)
  {
    hide Pool.Contents, Install;
    ReuseLosesUpdateIff(s', s.table[pid], pid, other);
    SameContents(s, s', pid);
  }

  lemma SameContents(s: Pool, s': Pool, pid: PageId)
    requires |s.frames| == |s.descs| && s'.frames == s.frames && s'.table == s.table && s'.disk == s.disk
    requires |s'.descs| == |s.descs|
    ensures s'.Contents(pid) == s.Contents(pid)
  {
  }

  lemma ReleasedStaysCore(s: Pool, pid: PageId, dirty: bool, s': Pool)
    requires s.Inv() && pid in s.table && UnpinStep(s, pid, dirty, Ok(()), s')
    requires var f := s.table[pid];
             s.descs[f].pins >= 2 || dirty || s.descs[f].dirty || s.frames[f] == s.disk.Read(pid)
    ensures Released(s', s.table[pid]).Inv()
  {
  }

  /** A pool of one frame that holds a page, over a blank disk. */
  function OneFrame(page: Option<PageId>, pins: nat, frame: Page, touched: set<nat>): Pool {
    Pool(if page.Some? then map[page.value := 0] else map[], [Descriptor(page, pins, false)], [frame],
         View(if page.Some? then {0} else {}, if pins > 0 then {0} else {}), Disk(map[], 2), None, touched)
  }

  /** A run that loses an update: the last pin of a page just written is given up clean, and a pool of one frame
      then fetches another page. */
  lemma CleanUnpinLosesUpdate(data: Page)
    returns (s: Pool, fetched: Pool, written: Pool, released: Pool, after: Pool)
    requires data != ZeroPage()
    ensures s.Inv() && FetchStep(s, PageId(0, 0), Ok(0), fetched)
    ensures fetched.Inv() && fetched.Pinned(0) && written == WriteFrame(fetched, 0, data)
    ensures written.Inv() && written.Contents(PageId(0, 0)) == data
    ensures !MayUnpin(written, PageId(0, 0), false) && UnpinStep(written, PageId(0, 0), false, Ok(()), released)
    ensures |released.frames| == |released.descs| && FetchStep(released, PageId(0, 1), Ok(0), after)
    ensures |after.frames| == |after.descs| && after.Contents(PageId(0, 0)) != data
  {
    s, fetched := OneFrame(None, 0, ZeroPage(), {}), OneFrame(Some(PageId(0, 0)), 1, ZeroPage(), {});
    written := OneFrame(Some(PageId(0, 0)), 1, data, {0});
    released := OneFrame(Some(PageId(0, 0)), 0, data, {0});
    after := OneFrame(Some(PageId(0, 1)), 1, ZeroPage(), {0});
    FirstFetch(PageId(0, 0));
    CleanUnpin(PageId(0, 0), data);
    NextFetch(PageId(0, 0), PageId(0, 1), data);
    hide FetchStep, UnpinStep;
  }

  lemma FirstFetch(p: PageId)
    ensures var s, s' := OneFrame(None, 0, ZeroPage(), {}), OneFrame(Some(p), 1, ZeroPage(), {});
            s.Inv() && FetchStep(s, p, Ok(0), s') && s'.Inv()
  {
    var s, s' := OneFrame(None, 0, ZeroPage(), {}), OneFrame(Some(p), 1, ZeroPage(), {});
    assert Install(s, 0, p) == s';
  }

  lemma CleanUnpin(p: PageId, data: Page)
    ensures var s, s' := OneFrame(Some(p), 1, data, {0}), OneFrame(Some(p), 0, data, {0});
            s.Inv() && UnpinStep(s, p, false, Ok(()), s')
  {
  }

  lemma NextFetch(p: PageId, q: PageId, data: Page)
    requires p != q
    ensures var s, s' := OneFrame(Some(p), 0, data, {0}), OneFrame(Some(q), 1, ZeroPage(), {0});
            FetchStep(s, q, Ok(0), s')
  {
    var s, s' := OneFrame(Some(p), 0, data, {0}), OneFrame(Some(q), 1, ZeroPage(), {0});
    assert s.view.Evictable() == {0} && s.view.tracked - {0} == {} && map[p := 0] - {p} == map[];
    assert Install(Untracked(s, 0), 0, q) == s';
  }

  lemma UnpinStaysInv(s: Pool, pid: PageId, dirty: bool, r: Result<(), Error>, s': Pool)
    requires s.Inv() && UnpinStep(s, pid, dirty, r, s') && MayUnpin(s, pid, dirty)
    ensures s'.Inv()
  {
  }

  lemma UnpinKeeps(s: Pool, pid: PageId, dirty: bool, r: Result<(), Error>, s': Pool)
    requires s.Inv() && UnpinStep(s, pid, dirty, r, s') && MayUnpin(s, pid, dirty)
    ensures s'.Inv()
    ensures UnpinSpec(s.Abs(), pid, r.Ok?, s'.Abs())
    ensures r.Ok? <==> pid in s.table
  {
    UnpinStaysInv(s, pid, dirty, r, s');
    if pid in s.table {
      SameAbs(s', s.Abs().(pins := s.Abs().pins[pid := s.Abs().pins[pid] - 1]));
    }
  }

  /** A holder's write changes that page and no other. */
  lemma WriteKeeps(s: Pool, pid: PageId, f: nat, p: Page)
    requires s.Inv() && s.Pinned(f) && s.descs[f].page == Some(pid)
    ensures WriteFrame(s, f, p).Inv()
    ensures WriteSpec(s.Abs(), pid, p, WriteFrame(s, f, p).Abs())
  {
    WriteStaysInv(s, f, p);
    assert s.Resident(f) && s.table[pid] == f;
    SameAbs(WriteFrame(s, f, p), s.Abs().(store := s.Abs().store[pid := p]));
  }

  lemma WriteStaysInv(s: Pool, f: nat, p: Page)
    requires s.Inv() && s.Pinned(f)
    ensures WriteFrame(s, f, p).Inv()
  {
  }

  lemma LogIsInvisible(s: Pool, log: Option<Log.State>)
    requires s.Inv()
    ensures s.(log := log).Inv() && s.(log := log).Abs() == s.Abs()
  {
    SameAbs(s.(log := log), s.Abs());
  }

  lemma FlushPageKeeps(s: Pool, pid: PageId)
    requires s.Inv()
    ensures var (s', r) := PageFlushed(s, pid);
            && s'.Inv() && s'.Abs() == s.Abs()
            && (r.Ok? <==> pid in s.table)
            && (r.Ok? ==> s'.disk.Read(pid) == s.Contents(pid))
  {
    if pid in s.table {
      WriteBackKeeps(s, s.table[pid]);
    }
  }

  lemma SaveKeeps(s: Pool, i: nat)
    requires s.Inv() && i < |s.descs|
    ensures var s' := if s.descs[i].dirty && s.Resident(i) then WriteBack(s, i) else s;
            && s'.Inv() && s'.Abs() == s.Abs() && s'.table == s.table && s'.touched <= s.touched
            && |s'.descs| == |s.descs|
            && (forall g: nat :: g < |s.descs| ==> s'.descs[g].dirty == (s.descs[g].dirty && g != i))
  {
    if s.descs[i].dirty && s.Resident(i) {
      WriteBackKeeps(s, i);
    }
  }

  /** Frames from the `i`-th on are clean, and so are those that were. */
  ghost predicate Cleans(s: Pool, i: nat, s': Pool) {
    && |s'.descs| == |s.descs|
    && forall f: nat :: f < |s.descs| && (f >= i || !s.descs[f].dirty) ==> !s'.descs[f].dirty
  }

  lemma CleansOn(s: Pool, i: nat, mid: Pool, s': Pool)
    requires |mid.descs| == |s.descs| && Cleans(mid, i + 1, s')
    requires forall g: nat :: g < |s.descs| ==> mid.descs[g].dirty == (s.descs[g].dirty && g != i)
    ensures Cleans(s, i, s')
  {
  }

  lemma {:induction false} FlushFromKeeps(s: Pool, i: nat)
    requires s.Inv() && i <= |s.descs|
    ensures |s.frames| == |s.descs|
    ensures var s' := FlushFrom(s, i);
            s'.Inv() && s'.Abs() == s.Abs() && s'.table == s.table && s'.touched <= s.touched && Cleans(s, i, s')
    decreases |s.descs| - i
  {
    hide Pool.Inv, Pool.Core, Pool.Abs, WriteBack, FlushFrom, Pool.Resident, Cleans;
    AsManyFrames(s);
    if i < |s.descs| {
      FlushUnfolds(s, i);
      SaveKeeps(s, i);
      var mid := if s.descs[i].dirty && s.Resident(i) then WriteBack(s, i) else s;
      FlushFromKeeps(mid, i + 1);
      CleansOn(s, i, mid, FlushFrom(s, i));
    } else {
      NothingToFlush(s);
    }
  }

  lemma NothingToFlush(s: Pool)
    requires |s.frames| == |s.descs|
    ensures FlushFrom(s, |s.descs|) == s && Cleans(s, |s.descs|, s)
  {
  }

  lemma AsManyFrames(s: Pool)
    requires s.Inv()
    ensures |s.frames| == |s.descs|
  {
  }

  lemma FlushUnfolds(s: Pool, i: nat)
    requires |s.frames| == |s.descs| && i < |s.descs|
    ensures FlushFrom(s, i) == FlushFrom(if s.descs[i].dirty && s.Resident(i) then WriteBack(s, i) else s, i + 1)
  {
    hide WriteBack;
  }

  /** After `flush_all_pages` the disk alone holds every page, except one still being written by a holder
      who has not yet unpinned it dirty. */
  lemma FlushAllReachesDisk(s: Pool, pid: PageId)
    requires s.Inv()
    ensures var s' := FlushFrom(s, 0);
            && s'.Inv() && s'.Abs() == s.Abs()
            && ((pid in s.table ==> s.table[pid] !in s.touched) ==> s'.disk.Read(pid) == s.Contents(pid))
  {
    FlushFromKeeps(s, 0);
    var s' := FlushFrom(s, 0);
    assert s'.Contents(pid) == s'.Abs().store[pid] == s.Contents(pid);
  }
}
