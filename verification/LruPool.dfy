/** A pool over the LRU policy: which page makes room for the next (wasdb_buffer/src/buffer_pool.rs,
    wasdb_buffer/src/lru.rs). */
module LruPool {
  import opened Util
  import opened PoolModel
  import opened PoolProof
  import opened PoolRuns
  import opened PolicySteps
  import opened Replacer
  import opened Storage
  import Lru

  /** The page that a step fetched. */
  function Fetched(op: Op): Option<PageId> {
    match op
    case Fetch(pid, r) => if r.Ok? then Some(pid) else None
    case NewPage(r) => if r.Ok? then Some(r.value.1) else None
    case _ => None
  }

  /** When a page was last fetched within the first `n` steps, or -1. */
  function LastFetch(ops: seq<Op>, n: nat, pid: PageId): (time: int)
    requires n <= |ops|
    ensures -1 <= time < n
  {
    if n == 0 then -1 else if Fetched(ops[n - 1]) == Some(pid) then n - 1 else LastFetch(ops, n - 1, pid)
  }

  /** What a step tells the policy. */
  ghost predicate Tells(s: Pool, p: PolicyState, op: Op, p': PolicyState) {
    match op
    case Fetch(pid, r) => FetchTells(s, p, pid, r, p')
    case NewPage(r) =>
      FetchTells(s, p, PageId(0, s.disk.totalPages), if r.Ok? then Ok(r.value.0) else Err(r.error), p')
    case Unpin(pid, _) => UnpinTells(s, p, pid, p')
    case _ => p' == p
  }

  /** A run of one process from an empty pool with a new LRU queue. */
  ghost predicate LruRun(states: seq<Pool>, policies: seq<PolicyState>, ops: seq<Op>) {
    && Run(states, ops) && (forall op :: op in ops ==> !EndsProcess(op))
    && |policies| == |states| && states[0].table == map[]
    && policies[0] == LruState(Lru.Replay(|states[0].descs|, []))
    && (forall i :: 0 <= i < |states| ==> policies[i].Valid() && states[i].view == policies[i].AsView())
    && (forall i :: 0 <= i < |ops| ==> Tells(states[i], policies[i], ops[i], policies[i + 1]))
  }

  // ----- The queue is in the order of last fetches -----

  /** When the page in a frame was last fetched. */
  function Time(s: Pool, ops: seq<Op>, n: nat, f: nat): (time: int)
    requires n <= |ops|
    ensures -1 <= time < n
  {
    if s.Resident(f) then LastFetch(ops, n, s.descs[f].page.value) else -1
  }

  ghost predicate InFetchOrder(s: Pool, ops: seq<Op>, n: nat, queue: seq<nat>)
    requires n <= |ops|
  {
    && (forall i :: 0 <= i < |queue| ==> 0 <= Time(s, ops, n, queue[i]))
    && (forall i, j :: 0 <= i < j < |queue| ==> Time(s, ops, n, queue[i]) < Time(s, ops, n, queue[j]))
  }

  lemma TimesKept(s: Pool, s': Pool, ops: seq<Op>, n: nat, queue: seq<nat>)
    requires n < |ops| && InFetchOrder(s, ops, n, queue)
    requires forall i :: 0 <= i < |queue| ==> Time(s', ops, n + 1, queue[i]) == Time(s, ops, n, queue[i])
    ensures InFetchOrder(s', ops, n + 1, queue)
  {
    hide Time;
  }

  lemma RestInOrder(s: Pool, ops: seq<Op>, n: nat, queue: seq<nat>, f: nat)
    requires n <= |ops| && InFetchOrder(s, ops, n, queue)
    ensures InFetchOrder(s, ops, n, Lru.Without(queue, f))
  {
    var rest, pos := Lru.Without(queue, f), Lru.Position(queue, f);
    hide Time, Lru.Position;
    forall i | 0 <= i < |rest|
      ensures rest[i] == queue[if i < pos then i else i + 1]
    {
    }
    hide Lru.Without;
  }

  lemma LastInOrder(s: Pool, ops: seq<Op>, n: nat, queue: seq<nat>, f: nat)
    requires 0 < n <= |ops| && InFetchOrder(s, ops, n, queue) && Time(s, ops, n, f) == n - 1
    requires forall i :: 0 <= i < |queue| ==> Time(s, ops, n, queue[i]) < n - 1
    ensures InFetchOrder(s, ops, n, queue + [f])
  {
    hide Time;
  }

  lemma OthersRemain(queue: seq<nat>, f: nat)
    requires Lru.Distinct(queue)
    ensures forall i :: 0 <= i < |Lru.Without(queue, f)| ==>
                          Lru.Without(queue, f)[i] != f && Lru.Without(queue, f)[i] in queue
  {
    Lru.WithoutStaysDistinct(queue, f);
    assert forall i :: 0 <= i < |Lru.Without(queue, f)| ==> Lru.Without(queue, f)[i] in Lru.Without(queue, f);
    hide Lru.Without;
  }

  /** A frame fetched just now belongs at the end. */
  lemma MovedToBack(s: Pool, s': Pool, ops: seq<Op>, n: nat, queue: seq<nat>, f: nat)
    requires n < |ops| && InFetchOrder(s, ops, n, queue) && Lru.Distinct(queue)
    requires Time(s', ops, n + 1, f) == n
    requires forall g :: g in queue && g != f ==> Time(s', ops, n + 1, g) == Time(s, ops, n, g)
    ensures InFetchOrder(s', ops, n + 1, Lru.Without(queue, f) + [f])
  {
    var rest := Lru.Without(queue, f);
    hide Time, Lru.Without, Lru.Distinct, InFetchOrder;
    RestInOrder(s, ops, n, queue, f);
    OthersRemain(queue, f);
    TimesKept(s, s', ops, n, rest);
    forall i | 0 <= i < |rest|
      ensures Time(s', ops, n + 1, rest[i]) < n
    {
    }
    LastInOrder(s', ops, n + 1, rest, f);
  }

  lemma TakenMoves(q: Lru.State, f: nat)
    requires q.Valid()
    ensures var p := LruState(q).Taken(f); p.LruState? && p.lru.queue == Lru.Without(q.queue, f) + [f]
  {
  }

  lemma EvictedMoves(q: Lru.State, f: nat)
    requires q.Valid() && Lru.Victim(q) == Some(f)
    ensures var p := LruState(q).Evicted().Taken(f); p.LruState? && p.lru.queue == Lru.Without(q.queue, f) + [f]
  {
    var e := Lru.Apply(q, Lru.Evict);
    TakenMoves(e, f);
    Lru.WithoutStaysDistinct(q.queue, f);
    hide Lru.VictimIndex;
    if !Lru.Panics(q) {
      var w := Lru.Without(q.queue, f);
      assert e.queue == w && Lru.Position(w, f) == |w|;
      assert Lru.Without(w, f) == w;
    }
  }

  /** What a fetch does to frames and queue. */
  ghost predicate Moves(s: Pool, q: Lru.State, pid: PageId, f: nat, s': Pool, q': Lru.State) {
    && q'.queue == Lru.Without(q.queue, f) + [f]
    && s'.Resident(f) && s'.descs[f].page == Some(pid)
    && forall g: nat :: g != f && s.Resident(g) ==>
                          s'.Resident(g) && s'.descs[g].page == s.descs[g].page && s.descs[g].page != Some(pid)
  }

  lemma InstallMoves(s: Pool, f: nat, pid: PageId)
    requires |s.frames| == |s.descs| && f < |s.descs|
    ensures var s' := Install(s, f, pid);
            && s'.Resident(f) && s'.descs[f].page == Some(pid)
            && forall g: nat :: g != f && s.Resident(g) ==> s'.Resident(g) && s'.descs[g].page == s.descs[g].page
  {
  }

  lemma OnlyFrameOf(s: Pool, pid: PageId)
    requires s.Inv()
    ensures |s.frames| == |s.descs|
    ensures forall g: nat :: s.Resident(g) && s.descs[g].page == Some(pid) ==> pid in s.table && s.table[pid] == g
    ensures pid in s.table ==> s.Resident(s.table[pid]) && s.descs[s.table[pid]].page == Some(pid)
  {
  }

  lemma PinMoves(s: Pool, f: nat)
    requires s.Resident(f)
    ensures var s' := PinFrame(s, f);
            && s'.Resident(f) && s'.descs[f].page == s.descs[f].page
            && forall g: nat :: g != f && s.Resident(g) ==> s'.Resident(g) && s'.descs[g].page == s.descs[g].page
  {
  }

  lemma HitMoves(s: Pool, q: Lru.State, pid: PageId, f: nat, s': Pool, p': PolicyState)
    requires s.Inv() && q.Valid() && pid in s.table
    requires |s.frames| == |s.descs| && FetchStep(s, pid, Ok(f), s') && FetchTells(s, LruState(q), pid, Ok(f), p')
    ensures p'.LruState? && Moves(s, q, pid, f, s', p'.lru)
  {
    assert f == s.table[pid] && s' == PinFrame(s, f) && p' == LruState(q).Taken(f);
    hide Pool.Inv, FetchStep, FetchTells, PolicyState.Taken, PinFrame, Lru.Without, Pool.Resident;
    OnlyFrameOf(s, pid);
    TakenMoves(q, f);
    PinMoves(s, f);
  }

  lemma MissMoves(s: Pool, q: Lru.State, pid: PageId, f: nat, s': Pool, p': PolicyState)
    requires s.Inv() && q.Valid() && pid !in s.table
    requires |s.frames| == |s.descs| && FetchStep(s, pid, Ok(f), s') && FetchTells(s, LruState(q), pid, Ok(f), p')
    ensures p'.LruState? && Moves(s, q, pid, f, s', p'.lru)
  {
    hide Pool.Inv, Pool.Core, Lru.Apply, Lru.Without, Lru.Victim, PolicyState.Taken, PolicyState.Evicted, Install;
    OnlyFrameOf(s, pid);
    if FirstEmpty(s.descs) < |s.descs| {
      TakenMoves(q, f);
      InstallMoves(s, f, pid);
    } else {
      EvictedMoves(q, f);
      InstallMoves(Untracked(s, f), f, pid);
    }
  }

  lemma FetchMoves(s: Pool, q: Lru.State, pid: PageId, f: nat, s': Pool, p': PolicyState)
    requires s.Inv() && q.Valid() && FetchStep(s, pid, Ok(f), s') && FetchTells(s, LruState(q), pid, Ok(f), p')
    ensures p'.LruState? && Moves(s, q, pid, f, s', p'.lru)
  {
    SameSize(s);
    hide *;
    if pid in s.table {
      HitMoves(s, q, pid, f, s', p');
    } else {
      MissMoves(s, q, pid, f, s', p');
    }
  }

  lemma NewPageMoves(s: Pool, q: Lru.State, r: Result<(nat, PageId), Error>, s': Pool, p': PolicyState)
    requires s.Inv() && q.Valid() && r.Ok? && NewPageStep(s, r, s')
    requires FetchTells(s, LruState(q), PageId(0, s.disk.totalPages), Ok(r.value.0), p')
    ensures p'.LruState? && Moves(s, q, r.value.1, r.value.0, s', p'.lru)
  {
    var (disk, pid) := s.disk.Allocate();
    hide Pool.Inv, FetchTells, FetchStep, Moves;
    DiskCounterIsInvisible(s, disk);
    DiskTellsNothing(s, disk, LruState(q), pid, Ok(r.value.0), p');
    FetchMoves(s.(disk := disk), q, pid, r.value.0, s', p');
    DiskMovesNothing(s, disk, q, pid, r.value.0, s', p'.lru);
  }

  lemma FetchingMoves(s: Pool, q: Lru.State, op: Op, s': Pool, p': PolicyState)
    requires s.Inv() && q.Valid() && Step(s, op, s') && Tells(s, LruState(q), op, p') && Fetched(op).Some?
    ensures p'.LruState? && exists f :: Moves(s, q, Fetched(op).value, f, s', p'.lru)
  {
    hide Pool.Inv, FetchTells, FetchStep, NewPageStep, Moves;
    if op.Fetch? {
      FetchMoves(s, q, op.pid, op.fetched.value, s', p');
    } else {
      NewPageMoves(s, q, op.made, s', p');
    }
  }

  lemma OthersMoveNothing(s: Pool, q: Lru.State, op: Op, s': Pool, p': PolicyState)
    requires s.Inv() && q.Valid() && Step(s, op, s') && Tells(s, LruState(q), op, p') && Fetched(op).None?
    requires !EndsProcess(op)
    ensures p'.LruState? && p'.lru.queue == q.queue
    ensures forall g: nat :: s.Resident(g) ==> s'.Resident(g) && s'.descs[g].page == s.descs[g].page
  {
    SameSize(s);
    hide Pool.Inv, Pool.Core, FlushFrom, FetchStep, FetchTells;
    if op.Fetch? {
      FailedFetch(s, q, op.pid, op.fetched, s', p');
    } else if op.NewPage? {
      var (disk, pid) := s.disk.Allocate();
      DiskTellsNothing(s, disk, LruState(q), pid, Err(op.made.error), p');
      FailedFetch(s.(disk := disk), q, pid, Err(op.made.error), s', p');
    } else if op.FlushAll? {
      forall g: nat | s.Resident(g)
        ensures s'.Resident(g) && s'.descs[g].page == s.descs[g].page
      {
        FlushLeavesFrames(s, 0, g);
      }
    }
  }

  lemma DiskMovesNothing(s: Pool, disk: Disk, q: Lru.State, pid: PageId, f: nat, s': Pool, q': Lru.State)
    requires Moves(s.(disk := disk), q, pid, f, s', q')
    ensures Moves(s, q, pid, f, s', q')
  {
  }

  lemma FailedFetch(s: Pool, q: Lru.State, pid: PageId, r: Result<nat, Error>, s': Pool, p': PolicyState)
    requires |s.frames| == |s.descs| && r.Err? && FetchStep(s, pid, r, s') && FetchTells(s, LruState(q), pid, r, p')
    ensures s' == s && p' == LruState(q)
  {
  }

  lemma FetchKeepsOrder(s: Pool, q: Lru.State, ops: seq<Op>, n: nat, pid: PageId, f: nat, s': Pool, q': Lru.State)
    requires n < |ops| && InFetchOrder(s, ops, n, q.queue) && q.Valid() && Moves(s, q, pid, f, s', q')
    requires Fetched(ops[n]) == Some(pid)
    ensures InFetchOrder(s', ops, n + 1, q'.queue)
  {
    forall g | g in q.queue && g != f
      ensures Time(s', ops, n + 1, g) == Time(s, ops, n, g)
    {
      assert 0 <= Time(s, ops, n, g);
    }
    hide Lru.Without, InFetchOrder, LastFetch;
    assert Time(s', ops, n + 1, f) == n by {
      LastFetchNow(ops, n, pid);
    }
    MovedToBack(s, s', ops, n, q.queue, f);
  }

  lemma LastFetchNow(ops: seq<Op>, n: nat, pid: PageId)
    requires n < |ops| && Fetched(ops[n]) == Some(pid)
    ensures LastFetch(ops, n + 1, pid) == n
  {
  }

  lemma OtherKeepsOrder(s: Pool, ops: seq<Op>, n: nat, queue: seq<nat>, s': Pool)
    requires n < |ops| && InFetchOrder(s, ops, n, queue) && Fetched(ops[n]).None?
    requires forall g: nat :: s.Resident(g) ==> s'.Resident(g) && s'.descs[g].page == s.descs[g].page
    ensures InFetchOrder(s', ops, n + 1, queue)
  {
    forall i | 0 <= i < |queue|
      ensures Time(s', ops, n + 1, queue[i]) == Time(s, ops, n, queue[i])
    {
      assert 0 <= Time(s, ops, n, queue[i]);
    }
    TimesKept(s, s', ops, n, queue);
  }

  lemma {:induction false} QueueIsFetchOrder(states: seq<Pool>, policies: seq<PolicyState>, ops: seq<Op>, n: nat)
    requires LruRun(states, policies, ops) && n <= |ops|
    ensures |states| == |policies| == |ops| + 1 && states[n].Inv() && policies[n].LruState? && policies[n].lru.Valid()
    ensures InFetchOrder(states[n], ops, n, policies[n].lru.queue)
  {
    hide Pool.Inv, Step, Tells, Lru.State.Valid, PolicyState.AsView, InFetchOrder, EndsProcess;
    if n > 0 {
      var m := n - 1;
      QueueIsFetchOrder(states, policies, ops, m);
      assert ops[m] in ops && Tells(states[m], policies[m], ops[m], policies[n]) && policies[n].Valid();
      StepKeepsInv(states[m], ops[m], states[n]);
      if Fetched(ops[m]).Some? {
        FetchingMoves(states[m], policies[m].lru, ops[m], states[n], policies[n]);
        var f :| Moves(states[m], policies[m].lru, Fetched(ops[m]).value, f, states[n], policies[n].lru);
        FetchKeepsOrder(states[m], policies[m].lru, ops, m, Fetched(ops[m]).value, f, states[n], policies[n].lru);
      } else {
        OthersMoveNothing(states[m], policies[m].lru, ops[m], states[n], policies[n]);
        OtherKeepsOrder(states[m], ops, m, policies[m].lru.queue, states[n]);
      }
    } else {
      EmptyQueue(states[0], |states[0].descs|, ops);
    }
  }

  lemma EmptyQueue(s: Pool, capacity: nat, ops: seq<Op>)
    ensures InFetchOrder(s, ops, 0, Lru.Replay(capacity, []).queue)
  {
  }

  // ----- Which page makes room -----

  /** The step brings a page that was not in the pool into a frame. */
  ghost predicate BringsIn(s: Pool, op: Op, f: nat) {
    || (op.Fetch? && op.fetched == Ok(f) && op.pid !in s.table)
    || (op.NewPage? && op.made.Ok? && op.made.value.0 == f && op.made.value.1 !in s.table)
  }

  lemma BroughtInByVictim(s: Pool, q: Lru.State, op: Op, f: nat, s': Pool, p': PolicyState)
    requires s.Inv() && q.Valid() && Step(s, op, s') && Tells(s, LruState(q), op, p')
    requires BringsIn(s, op, f) && s.Resident(f)
    ensures Lru.Victim(q) == Some(f)
  {
    SameSize(s);
    hide Pool.Inv, Pool.Core, Install, PolicyState.Taken, PolicyState.Evicted, Lru.Apply, Lru.Victim;
  }

  /** When a page that was not in the pool takes over a frame that holds one, nobody holds that page, and of all pages
      in the pool that nobody holds it is the one that was fetched longest ago. */
  lemma LeastRecentlyFetchedMakesRoom(states: seq<Pool>, policies: seq<PolicyState>, ops: seq<Op>, n: nat, f: nat,
                                      g: nat)
    requires LruRun(states, policies, ops) && n < |ops| && |states| == |ops| + 1
    requires BringsIn(states[n], ops[n], f) && states[n].Resident(f)
    requires states[n].Resident(g) && g != f && !states[n].Pinned(g)
    ensures !states[n].Pinned(f)
    ensures 0 <= LastFetch(ops, n, states[n].descs[f].page.value) < LastFetch(ops, n, states[n].descs[g].page.value)
  {
    var s, p := states[n], policies[n];
    hide Pool.Inv, Step, Tells, InFetchOrder, Lru.State.Valid, PolicyState.AsView, BringsIn;
    QueueIsFetchOrder(states, policies, ops, n);
    assert s.view == p.AsView() && Tells(s, p, ops[n], policies[n + 1]) && Step(s, ops[n], states[n + 1]);
    BroughtInByVictim(s, p.lru, ops[n], f, states[n + 1], policies[n + 1]);
    VictimIsTaken(s, p, ops, n, f, g);
  }

  lemma VictimIsTaken(s: Pool, p: PolicyState, ops: seq<Op>, n: nat, f: nat, g: nat)
    requires s.Inv() && p.LruState? && s.view == p.AsView() && n <= |ops| && InFetchOrder(s, ops, n, p.lru.queue)
    requires var q := p.lru;
             Lru.Victim(q) == Some(f) && s.Resident(f) && s.Resident(g) && g != f && !s.Pinned(g)
    ensures !s.Pinned(f) && 0 <= Time(s, ops, n, f) < Time(s, ops, n, g)
  {
    var i := VictimIsFirst(s, p, f, g);
    hide Pool.Inv, Lru.Victim, Lru.VictimIndex, PolicyState.AsView;
  }

  /** Where the frame that stays is queued: behind the victim. */
  lemma VictimIsFirst(s: Pool, p: PolicyState, f: nat, g: nat) returns (i: nat)
    requires s.Inv() && p.LruState? && s.view == p.AsView()
    requires var q := p.lru;
             Lru.Victim(q) == Some(f) && s.Resident(f) && s.Resident(g) && g != f && !s.Pinned(g)
    ensures !s.Pinned(f)
    ensures var q := p.lru;
            Lru.VictimIndex(q.queue, q.pinned) < i < |q.queue| && q.queue[i] == g
            && q.queue[Lru.VictimIndex(q.queue, q.pinned)] == f
  {
    var q := p.lru;
    Lru.VictimIsQueued(q);
    Lru.EvictableIsQueued(q);
    assert g in s.view.tracked && g !in s.view.pinned && g in s.view.Evictable() && f in s.view.Evictable();
    i :| 0 <= i < |q.queue| && q.queue[i] == g;
  }
}
