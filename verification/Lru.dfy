/** Least-recently-used replacement (wasdb_buffer/src/lru.rs). */
module Lru {
  import opened Util
  import opened Replacement

  datatype State = State(queue: seq<nat>, pinned: seq<bool>)
  {
    ghost predicate Valid() {
      Distinct(queue)
    }

    /** Every queued frame is a frame of the pool. */
    ghost predicate InRange() {
      forall f :: f in queue ==> f < |pinned|
    }

    predicate IsPinned(f: nat) {
      f < |pinned| && pinned[f]
    }

    function AsView(): View {
      View(Members(queue), Flagged(pinned))
    }
  }

  function Members(q: seq<nat>): set<nat> {
    set f | f in q
  }

  ghost predicate Distinct(q: seq<nat>) {
    forall i, j :: 0 <= i < j < |q| ==> q[i] != q[j]
  }

  /** Index of the first occurrence of `f`, or the length of the queue. */
  function Position(q: seq<nat>, f: nat): (pos: nat)
    ensures pos <= |q|
    ensures pos < |q| ==> q[pos] == f
    ensures forall i :: 0 <= i < pos ==> q[i] != f
  {
    if q == [] || q[0] == f then 0 else 1 + Position(q[1..], f)
  }

  function Without(q: seq<nat>, f: nat): (r: seq<nat>)
    ensures |r| == if Position(q, f) < |q| then |q| - 1 else |q|
    ensures forall i :: 0 <= i < |r| ==> r[i] == if i < Position(q, f) then q[i] else q[i + 1]
  {
    var pos := Position(q, f);
    if pos < |q| then q[..pos] + q[pos + 1..] else q
  }

  lemma WithoutStaysDistinct(q: seq<nat>, f: nat)
    requires Distinct(q)
    ensures Distinct(Without(q, f)) && f !in Without(q, f)
  {
  }

  /** Index of the first queued frame that is not pinned, or the length of the queue. */
  function VictimIndex(q: seq<nat>, pinned: seq<bool>): (pos: nat)
    ensures pos <= |q|
    ensures pos < |q| ==> !State(q, pinned).IsPinned(q[pos])
    ensures forall i :: 0 <= i < pos ==> State(q, pinned).IsPinned(q[i])
  {
    if q == [] || !State(q, pinned).IsPinned(q[0]) then 0 else 1 + VictimIndex(q[1..], pinned)
  }

  datatype Op = Access(f: nat) | Pin(f: nat, on: bool) | Evict | Remove(f: nat)

  function Victim(s: State): Option<nat> {
    var pos := VictimIndex(s.queue, s.pinned);
    if pos < |s.queue| then Some(s.queue[pos]) else None
  }

  /** The victim is no frame of the pool: the eviction indexes out of bounds. */
  predicate Panics(s: State) {
    Victim(s).Some? && Victim(s).value >= |s.pinned|
  }

  function Apply(s: State, op: Op): (s': State)
    requires s.Valid()
    ensures s'.Valid() && |s'.pinned| == |s.pinned|
  {
    match op
    case Access(f) =>
      WithoutStaysValid(s, f);
      s.(queue := Without(s.queue, f) + [f])
    case Pin(f, on) =>
      if f < |s.pinned| then s.(pinned := s.pinned[f := on]) else s
    case Evict =>
      if Victim(s).None? || Panics(s) then s
      else
        WithoutStaysValid(s, Victim(s).value);
        s.(queue := Without(s.queue, Victim(s).value))
    case Remove(f) =>
      WithoutStaysValid(s, f);
      s.(queue := Without(s.queue, f))
  }

  lemma WithoutStaysValid(s: State, f: nat)
    requires s.Valid()
    ensures s.(queue := Without(s.queue, f)).Valid() && f !in Without(s.queue, f)
  {
    WithoutStaysDistinct(s.queue, f);
  }

  /** The queue keeps its other members, in order, when one is taken out. */
  lemma WithoutMembers(q: seq<nat>, f: nat)
    requires Distinct(q)
    ensures Members(Without(q, f)) == Members(q) - {f}
  {
    var pos, r := Position(q, f), Without(q, f);
    WithoutStaysDistinct(q, f);
    if pos < |q| {
      assert r == q[..pos] + q[pos + 1..] && q == q[..pos] + ([f] + q[pos + 1..]);
      hide Without, Position;
      assert forall x :: x in q <==> x in q[..pos] || x == f || x in q[pos + 1..];
      assert forall x :: x in r <==> x in q[..pos] || x in q[pos + 1..];
    }
  }

  lemma FlaggedUpdate(flags: seq<bool>, f: nat, on: bool)
    requires f < |flags|
    ensures Flagged(flags[f := on]) == if on then Flagged(flags) + {f} else Flagged(flags) - {f}
  {
  }

  /** On frames of the pool LRU meets the replacement contract, without ever tracking a frame because it was
      pinned, and never panics. */
  lemma Refines(s: State, op: Op)
    requires s.Valid() && s.InRange() && (op.Evict? || op.f < |s.pinned|)
    ensures !Panics(s) && Apply(s, op).InRange()
    ensures var v, v' := s.AsView(), Apply(s, op).AsView();
            match op
            case Access(f) => AccessSpec(v, f, v')
            case Pin(f, on) => PinSpec(v, f, on, v') && v'.tracked == v.tracked
            case Evict => EvictSpec(v, Victim(s), v')
            case Remove(f) => RemoveSpec(v, f, v')
  {
    StaysInRange(s, op);
    hide VictimIndex, Position, State.InRange;
    match op
    case Access(f) =>
      WithoutMembers(s.queue, f);
      assert Apply(s, op).AsView().tracked == s.AsView().tracked + {f};
    case Pin(f, on) =>
      FlaggedUpdate(s.pinned, f, on);
    case Evict =>
      EvictableIsQueued(s);
      VictimIsQueued(s);
      if Victim(s).Some? {
        WithoutMembers(s.queue, Victim(s).value);
      }
    case Remove(f) =>
      WithoutMembers(s.queue, f);
  }

  lemma VictimIsQueued(s: State)
    ensures Victim(s).Some? ==> Victim(s).value in s.queue && !s.IsPinned(Victim(s).value)
    ensures Victim(s).None? ==> forall f :: f in s.queue ==> s.IsPinned(f)
  {
  }

  lemma EvictableIsQueued(s: State)
    ensures forall g :: g in s.AsView().Evictable() <==> g in s.queue && !s.IsPinned(g)
  {
  }

  /** Operations on frames of the pool queue no other frames, and so never panic. */
  lemma StaysInRange(s: State, op: Op)
    requires s.Valid() && s.InRange() && (op.Evict? || op.f < |s.pinned|)
    ensures !Panics(s) && Apply(s, op).InRange()
  {
    VictimIsQueued(s);
    var gone := if op.Access? || op.Remove? then Some(op.f) else if op.Evict? then Victim(s) else None;
    if gone.Some? {
      WithoutMembers(s.queue, gone.value);
      assert forall f :: f in Without(s.queue, gone.value) ==> f in Members(Without(s.queue, gone.value));
    }
    hide Without, VictimIndex;
  }

  // ----- The queue order is the order of last accesses, over every history -----

  function Replay(capacity: nat, history: seq<Op>): (s: State)
    ensures s.Valid() && |s.pinned| == capacity
  {
    if history == [] then
      State([], seq(capacity, _ => false))
    else
      Apply(Replay(capacity, history[..|history| - 1]), history[|history| - 1])
  }

  /** Time of the latest access to `f`, or -1. */
  function LastAccess(history: seq<Op>, f: nat): (time: int)
    ensures -1 <= time < |history|
  {
    if history == [] then -1
    else if history[|history| - 1] == Access(f) then |history| - 1
    else LastAccess(history[..|history| - 1], f)
  }

  ghost predicate OrderedByLastAccess(history: seq<Op>, q: seq<nat>) {
    && (forall i :: 0 <= i < |q| ==> 0 <= LastAccess(history, q[i]))
    && (forall i, j :: 0 <= i < j < |q| ==> LastAccess(history, q[i]) < LastAccess(history, q[j]))
  }

  lemma LastAccessAfter(past: seq<Op>, op: Op, f: nat)
    ensures LastAccess(past + [op], f) == if op == Access(f) then |past| else LastAccess(past, f)
  {
    assert (past + [op])[..|past|] == past;
  }

  lemma WithoutStaysOrdered(history: seq<Op>, q: seq<nat>, f: nat)
    requires OrderedByLastAccess(history, q)
    ensures OrderedByLastAccess(history, Without(q, f))
  {
    var r, pos := Without(q, f), Position(q, f);
    forall i, j | 0 <= i < j < |r|
      ensures LastAccess(history, r[i]) < LastAccess(history, r[j])
    {
      var i', j' := if i < pos then i else i + 1, if j < pos then j else j + 1;
      assert i' < j' && r[i] == q[i'] && r[j] == q[j'];
    }
    hide LastAccess, Position;
  }

  lemma OtherStepKeepsOrder(past: seq<Op>, q: seq<nat>, op: Op)
    requires OrderedByLastAccess(past, q)
    requires op.Access? ==> op.f !in q
    ensures OrderedByLastAccess(past + [op], q)
    ensures op.Access? ==> OrderedByLastAccess(past + [op], q + [op.f])
  {
    forall i | 0 <= i < |q|
      ensures LastAccess(past + [op], q[i]) == LastAccess(past, q[i])
    {
      LastAccessAfter(past, op, q[i]);
    }
    if op.Access? {
      LastAccessAfter(past, op, op.f);
    }
  }

  lemma StepKeepsOrder(past: seq<Op>, s: State, op: Op)
    requires s.Valid() && OrderedByLastAccess(past, s.queue)
    ensures OrderedByLastAccess(past + [op], Apply(s, op).queue)
  {
    var gone := if op.Access? || op.Remove? then Some(op.f) else if op.Evict? && !Panics(s) then Victim(s) else None;
    if gone.Some? {
      WithoutStaysDistinct(s.queue, gone.value);
      WithoutStaysOrdered(past, s.queue, gone.value);
      OtherStepKeepsOrder(past, Without(s.queue, gone.value), op);
    } else {
      OtherStepKeepsOrder(past, s.queue, op);
    }
  }

  lemma {:induction false} QueueIsAccessOrder(capacity: nat, history: seq<Op>)
    ensures OrderedByLastAccess(history, Replay(capacity, history).queue)
  {
    if history != [] {
      var past, op := history[..|history| - 1], history[|history| - 1];
      QueueIsAccessOrder(capacity, past);
      StepKeepsOrder(past, Replay(capacity, past), op);
      assert past + [op] == history;
    }
  }

  /** The victim of `evict` is the tracked unpinned frame whose last access is the oldest, if there is one. */
  lemma EvictsLeastRecentlyUsed(capacity: nat, history: seq<Op>)
    ensures var s := Replay(capacity, history);
            match Victim(s)
            case None => s.AsView().Evictable() == {}
            case Some(f) =>
              && f in s.AsView().Evictable()
              && forall g :: g in s.AsView().Evictable() && g != f ==> LastAccess(history, f) < LastAccess(history, g)
  {
    QueueIsAccessOrder(capacity, history);
    var s := Replay(capacity, history);
    hide Replay, LastAccess;
    EvictableIsQueued(s);
    if Victim(s).Some? {
      var f := Victim(s).value;
      forall g | g in s.AsView().Evictable() && g != f
        ensures LastAccess(history, f) < LastAccess(history, g)
      {
        var i :| 0 <= i < |s.queue| && s.queue[i] == g;
        assert VictimIndex(s.queue, s.pinned) < i;
      }
    }
  }

  /** One access to a frame beyond the capacity is enough for the next eviction to panic. */
  lemma StrayAccessPanics(capacity: nat, f: nat)
    requires f >= capacity
    ensures Panics(Replay(capacity, [Access(f)]))
  {
    assert [Access(f)][..0] == [];
    assert Replay(capacity, [Access(f)]).queue == [f];
  }

  datatype Panic = Panic

  /** The first frame that is not pinned is the victim, and stands at its first position in the queue. */
  lemma FirstFree(q: seq<nat>, pinned: seq<bool>, i: nat)
    requires Distinct(q) && i < |q| && !State(q, pinned).IsPinned(q[i])
    requires forall j :: 0 <= j < i ==> State(q, pinned).IsPinned(q[j])
    ensures VictimIndex(q, pinned) == i && Position(q, q[i]) == i
  {
  }

  lemma FirstFreeIsEvicted(s: State, i: nat)
    requires s.Valid() && i < |s.queue| && !s.IsPinned(s.queue[i])
    requires forall j :: 0 <= j < i ==> s.IsPinned(s.queue[j])
    ensures Victim(s) == Some(s.queue[i]) && (Panics(s) <==> s.queue[i] >= |s.pinned|)
    ensures Apply(s, Op.Evict) == if Panics(s) then s else s.(queue := s.queue[..i] + s.queue[i + 1..])
  {
    FirstFree(s.queue, s.pinned, i);
    hide VictimIndex, Position;
  }

  lemma NoneIsEvicted(s: State)
    requires s.Valid() && forall f :: f in s.queue ==> s.IsPinned(f)
    ensures Victim(s).None? && !Panics(s) && Apply(s, Op.Evict) == s
  {
    VictimIsQueued(s);
    hide VictimIndex;
  }

  class LruReplacer {
    const capacity: nat
    var accessQueue: seq<nat>
    var isPinned: seq<bool>

    function Value(): State
      reads this
    {
      State(accessQueue, isPinned)
    }

    ghost predicate Valid()
      reads this
    {
      Value().Valid() && |isPinned| == capacity
    }

    constructor (capacity: nat)
      ensures Valid() && this.capacity == capacity
      ensures Value() == Replay(capacity, [])
    {
      this.capacity := capacity;
      accessQueue := [];
      isPinned := seq(capacity, _ => false);
    }

    /** Drops the first occurrence of a frame from the queue. */
    method Forget(frameId: nat)
      requires Valid()
      modifies this
      ensures Valid() && isPinned == old(isPinned)
      ensures accessQueue == Without(old(accessQueue), frameId)
    {
      var pos := 0;
      while pos < |accessQueue| && accessQueue[pos] != frameId
        invariant 0 <= pos <= |accessQueue|
        invariant forall i :: 0 <= i < pos ==> accessQueue[i] != frameId
      {
        pos := pos + 1;
      }
      assert pos == Position(accessQueue, frameId);
      if pos < |accessQueue| {
        accessQueue := accessQueue[..pos] + accessQueue[pos + 1..];
      }
    }

    method RecordAccess(frameId: nat)
      requires Valid()
      modifies this
      ensures Valid() && Value() == Apply(old(Value()), Access(frameId))
    {
      Forget(frameId);
      accessQueue := accessQueue + [frameId];
    }

    method SetPin(frameId: nat, pinned: bool)
      requires Valid()
      modifies this
      ensures Valid() && Value() == Apply(old(Value()), Pin(frameId, pinned))
    {
      if frameId < capacity {
        isPinned := isPinned[frameId := pinned];
      }
    }

    /** A queued frame beyond the capacity, if it is the first that is not pinned, makes the look at its flag
        panic. */
    method Evict() returns (victim: Result<Option<nat>, Panic>)
      requires Valid()
      modifies this
      ensures Valid() && victim == if Panics(old(Value())) then Err(Panic) else Ok(Victim(old(Value())))
      ensures Value() == Apply(old(Value()), Op.Evict)
    {
      hide State.Valid, Apply, Victim, Panics;
      var i := 0;
      while i < |accessQueue|
        invariant 0 <= i <= |accessQueue|
        invariant accessQueue == old(accessQueue) && isPinned == old(isPinned)
        invariant forall j :: 0 <= j < i ==> Value().IsPinned(accessQueue[j])
      {
        var frameId := accessQueue[i];
        if frameId >= |isPinned| {
          FirstFreeIsEvicted(Value(), i);
          return Err(Panic);
        }
        if !isPinned[frameId] {
          FirstFreeIsEvicted(Value(), i);
          accessQueue := accessQueue[..i] + accessQueue[i + 1..];
          return Ok(Some(frameId));
        }
        i := i + 1;
      }
      NoneIsEvicted(Value());
      victim := Ok(None);
    }

    method Remove(frameId: nat)
      requires Valid()
      modifies this
      ensures Valid() && Value() == Apply(old(Value()), Op.Remove(frameId))
    {
      Forget(frameId);
    }

    method Size() returns (n: nat)
      requires Valid()
      ensures n == |Value().AsView().tracked|
    {
      n := |accessQueue|;
      DistinctCardinality(accessQueue);
    }
  }

  lemma {:induction false} DistinctCardinality(q: seq<nat>)
    requires Distinct(q)
    ensures |Members(q)| == |q|
  {
    if q != [] {
      DistinctCardinality(q[1..]);
      assert q[0] !in Members(q[1..]);
      assert Members(q) == {q[0]} + Members(q[1..]);
    }
  }
}
