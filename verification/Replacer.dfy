/** The boxed replacement policy held by the pool: one of the two implementations, known to the pool only
    through the replacement contract (wasdb_buffer/src/replacer.rs). */
module Replacer {
  import opened Util
  import opened Replacement
  import Lru
  import Clock

  lemma LruAccess(s: Lru.State, f: nat)
    requires s.Valid() && s.InRange()
    ensures f < |s.pinned| ==> Lru.Apply(s, Lru.Access(f)).InRange()
    ensures AccessSpec(s.AsView(), f, Lru.Apply(s, Lru.Access(f)).AsView())
  {
    if f < |s.pinned| {
      Lru.Refines(s, Lru.Access(f));
    }
    Lru.WithoutMembers(s.queue, f);
    hide Lru.Without, Lru.Position, Lru.State.InRange;
  }

  lemma LruForgetsNothing(s: Lru.State, f: nat)
    requires s.Valid() && s.InRange() && f >= |s.pinned|
    ensures Lru.Apply(s, Lru.Remove(f)) == s
  {
    assert f !in s.queue;
  }

  /** What a policy remembers, and what it does with each of the pool's calls. */
  datatype PolicyState = LruState(lru: Lru.State) | ClockState(clock: Clock.State)
  {
    ghost predicate Valid() {
      match this
      case LruState(s) => s.Valid()
      case ClockState(s) => s.Valid()
    }

    function Accessed(f: nat): (p: PolicyState)
      requires Valid()
      ensures p.Valid()
    {
      match this
      case LruState(s) => LruState(Lru.Apply(s, Lru.Access(f)))
      case ClockState(s) => ClockState(Clock.Accessed(s, f))
    }

    function PinSet(f: nat, on: bool): (p: PolicyState)
      requires Valid()
      ensures p.Valid()
    {
      match this
      case LruState(s) => LruState(Lru.Apply(s, Lru.Pin(f, on)))
      case ClockState(s) => ClockState(Clock.PinSet(s, f, on))
    }

    /** A frame that was just pinned by a fetch. */
    function Taken(f: nat): (p: PolicyState)
      requires Valid()
      ensures p.Valid()
    {
      PinSet(f, true).Accessed(f)
    }

    function Victim(): Option<nat>
      requires Valid()
    {
      match this
      case LruState(s) => Lru.Victim(s)
      case ClockState(s) => Clock.Victim(s)
    }

    function Evicted(): (p: PolicyState)
      requires Valid()
      ensures p.Valid()
    {
      match this
      case LruState(s) => LruState(Lru.Apply(s, Lru.Evict))
      case ClockState(s) => ClockState(Clock.Evicted(s))
    }

    function AsView(): View {
      match this
      case LruState(s) => s.AsView()
      case ClockState(s) => s.AsView()
    }
  }

  datatype Policy = LruPolicy(lru: Lru.LruReplacer) | ClockPolicy(clock: Clock.ClockReplacer)
  {
    function Obj(): object {
      match this
      case LruPolicy(lru) => lru
      case ClockPolicy(clock) => clock
    }

    function Capacity(): nat {
      match this
      case LruPolicy(lru) => lru.capacity
      case ClockPolicy(clock) => clock.capacity
    }

    ghost predicate Valid()
      reads Obj()
    {
      match this
      case LruPolicy(lru) => lru.Valid() && lru.Value().InRange()
      case ClockPolicy(clock) => clock.Valid()
    }

    ghost function AsView(): View
      reads Obj()
    {
      match this
      case LruPolicy(lru) => lru.Value().AsView()
      case ClockPolicy(clock) => clock.Value().AsView()
    }

    ghost function Value(): PolicyState
      reads Obj()
    {
      match this
      case LruPolicy(lru) => LruState(lru.Value())
      case ClockPolicy(clock) => ClockState(clock.Value())
    }

    lemma ValueIsValid()
      requires Valid()
      ensures Value().Valid() && Value().AsView() == AsView()
    {
    }

    /** Beyond the capacity the clock ignores the frame, and the LRU queue takes it: a later eviction may panic. */
    method RecordAccess(frameId: nat)
      requires Valid()
      modifies Obj()
      ensures frameId < Capacity() || ClockPolicy? ==> Valid()
      ensures frameId < Capacity() || LruPolicy? ==> AccessSpec(old(AsView()), frameId, AsView())
      ensures frameId >= Capacity() && ClockPolicy? ==> AsView() == old(AsView())
      ensures old(Value()).Valid() && Value() == old(Value()).Accessed(frameId)
    {
      match this
      case LruPolicy(lru) =>
        LruAccess(lru.Value(), frameId);
        lru.RecordAccess(frameId);
      case ClockPolicy(clock) =>
        if frameId < clock.capacity {
          Clock.Refines(clock.Value(), frameId, true);
        }
        clock.RecordAccess(frameId);
    }

    method SetPin(frameId: nat, pinned: bool)
      requires Valid()
      modifies Obj()
      ensures Valid()
      ensures if frameId < Capacity() then PinSpec(old(AsView()), frameId, pinned, AsView())
              else AsView() == old(AsView())
      ensures old(Value()).Valid() && Value() == old(Value()).PinSet(frameId, pinned)
    {
      match this
      case LruPolicy(lru) =>
        if frameId < lru.capacity {
          Lru.Refines(lru.Value(), Lru.Pin(frameId, pinned));
        }
        lru.SetPin(frameId, pinned);
      case ClockPolicy(clock) =>
        if frameId < clock.capacity {
          Clock.Refines(clock.Value(), frameId, pinned);
        }
        clock.SetPin(frameId, pinned);
    }

    method Evict() returns (victim: Option<nat>)
      requires Valid()
      modifies Obj()
      ensures Valid() && EvictSpec(old(AsView()), victim, AsView())
      ensures victim.Some? ==> victim.value < Capacity()
      ensures old(Value()).Valid() && victim == old(Value()).Victim() && Value() == old(Value()).Evicted()
      ensures victim.None? ==> Value() == old(Value())
    {
      match this
      case LruPolicy(lru) =>
        Lru.Refines(lru.Value(), Lru.Evict);
        var evicted := lru.Evict();
        victim := evicted.value;
      case ClockPolicy(clock) =>
        Clock.EvictRefines(clock.Value());
        ghost var steps;
        victim, steps := clock.Evict();
    }

    method Remove(frameId: nat)
      requires Valid()
      modifies Obj()
      ensures Valid()
      ensures if frameId < Capacity() then RemoveSpec(old(AsView()), frameId, AsView()) else AsView() == old(AsView())
    {
      match this
      case LruPolicy(lru) =>
        if frameId < lru.capacity {
          Lru.Refines(lru.Value(), Lru.Remove(frameId));
        } else {
          LruForgetsNothing(lru.Value(), frameId);
        }
        lru.Remove(frameId);
      case ClockPolicy(clock) =>
        if frameId < clock.capacity {
          Clock.Refines(clock.Value(), frameId, true);
        }
        clock.Remove(frameId);
    }
  }
}
