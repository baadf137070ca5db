/** Clock (second-chance) replacement (wasdb_buffer/src/clock.rs). */
module Clock {
  import opened Util
  import opened Replacement

  datatype State = State(refBits: seq<bool>, pinned: seq<bool>, active: seq<bool>, hand: nat, size: nat)
  {
    ghost predicate Valid() {
      && |refBits| == |pinned| == |active|
      && (hand < |active| || hand == |active| == 0)
      && size == Count(active)
    }

    function AsView(): View {
      View(Flagged(active), Flagged(pinned))
    }

    /** The frame `k` hand steps ahead, for at most one full circle. */
    function Ahead(k: nat): nat {
      if hand + k < |active| then hand + k else hand + k - |active|
    }

    predicate Eligible(f: nat)
      requires |pinned| == |active|
    {
      f < |active| && active[f] && !pinned[f]
    }

    /** Steps from the hand to the first eligible frame at distance `k` or more within the circle,
        with a clear reference bit if `clear`; the capacity if there is none. */
    function First(k: nat, clear: bool): (d: nat)
      requires Valid() && k <= |active|
      ensures k <= d <= |active|
      ensures d < |active| ==> Eligible(Ahead(d)) && (clear ==> !refBits[Ahead(d)])
      ensures forall j :: k <= j < d ==> !(Eligible(Ahead(j)) && (clear ==> !refBits[Ahead(j)]))
      decreases |active| - k
    {
      if k == |active| || (Eligible(Ahead(k)) && (clear ==> !refBits[Ahead(k)])) then k else First(k + 1, clear)
    }

    function Distance(f: nat): nat
      requires Valid() && f < |active|
    {
      if f >= hand then f - hand else f + |active| - hand
    }

    /** The reference bits after the hand swept over the first `d` frames ahead of it. */
    function Swept(d: nat): (bits: seq<bool>)
      requires Valid()
      ensures |bits| == |active|
    {
      seq(|active|, f requires 0 <= f < |active| => refBits[f] && !(Eligible(f) && Distance(f) < d))
    }
  }

  function Count(flags: seq<bool>): nat {
    if flags == [] then 0 else Count(flags[..|flags| - 1]) + if flags[|flags| - 1] then 1 else 0
  }

  lemma {:induction false} CountUpdate(flags: seq<bool>, f: nat, on: bool)
    requires f < |flags|
    ensures Count(flags[f := on]) == Count(flags) - (if flags[f] then 1 else 0) + (if on then 1 else 0)
  {
    var last := |flags| - 1;
    if f < last {
      CountUpdate(flags[..last], f, on);
      assert flags[f := on][..last] == flags[..last][f := on];
    } else {
      assert flags[f := on][..last] == flags[..last];
    }
  }

  lemma {:induction false} CountIsZero(flags: seq<bool>)
    ensures Count(flags) == 0 <==> forall f :: 0 <= f < |flags| ==> !flags[f]
  {
    if flags != [] {
      CountIsZero(flags[..|flags| - 1]);
    }
  }

  /** Nothing tracked, pinned or referenced, and the hand at the first frame. */
  function NewClock(capacity: nat): (s: State)
    ensures s.Valid() && |s.active| == capacity
  {
    var none := seq(capacity, _ => false);
    CountIsZero(none);
    State(none, none, none, 0, 0)
  }

  function Activate(s: State, f: nat): (s': State)
    requires s.Valid() && f < |s.active|
    ensures s'.Valid()
  {
    CountUpdate(s.active, f, true);
    if s.active[f] then s else s.(active := s.active[f := true], size := s.size + 1)
  }

  function Deactivate(s: State, f: nat): (s': State)
    requires s.Valid() && f < |s.active| && s.active[f]
    ensures s'.Valid()
  {
    CountUpdate(s.active, f, false);
    s.(active := s.active[f := false], size := s.size - 1)
  }

  function Accessed(s: State, f: nat): (s': State)
    requires s.Valid()
    ensures s'.Valid()
  {
    if f < |s.active| then Activate(s.(refBits := s.refBits[f := true]), f) else s
  }

  function PinSet(s: State, f: nat, on: bool): (s': State)
    requires s.Valid()
    ensures s'.Valid()
  {
    if f < |s.active| then Activate(s.(pinned := s.pinned[f := on]), f) else s
  }

  function Removed(s: State, f: nat): (s': State)
    requires s.Valid()
    ensures s'.Valid()
  {
    if f < |s.active| && s.active[f] then
      Deactivate(s.(refBits := s.refBits[f := false], pinned := s.pinned[f := false]), f)
    else s
  }

  /** The victim: the first eligible frame ahead with a clear reference bit, else, once every eligible
      bit has been cleared in a full circle, the first eligible frame. */
  function Victim(s: State): Option<nat>
    requires s.Valid()
  {
    if s.First(0, true) < |s.active| then Some(s.Ahead(s.First(0, true)))
    else if s.First(0, false) < |s.active| then Some(s.Ahead(s.First(0, false)))
    else None
  }

  function Evicted(s: State): (s': State)
    requires s.Valid()
    ensures s'.Valid()
  {
    if s.First(0, true) < |s.active| then
      var d := s.First(0, true);
      Deactivate(s.(refBits := s.Swept(d), hand := Next(s, s.Ahead(d))), s.Ahead(d))
    else if s.First(0, false) < |s.active| then
      var d := s.First(0, false);
      Deactivate(s.(refBits := s.Swept(|s.active|), hand := Next(s, s.Ahead(d))), s.Ahead(d))
    else s
  }

  function Next(s: State, f: nat): (next: nat)
    requires f < |s.active|
    ensures next < |s.active|
  {
    (f + 1) % |s.active|
  }

  // ----- What the sweep means -----

  /** The circle ahead of the hand reaches every frame exactly once. */
  lemma AheadIsCircle(s: State, f: nat)
    requires s.Valid() && f < |s.active|
    ensures s.Distance(f) < |s.active| && s.Ahead(s.Distance(f)) == f
    ensures forall k: nat :: k < |s.active| && s.Ahead(k) == f ==> k == s.Distance(f)
  {
  }

  /** No victim exactly when no active frame is unpinned; then nothing at all changes. Otherwise the
      victim is the eligible frame with a clear bit nearest ahead of the hand, or the nearest eligible
      frame if every eligible bit was set; only the bits of eligible frames swept over are cleared. */
  lemma SecondChance(s: State)
    requires s.Valid()
    ensures Victim(s).None? <==> forall f: nat :: !s.Eligible(f)
    ensures Victim(s).None? ==> Evicted(s) == s
    ensures Victim(s).Some? ==>
              var v := Victim(s).value;
              && s.Eligible(v)
              && (s.refBits[v] ==> forall f: nat :: s.Eligible(f) ==> s.refBits[f])
              && (forall f: nat :: s.Eligible(f) && s.refBits[f] == s.refBits[v] ==> s.Distance(v) <= s.Distance(f))
              && Evicted(s).hand == Next(s, v)
              && Evicted(s).active == s.active[v := false]
              && Evicted(s).pinned == s.pinned
              && forall f: nat :: f < |s.active| ==>
                Evicted(s).refBits[f] ==
                (s.refBits[f] && !(s.Eligible(f) && (s.refBits[v] || s.Distance(f) < s.Distance(v))))
  {
    var c, e := s.First(0, true), s.First(0, false);
    forall f: nat | s.Eligible(f)
      ensures e <= s.Distance(f) && e < |s.active|
      ensures !s.refBits[f] ==> c <= s.Distance(f) && c < |s.active|
    {
      AheadIsCircle(s, f);
      assert s.Ahead(s.Distance(f)) == f;
    }
    if c < |s.active| {
      AheadIsCircle(s, s.Ahead(c));
    }
    if e < |s.active| {
      AheadIsCircle(s, s.Ahead(e));
    }
  }

  /** Clock meets the replacement contract; unlike LRU it starts tracking a frame when told its pin state. */
  lemma Refines(s: State, f: nat, on: bool)
    requires s.Valid() && f < |s.active|
    ensures AccessSpec(s.AsView(), f, Accessed(s, f).AsView())
    ensures PinSpec(s.AsView(), f, on, PinSet(s, f, on).AsView()) && f in PinSet(s, f, on).AsView().tracked
    ensures RemoveSpec(s.AsView(), f, Removed(s, f).AsView())
  {
  }

  lemma EvictRefines(s: State)
    requires s.Valid()
    ensures EvictSpec(s.AsView(), Victim(s), Evicted(s).AsView())
  {
    SecondChance(s);
    if Victim(s).None? {
      forall f | f in s.AsView().Evictable() ensures false {
        assert s.Eligible(f);
      }
    }
  }

  function CountUnpinned(active: seq<bool>, pinned: seq<bool>): (n: nat)
    requires |active| == |pinned|
    ensures n == 0 <==> forall f :: 0 <= f < |active| ==> !(active[f] && !pinned[f])
  {
    if active == [] then 0
    else (if active[0] && !pinned[0] then 1 else 0) + CountUnpinned(active[1..], pinned[1..])
  }

  // ----- The sweep loop, step by step -----

  /** Where the sweep stands after `steps` hand moves that met no victim. */
  ghost predicate Sweeping(s: State, steps: nat, refBits: seq<bool>, hand: nat)
  {
    var n := |s.active|;
    && s.Valid() && n > 0
    && if steps <= n then
         && hand == s.Ahead(steps) && refBits == s.Swept(steps)
         && forall j :: 0 <= j < steps ==> !(s.Eligible(s.Ahead(j)) && !s.refBits[s.Ahead(j)])
       else
         && steps <= 2 * n
         && hand == s.Ahead(steps - n) && refBits == s.Swept(n)
         && (forall j :: 0 <= j < n ==> !(s.Eligible(s.Ahead(j)) && !s.refBits[s.Ahead(j)]))
         && (forall j :: 0 <= j < steps - n ==> !s.Eligible(s.Ahead(j)))
  }

  lemma SweepStarts(s: State)
    requires s.Valid() && |s.active| > 0
    ensures Sweeping(s, 0, s.refBits, s.hand)
  {
    assert s.Swept(0) == s.refBits;
  }

  lemma SweptExtends(s: State, d: nat)
    requires s.Valid() && d < |s.active|
    ensures s.Swept(d + 1) == if s.Eligible(s.Ahead(d)) then s.Swept(d)[s.Ahead(d) := false] else s.Swept(d)
  {
    forall f | 0 <= f < |s.active|
      ensures s.Swept(d + 1)[f] == if f == s.Ahead(d) && s.Eligible(f) then false else s.Swept(d)[f]
    {
      AheadIsCircle(s, f);
    }
  }

  lemma NextIsAhead(s: State, d: nat)
    requires s.Valid() && d < |s.active|
    ensures Next(s, s.Ahead(d)) == s.Ahead(d + 1)
  {
    var f := s.Ahead(d);
    if f + 1 == |s.active| {
      assert (f + 1) % |s.active| == 0;
    }
  }

  lemma SweepAdvances(s: State, steps: nat, refBits: seq<bool>, hand: nat)
    requires Sweeping(s, steps, refBits, hand) && steps < 2 * |s.active|
    requires hand < |s.active| == |refBits|
    requires s.Eligible(hand) ==> refBits[hand]
    ensures Sweeping(s, steps + 1, if s.Eligible(hand) then refBits[hand := false] else refBits, Next(s, hand))
  {
    var n := |s.active|;
    if steps < n {
      AheadIsCircle(s, hand);
      NextIsAhead(s, steps);
      SweptExtends(s, steps);
    } else {
      AheadIsCircle(s, hand);
      NextIsAhead(s, steps - n);
    }
  }

  lemma SweepFinds(s: State, steps: nat, refBits: seq<bool>, hand: nat)
    requires Sweeping(s, steps, refBits, hand) && steps < 2 * |s.active|
    requires hand < |s.active| == |refBits|
    requires s.Eligible(hand) && !refBits[hand]
    ensures Victim(s) == Some(hand)
    ensures Evicted(s) == Deactivate(s.(refBits := refBits, hand := Next(s, hand)), hand)
  {
    var n := |s.active|;
    AheadIsCircle(s, hand);
    if steps < n {
      assert s.First(0, true) == steps;
    } else {
      assert s.Ahead(n) == s.hand;
      assert s.First(0, true) == n;
      assert s.First(0, false) == steps - n;
    }
  }

  lemma SweepIsEmpty(s: State, steps: nat, refBits: seq<bool>, hand: nat)
    requires Sweeping(s, steps, refBits, hand) && hand == s.hand
    requires CountUnpinned(s.active, s.pinned) == 0
    ensures Victim(s) == None && Evicted(s) == s && refBits == s.refBits
  {
    forall f: nat
      ensures !s.Eligible(f)
    {
    }
    SecondChance(s);
  }

  lemma NothingActive(s: State)
    requires s.Valid() && s.size == 0
    ensures Victim(s) == None && Evicted(s) == s
  {
    CountIsZero(s.active);
    SecondChance(s);
  }

  lemma SweepEnds(s: State, steps: nat, refBits: seq<bool>, hand: nat)
    requires Sweeping(s, steps, refBits, hand) && steps == 2 * |s.active|
    ensures hand == s.hand && CountUnpinned(s.active, s.pinned) == 0
  {
    forall f | 0 <= f < |s.active|
      ensures !(s.active[f] && !s.pinned[f])
    {
      AheadIsCircle(s, f);
      assert !s.Eligible(s.Ahead(s.Distance(f)));
    }
  }

  class ClockReplacer {
    const capacity: nat
    var refBits: seq<bool>
    var isPinned: seq<bool>
    var isActive: seq<bool>
    var clockHand: nat
    var size: nat

    function Value(): State
      reads this
    {
      State(refBits, isPinned, isActive, clockHand, size)
    }

    ghost predicate Valid()
      reads this
    {
      Value().Valid() && |isActive| == capacity
    }

    constructor (capacity: nat)
      ensures Valid() && this.capacity == capacity
      ensures Value() == NewClock(capacity) && Value().AsView() == View({}, {})
    {
      this.capacity := capacity;
      var none := seq(capacity, _ => false);
      refBits, isPinned, isActive := none, none, none;
      clockHand, size := 0, 0;
      CountIsZero(none);
    }

    method Track(frameId: nat)
      requires Valid() && frameId < capacity
      modifies this
      ensures Valid() && Value() == Activate(old(Value()), frameId)
    {
      if !isActive[frameId] {
        CountUpdate(isActive, frameId, true);
        isActive := isActive[frameId := true];
        size := size + 1;
      }
    }

    method RecordAccess(frameId: nat)
      requires Valid()
      modifies this
      ensures Valid() && Value() == Accessed(old(Value()), frameId)
    {
      if frameId < capacity {
        refBits := refBits[frameId := true];
        Track(frameId);
      }
    }

    method SetPin(frameId: nat, pinned: bool)
      requires Valid()
      modifies this
      ensures Valid() && Value() == PinSet(old(Value()), frameId, pinned)
    {
      if frameId < capacity {
        isPinned := isPinned[frameId := pinned];
        Track(frameId);
      }
    }

    /** Takes the frame under the hand, and moves the hand on. */
    method TakeCurrent()
      requires Valid() && clockHand < capacity && isActive[clockHand]
      modifies this
      ensures Valid()
      ensures var s := old(Value());
              Value() == Deactivate(s.(hand := Next(s, s.hand)), s.hand)
    {
      CountUpdate(isActive, clockHand, false);
      isActive := isActive[clockHand := false];
      size := size - 1;
      clockHand := (clockHand + 1) % capacity;
    }

    /** One position of the sweep: takes an eligible frame with a clear bit, else clears its bit and moves on. */
    method Visit(ghost s: State, ghost steps: nat) returns (victim: Option<nat>)
      requires Valid() && Value() == s.(refBits := refBits, hand := clockHand)
      requires Sweeping(s, steps, refBits, clockHand) && steps < 2 * capacity
      modifies this
      ensures Valid()
      ensures victim.Some? ==> victim == Victim(s) && Value() == Evicted(s)
      ensures victim.None? ==> Value() == s.(refBits := refBits, hand := clockHand)
      ensures victim.None? ==> Sweeping(s, steps + 1, refBits, clockHand)
    {
      hide Sweeping, Victim, Evicted, Deactivate;
      var current := clockHand;
      if isActive[current] && !isPinned[current] {
        if !refBits[current] {
          SweepFinds(s, steps, refBits, clockHand);
          TakeCurrent();
          return Some(current);
        }
        SweepAdvances(s, steps, refBits, clockHand);
        refBits := refBits[current := false];
      } else {
        SweepAdvances(s, steps, refBits, clockHand);
      }
      clockHand := (current + 1) % capacity;
      victim := None;
    }

    /** `steps` counts the moves of the hand: never more than two full circles. */
    method Evict() returns (victim: Option<nat>, ghost steps: nat)
      requires Valid()
      modifies this
      ensures Valid() && steps <= 2 * capacity
      ensures victim == Victim(old(Value()))
      ensures Value() == Evicted(old(Value()))
    {
      steps := 0;
      ghost var s := Value();
      if size == 0 {
        NothingActive(s);
        return None, 0;
      }
      SweepStarts(s);
      var startHand := clockHand;
      while true
        invariant Valid() && startHand == s.hand
        invariant Value() == s.(refBits := refBits, hand := clockHand)
        invariant steps < 2 * capacity && Sweeping(s, steps, refBits, clockHand)
        decreases 2 * capacity - steps
      {
        victim := Visit(s, steps);
        steps := steps + 1;
        if victim.Some? {
          return;
        }
        if steps == 2 * capacity {
          SweepEnds(s, steps, refBits, clockHand);
        }
        if clockHand == startHand {
          var unpinned := CountUnpinned(isActive, isPinned);
          if unpinned == 0 {
            SweepIsEmpty(s, steps, refBits, clockHand);
            return None, steps;
          }
        }
      }
    }

    method Remove(frameId: nat)
      requires Valid()
      modifies this
      ensures Valid() && Value() == Removed(old(Value()), frameId)
    {
      if frameId < capacity && isActive[frameId] {
        CountUpdate(isActive, frameId, false);
        refBits := refBits[frameId := false];
        isPinned := isPinned[frameId := false];
        isActive := isActive[frameId := false];
        size := size - 1;
      }
    }

    method Size() returns (n: nat)
      requires Valid()
      ensures n == Count(isActive)
    {
      n := size;
    }
  }
}
