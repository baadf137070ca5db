/** The clock over whole histories: which frames get a second chance, read off what it was told and which victims it
    named (wasdb_buffer/src/clock.rs). */
module ClockHistory {
  import opened Util
  import opened Clock

  /** What happened to a clock, with the victims that it named. */
  datatype Event = Access(f: nat) | Pin(f: nat, on: bool) | Evicts(victim: Option<nat>) | Remove(f: nat)

  function After(s: State, e: Event): (s': State)
    requires s.Valid()
    ensures s'.Valid() && |s'.active| == |s.active|
  {
    match e
    case Access(f) => Accessed(s, f)
    case Pin(f, on) => PinSet(s, f, on)
    case Evicts(_) => Evicted(s)
    case Remove(f) => Removed(s, f)
  }

  function Replay(capacity: nat, history: seq<Event>): (s: State)
    ensures s.Valid() && |s.active| == capacity
  {
    if history == [] then NewClock(capacity)
    else After(Replay(capacity, history[..|history| - 1]), history[|history| - 1])
  }

  /** The victims in a history are those that the clock names. */
  ghost predicate Recorded(capacity: nat, history: seq<Event>) {
    forall i :: 0 <= i < |history| && history[i].Evicts? ==>
                  history[i].victim == Victim(Replay(capacity, history[..i]))
  }

  // ----- What the history tells -----

  /** Where the hand is: just behind the last victim, or at the first frame. */
  function Hand(capacity: nat, history: seq<Event>): nat {
    if history == [] then 0
    else
      var e := history[|history| - 1];
      if e.Evicts? && e.victim.Some? then if e.victim.value + 1 == capacity then 0 else e.victim.value + 1
      else Hand(capacity, history[..|history| - 1])
  }

  /** Steps of the hand to a frame. */
  function Steps(capacity: nat, hand: nat, f: nat): int {
    if f >= hand then f - hand else f + capacity - hand
  }

  /** Accessed or told a pin state, and since then neither evicted nor removed. */
  predicate Tracked(history: seq<Event>, f: nat) {
    if history == [] then false
    else
      var e := history[|history| - 1];
      match e
      case Access(g) => g == f || Tracked(history[..|history| - 1], f)
      case Pin(g, _) => g == f || Tracked(history[..|history| - 1], f)
      case Evicts(v) => v != Some(f) && Tracked(history[..|history| - 1], f)
      case Remove(g) => g != f && Tracked(history[..|history| - 1], f)
  }

  /** Told to be pinned, and since then neither told otherwise nor removed. */
  predicate Held(history: seq<Event>, f: nat) {
    if history == [] then false
    else
      var e := history[|history| - 1];
      if e.Pin? && e.f == f then e.on
      else if e == Remove(f) then false
      else Held(history[..|history| - 1], f)
  }

  predicate MayGo(history: seq<Event>, f: nat) {
    Tracked(history, f) && !Held(history, f)
  }

  /** Accessed, and since then neither removed nor evicted nor swept over. */
  ghost predicate Referenced(capacity: nat, history: seq<Event>, f: nat)
    decreases |history|, 1
  {
    exists i :: 0 <= i < |history| && history[i] == Access(f) && StandsSince(capacity, history, i, f)
  }

  ghost predicate StandsSince(capacity: nat, history: seq<Event>, i: nat, f: nat)
    requires i < |history|
    decreases |history|, 0
  {
    forall j :: i < j < |history| ==> !Clears(capacity, history[..j], history[j], f)
  }

  /** An eviction sweeps over the frames that may go from the hand up to the victim, or over all of them if the victim
      itself was referenced: then all were, and the hand had to go round. */
  ghost predicate Clears(capacity: nat, past: seq<Event>, e: Event, f: nat)
    decreases |past|, 2
  {
    match e
    case Remove(g) => g == f
    case Evicts(Some(v)) =>
      || v == f
      || (MayGo(past, f)
          && (Referenced(capacity, past, v)
              || Steps(capacity, Hand(capacity, past), f) < Steps(capacity, Hand(capacity, past), v)))
    case _ => false
  }

  // ----- One event more -----

  lemma LastOf(past: seq<Event>, e: Event)
    ensures var h := past + [e]; |h| == |past| + 1 && h[|past|] == e && h[..|past|] == past
  {
  }

  lemma ReferencedAfter(capacity: nat, past: seq<Event>, e: Event, f: nat)
    ensures Referenced(capacity, past + [e], f) <==>
            e == Access(f) || (Referenced(capacity, past, f) && !Clears(capacity, past, e, f))
  {
    var h := past + [e];
    LastOf(past, e);
    hide Clears;
    assert forall j :: 0 <= j < |past| ==> h[..j] == past[..j] && h[j] == past[j];
    if e == Access(f) {
      assert StandsSince(capacity, h, |past|, f);
    }
    if Referenced(capacity, past, f) && !Clears(capacity, past, e, f) {
      var i :| 0 <= i < |past| && past[i] == Access(f) && StandsSince(capacity, past, i, f);
      assert h[i] == Access(f) && StandsSince(capacity, h, i, f);
    }
    if Referenced(capacity, h, f) && e != Access(f) {
      var i :| 0 <= i < |h| && h[i] == Access(f) && StandsSince(capacity, h, i, f);
      assert i < |past| && past[i] == Access(f) && !Clears(capacity, h[..|past|], h[|past|], f);
      assert StandsSince(capacity, past, i, f);
    }
  }

  /** The clock is what its history tells. */
  ghost predicate Told(capacity: nat, history: seq<Event>, s: State) {
    && s.Valid() && |s.active| == capacity
    && s.hand == Hand(capacity, history)
    && forall f: nat :: f < capacity ==> ToldOf(capacity, history, s, f)
  }

  ghost predicate ToldOf(capacity: nat, history: seq<Event>, s: State, f: nat)
    requires s.Valid() && |s.active| == capacity && f < capacity
  {
    && s.active[f] == Tracked(history, f)
    && s.pinned[f] == Held(history, f)
    && s.refBits[f] == Referenced(capacity, history, f)
    && (!s.active[f] ==> !s.pinned[f] && !s.refBits[f])
  }

  lemma HistoryAfter(past: seq<Event>, e: Event, f: nat)
    ensures Tracked(past + [e], f) ==
            match e {
              case Access(g) => g == f || Tracked(past, f)
              case Pin(g, _) => g == f || Tracked(past, f)
              case Evicts(v) => v != Some(f) && Tracked(past, f)
              case Remove(g) => g != f && Tracked(past, f)
            }
    ensures Held(past + [e], f) ==
            if e.Pin? && e.f == f then e.on else if e == Remove(f) then false else Held(past, f)
  {
    LastOf(past, e);
  }

  lemma HandAfter(capacity: nat, past: seq<Event>, e: Event)
    ensures Hand(capacity, past + [e]) ==
            if e.Evicts? && e.victim.Some? then if e.victim.value + 1 == capacity then 0 else e.victim.value + 1
            else Hand(capacity, past)
  {
    LastOf(past, e);
  }

  lemma OtherEventOf(capacity: nat, past: seq<Event>, s: State, e: Event, f: nat)
    requires Told(capacity, past, s) && !e.Evicts? && f < capacity
    ensures ToldOf(capacity, past + [e], After(s, e), f)
  {
    assert ToldOf(capacity, past, s, f);
    ReferencedAfter(capacity, past, e, f);
    HistoryAfter(past, e, f);
    hide Referenced, Tracked, Held, Hand;
  }

  lemma EvictionOf(capacity: nat, past: seq<Event>, s: State, e: Event, f: nat)
    requires Told(capacity, past, s) && e == Evicts(Victim(s)) && f < capacity
    ensures ToldOf(capacity, past + [e], After(s, e), f)
  {
    assert ToldOf(capacity, past, s, f);
    ReferencedAfter(capacity, past, e, f);
    HistoryAfter(past, e, f);
    SecondChance(s);
    hide Referenced, Tracked, Held, Victim, Evicted;
    if Victim(s).Some? {
      assert ToldOf(capacity, past, s, Victim(s).value);
    }
  }

  lemma HandTells(capacity: nat, past: seq<Event>, s: State, e: Event)
    requires s.Valid() && |s.active| == capacity && s.hand == Hand(capacity, past)
    requires e.Evicts? ==> e.victim == Victim(s)
    ensures After(s, e).hand == Hand(capacity, past + [e])
  {
    HandAfter(capacity, past, e);
    SecondChance(s);
    hide Hand, Victim, Evicted;
    if e.Evicts? && e.victim.Some? {
      NextHand(s, e.victim.value);
    }
  }

  lemma NextHand(s: State, v: nat)
    requires v < |s.active|
    ensures Next(s, v) == if v + 1 == |s.active| then 0 else v + 1
  {
    var n := |s.active|;
    if v + 1 == n {
      assert n % n == 0;
    }
  }

  lemma EventTells(capacity: nat, past: seq<Event>, s: State, e: Event)
    requires Told(capacity, past, s) && (e.Evicts? ==> e.victim == Victim(s))
    ensures Told(capacity, past + [e], After(s, e))
  {
    HandTells(capacity, past, s, e);
    hide ToldOf, Hand, Victim, After, State.Valid;
    forall f: nat | f < capacity
      ensures ToldOf(capacity, past + [e], After(s, e), f)
    {
      if e.Evicts? {
        EvictionOf(capacity, past, s, e, f);
      } else {
        OtherEventOf(capacity, past, s, e, f);
      }
    }
  }

  lemma NewClockTells(capacity: nat)
    ensures Told(capacity, [], NewClock(capacity))
  {
  }

  /** After every history a frame is active, pinned and referenced exactly when the history and its victims say so: its
      bit is set exactly when it was accessed and has since been neither swept over, evicted nor removed. */
  lemma {:induction false} BitsAreAccesses(capacity: nat, history: seq<Event>)
    requires Recorded(capacity, history)
    ensures Told(capacity, history, Replay(capacity, history))
  {
    hide Told, After, Victim;
    if history == [] {
      NewClockTells(capacity);
    } else {
      var past, e := history[..|history| - 1], history[|history| - 1];
      assert past + [e] == history;
      assert forall i :: 0 <= i < |past| ==> past[..i] == history[..i];
      BitsAreAccesses(capacity, past);
      EventTells(capacity, past, Replay(capacity, past), e);
    }
  }

  /** The victim told from the history alone: none if no frame may go; else the nearest to the hand among those not
      referenced, or among all if all are referenced. */
  lemma EvictsSecondChance(capacity: nat, history: seq<Event>)
    requires Recorded(capacity, history)
    ensures var hand := Hand(capacity, history);
            match Victim(Replay(capacity, history))
            case None => forall f: nat :: f < capacity ==> !MayGo(history, f)
            case Some(v) =>
              && v < capacity && MayGo(history, v)
              && (Referenced(capacity, history, v) ==>
                    forall f: nat :: f < capacity && MayGo(history, f) ==> Referenced(capacity, history, f))
              && forall f: nat ::
                f < capacity && MayGo(history, f)
                && (Referenced(capacity, history, f) <==> Referenced(capacity, history, v)) ==>
                  Steps(capacity, hand, v) <= Steps(capacity, hand, f)
  {
    var s := Replay(capacity, history);
    BitsAreAccesses(capacity, history);
    SecondChance(s);
    hide Referenced, Tracked, Held, Replay, Hand, Victim;
    forall f: nat | f < capacity
      ensures s.Eligible(f) == MayGo(history, f) && s.refBits[f] == Referenced(capacity, history, f)
      ensures s.Distance(f) == Steps(capacity, Hand(capacity, history), f)
    {
      assert ToldOf(capacity, history, s, f);
    }
  }

  /** A frame accessed since the last eviction is not the next victim while some frame that may go is not referenced. */
  lemma AccessedIsSpared(capacity: nat, history: seq<Event>, f: nat, i: nat, g: nat)
    requires Recorded(capacity, history) && i < |history| && history[i] == Access(f)
    requires forall j :: i < j < |history| ==> !history[j].Evicts? && history[j] != Remove(f)
    requires g < capacity && MayGo(history, g) && !Referenced(capacity, history, g)
    ensures Victim(Replay(capacity, history)).Some? && Victim(Replay(capacity, history)) != Some(f)
  {
    assert StandsSince(capacity, history, i, f);
    assert Referenced(capacity, history, f);
    hide Referenced, Tracked, Held, Replay, Hand, Victim;
    EvictsSecondChance(capacity, history);
  }
}
