/** Transaction states and row visibility, lock by lock (wasdb_tx/src/lib.rs). */
module Mvcc {
  import opened Util

  const INVALID_TXN_ID := 0
  const FIRST_NORMAL_TXN_ID := 1

  datatype TransactionState = Active | Committed | Aborted

  datatype TransactionError = NotFound(id: nat)

  /** The id counter and the three sets. */
  datatype Shared = Shared(next: nat, active: set<nat>, committed: set<nat>, aborted: set<nat>)
  {
    function StateOf(id: nat): TransactionState {
      if id in committed then Committed else if id in aborted then Aborted else Active
    }
  }

  const INITIAL := Shared(FIRST_NORMAL_TXN_ID, {}, {}, {})

  /** A question put to `is_visible`: a row's header and the reader. */
  datatype Query = Query(xmin: nat, xmax: nat, me: nat)
  {
    function Created(s: Shared): bool {
      xmin == me || s.StateOf(xmin) == Committed
    }

    function Deleted(s: Shared): bool {
      xmax != INVALID_TXN_ID && (xmax == me || s.StateOf(xmax) == Committed)
    }

    /** Visibility read off one state at one instant. */
    function Visible(s: Shared): bool {
      Created(s) && !Deleted(s)
    }
  }

  // ----- One call at a time -----

  function Begun(s: Shared): Shared {
    s.(next := s.next + 1, active := s.active + {s.next})
  }

  function Ended(s: Shared, id: nat, commit: bool): Shared {
    if id !in s.active then s
    else if commit then s.(active := s.active - {id}, committed := s.committed + {id})
    else s.(active := s.active - {id}, aborted := s.aborted + {id})
  }

  class TransactionManager {
    var nextTxnId: nat
    var activeTxns: set<nat>
    var committedTxns: set<nat>
    var abortedTxns: set<nat>

    function Value(): Shared
      reads this
    {
      Shared(nextTxnId, activeTxns, committedTxns, abortedTxns)
    }

    constructor ()
      ensures Value() == INITIAL
      ensures nextTxnId == 1 && activeTxns == committedTxns == abortedTxns == {}
    {
      nextTxnId, activeTxns, committedTxns, abortedTxns := FIRST_NORMAL_TXN_ID, {}, {}, {};
    }

    method Begin() returns (id: nat)
      modifies this
      ensures id == old(nextTxnId) && Value() == Begun(old(Value()))
      ensures nextTxnId == old(nextTxnId) + 1 && activeTxns == old(activeTxns) + {id}
      ensures unchanged(this`committedTxns, this`abortedTxns)
    {
      id := nextTxnId;
      nextTxnId := nextTxnId + 1;
      activeTxns := activeTxns + {id};
    }

    method Commit(id: nat) returns (r: Result<(), TransactionError>)
      modifies this
      ensures r == (if id in old(activeTxns) then Ok(()) else Err(NotFound(id)))
      ensures Value() == Ended(old(Value()), id, true)
      ensures activeTxns == old(activeTxns) - {id} && unchanged(this`nextTxnId, this`abortedTxns)
      ensures committedTxns == if r.Ok? then old(committedTxns) + {id} else old(committedTxns)
    {
      if id !in activeTxns {
        return Err(NotFound(id));
      }
      activeTxns := activeTxns - {id};
      committedTxns := committedTxns + {id};
      r := Ok(());
    }

    method Abort(id: nat) returns (r: Result<(), TransactionError>)
      modifies this
      ensures r == (if id in old(activeTxns) then Ok(()) else Err(NotFound(id)))
      ensures Value() == Ended(old(Value()), id, false)
      ensures activeTxns == old(activeTxns) - {id} && unchanged(this`nextTxnId, this`committedTxns)
      ensures abortedTxns == if r.Ok? then old(abortedTxns) + {id} else old(abortedTxns)
    {
      if id !in activeTxns {
        return Err(NotFound(id));
      }
      activeTxns := activeTxns - {id};
      abortedTxns := abortedTxns + {id};
      r := Ok(());
    }

    method GetState(id: nat) returns (st: TransactionState)
      ensures st == Value().StateOf(id)
      ensures st.Committed? <==> id in committedTxns
      ensures st.Aborted? <==> id in abortedTxns && id !in committedTxns
    {
      if id in committedTxns {
        st := Committed;
      } else if id in abortedTxns {
        st := Aborted;
      } else {
        st := Active;
      }
    }

    method IsVisible(xmin: nat, xmax: nat, me: nat) returns (visible: bool)
      ensures visible == Query(xmin, xmax, me).Visible(Value())
      ensures visible <==>
                && (xmin == me || xmin in committedTxns)
                && (xmax == 0 || (xmax != me && xmax !in committedTxns))
    {
      if xmin != me {
        var st := GetState(xmin);
        if st != Committed {
          return false;
        }
      }
      if xmax != INVALID_TXN_ID {
        if xmax == me {
          return false;
        }
        var st := GetState(xmax);
        if st == Committed {
          return false;
        }
      }
      visible := true;
    }
  }

  // ----- Calls interleaved: one step per lock held or atomic access -----

  /** Where a thread is. `Ending` holds the lock on the active set; the `Else` points come after a look at the
      committed set that did not find the transaction, and before the look at the aborted set. */
  datatype Pc =
    | Idle
    | Beginning(id: nat)
    | Ending(id: nat, commit: bool)
    | AskXmin(q: Query)
    | XminElse(q: Query)
    | AskXmax(q: Query)
    | XmaxElse(q: Query)
    | Answered(q: Query, visible: bool)
    | AskState(id: nat)
    | StateElse(id: nat)
    | Told(id: nat, st: TransactionState)

  datatype System = System(shared: Shared, pcs: seq<Pc>)

  predicate LockFree(s: System) {
    forall p :: 0 <= p < |s.pcs| ==> !s.pcs[p].Ending?
  }

  /** Thread `p` goes from one point to the next. */
  ghost predicate Moves(s: System, p: nat, pc: Pc, shared: Shared)
    requires p < |s.pcs|
  {
    var sh := s.shared;
    match s.pcs[p]
    case Idle =>
      || (pc == Beginning(sh.next) && shared == sh.(next := sh.next + 1))
      || (pc.Ending? && LockFree(s) && pc.id in sh.active && shared == sh.(active := sh.active - {pc.id}))
      || (pc.Idle? && shared == sh)
      || (pc.AskXmin? && shared == sh)
      || (pc.AskState? && shared == sh)
    case Beginning(id) => LockFree(s) && pc == Idle && shared == sh.(active := sh.active + {id})
    case Ending(id, commit) =>
      && pc == Idle
      && shared == if commit then sh.(committed := sh.committed + {id}) else sh.(aborted := sh.aborted + {id})
    case AskXmin(q) =>
      && shared == sh
      && pc == if q.xmin == q.me || q.xmin in sh.committed then AskXmax(q) else XminElse(q)
    case XminElse(q) => shared == sh && pc == Answered(q, false)
    case AskXmax(q) =>
      && shared == sh
      && pc == if q.xmax == INVALID_TXN_ID then Answered(q, true)
               else if q.xmax == q.me || q.xmax in sh.committed then Answered(q, false)
               else XmaxElse(q)
    case XmaxElse(q) => shared == sh && pc == Answered(q, true)
    case Answered(_, _) => shared == sh && pc == Idle
    case AskState(id) => shared == sh && pc == if id in sh.committed then Told(id, Committed) else StateElse(id)
    case StateElse(id) => shared == sh && pc == Told(id, if id in sh.aborted then Aborted else Active)
    case Told(_, _) => shared == sh && pc == Idle
  }

  ghost predicate Step(s: System, s': System) {
    exists p: nat :: p < |s.pcs| && StepBy(s, p, s')
  }

  ghost predicate StepBy(s: System, p: nat, s': System)
    requires p < |s.pcs|
  {
    |s'.pcs| == |s.pcs| && s'.pcs == s.pcs[p := s'.pcs[p]] && Moves(s, p, s'.pcs[p], s'.shared)
  }

  // ----- What every step keeps -----

  /** Ids handed out lie below the counter, and each is in at most one set. */
  ghost predicate SetsOk(sh: Shared) {
    && FIRST_NORMAL_TXN_ID <= sh.next
    && (forall id: nat :: Known(sh, id) ==> FIRST_NORMAL_TXN_ID <= id < sh.next)
    && sh.active !! sh.committed && sh.active !! sh.aborted && sh.committed !! sh.aborted
  }

  predicate Known(sh: Shared, id: nat) {
    id in sh.active || id in sh.committed || id in sh.aborted
  }

  predicate InHand(pc: Pc) {
    pc.Beginning? || pc.Ending?
  }

  /** An id that a thread is about to put into a set is in none, and no other thread has it. */
  ghost predicate HandsOk(s: System) {
    && (forall p :: 0 <= p < |s.pcs| && InHand(s.pcs[p]) ==>
          FIRST_NORMAL_TXN_ID <= s.pcs[p].id < s.shared.next && !Known(s.shared, s.pcs[p].id))
    && (forall p, r :: 0 <= p < r < |s.pcs| && InHand(s.pcs[p]) && InHand(s.pcs[r]) ==> s.pcs[p].id != s.pcs[r].id)
  }

  /** The lock on the active set has at most one holder. */
  ghost predicate OneHolder(s: System) {
    forall p, r :: 0 <= p < r < |s.pcs| ==> !(s.pcs[p].Ending? && s.pcs[r].Ending?)
  }

  /** A reader that has got past the creator of a row still finds it committed, or itself. */
  ghost predicate ReadersOk(s: System) {
    forall p :: 0 <= p < |s.pcs| && s.pcs[p].AskXmax? ==> s.pcs[p].q.Created(s.shared)
  }

  ghost predicate Inv(s: System) {
    SetsOk(s.shared) && HandsOk(s) && OneHolder(s) && ReadersOk(s)
  }

  lemma StartIsInv(s: System)
    requires s.shared == INITIAL && forall pc :: pc in s.pcs ==> pc.Idle?
    ensures Inv(s)
  {
    assert forall p :: 0 <= p < |s.pcs| ==> s.pcs[p] in s.pcs;
  }

  lemma StepKeepsInv(s: System, s': System)
    requires Inv(s) && Step(s, s')
    ensures Inv(s')
  {
    var p: nat :| p < |s.pcs| && StepBy(s, p, s');
    assert forall r :: 0 <= r < |s.pcs| && r != p ==> s'.pcs[r] == s.pcs[r];
    StepKeepsSets(s, p, s');
    StepKeepsHands(s, p, s');
    hide SetsOk, HandsOk;
  }

  lemma StepKeepsSets(s: System, p: nat, s': System)
    requires SetsOk(s.shared) && HandsOk(s) && p < |s.pcs| && StepBy(s, p, s')
    ensures SetsOk(s'.shared)
  {
    var sh, sh' := s.shared, s'.shared;
    assert forall id: nat :: Known(sh', id) ==> Known(sh, id) || (InHand(s.pcs[p]) && id == s.pcs[p].id);
  }

  lemma StepKeepsHands(s: System, p: nat, s': System)
    requires SetsOk(s.shared) && HandsOk(s) && p < |s.pcs| && StepBy(s, p, s')
    ensures HandsOk(s')
  {
    var sh, sh' := s.shared, s'.shared;
    assert forall r :: 0 <= r < |s.pcs| && r != p ==> s'.pcs[r] == s.pcs[r];
    assert forall id: nat :: Known(sh', id) ==> Known(sh, id) || (InHand(s.pcs[p]) && id == s.pcs[p].id);
    assert !Known(sh, sh.next);
    assert InHand(s'.pcs[p]) ==> s'.pcs[p].id == sh.next || (s'.pcs[p].id in sh.active && Known(sh, s'.pcs[p].id));
    assert InHand(s'.pcs[p]) ==> !Known(sh', s'.pcs[p].id) && s'.pcs[p].id < sh'.next;
  }

  /** Ending an active transaction decides its state and no other's; ending any other does nothing. */
  lemma EndedDecides(sh: Shared, id: nat, commit: bool, other: nat)
    requires SetsOk(sh)
    ensures SetsOk(Ended(sh, id, commit))
    ensures id in sh.active ==> Ended(sh, id, commit).StateOf(id) == if commit then Committed else Aborted
    ensures other != id || id !in sh.active ==> Ended(sh, id, commit).StateOf(other) == sh.StateOf(other)
    ensures id !in Ended(sh, id, commit).active
  {
    assert id in sh.active ==> Known(sh, id);
    assert forall x: nat :: Known(Ended(sh, id, commit), x) ==> Known(sh, x);
  }

  /** Left alone, a thread that begins a transaction does what `begin` does in one go. */
  lemma BeginIsTwoSteps(s: System, p: nat)
    requires p < |s.pcs| && s.pcs[p].Idle? && LockFree(s)
    ensures var mid := System(s.shared.(next := s.shared.next + 1), s.pcs[p := Beginning(s.shared.next)]);
            StepBy(s, p, mid) && StepBy(mid, p, System(Begun(s.shared), s.pcs))
  {
    var mid := System(s.shared.(next := s.shared.next + 1), s.pcs[p := Beginning(s.shared.next)]);
    assert mid.pcs[p := Idle] == s.pcs;
  }

  /** So does one that ends an active transaction. */
  lemma EndIsTwoSteps(s: System, p: nat, id: nat, commit: bool)
    requires p < |s.pcs| && s.pcs[p].Idle? && LockFree(s) && id in s.shared.active
    ensures var mid := System(s.shared.(active := s.shared.active - {id}), s.pcs[p := Ending(id, commit)]);
            StepBy(s, p, mid) && StepBy(mid, p, System(Ended(s.shared, id, commit), s.pcs))
  {
    var mid := System(s.shared.(active := s.shared.active - {id}), s.pcs[p := Ending(id, commit)]);
    assert mid.pcs[p := Idle] == s.pcs;
  }

  // ----- Whole runs -----

  ghost predicate Run(states: seq<System>) {
    && states != [] && states[0].shared == INITIAL && (forall pc :: pc in states[0].pcs ==> pc.Idle?)
    && forall n :: 0 <= n < |states| - 1 ==> Step(states[n], states[n + 1])
  }

  lemma {:induction false} RunKeepsInv(states: seq<System>, n: nat)
    requires Run(states) && n < |states|
    ensures Inv(states[n]) && |states[n].pcs| == |states[0].pcs|
  {
    if n == 0 {
      StartIsInv(states[0]);
    } else {
      RunKeepsInv(states, n - 1);
      StepKeepsInv(states[n - 1], states[n]);
    }
  }

  lemma StepGrows(s: System, s': System)
    requires Step(s, s')
    ensures s.shared.committed <= s'.shared.committed && s.shared.aborted <= s'.shared.aborted
    ensures s.shared.next <= s'.shared.next
  {
  }

  lemma {:induction false} FateGrows(states: seq<System>, m: nat, n: nat)
    requires Run(states) && m <= n < |states|
    ensures states[m].shared.committed <= states[n].shared.committed
    ensures states[m].shared.aborted <= states[n].shared.aborted
  {
    if m < n {
      FateGrows(states, m, n - 1);
      StepGrows(states[n - 1], states[n]);
    }
  }

  /** A transaction that has committed, or aborted, has done so for good and never does the other. */
  lemma FateIsFinal(states: seq<System>, m: nat, n: nat, id: nat)
    requires Run(states) && m <= n < |states| && states[m].shared.StateOf(id) != Active
    ensures states[n].shared.StateOf(id) == states[m].shared.StateOf(id) && id !in states[n].shared.active
  {
    FateGrows(states, m, n);
    RunKeepsInv(states, n);
  }

  predicate Asking(pc: Pc, q: Query) {
    pc == AskXmin(q) || pc == XminElse(q) || pc == AskXmax(q) || pc == XmaxElse(q) || (pc.Answered? && pc.q == q)
  }

  /** At some moment of a call that is still open at `n`, the row's visibility was `visible`. */
  ghost predicate WasVisible(states: seq<System>, p: nat, n: nat, q: Query, visible: bool)
    requires n < |states|
  {
    exists k :: 0 <= k <= n && q.Visible(states[k].shared) == visible && Open(states, p, k, n, q)
  }

  ghost predicate Open(states: seq<System>, p: nat, k: nat, n: nat, q: Query)
    requires k <= n < |states|
  {
    forall m :: k <= m <= n ==> p < |states[m].pcs| && Asking(states[m].pcs[p], q)
  }

  /** The answer a thread holds, or is bound to give. */
  function Verdict(pc: Pc): Option<(Query, bool)> {
    match pc
    case XminElse(q) => Some((q, false))
    case XmaxElse(q) => Some((q, true))
    case Answered(q, visible) => Some((q, visible))
    case _ => None
  }

  lemma ThreadsStartIdle(states: seq<System>, p: nat)
    requires Run(states) && p < |states[0].pcs|
    ensures states[0].pcs[p].Idle?
  {
    assert states[0].pcs[p] in states[0].pcs;
  }

  /** A verdict, once reached, stands until it is given; it is reached at a moment when it is true. */
  lemma VerdictStep(s: System, s': System, p: nat)
    requires Inv(s) && Step(s, s') && p < |s'.pcs| && Verdict(s'.pcs[p]).Some?
    ensures |s.pcs| == |s'.pcs|
    ensures var (q, visible) := Verdict(s'.pcs[p]).value;
            && Asking(s.pcs[p], q) && Asking(s'.pcs[p], q)
            && (Verdict(s.pcs[p]) == Verdict(s'.pcs[p])
                || (Verdict(s.pcs[p]).None? && q.Visible(s.shared) == visible))
  {
    var mover: nat :| mover < |s.pcs| && StepBy(s, mover, s');
  }

  /** The separate looks at the committed set add up to one: whatever runs in between, the answer of
      `is_visible` is the row's visibility at some moment of the call. */
  lemma {:induction false} IsVisibleIsAtomic(states: seq<System>, p: nat, n: nat, q: Query, visible: bool)
    requires Run(states) && n < |states| && p < |states[n].pcs| && Verdict(states[n].pcs[p]) == Some((q, visible))
    ensures WasVisible(states, p, n, q, visible)
  {
    RunKeepsInv(states, n);
    ThreadsStartIdle(states, p);
    if n > 0 {
      RunKeepsInv(states, n - 1);
      assert Step(states[n - 1], states[n]);
      VerdictStep(states[n - 1], states[n], p);
      hide *;
      if Verdict(states[n - 1].pcs[p]).Some? {
        IsVisibleIsAtomic(states, p, n - 1, q, visible);
        StillOpen(states, p, n, q, visible);
      } else {
        JustOpen(states, p, n, q, visible);
      }
    }
  }

  lemma StillOpen(states: seq<System>, p: nat, n: nat, q: Query, visible: bool)
    requires 0 < n < |states| && WasVisible(states, p, n - 1, q, visible)
    requires p < |states[n].pcs| && Asking(states[n].pcs[p], q)
    ensures WasVisible(states, p, n, q, visible)
  {
    hide Asking, Query.Visible;
    var k :| 0 <= k <= n - 1 && q.Visible(states[k].shared) == visible && Open(states, p, k, n - 1, q);
    assert Open(states, p, k, n, q);
  }

  lemma JustOpen(states: seq<System>, p: nat, n: nat, q: Query, visible: bool)
    requires 0 < n < |states| && q.Visible(states[n - 1].shared) == visible
    requires p < |states[n - 1].pcs| == |states[n].pcs|
    requires Asking(states[n - 1].pcs[p], q) && Asking(states[n].pcs[p], q)
    ensures WasVisible(states, p, n, q, visible)
  {
    hide Asking, Query.Visible;
    assert Open(states, p, n - 1, n, q);
  }

  predicate AskingState(pc: Pc, id: nat) {
    pc == AskState(id) || pc == StateElse(id) || (pc.Told? && pc.id == id)
  }

  ghost predicate OpenState(states: seq<System>, p: nat, k: nat, n: nat, id: nat)
    requires k <= n < |states|
  {
    forall m :: k <= m <= n ==> p < |states[m].pcs| && AskingState(states[m].pcs[p], id)
  }

  ghost predicate WasUncommitted(states: seq<System>, p: nat, n: nat, id: nat)
    requires n < |states|
  {
    exists k :: 0 <= k <= n && id !in states[k].shared.committed && OpenState(states, p, k, n, id)
  }

  ghost predicate WasState(states: seq<System>, p: nat, n: nat, id: nat, st: TransactionState)
    requires n < |states|
  {
    exists k :: 0 <= k <= n && states[k].shared.StateOf(id) == st && OpenState(states, p, k, n, id)
  }

  lemma StateStep(s: System, s': System, p: nat, id: nat)
    requires Step(s, s') && p < |s'.pcs| && (s'.pcs[p] == StateElse(id) || (s'.pcs[p].Told? && s'.pcs[p].id == id))
    ensures |s.pcs| == |s'.pcs| && AskingState(s.pcs[p], id) && AskingState(s'.pcs[p], id)
    ensures s.pcs[p] == s'.pcs[p] || s.pcs[p] == AskState(id) || s.pcs[p] == StateElse(id)
    ensures s.pcs[p] == AskState(id) ==>
              s'.pcs[p] == if id in s.shared.committed then Told(id, Committed) else StateElse(id)
    ensures s.pcs[p] == StateElse(id) != s'.pcs[p] ==>
              s'.pcs[p] == Told(id, if id in s.shared.aborted then Aborted else Active)
  {
    var mover: nat :| mover < |s.pcs| && StepBy(s, mover, s');
  }

  lemma {:induction false} ElseMeansUncommitted(states: seq<System>, p: nat, n: nat, id: nat)
    requires Run(states) && n < |states| && p < |states[n].pcs| && states[n].pcs[p] == StateElse(id)
    ensures WasUncommitted(states, p, n, id)
  {
    RunKeepsInv(states, n);
    ThreadsStartIdle(states, p);
    if n > 0 {
      StateStep(states[n - 1], states[n], p, id);
      hide Step, Inv, AskingState;
      if states[n - 1].pcs[p] == StateElse(id) {
        ElseMeansUncommitted(states, p, n - 1, id);
        var k :| 0 <= k <= n - 1 && id !in states[k].shared.committed && OpenState(states, p, k, n - 1, id);
        assert OpenState(states, p, k, n, id);
      } else {
        assert OpenState(states, p, n - 1, n, id);
      }
    }
  }

  /** So does `get_state`: its two looks, at the committed and then the aborted set, amount to one. */
  lemma {:induction false} GetStateIsAtomic(states: seq<System>, p: nat, n: nat, id: nat, st: TransactionState)
    requires Run(states) && n < |states| && p < |states[n].pcs| && states[n].pcs[p] == Told(id, st)
    ensures WasState(states, p, n, id, st)
  {
    RunKeepsInv(states, n);
    ThreadsStartIdle(states, p);
    if n > 0 {
      RunKeepsInv(states, n - 1);
      StateStep(states[n - 1], states[n], p, id);
      hide Step, Inv, AskingState, WasState;
      if states[n - 1].pcs[p] == Told(id, st) {
        GetStateIsAtomic(states, p, n - 1, id, st);
        StateStaysTold(states, p, n, id, st);
      } else if states[n - 1].pcs[p] == AskState(id) {
        FirstLook(states, p, n, id, st);
      } else {
        LateLook(states, p, n, id, st);
      }
    }
  }

  lemma StateStaysTold(states: seq<System>, p: nat, n: nat, id: nat, st: TransactionState)
    requires 0 < n < |states| && p < |states[n].pcs| && states[n].pcs[p] == Told(id, st)
    requires WasState(states, p, n - 1, id, st)
    ensures WasState(states, p, n, id, st)
  {
    var k :| 0 <= k <= n - 1 && states[k].shared.StateOf(id) == st && OpenState(states, p, k, n - 1, id);
    hide Shared.StateOf;
    assert OpenState(states, p, k, n, id);
  }

  /** The answer given by the look at the committed set. */
  lemma FirstLook(states: seq<System>, p: nat, n: nat, id: nat, st: TransactionState)
    requires Run(states) && 0 < n < |states| && p < |states[n].pcs| && states[n].pcs[p] == Told(id, st)
    requires p < |states[n - 1].pcs| && states[n - 1].pcs[p] == AskState(id) && Inv(states[n - 1])
    ensures WasState(states, p, n, id, st)
  {
    StateStep(states[n - 1], states[n], p, id);
    assert states[n - 1].shared.StateOf(id) == st;
    hide Step, Inv, AskingState, Shared.StateOf;
    assert OpenState(states, p, n - 1, n, id);
  }

  /** The answer given after the look at the aborted set: aborted now, or active at the first look. */
  lemma LateLook(states: seq<System>, p: nat, n: nat, id: nat, st: TransactionState)
    requires Run(states) && 0 < n < |states| && p < |states[n].pcs| && states[n].pcs[p] == Told(id, st)
    requires p < |states[n - 1].pcs| && states[n - 1].pcs[p] == StateElse(id) && Inv(states[n - 1])
    ensures WasState(states, p, n, id, st)
  {
    StateStep(states[n - 1], states[n], p, id);
    ElseMeansUncommitted(states, p, n - 1, id);
    var k :| 0 <= k <= n - 1 && id !in states[k].shared.committed && OpenState(states, p, k, n - 1, id);
    FateGrows(states, k, n - 1);
    var at := if st == Aborted then n - 1 else k;
    assert Known(states[n - 1].shared, id) || st == Active;
    assert states[at].shared.StateOf(id) == st;
    hide Step, Inv, AskingState;
    assert OpenState(states, p, at, n, id);
  }

  /** To one reader, a row that does not change appears at most once and disappears at most once. */
  lemma RowAppearsOnce(states: seq<System>, q: Query, i: nat, j: nat, k: nat)
    requires Run(states) && i <= j <= k < |states|
    requires q.Visible(states[i].shared) && !q.Visible(states[j].shared)
    ensures !q.Visible(states[k].shared)
  {
    FateGrows(states, i, j);
    FateGrows(states, j, k);
  }
}
