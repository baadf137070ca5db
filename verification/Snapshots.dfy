/** How far visibility by live commit state is from a snapshot (wasdb_tx/src/lib.rs). */
module Snapshots {
  import opened Mvcc

  /** States in order, each one step after the one before. */
  ghost predicate Path(states: seq<System>) {
    states != [] && forall n :: 0 <= n < |states| - 1 ==> Step(states[n], states[n + 1])
  }

  lemma {:induction false} PathGrows(states: seq<System>, n: nat)
    requires Path(states) && n < |states|
    ensures states[0].shared.committed <= states[n].shared.committed
    ensures states[0].shared.aborted <= states[n].shared.aborted
    ensures Inv(states[0]) ==> Inv(states[n])
  {
    if n > 0 {
      PathGrows(states, n - 1);
      StepGrows(states[n - 1], states[n]);
      if Inv(states[0]) {
        StepKeepsInv(states[n - 1], states[n]);
      }
    }
  }

  // ----- One reader, one row, two answers -----

  /** A reader that asks twice about an unchanging row can get two answers: the row's creator commits in between. */
  lemma AnswersChange() returns (states: seq<System>)
    ensures Run(states) && |states| == 5
    ensures !Query(1, 0, 5).Visible(states[0].shared) && Query(1, 0, 5).Visible(states[4].shared)
  {
    var s0 := System(INITIAL, [Idle]);
    var s1 := System(Shared(2, {}, {}, {}), [Beginning(1)]);
    var s2 := System(Shared(2, {1}, {}, {}), [Idle]);
    var s3 := System(Shared(2, {}, {}, {}), [Ending(1, true)]);
    var s4 := System(Shared(2, {}, {1}, {}), [Idle]);
    assert StepBy(s0, 0, s1) && StepBy(s1, 0, s2) && StepBy(s2, 0, s3) && StepBy(s3, 0, s4);
    states := [s0, s1, s2, s3, s4];
  }

  /** The transaction commits after moment `i` and by moment `k`. */
  ghost predicate CommitsWithin(states: seq<System>, i: nat, k: nat, id: nat)
    requires i <= k < |states|
  {
    id !in states[i].shared.committed && id in states[k].shared.committed
  }

  /** Two answers about a row agree, as they would under a snapshot, exactly when neither the creator commits in
      between of a row not deleted by the later moment, nor the deleter of a row already created. */
  lemma AnswersAgreeIff(states: seq<System>, q: Query, i: nat, k: nat)
    requires Run(states) && i <= k < |states|
    ensures q.Visible(states[i].shared) == q.Visible(states[k].shared) <==>
            && !(q.xmin != q.me && CommitsWithin(states, i, k, q.xmin) && !q.Deleted(states[k].shared))
            && !(q.Created(states[i].shared) && q.xmax != INVALID_TXN_ID && q.xmax != q.me
                 && CommitsWithin(states, i, k, q.xmax))
  {
    FateGrows(states, i, k);
  }

  // ----- When an answer is final -----

  predicate MayCommit(sh: Shared, id: nat) {
    FIRST_NORMAL_TXN_ID <= id && sh.StateOf(id) == Active
  }

  /** The row is deleted; or it is not created, and its creator cannot commit or is its deleter too; or it is
      created, and nobody can delete it any more. */
  predicate Settled(sh: Shared, q: Query) {
    || q.Deleted(sh)
    || (!q.Created(sh) && (!MayCommit(sh, q.xmin) || q.xmin == q.xmax))
    || (q.Created(sh) && !MayCommit(sh, q.xmax))
  }

  lemma SettledStays(states: seq<System>, q: Query)
    requires Path(states) && Inv(states[0]) && Settled(states[0].shared, q)
    ensures q.Visible(states[|states| - 1].shared) == q.Visible(states[0].shared)
  {
    var last := |states| - 1;
    PathGrows(states, last);
    var sh, sh' := states[0].shared, states[last].shared;
    assert forall id: nat :: id in sh'.committed ==> Known(sh', id);
    assert forall id: nat :: id in sh'.committed ==> id in sh.committed || MayCommit(sh, id);
  }

  lemma JoinPaths(a: seq<System>, b: seq<System>)
    requires Path(a) && Path(b) && Step(a[|a| - 1], b[0])
    ensures Path(a + b)
  {
    var ab := a + b;
    forall n | 0 <= n < |ab| - 1
      ensures Step(ab[n], ab[n + 1])
    {
      if n < |a| - 1 {
        assert Step(a[n], a[n + 1]);
      } else if n >= |a| {
        assert Step(b[n - |a|], b[n - |a| + 1]);
      }
    }
  }

  lemma PairIsPath(s: System, s': System)
    requires Step(s, s')
    ensures Path([s, s'])
  {
  }

  /** A thread alone begins transactions until the given one is active. */
  lemma {:induction false} BeginUntil(sh: Shared, id: nat) returns (states: seq<System>)
    requires SetsOk(sh) && sh.next <= id
    ensures Path(states) && states[0] == System(sh, [Idle])
    ensures var last := states[|states| - 1];
            && last.pcs == [Idle] && SetsOk(last.shared) && id in last.shared.active
            && last.shared.committed == sh.committed && last.shared.aborted == sh.aborted
    decreases id - sh.next
  {
    var s := System(sh, [Idle]);
    var mid := System(sh.(next := sh.next + 1), s.pcs[0 := Beginning(sh.next)]);
    var begun := System(Begun(sh), [Idle]);
    BeginIsTwoSteps(s, 0);
    assert Step(s, mid) && Step(mid, begun);
    PairIsPath(s, mid);
    StartIdle(sh);
    StepKeepsInv(s, mid);
    StepKeepsInv(mid, begun);
    if sh.next == id {
      JoinPaths([s, mid], [begun]);
      states := [s, mid] + [begun];
    } else {
      var rest := BeginUntil(Begun(sh), id);
      JoinPaths([s, mid], rest);
      states := [s, mid] + rest;
    }
  }

  lemma StartIdle(sh: Shared)
    requires SetsOk(sh)
    ensures Inv(System(sh, [Idle]))
  {
  }

  /** From an idle thread, an active transaction is committed in two steps. */
  lemma CommitActive(sh: Shared, id: nat) returns (states: seq<System>)
    requires SetsOk(sh) && id in sh.active
    ensures Path(states) && states[0] == System(sh, [Idle])
    ensures states[|states| - 1].shared == Ended(sh, id, true)
  {
    var s := System(sh, [Idle]);
    var mid := System(sh.(active := sh.active - {id}), s.pcs[0 := Ending(id, true)]);
    var ended := System(Ended(sh, id, true), [Idle]);
    EndIsTwoSteps(s, 0, id, true);
    assert Step(s, mid) && Step(mid, ended);
    PairIsPath(s, mid);
    JoinPaths([s, mid], [ended]);
    states := [s, mid] + [ended];
  }

  /** Whatever the sets are, a transaction that may commit does so in some run on its own. */
  lemma CommitAlone(sh: Shared, id: nat) returns (states: seq<System>)
    requires SetsOk(sh) && MayCommit(sh, id)
    ensures Path(states) && Inv(states[0]) && states[0].shared == sh
    ensures states[|states| - 1].shared.committed == sh.committed + {id}
  {
    StartIdle(sh);
    if id in sh.active {
      states := CommitActive(sh, id);
    } else if sh.next <= id {
      var begin := BeginUntil(sh, id);
      var last := begin[|begin| - 1];
      var end := CommitActive(last.shared, id);
      assert end[0] == last;
      if |end| > 1 {
        assert Path(end[1..]) && Step(last, end[1]);
        JoinPaths(begin, end[1..]);
        states := begin + end[1..];
      } else {
        states := begin;
      }
    } else {
      var s := System(sh, [Beginning(id)]);
      var begun := sh.(active := sh.active + {id});
      assert StepBy(s, 0, System(begun, [Idle]));
      assert !Known(sh, id);
      assert forall x: nat :: Known(begun, x) ==> Known(sh, x) || x == id;
      var end := CommitActive(begun, id);
      JoinPaths([s], end);
      states := [s] + end;
    }
  }

  /** An answer is final in every continuation, whatever the threads do, exactly when the row is settled: a caller
      can read that off the three sets. */
  lemma AnswerIsFinalIff(sh: Shared, q: Query)
    requires SetsOk(sh)
    ensures Settled(sh, q) <==>
            forall states: seq<System> :: Path(states) && Inv(states[0]) && states[0].shared == sh ==>
                               q.Visible(states[|states| - 1].shared) == q.Visible(sh)
  {
    if Settled(sh, q) {
      forall states: seq<System> | Path(states) && Inv(states[0]) && states[0].shared == sh
        ensures q.Visible(states[|states| - 1].shared) == q.Visible(sh)
      {
        SettledStays(states, q);
      }
    } else {
      var states := CommitAlone(sh, if q.Created(sh) then q.xmax else q.xmin);
      assert q.Visible(states[|states| - 1].shared) != q.Visible(sh);
    }
  }
}
