/** Volcano-style executors: cursors that are reset by `Init` and advanced by `Next`
    (wasdb_query/src/executors.rs, wasdb_query/src/index_scan.rs). */
module Executors {
  import Mvcc
  import opened Tuples
  import opened Util

  // ----- What an executor tree means -----

  /** An executor tree as the planner builds it: its scans consult no transaction manager. */
  datatype Tree =
    | Scan(tuples: seq<Tuple>)
    | Index(tuples: seq<Tuple>, key: i32, col: nat)
    | Filter(child: Tree, keep: Tuple -> bool)
    | Join(left: Tree, right: Tree, on: (Tuple, Tuple) -> bool)

  predicate HoldsKey(t: Tuple, key: i32, col: nat) {
    col < |t.values| && t.values[col] == Integer(key)
  }

  function Matches(key: i32, col: nat): Tuple -> bool {
    (t: Tuple) => HoldsKey(t, key, col)
  }

  /** The list a tree denotes. */
  function Denote(tree: Tree): seq<Tuple> {
    match tree
    case Scan(tuples) => tuples
    case Index(tuples, key, col) => Select(tuples, Matches(key, col))
    case Filter(child, keep) => Select(Denote(child), keep)
    case Join(left, right, on) => JoinRows(Denote(left), Denote(right), on)
  }

  /** What a scan lets through: everything, or the rows visible to its transaction in the states it can see. */
  function Sees(view: Option<Mvcc.Shared>, me: nat): Tuple -> bool {
    (t: Tuple) => view.None? || Mvcc.Query(t.xmin, t.xmax, me).Visible(view.value)
  }

  /** A scan without a transaction manager lets everything through; with one, the rows that its transaction or a
      committed one created, unless its transaction or a committed one deleted them. */
  lemma SeesMeans(view: Option<Mvcc.Shared>, me: nat, t: Tuple)
    ensures view.None? ==> Sees(view, me)(t)
    ensures view.Some? ==>
              (Sees(view, me)(t) <==>
                 && (t.xmin == me || t.xmin in view.value.committed)
                 && (t.xmax == 0 || (t.xmax != me && t.xmax !in view.value.committed)))
  {
  }

  /** What a scan passes from a position on. */
  function From(tuples: seq<Tuple>, cursor: nat, p: Tuple -> bool): seq<Tuple> {
    if cursor <= |tuples| then Select(tuples[cursor..], p) else []
  }

  lemma FromStep(tuples: seq<Tuple>, cursor: nat, p: Tuple -> bool)
    requires cursor < |tuples|
    ensures From(tuples, cursor, p) ==
            (if p(tuples[cursor]) then [tuples[cursor]] else []) + From(tuples, cursor + 1, p)
  {
    assert tuples[cursor..] == [tuples[cursor]] + tuples[cursor + 1..];
    SelectFirst(tuples[cursor], tuples[cursor + 1..], p);
    hide Select;
  }

  lemma FromEnd(tuples: seq<Tuple>, cursor: nat, p: Tuple -> bool)
    requires cursor >= |tuples|
    ensures From(tuples, cursor, p) == []
  {
  }

  // ----- The executor objects -----

  /** A boxed executor of any kind. The shape of a tree of executors never changes once built. */
  datatype Executor =
    | SeqScan(scan: SeqScanExecutor)
    | IndexScan(index: IndexScanExecutor)
    | Filtered(filter: FilterExecutor)
    | NestedLoop(join: NestedLoopJoinExecutor)
  {
    ghost function Repr(): set<object> {
      match this
      case SeqScan(s) => {s}
      case IndexScan(s) => {s}
      case Filtered(f) => f.repr
      case NestedLoop(j) => j.repr
    }

    /** The transaction managers that its scans ask: shared, and never changed from here. */
    ghost function Watched(): set<object> {
      match this
      case SeqScan(s) => s.Watched()
      case IndexScan(_) => {}
      case Filtered(f) => f.watched
      case NestedLoop(j) => j.watched
    }

    ghost function Height(): nat {
      match this
      case SeqScan(_) => 0
      case IndexScan(_) => 0
      case Filtered(f) => f.height
      case NestedLoop(j) => j.height
    }

    /** Children are smaller trees that share nothing with each other or with their parent. */
    ghost predicate Valid()
      decreases Height()
    {
      match this
      case SeqScan(s) => s !in s.Watched()
      case IndexScan(_) => true
      case Filtered(f) =>
        && f.child.Height() < f.height && f.child.Valid()
        && f !in f.child.Repr() && f !in f.child.Watched()
        && f.repr == {f} + f.child.Repr() && f.watched == f.child.Watched()
      case NestedLoop(j) =>
        && j.left.Height() < j.height && j.left.Valid()
        && j.right.Height() < j.height && j.right.Valid()
        && j.left.Repr() !! j.right.Repr() && j.left.Repr() !! j.right.Watched() && j.left.Watched() !! j.right.Repr()
        && j !in j.left.Repr() && j !in j.right.Repr() && j !in j.left.Watched() && j !in j.right.Watched()
        && j.repr == {j} + j.left.Repr() + j.right.Repr() && j.watched == j.left.Watched() + j.right.Watched()
    }

    /** What `Init` restarts, as the transactions stand. */
    ghost function Output(): seq<Tuple>
      requires Valid()
      reads Repr() + Watched()
      decreases Height()
    {
      match this
      case SeqScan(s) => Select(s.tuples, Sees(s.View(), s.currentTxn))
      case IndexScan(s) => Select(s.tuples, Matches(s.key, s.col))
      case Filtered(f) => Select(f.child.Output(), f.keep)
      case NestedLoop(j) => JoinRows(j.left.Output(), j.right.Output(), j.on)
    }

    /** What calls of `Next` will still return, as the transactions stand. */
    ghost function Pending(): seq<Tuple>
      requires Valid()
      reads Repr() + Watched()
      decreases Height()
    {
      match this
      case SeqScan(s) => From(s.tuples, s.cursor, Sees(s.View(), s.currentTxn))
      case IndexScan(s) => if s.cursor <= |s.tuples| then s.tuples[s.cursor..] else []
      case Filtered(f) => Select(f.child.Pending(), f.keep)
      case NestedLoop(j) =>
        JoinPending(j.leftTuple, j.right.Pending(), j.left.Pending(), j.right.Output(), j.on)
    }

    method Init()
      requires Valid()
      modifies Repr()
      ensures Pending() == Output() == old(Output())
      decreases Height(), 3
    {
      match this
      case SeqScan(s) => s.Init();
      case IndexScan(s) => s.Init();
      case Filtered(f) => f.Init();
      case NestedLoop(j) => j.Init();
    }

    method Next() returns (t: Option<Tuple>)
      requires Valid()
      modifies Repr()
      ensures Output() == old(Output())
      ensures Delivers(old(Pending()), t, Pending())
      decreases Height(), 3
    {
      match this
      case SeqScan(s) => t := s.Next();
      case IndexScan(s) => t := s.Next();
      case Filtered(f) => t := f.Next();
      case NestedLoop(j) => t := j.Next();
    }
  }

  /** What a join still owes: the current left tuple against the rest of the right side, then the later
      left tuples against all of it. */
  function JoinPending(l: Option<Tuple>, rs: seq<Tuple>, ls: seq<Tuple>, allRs: seq<Tuple>,
                       on: (Tuple, Tuple) -> bool): seq<Tuple> {
    if l.None? then [] else JoinRow(l.value, rs, on) + JoinRows(ls, allRs, on)
  }

  lemma JoinSkipsRight(l: Tuple, r: Tuple, rs: seq<Tuple>, ls: seq<Tuple>, allRs: seq<Tuple>,
                       on: (Tuple, Tuple) -> bool)
    ensures JoinPending(Some(l), [r] + rs, ls, allRs, on) ==
            (if on(l, r) then [Combine(l, r)] else []) + JoinPending(Some(l), rs, ls, allRs, on)
  {
    assert ([r] + rs)[1..] == rs;
  }

  lemma JoinSkipsLeft(l: Option<Tuple>, ls: seq<Tuple>, allRs: seq<Tuple>, on: (Tuple, Tuple) -> bool)
    ensures JoinRows(if l.None? then [] else [l.value] + ls, allRs, on) == JoinPending(l, allRs, ls, allRs, on)
  {
    if l.Some? {
      assert ([l.value] + ls)[1..] == ls;
    }
  }

  lemma JoinRightDone(l: Tuple, ls: seq<Tuple>, allRs: seq<Tuple>, on: (Tuple, Tuple) -> bool)
    ensures JoinPending(Some(l), [], ls, allRs, on) == JoinRows(ls, allRs, on)
  {
  }

  lemma JoinNothing(rs: seq<Tuple>, ls: seq<Tuple>, allRs: seq<Tuple>, on: (Tuple, Tuple) -> bool)
    ensures JoinPending(None, rs, ls, allRs, on) == []
  {
  }

  /** `Next` takes the first pending tuple, or reports the end and stays there. */
  ghost predicate Delivers(pending: seq<Tuple>, t: Option<Tuple>, pending': seq<Tuple>) {
    match t
    case None => pending == [] && pending' == []
    case Some(x) => pending == [x] + pending'
  }

  class SeqScanExecutor {
    const tuples: seq<Tuple>
    const txnManager: Option<Mvcc.TransactionManager>
    const currentTxn: nat
    var cursor: nat

    ghost function Watched(): set<object> {
      if txnManager.Some? then {txnManager.value} else {}
    }

    /** The transaction sets as they stand, if the scan asks for them. */
    ghost function View(): Option<Mvcc.Shared>
      reads Watched()
    {
      if txnManager.Some? then Some(txnManager.value.Value()) else None
    }

    constructor (tuples: seq<Tuple>)
      ensures SeqScan(this).Valid() && SeqScan(this).Output() == tuples && cursor == 0
      ensures Watched() == {}
    {
      this.tuples, txnManager, currentTxn, cursor := tuples, None, Mvcc.INVALID_TXN_ID, 0;
      new;
      SelectAll(tuples, Sees(None, currentTxn));
    }

    constructor WithMvcc(tuples: seq<Tuple>, txnManager: Mvcc.TransactionManager, currentTxn: nat)
      ensures SeqScan(this).Valid() && cursor == 0 && Watched() == {txnManager}
      ensures SeqScan(this).Output() == Select(tuples, Sees(Some(txnManager.Value()), currentTxn))
    {
      this.tuples, this.txnManager, this.currentTxn, cursor := tuples, Some(txnManager), currentTxn, 0;
    }

    method Init()
      requires SeqScan(this).Valid()
      modifies this
      ensures SeqScan(this).Pending() == SeqScan(this).Output() == old(SeqScan(this).Output())
    {
      cursor := 0;
      assert tuples[0..] == tuples;
    }

    /** What the scan restarts, and what it still owes, as the transactions stand. */
    lemma Parts()
      requires SeqScan(this).Valid()
      ensures this !in Watched()
      ensures SeqScan(this).Output() == Select(tuples, Sees(View(), currentTxn))
      ensures SeqScan(this).Pending() == From(tuples, cursor, Sees(View(), currentTxn))
    {
    }

    /** Every row is judged by the transactions as they stand at the call. */
    method Next() returns (t: Option<Tuple>)
      requires SeqScan(this).Valid()
      modifies this
      ensures SeqScan(this).Output() == old(SeqScan(this).Output())
      ensures Delivers(old(SeqScan(this).Pending()), t, SeqScan(this).Pending())
    {
      hide Executor.Valid, Executor.Pending, Executor.Output, Executor.Repr, Executor.Watched;
      hide From, Select, Mvcc.Query.Visible;
      Parts();
      ghost var p := Sees(View(), currentTxn);
      while cursor < |tuples|
        invariant View() == old(View()) && cursor >= old(cursor)
        invariant From(tuples, cursor, p) == old(From(tuples, cursor, p))
        decreases |tuples| - cursor
      {
        var tuple := tuples[cursor];
        FromStep(tuples, cursor, p);
        cursor := cursor + 1;
        if txnManager.Some? {
          var visible := txnManager.value.IsVisible(tuple.xmin, tuple.xmax, currentTxn);
          if !visible {
            continue;
          }
        }
        Parts();
        return Some(tuple);
      }
      Parts();
      FromEnd(tuples, cursor, p);
      t := None;
    }
  }

  lemma RetainStep(tuples: seq<Tuple>, i: nat, key: i32, col: nat, kept: seq<Tuple>)
    requires i < |tuples|
    ensures kept + Select(tuples[i..], Matches(key, col)) ==
            (if HoldsKey(tuples[i], key, col) then kept + [tuples[i]] else kept)
            + Select(tuples[i + 1..], Matches(key, col))
  {
    var p := Matches(key, col);
    assert p(tuples[i]) == HoldsKey(tuples[i], key, col);
    assert tuples[i..] == [tuples[i]] + tuples[i + 1..];
    hide HoldsKey, Matches, Select;
    SelectFirst(tuples[i], tuples[i + 1..], p);
  }

  /** `Vec::retain` with the key test. */
  method Retain(tuples: seq<Tuple>, key: i32, col: nat) returns (kept: seq<Tuple>)
    ensures kept == Select(tuples, Matches(key, col))
  {
    kept := [];
    var i := 0;
    assert tuples[0..] == tuples && Select(tuples[|tuples|..], Matches(key, col)) == [];
    hide Select, HoldsKey, Matches;
    while i < |tuples|
      invariant i <= |tuples|
      invariant kept + Select(tuples[i..], Matches(key, col)) == Select(tuples, Matches(key, col))
    {
      RetainStep(tuples, i, key, col, kept);
      if HoldsKey(tuples[i], key, col) {
        kept := kept + [tuples[i]];
      }
      i := i + 1;
    }
  }

  class IndexScanExecutor {
    var tuples: seq<Tuple>
    const key: i32
    const col: nat
    var cursor: nat

    constructor (tuples: seq<Tuple>, key: i32, col: nat)
      ensures IndexScan(this).Output() == Select(tuples, Matches(key, col)) && cursor == 0
    {
      this.tuples, this.key, this.col, cursor := tuples, key, col, 0;
    }

    /** Drops the tuples without the key for good; doing it again drops nothing more. */
    method Init()
      modifies this
      ensures IndexScan(this).Pending() == IndexScan(this).Output() == old(IndexScan(this).Output())
    {
      cursor := 0;
      var kept := Retain(tuples, key, col);
      SelectTwice(tuples, Matches(key, col));
      hide HoldsKey, Select, Matches;
      tuples := kept;
      assert tuples[0..] == tuples;
    }

    method Next() returns (t: Option<Tuple>)
      modifies this
      ensures tuples == old(tuples)
      ensures Delivers(old(IndexScan(this).Pending()), t, IndexScan(this).Pending())
    {
      if cursor < |tuples| {
        t := Some(tuples[cursor]);
        assert tuples[cursor..] == [tuples[cursor]] + tuples[cursor + 1..];
        cursor := cursor + 1;
      } else {
        t := None;
      }
    }
  }

  class FilterExecutor {
    const child: Executor
    const keep: Tuple -> bool
    ghost const repr: set<object>
    ghost const watched: set<object>
    ghost const height: nat

    constructor (child: Executor, keep: Tuple -> bool)
      requires child.Valid()
      ensures Filtered(this).Valid() && fresh(this) && repr == {this} + child.Repr() && watched == child.Watched()
      ensures Filtered(this).Output() == Select(child.Output(), keep)
    {
      this.child, this.keep := child, keep;
      repr, watched, height := {this} + child.Repr(), child.Watched(), child.Height() + 1;
    }

    method Init()
      requires Filtered(this).Valid()
      modifies repr
      ensures Filtered(this).Pending() == Filtered(this).Output() == old(Filtered(this).Output())
      decreases height, 0
    {
      child.Init();
    }

    method Next() returns (t: Option<Tuple>)
      requires Filtered(this).Valid()
      modifies repr
      ensures Filtered(this).Output() == old(Filtered(this).Output())
      ensures Delivers(old(Filtered(this).Pending()), t, Filtered(this).Pending())
      decreases height, 0
    {
      t := child.Next();
      while t.Some? && !keep(t.value)
        invariant child.Output() == old(child.Output())
        invariant t.Some? ==> Select([t.value] + child.Pending(), keep) == old(Select(child.Pending(), keep))
        invariant t.None? ==> child.Pending() == [] && old(Select(child.Pending(), keep)) == []
        decreases t.Some?, |child.Pending()|
      {
        t := child.Next();
      }
    }
  }

  class NestedLoopJoinExecutor {
    const left: Executor
    const right: Executor
    const on: (Tuple, Tuple) -> bool
    var leftTuple: Option<Tuple>
    ghost const repr: set<object>
    ghost const watched: set<object>
    ghost const height: nat

    constructor (left: Executor, right: Executor, on: (Tuple, Tuple) -> bool)
      requires left.Valid() && right.Valid() && left.Repr() !! right.Repr()
      requires left.Repr() !! right.Watched() && left.Watched() !! right.Repr()
      ensures NestedLoop(this).Valid() && fresh(this) && repr == {this} + left.Repr() + right.Repr()
      ensures watched == left.Watched() + right.Watched()
      ensures NestedLoop(this).Output() == JoinRows(left.Output(), right.Output(), on)
    {
      this.left, this.right, this.on, leftTuple := left, right, on, None;
      repr := {this} + left.Repr() + right.Repr();
      watched := left.Watched() + right.Watched();
      height := left.Height() + right.Height() + 1;
    }

    /** The parts of a join and what it owes, in terms of its children. */
    lemma Parts()
      requires NestedLoop(this).Valid()
      ensures left.Height() < height && left.Valid() && right.Height() < height && right.Valid()
      ensures left.Repr() !! right.Repr() && left.Repr() !! right.Watched() && left.Watched() !! right.Repr()
      ensures this !in left.Repr() && this !in right.Repr() && this !in left.Watched() && this !in right.Watched()
      ensures repr == {this} + left.Repr() + right.Repr() && watched == left.Watched() + right.Watched()
      ensures NestedLoop(this).Output() == JoinRows(left.Output(), right.Output(), on)
      ensures NestedLoop(this).Pending() ==
              JoinPending(leftTuple, right.Pending(), left.Pending(), right.Output(), on)
    {
    }

    method Init()
      requires NestedLoop(this).Valid()
      modifies repr
      ensures NestedLoop(this).Pending() == NestedLoop(this).Output() == old(NestedLoop(this).Output())
      decreases height, 1
    {
      Parts();
      hide Executor.Valid, Executor.Pending, Executor.Output, Executor.Repr, Executor.Watched;
      hide JoinRows, JoinRow, JoinPending;
      RestartLeft();
      RestartRight();
      AdvanceLeft();
      Parts();
      JoinSkipsLeft(leftTuple, left.Pending(), right.Output(), on);
    }

    // Work on one side leaves the other side alone.

    method AdvanceLeft()
      requires NestedLoop(this).Valid()
      modifies this, left.Repr()
      ensures left.Output() == old(left.Output()) && Delivers(old(left.Pending()), leftTuple, left.Pending())
      ensures right.Output() == old(right.Output()) && right.Pending() == old(right.Pending())
      decreases height, 0
    {
      hide Executor.Valid, Executor.Pending, Executor.Output, Executor.Repr, Executor.Watched;
      hide Delivers, JoinRows, JoinPending;
      Parts();
      leftTuple := left.Next();
    }

    method RestartLeft()
      requires NestedLoop(this).Valid()
      modifies left.Repr()
      ensures left.Pending() == left.Output() == old(left.Output())
      ensures right.Output() == old(right.Output())
      decreases height, 0
    {
      Parts();
      hide Executor.Valid, Executor.Pending, Executor.Output, Executor.Repr, Executor.Watched;
      left.Init();
    }

    method RestartRight()
      requires NestedLoop(this).Valid()
      modifies right.Repr()
      ensures right.Pending() == right.Output() == old(right.Output())
      ensures left.Output() == old(left.Output()) && left.Pending() == old(left.Pending())
      decreases height, 0
    {
      Parts();
      hide Executor.Valid, Executor.Pending, Executor.Output, Executor.Repr, Executor.Watched;
      right.Init();
    }

    method Next() returns (t: Option<Tuple>)
      requires NestedLoop(this).Valid()
      modifies repr
      ensures NestedLoop(this).Output() == old(NestedLoop(this).Output())
      ensures Delivers(old(NestedLoop(this).Pending()), t, NestedLoop(this).Pending())
      ensures t.Some? ==>
                leftTuple.Some? && exists r :: on(leftTuple.value, r) && IsJoined(t.value, leftTuple.value, r)
      decreases height, 2
    {
      hide Executor.Valid, Executor.Pending, Executor.Output, Executor.Repr, Executor.Watched;
      hide JoinRows, JoinRow, JoinPending;
      Parts();
      while true
        invariant left.Output() == old(left.Output()) && right.Output() == old(right.Output())
        invariant NestedLoop(this).Pending() == old(NestedLoop(this).Pending())
        decreases leftTuple.Some?, |left.Pending()|, |right.Pending()|
      {
        Parts();
        if leftTuple.None? {
          JoinNothing(right.Pending(), left.Pending(), right.Output(), on);
          return None;
        }
        var r := right.Next();
        Parts();
        if r.None? {
          NextLeft();
          Parts();
        } else {
          JoinSkipsRight(leftTuple.value, r.value, right.Pending(), left.Pending(), right.Output(), on);
          if on(leftTuple.value, r.value) {
            t := Some(Combine(leftTuple.value, r.value));
            CombineMeans(leftTuple.value, r.value, t.value);
            return;
          }
        }
      }
    }

    /** The right side is exhausted: takes the next left tuple and, if there is one, restarts the right. */
    method NextLeft()
      requires NestedLoop(this).Valid() && leftTuple.Some? && right.Pending() == []
      modifies repr
      ensures left.Output() == old(left.Output()) && right.Output() == old(right.Output())
      ensures NestedLoop(this).Pending() == old(NestedLoop(this).Pending())
      ensures leftTuple.Some? ==> |left.Pending()| < old(|left.Pending()|)
      decreases height, 1
    {
      Parts();
      hide Executor.Valid, Executor.Pending, Executor.Output, Executor.Repr, Executor.Watched;
      hide JoinRows, JoinRow, JoinPending;
      JoinRightDone(leftTuple.value, left.Pending(), right.Output(), on);
      AdvanceLeft();
      JoinSkipsLeft(leftTuple, left.Pending(), right.Output(), on);
      if leftTuple.Some? {
        RestartRight();
      }
      Parts();
    }
  }

  // ----- From trees to objects, and running them -----

  lemma LeavesAreValid(e: Executor)
    requires e.IndexScan?
    ensures e.Valid()
  {
  }

  /** Boxes a tree into fresh executor objects with the same meaning. */
  method Build(tree: Tree) returns (e: Executor)
    ensures e.Valid() && fresh(e.Repr()) && e.Watched() == {} && e.Output() == Denote(tree)
    decreases tree
  {
    hide Executor.Valid, Executor.Output, Executor.Pending, Select, JoinRows;
    match tree
    case Scan(tuples) =>
      var s := new SeqScanExecutor(tuples);
      e := SeqScan(s);
    case Index(tuples, key, col) =>
      var s := new IndexScanExecutor(tuples, key, col);
      e := IndexScan(s);
      LeavesAreValid(e);
    case Filter(child, keep) =>
      var c := Build(child);
      var f := new FilterExecutor(c, keep);
      e := Filtered(f);
    case Join(left, right, on) =>
      var l := Build(left);
      var r := Build(right);
      var j := new NestedLoopJoinExecutor(l, r, on);
      e := NestedLoop(j);
  }

  /** `init` followed by `next` until the end yields exactly the list, from whatever state the executor is in. */
  method Run(e: Executor) returns (rows: seq<Tuple>)
    requires e.Valid()
    modifies e.Repr()
    ensures rows == old(e.Output()) && e.Output() == old(e.Output())
  {
    hide *;
    e.Init();
    rows := [];
    var t := e.Next();
    while t.Some?
      invariant e.Output() == old(e.Output())
      invariant t.Some? ==> rows + [t.value] + e.Pending() == old(e.Output())
      invariant t.None? ==> rows == old(e.Output())
      decreases t.Some?, |e.Pending()|
    {
      rows := rows + [t.value];
      t := e.Next();
    }
  }
}
