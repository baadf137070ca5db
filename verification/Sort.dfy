/** External merge sort: sorted runs of bounded size, merged k ways through a heap (wasdb_query/src/sort.rs). */
module Sort {
  import opened Util
  import opened Tuples
  import opened Executors

  const CHUNK_SIZE := 100

  /** The row at the head of a run, waiting in the heap. */
  datatype HeapEntry = HeapEntry(tuple: Tuple, run: nat)

  predicate Has(t: Tuple, col: nat) {
    col < |t.values|
  }

  predicate HasColumn(ts: seq<Tuple>, col: nat) {
    forall t :: t in ts ==> Has(t, col)
  }

  /** Both rows have the column and are in order there. */
  predicate Precedes(a: Tuple, b: Tuple, col: nat) {
    Has(a, col) && Has(b, col) && Leq(a.values[col], b.values[col])
  }

  lemma PrecedesOrder(a: Tuple, b: Tuple, c: Tuple, col: nat)
    ensures Has(a, col) && Has(b, col) ==> Precedes(a, b, col) || Precedes(b, a, col)
    ensures Precedes(a, b, col) && Precedes(b, c, col) ==> Precedes(a, c, col)
  {
    if Has(a, col) && Has(b, col) {
      ValueOrder(a.values[col], b.values[col], if Has(c, col) then c.values[col] else a.values[col]);
    }
  }

  ghost predicate Sorted(ts: seq<Tuple>, col: nat) {
    forall i, j :: 0 <= i < j < |ts| ==> Precedes(ts[i], ts[j], col)
  }

  /** Both rows have the column, and their values there are in the order spelled out. */
  ghost predicate ComesBefore(a: Tuple, b: Tuple, col: nat) {
    col < |a.values| && col < |b.values| && InValueOrder(a.values[col], b.values[col])
  }

  ghost predicate InColumnOrder(ts: seq<Tuple>, col: nat) {
    forall i, j :: 0 <= i < j < |ts| ==> ComesBefore(ts[i], ts[j], col)
  }

  lemma PrecedesMeans(a: Tuple, b: Tuple, col: nat)
    ensures Precedes(a, b, col) <==> ComesBefore(a, b, col)
  {
    if col < |a.values| && col < |b.values| {
      LeqMeans(a.values[col], b.values[col]);
    }
  }

  lemma SortedMeans(ts: seq<Tuple>, col: nat)
    ensures Sorted(ts, col) <==> InColumnOrder(ts, col)
  {
    hide ComesBefore, Precedes;
    forall i, j | 0 <= i < j < |ts|
      ensures Precedes(ts[i], ts[j], col) <==> ComesBefore(ts[i], ts[j], col)
    {
      PrecedesMeans(ts[i], ts[j], col);
    }
  }

  /** In that order integers ascend, and come before all strings and booleans. */
  lemma IntegersAscend(ts: seq<Tuple>, col: nat, i: nat, j: nat)
    requires InColumnOrder(ts, col) && i < j < |ts|
    ensures col < |ts[i].values| && col < |ts[j].values|
    ensures ts[j].values[col].Integer? ==>
              ts[i].values[col].Integer? && ts[i].values[col].i <= ts[j].values[col].i
  {
    assert ComesBefore(ts[i], ts[j], col);
  }

  /** Sorting compares every row of a list of two or more. */
  predicate CanSort(ts: seq<Tuple>, col: nat) {
    |ts| <= 1 || HasColumn(ts, col)
  }

  /** Two rows or more, and one without the column. */
  ghost predicate Lacks(rows: multiset<Tuple>, col: nat) {
    |rows| >= 2 && exists t :: t in rows && !Has(t, col)
  }

  lemma LacksIff(ts: seq<Tuple>, col: nat)
    ensures Lacks(multiset(ts), col) <==> !CanSort(ts, col)
  {
    assert |multiset(ts)| == |ts| && forall t :: t in multiset(ts) <==> t in ts;
  }

  lemma LacksMore(rows: multiset<Tuple>, more: multiset<Tuple>, col: nat)
    requires Lacks(rows, col)
    ensures Lacks(rows + more, col)
  {
    var t :| t in rows && !Has(t, col);
    assert t in rows + more;
  }

  // ----- Sorting one chunk: a stable sort -----

  function InsertRow(t: Tuple, ts: seq<Tuple>, col: nat): seq<Tuple> {
    if ts == [] || Precedes(t, ts[0], col) then [t] + ts else [ts[0]] + InsertRow(t, ts[1..], col)
  }

  function SortChunk(ts: seq<Tuple>, col: nat): seq<Tuple> {
    if ts == [] then [] else InsertRow(ts[0], SortChunk(ts[1..], col), col)
  }

  lemma {:induction false} InsertRowMembers(t: Tuple, ts: seq<Tuple>, col: nat)
    ensures multiset(InsertRow(t, ts, col)) == multiset{t} + multiset(ts)
  {
    if ts != [] && !Precedes(t, ts[0], col) {
      InsertRowMembers(t, ts[1..], col);
      assert ts == [ts[0]] + ts[1..];
    }
  }

  lemma {:induction false} InsertRowSorts(t: Tuple, ts: seq<Tuple>, col: nat)
    requires Has(t, col) && HasColumn(ts, col) && Sorted(ts, col)
    ensures Sorted(InsertRow(t, ts, col), col)
  {
    hide Precedes, Has;
    if ts == [] {
    } else if Precedes(t, ts[0], col) {
      forall i | 0 <= i < |ts|
        ensures Precedes(t, ts[i], col)
      {
        PrecedesOrder(t, ts[0], ts[i], col);
      }
    } else {
      InsertRowSorts(t, ts[1..], col);
      assert ts[0] in ts;
      PrecedesOrder(t, ts[0], t, col);
      FirstStaysFirst(t, ts, col);
    }
  }

  lemma FirstStaysFirst(t: Tuple, ts: seq<Tuple>, col: nat)
    requires ts != [] && Sorted(ts, col) && Precedes(ts[0], t, col)
    ensures forall x :: x in InsertRow(t, ts[1..], col) ==> Precedes(ts[0], x, col)
  {
    InsertRowMembers(t, ts[1..], col);
    forall x | x in InsertRow(t, ts[1..], col)
      ensures Precedes(ts[0], x, col)
    {
      assert x in multiset(InsertRow(t, ts[1..], col));
      assert x == t || x in ts[1..];
    }
  }

  lemma {:induction false} SortChunkMembers(ts: seq<Tuple>, col: nat)
    ensures multiset(SortChunk(ts, col)) == multiset(ts)
    ensures HasColumn(ts, col) ==> HasColumn(SortChunk(ts, col), col)
  {
    if ts != [] {
      SortChunkMembers(ts[1..], col);
      InsertRowMembers(ts[0], SortChunk(ts[1..], col), col);
      assert ts == [ts[0]] + ts[1..];
    }
    assert forall x :: x in SortChunk(ts, col) ==> x in multiset(SortChunk(ts, col));
  }

  /** The rows with one value in the column. */
  function WithValue(ts: seq<Tuple>, col: nat, v: Value): seq<Tuple> {
    if ts == [] then [] else IfValue(ts[0], col, v) + WithValue(ts[1..], col, v)
  }

  function IfValue(t: Tuple, col: nat, v: Value): seq<Tuple> {
    if Has(t, col) && t.values[col] == v then [t] else []
  }

  lemma WithValueFirst(t: Tuple, ts: seq<Tuple>, col: nat, v: Value)
    ensures WithValue([t] + ts, col, v) == IfValue(t, col, v) + WithValue(ts, col, v)
  {
    assert ([t] + ts)[1..] == ts;
  }

  lemma LaterDiffers(t: Tuple, x: Tuple, col: nat, v: Value)
    requires Has(t, col) && Has(x, col) && !Precedes(t, x, col)
    ensures IfValue(t, col, v) == [] || IfValue(x, col, v) == []
  {
    ValueOrder(t.values[col], t.values[col], t.values[col]);
  }

  lemma {:induction false} InsertRowIsStable(t: Tuple, ts: seq<Tuple>, col: nat, v: Value)
    requires Has(t, col) && HasColumn(ts, col)
    ensures WithValue(InsertRow(t, ts, col), col, v) == WithValue([t] + ts, col, v)
  {
    hide WithValue, IfValue, Precedes, Has;
    if ts != [] && !Precedes(t, ts[0], col) {
      var rest := ts[1..];
      assert ts[0] in ts && ts == [ts[0]] + rest;
      InsertRowIsStable(t, rest, col, v);
      WithValueFirst(t, ts, col, v);
      WithValueFirst(t, rest, col, v);
      WithValueFirst(ts[0], rest, col, v);
      WithValueFirst(ts[0], InsertRow(t, rest, col), col, v);
      LaterDiffers(t, ts[0], col, v);
    }
  }

  /** Rows with equal values keep their order. */
  lemma {:induction false} SortChunkIsStable(ts: seq<Tuple>, col: nat, v: Value)
    requires HasColumn(ts, col)
    ensures WithValue(SortChunk(ts, col), col, v) == WithValue(ts, col, v)
  {
    if ts != [] {
      var rest := SortChunk(ts[1..], col);
      assert ts[0] in ts;
      SortChunkIsStable(ts[1..], col, v);
      SortChunkMembers(ts[1..], col);
      InsertRowIsStable(ts[0], rest, col, v);
      assert ([ts[0]] + rest)[1..] == rest;
    }
  }

  /** A chunk that can be sorted becomes a sorted permutation of itself. */
  lemma {:induction false} SortChunkSorts(ts: seq<Tuple>, col: nat)
    requires CanSort(ts, col)
    ensures Sorted(SortChunk(ts, col), col) && multiset(SortChunk(ts, col)) == multiset(ts)
  {
    SortChunkMembers(ts, col);
    if |ts| > 1 {
      SortChunkSorts(ts[1..], col);
      SortChunkMembers(ts[1..], col);
      assert ts[0] in ts;
      InsertRowSorts(ts[0], SortChunk(ts[1..], col), col);
    } else {
      SortChunkOfOne(ts, col);
    }
  }

  lemma SortChunkOfOne(ts: seq<Tuple>, col: nat)
    requires |ts| <= 1
    ensures SortChunk(ts, col) == ts
  {
  }

  // ----- Merging -----

  function Total(runs: seq<seq<Tuple>>): multiset<Tuple> {
    if runs == [] then multiset{} else multiset(runs[0]) + Total(runs[1..])
  }

  function Heads(heap: seq<HeapEntry>): multiset<Tuple> {
    if heap == [] then multiset{} else multiset{heap[0].tuple} + Heads(heap[1..])
  }

  /** The unread rest of each run, and the heap. */
  datatype Merge = Merge(rests: seq<seq<Tuple>>, heap: seq<HeapEntry>, col: nat)
  {
    /** The heap holds exactly the head of each run that is not used up: at most one row of a run, which
        comes before the rest of it, and one of every run with rows left to read. */
    ghost predicate Valid() {
      HeadsRuns() && OnePerRun() && Covers(|rests|) && HeadsComparable()
    }

    ghost predicate HeadsRuns() {
      forall i :: 0 <= i < |heap| ==> heap[i].run < |rests| && Sorted([heap[i].tuple] + rests[heap[i].run], col)
    }

    /** Two heads or more have been compared. */
    ghost predicate HeadsComparable() {
      |heap| <= 1 || forall i :: 0 <= i < |heap| ==> Has(heap[i].tuple, col)
    }

    ghost predicate OnePerRun() {
      forall i, j :: 0 <= i < j < |heap| ==> heap[i].run != heap[j].run
    }

    ghost predicate Covers(limit: nat) {
      forall r :: 0 <= r < |rests| && r < limit && rests[r] != [] ==> exists i :: 0 <= i < |heap| && heap[i].run == r
    }

    /** Every row still to come out. */
    ghost function Remaining(): multiset<Tuple> {
      Heads(heap) + Total(rests)
    }

    /** A heap position whose row precedes the others: what the heap may pop. */
    ghost predicate Least(i: nat)
    {
      i < |heap| && forall j :: 0 <= j < |heap| && j != i ==> Precedes(heap[i].tuple, heap[j].tuple, col)
    }
  }

  function Dropped(heap: seq<HeapEntry>, i: nat): seq<HeapEntry>
    requires i < |heap|
  {
    heap[..i] + heap[i + 1..]
  }

  /** `next` after popping position `i`: the run that the row came from sends its next row. */
  function Advanced(m: Merge, i: nat): Merge
    requires i < |m.heap| && m.heap[i].run < |m.rests|
  {
    var r := m.heap[i].run;
    if m.rests[r] == [] then m.(heap := Dropped(m.heap, i))
    else m.(heap := Dropped(m.heap, i) + [HeapEntry(m.rests[r][0], r)], rests := m.rests[r := m.rests[r][1..]])
  }

  lemma {:induction false} HeadsSplit(a: seq<HeapEntry>, b: seq<HeapEntry>)
    ensures Heads(a + b) == Heads(a) + Heads(b)
  {
    if a == [] {
      assert a + b == b;
    } else {
      assert (a + b)[1..] == a[1..] + b;
      HeadsSplit(a[1..], b);
    }
  }

  lemma {:induction false} HeadsDropped(heap: seq<HeapEntry>, i: nat)
    requires i < |heap|
    ensures Heads(heap) == multiset{heap[i].tuple} + Heads(Dropped(heap, i))
  {
    if i == 0 {
      assert Dropped(heap, 0) == heap[1..];
    } else {
      HeadsDropped(heap[1..], i - 1);
      assert Dropped(heap, i)[1..] == Dropped(heap[1..], i - 1);
    }
  }

  lemma {:induction false} TotalUpdated(runs: seq<seq<Tuple>>, r: nat, run: seq<Tuple>)
    requires r < |runs|
    ensures multiset(runs[r]) <= Total(runs)
    ensures Total(runs[r := run]) == Total(runs) - multiset(runs[r]) + multiset(run)
  {
    if r > 0 {
      TotalUpdated(runs[1..], r - 1, run);
      assert runs[r := run][1..] == runs[1..][r - 1 := run];
    } else {
      assert runs[r := run][1..] == runs[1..];
    }
  }

  lemma {:induction false} TotalMember(runs: seq<seq<Tuple>>, x: Tuple) returns (r: nat)
    requires x in Total(runs)
    ensures r < |runs| && x in runs[r]
  {
    if x in runs[0] {
      r := 0;
    } else {
      r := TotalMember(runs[1..], x);
      r := r + 1;
    }
  }

  lemma {:induction false} HeadsMember(heap: seq<HeapEntry>, x: Tuple) returns (i: nat)
    requires x in Heads(heap)
    ensures i < |heap| && heap[i].tuple == x
  {
    if heap[0].tuple == x {
      i := 0;
    } else {
      i := HeadsMember(heap[1..], x);
      i := i + 1;
    }
  }

  lemma HeadPrecedes(head: Tuple, rest: seq<Tuple>, x: Tuple, col: nat)
    requires Sorted([head] + rest, col) && x in rest
    ensures Precedes(head, x, col)
  {
    var run := [head] + rest;
    var k :| 0 <= k < |rest| && rest[k] == x;
    assert Precedes(run[0], run[k + 1], col);
  }

  /** The run that an unread row belongs to has its head in the heap, before the row. */
  lemma UnreadHasHead(m: Merge, x: Tuple) returns (j: nat)
    requires m.Valid() && x in Total(m.rests)
    ensures j < |m.heap| && Precedes(m.heap[j].tuple, x, m.col)
  {
    var r := TotalMember(m.rests, x);
    j :| 0 <= j < |m.heap| && m.heap[j].run == r;
    HeadPrecedes(m.heap[j].tuple, m.rests[r], x, m.col);
  }

  /** A head that precedes the other heads precedes every other row still to come, read or unread. */
  lemma LeastIsMinimum(m: Merge, i: nat, x: Tuple)
    requires m.Valid() && m.Least(i) && x in Heads(Dropped(m.heap, i)) + Total(m.rests)
    ensures Precedes(m.heap[i].tuple, x, m.col)
  {
    if x in Heads(Dropped(m.heap, i)) {
      var k := HeadsMember(Dropped(m.heap, i), x);
      var j := if k < i then k else k + 1;
      assert m.heap[j].tuple == x && j != i;
    } else {
      var j := UnreadHasHead(m, x);
      hide Precedes, Merge.Valid;
      if j != i {
        PrecedesOrder(m.heap[i].tuple, m.heap[j].tuple, x, m.col);
      }
    }
  }

  /** A merge in order has no row without the column, unless it is the only one. */
  lemma MergeCanSort(m: Merge)
    requires m.Valid()
    ensures !Lacks(m.Remaining(), m.col)
  {
    if |m.Remaining()| >= 2 {
      forall x | x in m.Remaining()
        ensures Has(x, m.col)
      {
        if x in Total(m.rests) {
          var j := UnreadHasHead(m, x);
        } else {
          HeadHasColumn(m, x);
        }
      }
    }
  }

  lemma HeadHasColumn(m: Merge, x: Tuple)
    requires m.Valid() && |m.Remaining()| >= 2 && x in Heads(m.heap)
    ensures Has(x, m.col)
  {
    var i := HeadsMember(m.heap, x);
    if |m.heap| == 1 {
      HeadsOfOne(m.heap);
      assert |Total(m.rests)| > 0;
      var y :| y in Total(m.rests);
      var j := UnreadHasHead(m, y);
    }
  }

  lemma HeadsOfOne(heap: seq<HeapEntry>)
    requires |heap| == 1
    ensures |Heads(heap)| == 1
  {
    assert heap[1..] == [];
  }

  ghost predicate IsMinimum(t: Tuple, rows: multiset<Tuple>, col: nat) {
    forall x :: x in rows ==> Precedes(t, x, col)
  }

  /** One pop: some least head comes out and its run sends its next row. */
  ghost predicate Pops(m: Merge, t: Tuple, m': Merge) {
    m.Valid() && exists i: nat :: m.Least(i) && m.heap[i].tuple == t && m' == Advanced(m, i)
  }

  /** What a pop does to the rows still to come. */
  lemma PopTakesMinimum(m: Merge, t: Tuple, m': Merge)
    requires Pops(m, t, m')
    ensures m'.Valid() && m'.col == m.col
    ensures m.Remaining() == m'.Remaining() + multiset{t} && IsMinimum(t, m'.Remaining(), m.col)
  {
    var i: nat :| m.Least(i) && m.heap[i].tuple == t && m' == Advanced(m, i);
    AdvanceKeeps(m, i);
    HeadsDropped(m.heap, i);
    var others := Heads(Dropped(m.heap, i)) + Total(m.rests);
    hide Merge.Valid, Merge.Least, Heads, Total, Dropped, Advanced;
    assert m'.Remaining() == others by {
      SameRest(m'.Remaining(), others, m.Remaining(), t);
    }
    forall x | x in m'.Remaining()
      ensures Precedes(t, x, m.col)
    {
      LeastIsMinimum(m, i, x);
    }
  }

  lemma SameRest(a: multiset<Tuple>, b: multiset<Tuple>, all: multiset<Tuple>, t: Tuple)
    requires all == a + multiset{t} && all == multiset{t} + b
    ensures a == b
  {
    assert a == all - multiset{t} == b;
  }

  lemma SortedTail(ts: seq<Tuple>, col: nat)
    requires Sorted(ts, col) && ts != []
    ensures Sorted(ts[1..], col)
  {
  }

  /** Popping keeps the heap exact and takes just the popped row out of what remains. */
  lemma AdvanceKeeps(m: Merge, i: nat)
    requires m.Valid() && i < |m.heap|
    ensures Advanced(m, i).Valid()
    ensures m.Remaining() == Advanced(m, i).Remaining() + multiset{m.heap[i].tuple}
  {
    AdvanceStaysValid(m, i);
    hide Merge.Valid, Heads, Total, Sorted;
    var r := m.heap[i].run;
    HeadsDropped(m.heap, i);
    if m.rests[r] != [] {
      RefillKeeps(Dropped(m.heap, i), m.rests, r);
    }
  }

  lemma HeadsAppend(heap: seq<HeapEntry>, e: HeapEntry)
    ensures Heads(heap + [e]) == Heads(heap) + multiset{e.tuple}
  {
    HeadsSplit(heap, [e]);
    assert [e][1..] == [];
  }

  lemma TotalPopped(rests: seq<seq<Tuple>>, r: nat)
    requires r < |rests| && rests[r] != []
    ensures Total(rests[r := rests[r][1..]]) + multiset{rests[r][0]} == Total(rests)
  {
    TotalUpdated(rests, r, rests[r][1..]);
    assert rests[r] == [rests[r][0]] + rests[r][1..];
  }

  /** Moving the head of a run into the heap moves one row. */
  lemma RefillKeeps(heap: seq<HeapEntry>, rests: seq<seq<Tuple>>, r: nat)
    requires r < |rests| && rests[r] != []
    ensures Heads(heap + [HeapEntry(rests[r][0], r)]) + Total(rests[r := rests[r][1..]]) == Heads(heap) + Total(rests)
  {
    hide Heads, Total;
    HeadsAppend(heap, HeapEntry(rests[r][0], r));
    TotalPopped(rests, r);
  }

  lemma AdvanceStaysValid(m: Merge, i: nat)
    requires m.Valid() && i < |m.heap|
    ensures Advanced(m, i).Valid()
  {
    AdvanceKeepsRuns(m, i);
    AdvanceCovers(m, i);
    AdvanceOnePerRun(m, i);
    AdvanceKeepsComparable(m, i);
    hide Merge.HeadsRuns, Merge.OnePerRun, Merge.Covers, Merge.HeadsComparable;
  }

  lemma AdvanceKeepsComparable(m: Merge, i: nat)
    requires m.Valid() && i < |m.heap|
    ensures Advanced(m, i).HeadsComparable()
  {
    DroppedAt(m.heap, i);
    var r := m.heap[i].run;
    if |m.heap| >= 2 && m.rests[r] != [] {
      HeadPrecedes(m.heap[i].tuple, m.rests[r], m.rests[r][0], m.col);
    }
    hide Sorted, Dropped, Merge.Covers, Merge.OnePerRun, Merge.HeadsRuns;
  }

  lemma DroppedAt(heap: seq<HeapEntry>, i: nat)
    requires i < |heap|
    ensures forall k :: 0 <= k < |heap| - 1 ==> Dropped(heap, i)[k] == heap[if k < i then k else k + 1]
  {
  }

  lemma AdvanceOnePerRun(m: Merge, i: nat)
    requires m.Valid() && i < |m.heap|
    ensures Advanced(m, i).OnePerRun()
  {
    hide Sorted, Merge.Covers;
    DroppedAt(m.heap, i);
    hide Dropped;
  }

  lemma AdvanceKeepsRuns(m: Merge, i: nat)
    requires m.Valid() && i < |m.heap|
    ensures Advanced(m, i).HeadsRuns()
  {
    var r := m.heap[i].run;
    DroppedAt(m.heap, i);
    var kept := Dropped(m.heap, i);
    assert forall k :: 0 <= k < |kept| ==> kept[k].run != r;
    if m.rests[r] != [] {
      var run := [m.heap[i].tuple] + m.rests[r];
      SortedTail(run, m.col);
      assert run[1..] == [m.rests[r][0]] + m.rests[r][1..];
    }
    hide Sorted, Dropped, Merge.Covers;
  }

  lemma AdvanceCovers(m: Merge, i: nat)
    requires m.Valid() && i < |m.heap|
    ensures Advanced(m, i).Covers(|m.rests|)
  {
    DroppedAt(m.heap, i);
    hide Sorted, Dropped, Merge.OnePerRun;
    var r, m' := m.heap[i].run, Advanced(m, i);
    forall q | 0 <= q < |m'.rests| && m'.rests[q] != []
      ensures exists k :: 0 <= k < |m'.heap| && m'.heap[k].run == q
    {
      if q == r {
        assert m'.heap[|m'.heap| - 1].run == q;
      } else {
        var k :| 0 <= k < |m.heap| && m.heap[k].run == q;
        assert m'.heap[if k < i then k else k - 1].run == q;
      }
    }
  }

  lemma EmptyHeapIsEnd(m: Merge)
    requires m.Valid() && m.heap == []
    ensures m.Remaining() == multiset{}
  {
    forall r | 0 <= r < |m.rests|
      ensures m.rests[r] == []
    {
    }
    NothingLeft(m.rests);
  }

  lemma {:induction false} NothingLeft(runs: seq<seq<Tuple>>)
    requires forall r :: 0 <= r < |runs| ==> runs[r] == []
    ensures Total(runs) == multiset{}
  {
    if runs != [] {
      NothingLeft(runs[1..]);
    }
  }

  /** A run of the merge: each pop puts out one row. */
  ghost predicate PopRun(states: seq<Merge>, rows: seq<Tuple>) {
    && |states| == |rows| + 1
    && forall n :: 0 <= n < |rows| ==> Pops(states[n], rows[n], states[n + 1])
  }

  /** The rows put out are sorted, and none comes after a row still to come. */
  ghost predicate InOrder(rows: seq<Tuple>, remaining: multiset<Tuple>, col: nat) {
    Sorted(rows, col) && forall r :: r in rows ==> IsMinimum(r, remaining, col)
  }

  lemma OutputGrows(rows: seq<Tuple>, t: Tuple, before: multiset<Tuple>, remaining: multiset<Tuple>,
                    all: multiset<Tuple>, col: nat)
    requires before == remaining + multiset{t} && multiset(rows) + before == all
    requires InOrder(rows, before, col) && IsMinimum(t, remaining, col)
    ensures InOrder(rows + [t], remaining, col) && multiset(rows + [t]) + remaining == all
  {
    hide Precedes;
    assert t in before;
    assert forall x :: x in remaining ==> x in before;
    assert forall r :: r in rows ==> Precedes(r, t, col);
  }

  lemma PopGrows(m: Merge, rows: seq<Tuple>, t: Tuple, m': Merge, all: multiset<Tuple>)
    requires Pops(m, t, m') && InOrder(rows, m.Remaining(), m.col) && multiset(rows) + m.Remaining() == all
    ensures m'.Valid() && m'.col == m.col
    ensures InOrder(rows + [t], m'.Remaining(), m.col) && multiset(rows + [t]) + m'.Remaining() == all
  {
    hide *;
    PopTakesMinimum(m, t, m');
    OutputGrows(rows, t, m.Remaining(), m'.Remaining(), all, m.col);
  }

  /** However ties are broken, what has come out is sorted, comes before what has not, and is all that is missing. */
  lemma {:induction false} PopRunKeeps(states: seq<Merge>, rows: seq<Tuple>, n: nat)
    requires PopRun(states, rows) && n <= |rows| && states[0].Valid()
    ensures states[n].Valid() && states[n].col == states[0].col
    ensures InOrder(rows[..n], states[n].Remaining(), states[0].col)
    ensures multiset(rows[..n]) + states[n].Remaining() == states[0].Remaining()
  {
    PopRunAt(states, rows, n);
    hide *;
    if n == 0 {
      NothingOut(rows[..0], states[0].Remaining(), states[0].col);
    } else {
      PopRunKeeps(states, rows, n - 1);
      PopGrows(states[n - 1], rows[..n - 1], rows[n - 1], states[n], states[0].Remaining());
    }
  }

  lemma PopRunAt(states: seq<Merge>, rows: seq<Tuple>, n: nat)
    requires PopRun(states, rows) && n <= |rows|
    ensures |states| == |rows| + 1 && rows[..0] == []
    ensures n > 0 ==> Pops(states[n - 1], rows[n - 1], states[n]) && rows[..n] == rows[..n - 1] + [rows[n - 1]]
  {
    hide Pops;
  }

  lemma NothingOut(rows: seq<Tuple>, remaining: multiset<Tuple>, col: nat)
    requires rows == []
    ensures InOrder(rows, remaining, col) && multiset(rows) + remaining == remaining
  {
  }

  lemma OnePopMore(states: seq<Merge>, rows: seq<Tuple>, t: Tuple, m: Merge)
    requires PopRun(states, rows) && Pops(states[|rows|], t, m)
    ensures PopRun(states + [m], rows + [t])
  {
    hide Pops;
  }

  /** However ties are broken, draining a merge puts out every row once, in order. */
  lemma DrainSorts(states: seq<Merge>, rows: seq<Tuple>)
    requires PopRun(states, rows) && states[0].Valid() && states[|rows|].heap == []
    ensures multiset(rows) == states[0].Remaining() && Sorted(rows, states[0].col)
  {
    PopRunKeeps(states, rows, |rows|);
    assert rows[..|rows|] == rows;
    hide Merge.Valid, Merge.Remaining, Sorted, Pops;
    EmptyHeapIsEnd(states[|rows|]);
  }

  // ----- The executor -----

  ghost predicate GoodRuns(runs: seq<seq<Tuple>>, col: nat) {
    forall r :: 0 <= r < |runs| ==> Sorted(runs[r], col) && 0 < |runs[r]| <= CHUNK_SIZE
  }

  /** A hundred rows in each of the first `n` runs. */
  ghost predicate Full(runs: seq<seq<Tuple>>, n: int) {
    forall r :: 0 <= r < n && r < |runs| ==> |runs[r]| == 100
  }

  lemma FullGrows(runs: seq<seq<Tuple>>, chunk: seq<Tuple>, col: nat)
    requires Full(runs, |runs|)
    ensures Full(runs + [SortChunk(chunk, col)], |runs|)
    ensures |chunk| == 100 ==> Full(runs + [SortChunk(chunk, col)], |runs| + 1)
  {
    SortChunkMembers(chunk, col);
    assert |SortChunk(chunk, col)| == |multiset(SortChunk(chunk, col))| == |multiset(chunk)| == |chunk|;
  }

  class ExternalMergeSortExecutor {
    const child: Executor
    const sortIdx: nat
    var runs: seq<seq<Tuple>>
    var heap: seq<HeapEntry>

    function Value(): Merge
      reads this
    {
      Merge(runs, heap, sortIdx)
    }

    ghost predicate Owns()
    {
      child.Valid() && child.Repr() !! child.Watched() && this !in child.Repr() && this !in child.Watched()
    }

    constructor (child: Executor, sortIdx: nat)
      requires child.Valid() && child.Repr() !! child.Watched()
      ensures Owns() && this.child == child && this.sortIdx == sortIdx && fresh(this)
    {
      this.child, this.sortIdx := child, sortIdx;
      runs, heap := [], [];
    }

    /** Writes a chunk as a sorted run; a row without the column makes the comparison panic. */
    method FlushChunk(chunk: seq<Tuple>) returns (ok: bool)
      requires Owns()
      modifies this`runs
      ensures ok == CanSort(chunk, sortIdx)
      ensures runs == if ok then old(runs) + [SortChunk(chunk, sortIdx)] else old(runs)
      ensures child.Output() == old(child.Output()) && child.Pending() == old(child.Pending())
    {
      ok := CanSort(chunk, sortIdx);
      if ok {
        runs := runs + [SortChunk(chunk, sortIdx)];
      }
    }

    /** Every run written so far is sorted, and none is empty or too long. */
    ghost predicate RunsOk()
      reads this
    {
      GoodRuns(runs, sortIdx)
    }

    /** The rows read so far: those in runs and those in the chunk. */
    ghost function Seen(chunk: seq<Tuple>): multiset<Tuple>
      reads this
    {
      Total(runs) + multiset(chunk)
    }

    /** Writes a chunk that holds rows. */
    method WriteRun(chunk: seq<Tuple>) returns (ok: bool)
      requires Owns() && 0 < |chunk| <= CHUNK_SIZE && RunsOk()
      modifies this`runs
      ensures child.Output() == old(child.Output()) && child.Pending() == old(child.Pending())
      ensures ok ==> RunsOk() && Total(runs) == old(Seen(chunk))
      ensures ok ==> runs == old(runs) + [SortChunk(chunk, sortIdx)]
      ensures !ok ==> Lacks(old(Seen(chunk)), sortIdx)
    {
      ChunkBecomesRun(runs, chunk, sortIdx);
      ChunkLacks(Total(runs), chunk, sortIdx);
      assert Seen(chunk) == Total(runs + [SortChunk(chunk, sortIdx)]);
      assert CanSort(chunk, sortIdx) ==> GoodRuns(runs + [SortChunk(chunk, sortIdx)], sortIdx);
      hide GoodRuns, Total, SortChunk, CanSort, Lacks, Seen, Executor.Output, Executor.Pending, Executor.Valid;
      ok := FlushChunk(chunk);
    }

    /** Adds a row to the chunk, writing a run when the chunk is full. */
    method AddRow(chunk: seq<Tuple>, t: Tuple) returns (ok: bool, chunk': seq<Tuple>)
      requires Owns() && |chunk| < CHUNK_SIZE && RunsOk() && Full(runs, |runs|)
      modifies this`runs
      ensures ok ==> |chunk'| < CHUNK_SIZE && RunsOk() && Seen(chunk') == old(Seen(chunk)) + multiset{t}
      ensures ok ==> Full(runs, |runs|)
      ensures !ok ==> Lacks(old(Seen(chunk)) + multiset{t}, sortIdx)
      ensures child.Output() == old(child.Output()) && child.Pending() == old(child.Pending())
    {
      chunk' := chunk + [t];
      SeenMore(chunk, t);
      FullGrows(runs, chunk', sortIdx);
      hide Full, SortChunk;
      hide Seen, Lacks, Total, RunsOk, Executor.Output, Executor.Pending, Executor.Valid;
      ok := true;
      if |chunk'| >= CHUNK_SIZE {
        ok := WriteRun(chunk');
        chunk' := [];
        SeenNone();
      }
    }

    /** Writes what is left in the chunk. */
    method FlushRest(chunk: seq<Tuple>) returns (ok: bool)
      requires Owns() && |chunk| < CHUNK_SIZE && RunsOk() && Full(runs, |runs|)
      modifies this`runs
      ensures child.Output() == old(child.Output())
      ensures ok ==> RunsOk() && Total(runs) == old(Seen(chunk)) && Full(runs, |runs| - 1)
      ensures !ok ==> Lacks(old(Seen(chunk)), sortIdx)
    {
      SeenNone();
      FullGrows(runs, chunk, sortIdx);
      assert Full(runs, |runs| - 1);
      hide Full, SortChunk;
      hide Seen, Lacks, Total, RunsOk, Executor.Output, Executor.Pending, Executor.Valid;
      ok := true;
      if chunk != [] {
        ok := WriteRun(chunk);
      }
    }

    lemma SeenMore(chunk: seq<Tuple>, t: Tuple)
      ensures Seen(chunk + [t]) == Seen(chunk) + multiset{t}
    {
    }

    lemma SeenNone()
      ensures Seen([]) == Total(runs)
    {
    }

    lemma NoRunsYet()
      requires runs == []
      ensures RunsOk() && Seen([]) == multiset{} && Full(runs, |runs|)
    {
    }

    method ReadRow() returns (t: Option<Tuple>)
      requires Owns()
      modifies child.Repr()
      ensures child.Output() == old(child.Output())
      ensures Coming(t, child.Pending()) == multiset(old(child.Pending()))
      ensures t.Some? ==> |child.Pending()| < old(|child.Pending()|)
    {
      ghost var coming := child.Pending();
      hide Executor.Output, Executor.Pending, Executor.Valid, Coming, Delivers;
      t := child.Next();
      NextRow(t, child.Pending(), coming);
    }

    /** Adds a row and reads the next one. */
    method Step(chunk: seq<Tuple>, t: Tuple) returns (ok: bool, chunk': seq<Tuple>, t': Option<Tuple>)
      requires Owns() && |chunk| < CHUNK_SIZE && RunsOk() && Full(runs, |runs|)
      modifies this`runs, child.Repr()
      ensures child.Output() == old(child.Output())
      ensures ok ==>
                && |chunk'| < CHUNK_SIZE && RunsOk() && Full(runs, |runs|)
                && Seen(chunk') + Coming(t', child.Pending()) == old(Seen(chunk) + Coming(Some(t), child.Pending()))
      ensures !ok ==> Lacks(old(Seen(chunk) + Coming(Some(t), child.Pending())), sortIdx)
      ensures t'.Some? ==> |child.Pending()| < old(|child.Pending()|)
    {
      SeenOne(Seen(chunk), t, child.Pending());
      ghost var seen, pending := Seen(chunk) + multiset{t}, multiset(child.Pending());
      hide Executor.Output, Executor.Pending, Executor.Valid, RunsOk, Seen, Coming, Lacks, Full;
      ok, chunk' := AddRow(chunk, t);
      if !ok {
        LacksMore(seen, pending, sortIdx);
        return false, chunk', None;
      }
      t' := ReadRow();
    }

    /** Cuts the child's rows into sorted runs. */
    method WriteRuns() returns (ok: bool)
      requires Owns() && runs == []
      modifies this`runs, child.Repr()
      ensures child.Output() == old(child.Output())
      ensures ok ==> RunsOk() && Total(runs) == multiset(old(child.Pending())) && Full(runs, |runs| - 1)
      ensures !ok ==> Lacks(multiset(old(child.Pending())), sortIdx)
    {
      var chunk: seq<Tuple> := [];
      NoRunsYet();
      ghost var all := multiset(child.Pending());
      hide Executor.Output, Executor.Pending, Executor.Valid, RunsOk, Seen, Coming, Lacks, Full;
      var t := ReadRow();
      while t.Some?
        invariant child.Output() == old(child.Output())
        invariant |chunk| < CHUNK_SIZE && RunsOk() && Full(runs, |runs|)
        invariant Seen(chunk) + Coming(t, child.Pending()) == all
        decreases t.Some?, |child.Pending()|
      {
        ok, chunk, t := Step(chunk, t.value);
        if !ok {
          return;
        }
      }
      assert Coming(t, child.Pending()) == multiset{} by {
        ComingNone(child.Pending());
      }
      ok := FlushRest(chunk);
    }

    /** Pushes a row; with rows in the heap already, the push compares, and panics on a row without the column. */
    method Push(entry: HeapEntry) returns (ok: bool)
      requires Value().HeadsComparable()
      modifies this`heap
      ensures ok == old(Value()).(heap := old(heap) + [entry]).HeadsComparable()
      ensures heap == if ok then old(heap) + [entry] else old(heap)
    {
      PushCompares(Value(), entry);
      ok := heap == [] || (Has(entry.tuple, sortIdx) && Has(heap[0].tuple, sortIdx));
      if ok {
        heap := heap + [entry];
      }
    }

    /** Reads the head of one run into the heap. */
    method OpenRun(idx: nat) returns (ok: bool)
      requires Filling(Value(), idx) && idx < |runs|
      modifies this
      ensures ok ==>
                |runs| == old(|runs|) && Filling(Value(), idx + 1) && Value().Remaining() == old(Value().Remaining())
      ensures !ok ==> Lacks(old(Value().Remaining()), sortIdx)
    {
      FillStep(Value(), idx);
      hide Filling, Merge.Remaining, Lacks, Merge.HeadsComparable;
      ok := true;
      if runs[idx] != [] {
        ghost var after := Opened(Value(), idx);
        ok := Push(HeapEntry(runs[idx][0], idx));
        if ok {
          runs := runs[idx := runs[idx][1..]];
          assert Value() == after;
        }
      }
    }

    /** Reads the head of each run into the heap. */
    method FillHeap() returns (ok: bool)
      requires heap == [] && RunsOk()
      modifies this
      ensures ok ==> Value().Valid() && Value().Remaining() == Total(old(runs))
      ensures !ok ==> Lacks(Total(old(runs)), sortIdx)
    {
      FillStart(Value());
      ghost var all := Total(runs);
      hide Filling, Merge.Remaining, Merge.Valid, Lacks, Total, RunsOk;
      var idx := 0;
      while idx < |runs|
        invariant idx <= |runs| == |old(runs)|
        invariant Filling(Value(), idx) && Value().Remaining() == all
      {
        ok := OpenRun(idx);
        if !ok {
          return;
        }
        idx := idx + 1;
      }
      FillEnd(Value());
      ok := true;
    }

    /** `init`: sorts the child's rows afresh, whatever was left from before. It panics exactly when there are two
        rows or more and one has no such column. */
    method Init() returns (ok: bool)
      requires Owns()
      modifies this, child.Repr()
      ensures child.Output() == old(child.Output())
      ensures ok == CanSort(child.Output(), sortIdx)
      ensures ok <==> |child.Output()| <= 1 || forall t :: t in child.Output() ==> sortIdx < |t.values|
      ensures ok ==> Value().Valid() && Value().Remaining() == multiset(child.Output())
    {
      LacksIff(child.Output(), sortIdx);
      hide Executor.Output, Executor.Pending, Executor.Valid, Merge.Valid, Merge.Remaining, RunsOk, Lacks, CanSort;
      child.Init();
      ClearRuns();
      ok := WriteRuns();
      if ok {
        ok := OpenRuns();
      }
    }

    method ClearRuns()
      requires Owns()
      modifies this
      ensures runs == [] && heap == []
      ensures child.Output() == old(child.Output()) && child.Pending() == old(child.Pending())
    {
      hide Executor.Output, Executor.Pending, Executor.Valid;
      runs, heap := [], [];
    }

    method OpenRuns() returns (ok: bool)
      requires Owns() && heap == [] && RunsOk()
      modifies this
      ensures child.Output() == old(child.Output())
      ensures ok == !Lacks(Total(old(runs)), sortIdx)
      ensures ok ==> Value().Valid() && Value().Remaining() == Total(old(runs))
    {
      hide Executor.Output, Executor.Valid, Merge.Valid, Merge.Remaining, RunsOk, Lacks;
      ok := FillHeap();
      if ok {
        MergeCanSort(Value());
      }
    }

    /** Finds a heap position whose row may come out next. */
    method FindLeast() returns (best: nat)
      requires Value().Valid() && heap != []
      ensures Value().Least(best)
    {
      hide Precedes;
      best := 0;
      var k := 1;
      while k < |heap|
        invariant best < k <= |heap|
        invariant forall j :: 0 <= j < k && j != best ==> Precedes(heap[best].tuple, heap[j].tuple, sortIdx)
      {
        if !Precedes(heap[best].tuple, heap[k].tuple, sortIdx) {
          BeatsAllBefore(Value(), best, k);
          best := k;
        }
        k := k + 1;
      }
    }

    /** Pops a least head and lets its run send the next row, or reports that nothing is left. */
    method Next() returns (t: Option<Tuple>)
      requires Value().Valid()
      modifies this
      ensures Value().Valid()
      ensures t.None? ==> heap == [] && Value() == old(Value()) && Value().Remaining() == multiset{}
      ensures t.Some? ==> Pops(old(Value()), t.value, Value())
      ensures t.Some? ==>
                && old(Value().Remaining()) == Value().Remaining() + multiset{t.value}
                && IsMinimum(t.value, Value().Remaining(), sortIdx)
    {
      if heap == [] {
        EmptyHeapIsEnd(Value());
        return None;
      }
      var i := FindLeast();
      var entry := heap[i];
      assert entry.run < |runs| && Pops(Value(), entry.tuple, Advanced(Value(), i));
      PopTakesMinimum(Value(), entry.tuple, Advanced(Value(), i));
      hide Merge.Valid, Merge.Remaining, Merge.Least, IsMinimum, Pops;
      ghost var after := Advanced(Value(), i);
      heap := Dropped(heap, i);
      if runs[entry.run] != [] {
        var next := runs[entry.run][0];
        runs := runs[entry.run := runs[entry.run][1..]];
        heap := heap + [HeapEntry(next, entry.run)];
      }
      assert Value() == after;
      t := Some(entry.tuple);
    }

    /** Draining `next` after `init` yields a permutation of the child's rows, sorted by the column; `init` panics
        exactly when a comparison would miss the column. */
    method Drain() returns (ok: bool, rows: seq<Tuple>)
      requires Owns()
      modifies this, child.Repr()
      ensures ok <==>
              old(|child.Output()|) <= 1 || forall t :: t in old(child.Output()) ==> sortIdx < |t.values|
      ensures ok ==> InColumnOrder(rows, sortIdx) && multiset(rows) == multiset(old(child.Output()))
    {
      hide Executor.Output, Executor.Valid, Merge.Valid, Merge.Remaining, Sorted, IsMinimum, CanSort, PopRun, Pops;
      hide InColumnOrder, Delivers;
      rows := [];
      ok := Init();
      if !ok {
        return;
      }
      ghost var states := [Value()];
      NoPops(Value());
      var t := Next();
      while t.Some?
        invariant Value().Valid() && PopRun(states, rows) && |states| == |rows| + 1
        invariant states[0].Valid() && states[0].col == sortIdx
        invariant states[0].Remaining() == multiset(old(child.Output()))
        invariant if t.Some? then Pops(states[|rows|], t.value, Value()) else states[|rows|].heap == []
        decreases t.Some?, |Value().Remaining()|
      {
        OnePopMore(states, rows, t.value, Value());
        rows, states := rows + [t.value], states + [Value()];
        t := Next();
      }
      DrainSorts(states, rows);
      SortedMeans(rows, sortIdx);
    }
  }

  lemma PushCompares(m: Merge, entry: HeapEntry)
    requires m.HeadsComparable()
    ensures m.(heap := m.heap + [entry]).HeadsComparable() <==>
            m.heap == [] || (Has(entry.tuple, m.col) && Has(m.heap[0].tuple, m.col))
  {
    var heap := m.heap + [entry];
    assert heap[|m.heap|] == entry && (m.heap != [] ==> heap[0] == m.heap[0]);
  }

  lemma NoPops(m: Merge)
    ensures PopRun([m], [])
  {
  }

  /** A row that beats the best so far beats everything the best did. */
  lemma BeatsAllBefore(m: Merge, best: nat, k: nat)
    requires m.HeadsComparable() && best < k < |m.heap|
    requires forall j :: 0 <= j < k && j != best ==> Precedes(m.heap[best].tuple, m.heap[j].tuple, m.col)
    requires !Precedes(m.heap[best].tuple, m.heap[k].tuple, m.col)
    ensures forall j :: 0 <= j < k ==> Precedes(m.heap[k].tuple, m.heap[j].tuple, m.col)
  {
    hide Precedes;
    forall j | 0 <= j < k
      ensures Precedes(m.heap[k].tuple, m.heap[j].tuple, m.col)
    {
      PrecedesOrder(m.heap[k].tuple, m.heap[best].tuple, m.heap[j].tuple, m.col);
    }
  }

  /** A row just read and the rows after it. */
  ghost function Coming(t: Option<Tuple>, pending: seq<Tuple>): multiset<Tuple> {
    if t.None? then multiset{} else multiset{t.value} + multiset(pending)
  }

  lemma ComingNone(pending: seq<Tuple>)
    ensures Coming(None, pending) == multiset{}
  {
  }

  lemma SeenOne(seen: multiset<Tuple>, x: Tuple, pending: seq<Tuple>)
    ensures seen + Coming(Some(x), pending) == seen + multiset{x} + multiset(pending)
  {
  }

  lemma NextRow(t: Option<Tuple>, pending: seq<Tuple>, before: seq<Tuple>)
    requires Delivers(before, t, pending)
    ensures Coming(t, pending) == multiset(before)
    ensures t.Some? ==> |before| == |pending| + 1
  {
  }

  lemma ChunkLacks(total: multiset<Tuple>, chunk: seq<Tuple>, col: nat)
    ensures !CanSort(chunk, col) ==> Lacks(total + multiset(chunk), col)
  {
    LacksIff(chunk, col);
    if !CanSort(chunk, col) {
      hide Lacks;
      LacksMore(multiset(chunk), total, col);
      assert multiset(chunk) + total == total + multiset(chunk);
    }
  }

  /** The runs before `idx` have been opened, the others not. */
  ghost predicate Filling(m: Merge, idx: nat) {
    m.HeadsRuns() && m.OnePerRun() && m.Covers(idx) && NotOpened(m, idx) && m.HeadsComparable()
  }

  ghost predicate NotOpened(m: Merge, idx: nat) {
    && (forall i :: 0 <= i < |m.heap| ==> m.heap[i].run < idx)
    && (forall r :: idx <= r < |m.rests| ==> Sorted(m.rests[r], m.col))
  }

  lemma FillStart(m: Merge)
    requires m.heap == [] && forall r :: 0 <= r < |m.rests| ==> Sorted(m.rests[r], m.col)
    ensures Filling(m, 0) && m.Remaining() == Total(m.rests)
  {
  }

  lemma FillEnd(m: Merge)
    requires Filling(m, |m.rests|)
    ensures m.Valid()
  {
  }

  /** Opens one run: its first row goes to the heap. */
  function Opened(m: Merge, idx: nat): Merge
    requires idx < |m.rests|
  {
    if m.rests[idx] == [] then m
    else m.(heap := m.heap + [HeapEntry(m.rests[idx][0], idx)], rests := m.rests[idx := m.rests[idx][1..]])
  }

  lemma FillStep(m: Merge, idx: nat)
    requires Filling(m, idx) && idx < |m.rests|
    ensures m.HeadsComparable()
    ensures m.rests[idx] != [] ==>
              Opened(m, idx).HeadsComparable() ==
              m.(heap := m.heap + [HeapEntry(m.rests[idx][0], idx)]).HeadsComparable()
    ensures m.rests[idx] == [] ==> Filling(m, idx + 1)
    ensures m.rests[idx] != [] ==>
              if Opened(m, idx).HeadsComparable()
              then Filling(Opened(m, idx), idx + 1) && Opened(m, idx).Remaining() == m.Remaining()
              else Lacks(m.Remaining(), m.col)
  {
    if m.rests[idx] != [] {
      FillHeadsRuns(m, idx);
      FillCovers(m, idx);
      FillOnePerRun(m, idx);
      RefillKeeps(m.heap, m.rests, idx);
      if !Opened(m, idx).HeadsComparable() {
        HeadsLack(Opened(m, idx));
      }
      hide Merge.HeadsRuns, Merge.Covers, Merge.OnePerRun, NotOpened, Heads, Total, Lacks;
    }
  }

  /** Two heads, one without the column. */
  lemma HeadsLack(m: Merge)
    requires !m.HeadsComparable()
    ensures Lacks(m.Remaining(), m.col)
  {
    var i :| 0 <= i < |m.heap| && !Has(m.heap[i].tuple, m.col);
    HeadsDropped(m.heap, i);
    var others := Dropped(m.heap, i);
    HeadsDropped(others, 0);
    assert m.heap[i].tuple in m.Remaining();
    assert |m.Remaining()| == 1 + (1 + |Heads(Dropped(others, 0))|) + |Total(m.rests)|;
  }

  lemma FillOnePerRun(m: Merge, idx: nat)
    requires Filling(m, idx) && idx < |m.rests| && m.rests[idx] != []
    ensures Opened(m, idx).OnePerRun() && NotOpened(Opened(m, idx), idx + 1)
  {
    hide Sorted, Merge.HeadsRuns, Merge.Covers;
  }

  lemma FillHeadsRuns(m: Merge, idx: nat)
    requires Filling(m, idx) && idx < |m.rests| && m.rests[idx] != []
    ensures Opened(m, idx).HeadsRuns()
  {
    hide Sorted;
    var m' := Opened(m, idx);
    forall i | 0 <= i < |m'.heap|
      ensures Sorted([m'.heap[i].tuple] + m'.rests[m'.heap[i].run], m.col)
    {
      if i == |m.heap| {
        assert [m'.heap[i].tuple] + m'.rests[idx] == m.rests[idx];
      } else {
        assert m'.heap[i] == m.heap[i] && m'.rests[m'.heap[i].run] == m.rests[m.heap[i].run];
      }
    }
  }

  lemma FillCovers(m: Merge, idx: nat)
    requires Filling(m, idx) && idx < |m.rests| && m.rests[idx] != []
    ensures Opened(m, idx).Covers(idx + 1)
  {
    hide Sorted, Merge.HeadsRuns;
    var m' := Opened(m, idx);
    forall r | 0 <= r < |m'.rests| && r < idx + 1 && m'.rests[r] != []
      ensures exists i :: 0 <= i < |m'.heap| && m'.heap[i].run == r
    {
      if r == idx {
        assert m'.heap[|m.heap|].run == r;
      } else {
        var i :| 0 <= i < |m.heap| && m.heap[i].run == r;
        assert m'.heap[i].run == r;
      }
    }
  }

  lemma {:induction false} TotalAppend(runs: seq<seq<Tuple>>, run: seq<Tuple>)
    ensures Total(runs + [run]) == Total(runs) + multiset(run)
  {
    if runs == [] {
      assert [run][1..] == [];
    } else {
      assert (runs + [run])[1..] == runs[1..] + [run];
      TotalAppend(runs[1..], run);
    }
  }

  lemma ChunkBecomesRun(runs: seq<seq<Tuple>>, chunk: seq<Tuple>, col: nat)
    ensures Total(runs + [SortChunk(chunk, col)]) == Total(runs) + multiset(chunk)
    ensures CanSort(chunk, col) ==> Sorted(SortChunk(chunk, col), col)
    ensures |SortChunk(chunk, col)| == |chunk|
  {
    TotalAppend(runs, SortChunk(chunk, col));
    SortChunkMembers(chunk, col);
    if CanSort(chunk, col) {
      SortChunkSorts(chunk, col);
    }
    assert |multiset(SortChunk(chunk, col))| == |multiset(chunk)|;
  }
}
