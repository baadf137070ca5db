/** The pages that one process allocates (wasdb_storage/src/lib.rs, wasdb_buffer/src/buffer_pool.rs). */
module PageNumbers {
  import opened Util
  import opened PoolModel
  import opened PoolProof
  import opened PoolRuns
  import opened Storage

  /** How many of the first `n` steps ask for a new page, served or not. */
  function Calls(ops: seq<Op>, n: nat): (calls: nat)
    requires n <= |ops|
    ensures calls <= n
  {
    if n == 0 then 0 else Calls(ops, n - 1) + if ops[n - 1].NewPage? then 1 else 0
  }

  lemma {:induction false} CallsAscend(ops: seq<Op>, i: nat, j: nat)
    requires i < j <= |ops|
    ensures Calls(ops, i) + (if ops[i].NewPage? then 1 else 0) <= Calls(ops, j)
  {
    if i + 1 < j {
      CallsAscend(ops, i, j - 1);
    }
  }

  lemma NothingCalled(ops: seq<Op>)
    ensures Calls(ops, 0) == 0
  {
  }

  lemma OneCallMore(ops: seq<Op>, n: nat)
    requires 0 < n <= |ops|
    ensures Calls(ops, n) == Calls(ops, n - 1) + if ops[n - 1].NewPage? then 1 else 0
  {
  }

  // ----- What a step does to the page counter -----

  lemma {:induction false} FlushKeepsCounter(s: Pool, i: nat)
    requires |s.frames| == |s.descs| && i <= |s.descs|
    ensures FlushFrom(s, i).disk.totalPages == s.disk.totalPages
    decreases |s.descs| - i
  {
    if i < |s.descs| {
      FlushKeepsCounter(if s.descs[i].dirty && s.Resident(i) then WriteBack(s, i) else s, i + 1);
    }
  }

  lemma FetchCounts(s: Pool, op: Op, s': Pool)
    requires s.Inv() && Step(s, op, s') && (op.Fetch? || op.NewPage?)
    ensures s'.disk.totalPages == (s.disk.totalPages + if op.NewPage? then 1 else 0) % U32
    ensures op.NewPage? && op.made.Ok? ==> op.made.value.1 == PageId(0, s.disk.totalPages)
  {
    SameSize(s);
    hide Pool.Inv, Pool.Core, FetchStep;
    if op.Fetch? {
      FetchKeepsCounter(s, op.pid, op.fetched, s');
    } else {
      var (disk, pid) := s.disk.Allocate();
      FetchKeepsCounter(s.(disk := disk), pid, if op.made.Ok? then Ok(op.made.value.0) else Err(op.made.error), s');
    }
  }

  lemma OthersDoNotCount(s: Pool, op: Op, s': Pool)
    requires s.Inv() && Step(s, op, s') && !EndsProcess(op) && !op.Fetch? && !op.NewPage?
    ensures s'.disk.totalPages == s.disk.totalPages
  {
    SameSize(s);
    hide Pool.Inv, Pool.Core, FlushFrom;
    if op.FlushAll? {
      FlushKeepsCounter(s, 0);
    }
  }

  /** Only a new page moves the counter, by one, and it has the number that the counter showed. */
  lemma StepCounts(s: Pool, op: Op, s': Pool)
    requires s.Inv() && Step(s, op, s') && !EndsProcess(op)
    ensures s'.disk.totalPages == (s.disk.totalPages + if op.NewPage? then 1 else 0) % U32
    ensures op.NewPage? && op.made.Ok? ==> op.made.value.1 == PageId(0, s.disk.totalPages)
  {
    hide Pool.Inv, Step;
    if op.Fetch? || op.NewPage? {
      FetchCounts(s, op, s');
    } else {
      OthersDoNotCount(s, op, s');
    }
  }

  lemma CountsFromStart(start: u32)
    ensures start == (start + 0) % U32
  {
  }

  lemma CountOn(start: nat, calls: nat, before: u32, more: nat, after: u32)
    requires before == (start + calls) % U32 && after == (before + more) % U32
    ensures after == (start + (calls + more)) % U32
  {
  }

  lemma RunStarts(states: seq<Pool>, ops: seq<Op>)
    requires Run(states, ops)
    ensures |states| == |ops| + 1 && states[0].Inv()
  {
    hide Pool.Inv, Step;
  }

  lemma RunSteps(states: seq<Pool>, ops: seq<Op>, n: nat)
    requires Run(states, ops) && n < |ops| && states[n].Inv()
    ensures Step(states[n], ops[n], states[n + 1]) && ops[n] in ops
  {
    hide Pool.Inv, Step;
  }

  lemma {:induction false} CounterAfter(states: seq<Pool>, ops: seq<Op>, n: nat)
    requires Run(states, ops) && n <= |ops| && forall op :: op in ops ==> !EndsProcess(op)
    ensures |states| == |ops| + 1 && states[n].Inv()
    ensures states[n].disk.totalPages == (states[0].disk.totalPages + Calls(ops, n)) % U32
  {
    hide *;
    RunStarts(states, ops);
    NothingCalled(ops);
    CountsFromStart(states[0].disk.totalPages);
    if n > 0 {
      var s, op, s' := states[n - 1], ops[n - 1], states[n];
      CounterAfter(states, ops, n - 1);
      RunSteps(states, ops, n - 1);
      OneCallMore(ops, n);
      StepKeepsInv(s, op, s');
      StepCounts(s, op, s');
      CountOn(states[0].disk.totalPages, Calls(ops, n - 1), s.disk.totalPages, if op.NewPage? then 1 else 0,
              s'.disk.totalPages);
    }
  }

  // ----- The pages handed out over a run -----

  ghost predicate HandsOut(ops: seq<Op>, i: nat, pid: PageId) {
    i < |ops| && ops[i].NewPage? && ops[i].made.Ok? && ops[i].made.value.1 == pid
  }

  /** Page numbers count up from where the counter stood, with a call that found no frame counted too. */
  lemma NumberHandedOut(states: seq<Pool>, ops: seq<Op>, i: nat, p: PageId)
    requires Run(states, ops) && (forall op :: op in ops ==> !EndsProcess(op)) && HandsOut(ops, i, p)
    ensures |states| > 0 && i < |ops| && ops[i].NewPage?
    ensures p.fileId == 0 && p.pageNum == (states[0].disk.totalPages + Calls(ops, i)) % U32
  {
    hide Pool.Inv, Step, EndsProcess, Run, Calls;
    CounterAfter(states, ops, i);
    RunSteps(states, ops, i);
    StepCounts(states[i], ops[i], states[i + 1]);
  }

  lemma Congruent(start: nat, a: nat, b: nat)
    requires a <= b
    ensures (start + a) % U32 == (start + b) % U32 <==> (b - a) % U32 == 0
  {
  }

  lemma NoWrap(start: nat, calls: nat)
    requires start + calls < U32
    ensures (start + calls) % U32 == start + calls
  {
  }

  lemma Between(a: nat, b: nat, all: nat)
    requires a < b < all
    ensures all <= U32 ==> (b - a) % U32 != 0
  {
  }

  /** Two pages handed out by one process are the same exactly when a multiple of 2^32 calls lies between them: over
      fewer calls than that they differ, and without a wrap the later has the greater number. */
  lemma NewPagesDiffer(states: seq<Pool>, ops: seq<Op>, i: nat, j: nat, p: PageId, q: PageId)
    requires Run(states, ops) && forall op :: op in ops ==> !EndsProcess(op)
    requires i < j && HandsOut(ops, i, p) && HandsOut(ops, j, q)
    ensures p == q <==> (Calls(ops, j) - Calls(ops, i)) % 0x1_0000_0000 == 0
    ensures Calls(ops, |ops|) <= 0x1_0000_0000 ==> p != q
    ensures |states| > 0
    ensures states[0].disk.totalPages + Calls(ops, |ops|) <= 0x1_0000_0000 ==>
              states[0].disk.totalPages <= p.pageNum < q.pageNum
  {
    hide Run, EndsProcess, Calls;
    RunStarts(states, ops);
    var start, a, b, all := states[0].disk.totalPages, Calls(ops, i), Calls(ops, j), Calls(ops, |ops|);
    NumberHandedOut(states, ops, i, p);
    NumberHandedOut(states, ops, j, q);
    CallsAscend(ops, i, j);
    CallsAscend(ops, j, |ops|);
    Congruent(start, a, b);
    Between(a, b, all);
    if start + all <= U32 {
      NoWrap(start, a);
      NoWrap(start, b);
    }
  }

  /** Over a file that was just opened they lie beyond its whole pages. */
  lemma NewPagesAreBeyondFile(file: seq<byte>, states: seq<Pool>, ops: seq<Op>, i: nat, p: PageId, n: nat)
    requires Run(states, ops) && (forall op :: op in ops ==> !EndsProcess(op)) && HandsOut(ops, i, p)
    requires states[0].disk.totalPages == |file| / PAGE_SIZE % U32
    requires |file| / PAGE_SIZE + Calls(ops, |ops|) <= 0x1_0000_0000
    ensures (n + 1) * PAGE_SIZE <= |file| ==> n < p.pageNum
  {
    hide *;
    NumberHandedOut(states, ops, i, p);
    CallsAscend(ops, i, |ops|);
    WholePages(file, n);
    LiesBeyond(states[0].disk.totalPages, |file| / PAGE_SIZE, Calls(ops, i), Calls(ops, |ops|), p.pageNum);
  }

  lemma LiesBeyond(start: u32, whole: nat, calls: nat, all: nat, num: u32)
    requires start == whole % U32 && calls < all && whole + all <= 0x1_0000_0000 && num == (start + calls) % U32
    ensures whole <= num
  {
  }
}
