/** The log file, its LSN counters and what a crash may do to them (wasdb_wal/src/lib.rs, `LogManager`). */
module Log {
  import opened Util
  import opened Wal

  /** The next LSN to hand out is never zero. */
  type Lsn = n: nat | n > 0 witness 1

  /** An appended entry and the byte range of the file that holds its frame. */
  datatype Placed = Placed(entry: Entry, start: nat, end: nat)

  /** `synced` is the length known to be on stable storage; `placed` is the history of appended entries
      that the file still holds. Neither is stored by the program. */
  datatype State = State(file: seq<byte>, synced: nat, nextLsn: Lsn, flushedLsn: nat, placed: seq<Placed>)
  {
    ghost predicate Holds(p: Placed) {
      && p.start < p.end <= |file| && file[p.start..p.end] == Frame(p.entry)
      && p.entry.lsn < nextLsn
      && p.entry.lsn <= p.end
    }

    /** LSNs never exceed the file length. */
    ghost predicate Valid() {
      && nextLsn <= |file| + 1
      && flushedLsn < nextLsn
      && synced <= |file|
      && (forall p :: p in placed ==> Holds(p))
      && Ascending(placed)
    }

    /** What is reported as flushed lies in the synced prefix. */
    ghost predicate Durable() {
      flushedLsn <= synced && forall p :: p in placed && p.entry.lsn <= flushedLsn ==> p.end <= synced
    }

    /** Nothing was appended since the last flush, as far as the two counters tell. */
    predicate FlushedLast() {
      flushedLsn + 1 == nextLsn
    }

    /** The counters tell what is on stable storage, and whether that is everything. */
    ghost predicate Truthful() {
      Durable() && (FlushedLast() <==> synced == |file|)
    }
  }

  ghost predicate Ascending(placed: seq<Placed>) {
    forall i, j :: 0 <= i < j < |placed| ==> placed[i].entry.lsn < placed[j].entry.lsn
  }

  /** `LogManager::new`: the file length stands in for the last LSN, and for the last flushed one. Nothing is synced. */
  function Opened(file: seq<byte>, synced: nat, placed: seq<Placed>): State {
    State(file, synced, |file| + 1, |file|, placed)
  }

  lemma HeldStays(l: State, l': State, p: Placed)
    requires l.Holds(p) && l.file <= l'.file && l.nextLsn <= l'.nextLsn
    ensures l'.Holds(p)
  {
    assert l'.file[p.start..p.end] == l'.file[..|l.file|][p.start..p.end];
  }

  lemma AppendStaysValid(l: State, e: Entry, l': State)
    requires l.Valid() && e.lsn == l.nextLsn
    requires l' == State(l.file + Frame(e), l.synced, l.nextLsn + 1, l.flushedLsn,
                         l.placed + [Placed(e, |l.file|, |l.file| + |Frame(e)|)])
    ensures l'.Valid()
  {
    FrameNonEmpty(e);
    hide Frame, Ascending;
    forall p | p in l'.placed
      ensures l'.Holds(p)
    {
      if p in l.placed {
        HeldStays(l, l', p);
      } else {
        assert l'.file[|l.file|..p.end] == Frame(e);
      }
    }
    AppendStaysAscending(l.placed, l'.placed[|l.placed|]) by {
      assert forall p :: p in l.placed ==> l.Holds(p);
    }
  }

  lemma FrameNonEmpty(e: Entry)
    ensures |Frame(e)| >= 12
  {
    hide Serialize, LeBytes;
  }

  lemma AppendStaysAscending(placed: seq<Placed>, p: Placed)
    requires Ascending(placed) && forall q :: q in placed ==> q.entry.lsn < p.entry.lsn
    ensures Ascending(placed + [p])
  {
  }

  function Appended(l: State, r: Record): (l': State)
    requires l.Valid() && |l.file| + 12 + |Serialize(r)| < U64
    ensures l'.Valid() && (l.Truthful() ==> l'.Truthful())
    ensures l'.nextLsn == l.nextLsn + 1 && l'.flushedLsn == l.flushedLsn && l'.synced == l.synced
  {
    var e := Entry(l.nextLsn, r);
    var l' := l.(file := l.file + Frame(e), nextLsn := l.nextLsn + 1,
                 placed := l.placed + [Placed(e, |l.file|, |l.file| + |Frame(e)|)]);
    AppendStaysValid(l, e, l');
    l'
  }

  function Flushed(l: State): (l': State)
    ensures l.Valid() ==> l'.Valid() && l'.Truthful()
  {
    l.(synced := |l.file|, flushedLsn := l.nextLsn - 1)
  }

  function Surviving(placed: seq<Placed>, keep: nat): seq<Placed> {
    if placed == [] then []
    else Surviving(placed[..|placed| - 1], keep) +
         if placed[|placed| - 1].end <= keep then [placed[|placed| - 1]] else []
  }

  lemma {:induction false} SurvivingMembers(placed: seq<Placed>, keep: nat)
    ensures forall p :: p in Surviving(placed, keep) <==> p in placed && p.end <= keep
  {
    if placed != [] {
      var before, last := placed[..|placed| - 1], placed[|placed| - 1];
      SurvivingMembers(before, keep);
      assert forall p :: p in placed <==> p in before || p == last;
    }
  }

  lemma {:induction false} SurvivingStaysOrdered(placed: seq<Placed>, keep: nat)
    requires Ascending(placed)
    ensures Ascending(Surviving(placed, keep))
  {
    if placed != [] {
      var before, last := placed[..|placed| - 1], placed[|placed| - 1];
      SurvivingStaysOrdered(before, keep);
      SurvivingMembers(before, keep);
      assert forall p :: p in Surviving(before, keep) ==> p in before && p.entry.lsn < last.entry.lsn;
    }
  }

  lemma TruncationHolds(l: State, keep: nat, p: Placed)
    requires l.Valid() && l.synced <= keep <= |l.file|
    requires p in l.placed && p.end <= keep
    ensures Opened(l.file[..keep], keep, Surviving(l.placed, keep)).Holds(p)
  {
    assert l.Holds(p);
    hide State.Valid, Surviving, Frame;
    SliceOfPrefix(l.file, keep, p.start, p.end);
  }

  lemma SliceOfPrefix(file: seq<byte>, keep: nat, start: nat, end: nat)
    requires start <= end <= keep <= |file|
    ensures file[..keep][start..end] == file[start..end]
  {
  }

  /** A loss of power keeps some prefix of the file no shorter than its synced part, all of it on stable storage; then
      the log is reopened. */
  function Crashed(l: State, keep: nat): (l': State)
    requires l.Valid() && l.synced <= keep <= |l.file|
    ensures l'.Valid() && l'.Truthful()
  {
    var l' := Opened(l.file[..keep], keep, Surviving(l.placed, keep));
    SurvivingStaysOrdered(l.placed, keep);
    SurvivingMembers(l.placed, keep);
    assert forall p :: p in l'.placed ==> l'.Holds(p) by {
      forall p | p in l'.placed
        ensures l'.Holds(p)
      {
        TruncationHolds(l, keep, p);
      }
    }
    l'
  }

  /** The process ends and the log is reopened: the file is intact, but no more of it is on stable storage. */
  function Restarted(l: State): (l': State)
    requires l.Valid()
    ensures l'.Valid() && (l'.Truthful() <==> l.synced == |l.file|)
  {
    Opened(l.file, l.synced, l.placed)
  }

  /** After a crash and reopening, every entry that had been flushed is still there, and the next LSN is
      above that of every surviving entry and above everything reported as flushed before the crash. */
  lemma CrashLosesNothingFlushed(l: State, keep: nat)
    requires l.Valid() && l.Durable() && l.synced <= keep <= |l.file|
    ensures var l' := Crashed(l, keep);
            && l.flushedLsn <= l'.flushedLsn
            && (forall p :: p in l.placed && p.entry.lsn <= l.flushedLsn ==> p in l'.placed)
            && (forall p :: p in l'.placed ==> p.entry.lsn < l'.nextLsn && p in l.placed)
  {
    SurvivingMembers(l.placed, keep);
  }

  // ----- A log begun on an empty file is exactly its entries -----

  function EntriesOf(placed: seq<Placed>): (entries: seq<Entry>)
    ensures |entries| == |placed| && forall i :: 0 <= i < |placed| ==> entries[i] == placed[i].entry
  {
    seq(|placed|, i requires 0 <= i < |placed| => placed[i].entry)
  }

  /** An entry's frame ends where the frames of all entries up to it end, and its length fits in its length field. */
  ghost predicate EndsInPlace(placed: seq<Placed>, i: nat)
    requires i < |placed|
  {
    placed[i].end == |LogBytes(EntriesOf(placed)[..i + 1])| && Fits(placed[i].entry.record)
  }

  ghost predicate Tiled(l: State) {
    l.file == LogBytes(EntriesOf(l.placed)) && forall i: nat :: i < |l.placed| ==> EndsInPlace(l.placed, i)
  }

  lemma EntriesOfPrefix(placed: seq<Placed>, k: nat)
    requires k <= |placed|
    ensures EntriesOf(placed[..k]) == EntriesOf(placed)[..k]
  {
  }

  lemma EndsInPrefix(placed: seq<Placed>, k: nat, i: nat)
    requires i < k <= |placed|
    ensures EndsInPlace(placed[..k], i) <==> EndsInPlace(placed, i)
  {
    hide LogBytes;
    EntriesOfPrefix(placed, k);
    assert EntriesOf(placed)[..k][..i + 1] == EntriesOf(placed)[..i + 1];
  }

  lemma {:induction false} LogBytesAppend(entries: seq<Entry>, e: Entry)
    ensures LogBytes(entries + [e]) == LogBytes(entries) + Frame(e)
  {
    if entries == [] {
      assert [e][1..] == [] && Frame(e) + [] == Frame(e);
    } else {
      assert (entries + [e])[1..] == entries[1..] + [e];
      LogBytesAppend(entries[1..], e);
    }
  }

  lemma AppendStaysTiled(l: State, r: Record)
    requires l.Valid() && Tiled(l) && Fits(r) && |l.file| + 12 + |Serialize(r)| < U64
    ensures Tiled(Appended(l, r))
  {
    var l' := Appended(l, r);
    var n, e := |l.placed|, Entry(l.nextLsn, r);
    assert l'.placed[..n] == l.placed && l'.placed[n].entry == e && l'.file == l.file + Frame(e);
    assert l'.placed[n].end == |l'.file|;
    AppendTiles(l, l');
  }

  lemma AppendTiles(l: State, l': State)
    requires Tiled(l) && |l'.placed| == |l.placed| + 1 && l'.placed[..|l.placed|] == l.placed
    requires var p := l'.placed[|l.placed|];
             l'.file == l.file + Frame(p.entry) && p.end == |l'.file| && Fits(p.entry.record)
    ensures Tiled(l')
  {
    hide Frame, LogBytes, EndsInPlace, Fits, EntriesOf;
    AppendedFile(l, l');
    EarlierEndInPlace(l.placed, l'.placed);
    LastEndsInPlace(l'.placed);
  }

  lemma AppendedFile(l: State, l': State)
    requires l.file == LogBytes(EntriesOf(l.placed))
    requires |l'.placed| == |l.placed| + 1 && l'.placed[..|l.placed|] == l.placed
    requires l'.file == l.file + Frame(l'.placed[|l.placed|].entry)
    ensures l'.file == LogBytes(EntriesOf(l'.placed))
  {
    hide *;
    LogBytesAppend(EntriesOf(l.placed), l'.placed[|l.placed|].entry);
    EntriesAppend(l.placed, l'.placed);
  }

  lemma EntriesAppend(placed: seq<Placed>, placed': seq<Placed>)
    requires |placed'| == |placed| + 1 && placed'[..|placed|] == placed
    ensures EntriesOf(placed') == EntriesOf(placed) + [placed'[|placed|].entry]
  {
    forall i | 0 <= i < |placed|
      ensures EntriesOf(placed')[i] == EntriesOf(placed)[i]
    {
      assert placed'[i] == placed'[..|placed|][i];
    }
  }

  lemma EarlierEndInPlace(placed: seq<Placed>, placed': seq<Placed>)
    requires |placed| <= |placed'| && placed'[..|placed|] == placed
    requires forall i: nat :: i < |placed| ==> EndsInPlace(placed, i)
    ensures forall i: nat :: i < |placed| ==> EndsInPlace(placed', i)
  {
    hide EndsInPlace;
    forall i: nat | i < |placed|
      ensures EndsInPlace(placed', i)
    {
      EndsInPrefix(placed', |placed|, i);
    }
  }

  lemma LastEndsInPlace(placed: seq<Placed>)
    requires placed != []
    ensures var n := |placed| - 1;
            EndsInPlace(placed, n) <==> placed[n].end == |LogBytes(EntriesOf(placed))| && Fits(placed[n].entry.record)
  {
    hide LogBytes, Fits;
    assert EntriesOf(placed)[..|placed|] == EntriesOf(placed);
  }

  lemma TiledFits(l: State)
    requires Tiled(l)
    ensures forall e :: e in EntriesOf(l.placed) ==> Fits(e.record)
  {
    var es := EntriesOf(l.placed);
    hide LogBytes, Fits;
    forall i: nat | i < |es|
      ensures Fits(es[i].record)
    {
      assert EndsInPlace(l.placed, i);
    }
  }

  /** An entry whose frame ends before the cut is wholly inside it. */
  lemma EndsInside(l: State, keep: nat, i: nat)
    requires Tiled(l) && i < |l.placed| && l.placed[i].end <= keep
    ensures i < WhollyInside(EntriesOf(l.placed), keep)
  {
    WhollyInsideIsMaximal(EntriesOf(l.placed), keep);
    hide LogBytes, WhollyInside;
    assert EndsInPlace(l.placed, i);
  }

  /** Every entry reported as flushed is among those that a cut leaves whole, and so is recovered. */
  ghost predicate FlushedSurvive(l: State, keep: nat) {
    forall i: nat :: i < |l.placed| && l.placed[i].entry.lsn <= l.flushedLsn ==>
                       i < WhollyInside(EntriesOf(l.placed), keep)
  }

  /** Recovery after any crash returns the decodable entries of a prefix of the history, in order, and that prefix
      reaches past every entry whose LSN had been reported as flushed, if those were synced. */
  lemma FlushedEntriesAreRecovered(l: State, keep: nat)
    requires l.Valid() && Tiled(l) && l.synced <= keep <= |l.file|
    ensures Scan(Crashed(l, keep).file) == DecodableOf(EntriesOf(l.placed)[..WhollyInside(EntriesOf(l.placed), keep)])
    ensures l.Durable() ==> FlushedSurvive(l, keep)
  {
    TiledFits(l);
    RecoverTruncated(EntriesOf(l.placed), keep);
    if l.Durable() {
      DurableSurvive(l, keep);
    }
    hide LogBytes, Scan, WhollyInside, DecodableOf, EntriesOf, FlushedSurvive;
  }

  lemma DurableSurvive(l: State, keep: nat)
    requires Tiled(l) && l.Durable() && l.synced <= keep
    ensures FlushedSurvive(l, keep)
  {
    hide Tiled, WhollyInside, EntriesOf;
    forall i: nat | i < |l.placed| && l.placed[i].entry.lsn <= l.flushedLsn
      ensures i < WhollyInside(EntriesOf(l.placed), keep)
    {
      assert l.placed[i] in l.placed;
      EndsInside(l, keep, i);
    }
  }

  // ----- Restarting the process -----

  lemma TruthfulIsDurable(l: State)
    requires l.Truthful()
    ensures l.Durable()
  {
  }

  /** An entry wholly inside a cut ends before it. */
  lemma InsideEnds(l: State, keep: nat, i: nat)
    requires Tiled(l) && i < WhollyInside(EntriesOf(l.placed), keep)
    ensures l.placed[i].end <= keep
  {
    var es := EntriesOf(l.placed);
    var k := WhollyInside(es, keep);
    WhollyInsideIsMaximal(es, keep);
    hide LogBytes, WhollyInside;
    assert EndsInPlace(l.placed, i);
    LogBytesPrefix(es[..k], i + 1);
    assert es[..k][..i + 1] == es[..i + 1];
  }

  lemma LastEntryEnds(l: State)
    requires Tiled(l) && l.placed != []
    ensures l.placed[|l.placed| - 1].end == |l.file|
  {
    hide LogBytes;
    LastEndsInPlace(l.placed);
  }

  /** Opening a log takes all of the file for flushed. Every entry then reported as flushed survives every loss of power
      if and only if the whole file had been synced: nothing was appended since the last flush. */
  lemma RestartIsSafeIff(l: State)
    requires l.Valid() && Tiled(l)
    ensures (forall keep: nat :: l.synced <= keep <= |l.file| ==> FlushedSurvive(Restarted(l), keep))
            <==> l.synced == |l.file|
  {
    hide *;
    RestartStaysTiled(l);
    if l.synced == |l.file| {
      TruthfulIsDurable(Restarted(l));
      DurableSurvive(Restarted(l), |l.file|);
    } else {
      RestartForgetsLast(l);
    }
  }

  lemma RestartStaysTiled(l: State)
    requires l.Valid() && Tiled(l)
    ensures Tiled(Restarted(l)) && Restarted(l).file == l.file && Restarted(l).synced == l.synced <= |l.file|
  {
    hide LogBytes, EndsInPlace;
  }

  lemma RestartForgetsLast(l: State)
    requires l.Valid() && Tiled(l) && l.synced != |l.file|
    ensures l.synced <= |l.file| && !FlushedSurvive(Restarted(l), l.synced)
  {
    var l', n := Restarted(l), |l.placed| - 1;
    if l.placed == [] {
      assert false;
    }
    LastEntryEnds(l);
    assert l.placed[n] in l.placed;
    assert l.Holds(l.placed[n]);
    if n < WhollyInside(EntriesOf(l.placed), l.synced) {
      InsideEnds(l, l.synced, n);
    }
    hide State.Holds, WhollyInside, LogBytes;
  }

  // ----- Runs of the log from an empty file -----

  lemma {:induction false} LogBytesConcat(a: seq<Entry>, b: seq<Entry>)
    ensures LogBytes(a + b) == LogBytes(a) + LogBytes(b)
  {
    hide Frame;
    if a == [] {
      assert a + b == b;
    } else {
      assert (a + b)[1..] == a[1..] + b;
      LogBytesConcat(a[1..], b);
    }
  }

  lemma LogBytesPrefix(es: seq<Entry>, k: nat)
    requires k <= |es|
    ensures |LogBytes(es[..k])| <= |LogBytes(es)| && LogBytes(es)[..|LogBytes(es[..k])|] == LogBytes(es[..k])
  {
    LogBytesConcat(es[..k], es[k..]);
    assert es == es[..k] + es[k..];
    hide LogBytes;
  }

  lemma {:induction false} SurvivingIsPrefix(placed: seq<Placed>, keep: nat, k: nat)
    requires k <= |placed|
    requires forall i :: 0 <= i < k ==> placed[i].end <= keep
    requires forall i :: k <= i < |placed| ==> placed[i].end > keep
    ensures Surviving(placed, keep) == placed[..k]
  {
    if placed != [] {
      var before := placed[..|placed| - 1];
      if k == |placed| {
        SurvivingIsPrefix(before, keep, k - 1);
        assert placed[..k] == before[..k - 1] + [placed[k - 1]];
      } else {
        SurvivingIsPrefix(before, keep, k);
        assert before[..k] == placed[..k];
      }
    }
  }

  /** A crash keeps the entries wholly inside the cut. */
  lemma SurvivorsAreInside(l: State, keep: nat)
    requires Tiled(l)
    ensures Surviving(l.placed, keep) == l.placed[..WhollyInside(EntriesOf(l.placed), keep)]
  {
    var es := EntriesOf(l.placed);
    var k := WhollyInside(es, keep);
    WhollyInsideIsMaximal(es, keep);
    hide LogBytes, WhollyInside;
    forall i | 0 <= i < k
      ensures l.placed[i].end <= keep
    {
      assert EndsInPlace(l.placed, i);
      LogBytesPrefix(es[..k], i + 1);
      assert es[..k][..i + 1] == es[..i + 1];
    }
    forall i: nat | k <= i < |es|
      ensures l.placed[i].end > keep
    {
      assert EndsInPlace(l.placed, i);
    }
    SurvivingIsPrefix(l.placed, keep, k);
  }

  /** A cut on a frame boundary. */
  ghost predicate OnBoundary(l: State, keep: nat) {
    exists k :: 0 <= k <= |l.placed| && keep == |LogBytes(EntriesOf(l.placed)[..k])|
  }

  /** The log reopened after a crash is again exactly its entries if and only if the cut fell between frames: that is
      when appending to it is safe. */
  lemma ReopenedIsTiledIff(l: State, keep: nat)
    requires l.Valid() && Tiled(l) && l.synced <= keep <= |l.file|
    ensures Tiled(Crashed(l, keep)) <==> OnBoundary(l, keep)
  {
    var es, l' := EntriesOf(l.placed), Crashed(l, keep);
    var k := WhollyInside(es, keep);
    SurvivorsAreInside(l, keep);
    assert l'.placed == l.placed[..k] && l'.file == l.file[..keep];
    EntriesOfPrefix(l.placed, k);
    LogBytesPrefix(es, k);
    hide State.Valid, Surviving, WhollyInside, Crashed, LogBytes, EndsInPlace;
    forall i: nat | i < k
      ensures EndsInPlace(l'.placed, i)
    {
      assert EndsInPlace(l.placed, i);
      EndsInPrefix(l.placed, k, i);
    }
    if OnBoundary(l, keep) {
      BoundaryIsReached(es, keep);
    }
  }

  /** A cut between frames is the length of the entries wholly inside it. */
  lemma BoundaryIsReached(es: seq<Entry>, keep: nat)
    requires exists b :: 0 <= b <= |es| && keep == |LogBytes(es[..b])|
    ensures keep == |LogBytes(es[..WhollyInside(es, keep)])|
  {
    var k := WhollyInside(es, keep);
    var b :| 0 <= b <= |es| && keep == |LogBytes(es[..b])|;
    WhollyInsideIsMaximal(es, keep);
    hide LogBytes, WhollyInside;
    if b <= k {
      LogBytesPrefix(es[..k], b);
      assert es[..k][..b] == es[..b];
    }
  }

  /** What happens to a log: appends, flushes, restarts of the process, and losses of power that leave no torn
      frame. */
  datatype LogOp = AppendOp(record: Record) | FlushOp | RestartOp | LossOp(keep: nat)

  ghost predicate LogStep(l: State, op: LogOp, l': State)
    requires l.Valid()
  {
    match op
    case AppendOp(r) => Fits(r) && |l.file| + 12 + |Serialize(r)| < U64 && l' == Appended(l, r)
    case FlushOp => l' == Flushed(l)
    case RestartOp => l' == Restarted(l)
    case LossOp(keep) => l.synced <= keep <= |l.file| && OnBoundary(l, keep) && l' == Crashed(l, keep)
  }

  ghost predicate LogRun(states: seq<State>, ops: seq<LogOp>) {
    && |states| == |ops| + 1 && states[0] == Opened([], 0, [])
    && forall i :: 0 <= i < |ops| ==> (states[i].Valid() ==> LogStep(states[i], ops[i], states[i + 1]))
  }

  /** Processes flush the log before they end. */
  ghost predicate CleanRestarts(states: seq<State>, ops: seq<LogOp>)
    requires |states| == |ops| + 1
  {
    forall i :: 0 <= i < |ops| && ops[i].RestartOp? ==> states[i].FlushedLast()
  }

  lemma {:induction false} RunStaysTiled(states: seq<State>, ops: seq<LogOp>, n: nat)
    requires LogRun(states, ops) && n < |states|
    ensures states[n].Valid() && Tiled(states[n])
  {
    if n > 0 {
      RunStaysTiled(states, ops, n - 1);
      var l, op := states[n - 1], ops[n - 1];
      assert LogStep(l, op, states[n]);
      hide State.Valid, Appended, Crashed, OnBoundary;
      match op {
        case AppendOp(r) => AppendStaysTiled(l, r);
        case FlushOp =>
        case RestartOp => RestartStaysTiled(l);
        case LossOp(keep) => ReopenedIsTiledIff(l, keep);
      }
    }
  }

  /** If processes flush before they end, what is reported as flushed is synced, and the counters tell whether that is
      the whole file. */
  lemma {:induction false} RunStaysTruthful(states: seq<State>, ops: seq<LogOp>, n: nat)
    requires LogRun(states, ops) && CleanRestarts(states, ops) && n < |states|
    ensures states[n].Valid() && states[n].Truthful()
  {
    RunStaysTiled(states, ops, n);
    if n > 0 {
      RunStaysTiled(states, ops, n - 1);
      RunStaysTruthful(states, ops, n - 1);
      assert LogStep(states[n - 1], ops[n - 1], states[n]);
      hide State.Valid, State.Durable, Tiled, OnBoundary, Appended, Flushed, Crashed, Restarted;
    }
  }

  /** After every run from an empty file, recovery from any loss of power returns the decodable entries of a prefix of
      what was appended; and if processes flush before they end, the prefix reaches past every entry reported as
      flushed. */
  lemma RunIsRecovered(states: seq<State>, ops: seq<LogOp>, keep: nat)
    requires LogRun(states, ops)
    requires var l := states[|ops|]; l.synced <= keep <= |l.file|
    ensures var l := states[|ops|];
            var es := EntriesOf(l.placed);
            l.Valid() && Scan(Crashed(l, keep).file) == DecodableOf(es[..WhollyInside(es, keep)])
    ensures CleanRestarts(states, ops) ==> FlushedSurvive(states[|ops|], keep)
  {
    RunStaysTiled(states, ops, |ops|);
    if CleanRestarts(states, ops) {
      RunStaysTruthful(states, ops, |ops|);
      TruthfulIsDurable(states[|ops|]);
    }
    FlushedEntriesAreRecovered(states[|ops|], keep);
    hide *;
  }

  lemma FrameWrites(file: seq<byte>, e: Entry)
    ensures file + LeBytes(|Serialize(e.record)|, 4) + LeBytes(e.lsn, 8) + Serialize(e.record) == file + Frame(e)
  {
  }

  lemma NextLsnFits(l: State, r: Record)
    requires l.Valid() && |l.file| + 12 + |Serialize(r)| < U64
    ensures (l.nextLsn + 1) % U64 == l.nextLsn + 1 && l.nextLsn < U64
  {
    hide Serialize;
  }

  class LogManager {
    var file: seq<byte>
    var nextLsn: Lsn
    var flushedLsn: nat
    ghost var synced: nat
    ghost var placed: seq<Placed>

    ghost function Value(): State
      reads this
    {
      State(file, synced, nextLsn, flushedLsn, placed)
    }

    /** Reads the length of the file that it finds, however much of it is on stable storage. */
    constructor (file: seq<byte>, ghost synced: nat, ghost placed: seq<Placed>)
      ensures Value() == Opened(file, synced, placed)
      ensures this.file == file && nextLsn == |file| + 1 && flushedLsn == |file|
    {
      this.file := file;
      nextLsn, flushedLsn := |file| + 1, |file|;
      this.synced, this.placed := synced, placed;
    }

    /** Three writes at the end of the file: the length, the LSN and the record. */
    method WriteEntry(lsn: u64, r: Record)
      modifies this`file
      ensures file == old(file) + Frame(Entry(lsn, r))
    {
      FrameWrites(file, Entry(lsn, r));
      hide *;
      var serialized := Serialize(r);
      file := file + LeBytes(|serialized|, 4);
      file := file + LeBytes(lsn, 8);
      file := file + serialized;
    }

    method AppendRecord(r: Record) returns (lsn: nat)
      requires Value().Valid() && |file| + 12 + |Serialize(r)| < U64
      modifies this
      ensures Value() == Appended(old(Value()), r) && lsn == old(nextLsn)
      ensures file == old(file) + Frame(Entry(lsn, r)) && nextLsn == lsn + 1 && unchanged(this`flushedLsn, this`synced)
    {
      hide State.Valid, Serialize, Frame, LeBytes, Wal.Fits;
      NextLsnFits(Value(), r);
      ghost var start := |file|;
      lsn := nextLsn;
      nextLsn := (nextLsn + 1) % U64;
      WriteEntry(lsn, r);
      placed := placed + [Placed(Entry(lsn, r), start, |file|)];
    }

    method Flush()
      modifies this
      ensures Value() == Flushed(old(Value()))
      ensures synced == |file| && flushedLsn == nextLsn - 1 && unchanged(this`file, this`nextLsn)
    {
      synced := |file|;
      flushedLsn := nextLsn - 1;
    }
  }
}
