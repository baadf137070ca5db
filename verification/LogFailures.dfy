/** What a log loses when it is reopened on a torn frame, or before what it holds is synced (wasdb_wal/src/lib.rs). */
module LogFailures {
  import opened Log
  import opened Util
  import opened Wal

  // ----- Scanning whole frames, and what is left behind them -----

  lemma {:induction false} ScanFrames(es: seq<Entry>, rest: seq<byte>)
    requires forall e :: e in es ==> Fits(e.record)
    ensures Scan(LogBytes(es) + rest) == DecodableOf(es) + Scan(rest)
  {
    hide Scan, Frame, Decodable;
    if es == [] {
      assert LogBytes(es) + rest == rest;
    } else {
      FramesUnfold(es, rest);
      ScanFrame(es[0], LogBytes(es[1..]) + rest);
      ScanFrames(es[1..], rest);
    }
  }

  lemma FramesUnfold(es: seq<Entry>, rest: seq<byte>)
    requires es != []
    ensures LogBytes(es) + rest == Frame(es[0]) + (LogBytes(es[1..]) + rest)
  {
    hide Frame;
  }

  /** How many bytes of a log are complete frames, read from the front. */
  function Consumed(buf: seq<byte>): (n: nat)
    ensures n <= |buf|
    decreases |buf|
  {
    if |buf| < 12 || 12 + Read(buf, 0, 4) > |buf| then 0
    else 12 + Read(buf, 0, 4) + Consumed(buf[12 + Read(buf, 0, 4)..])
  }

  lemma FrameHeader(e: Entry, rest: seq<byte>)
    requires Fits(e.record)
    ensures var buf := Frame(e) + rest;
            |Frame(e)| == 12 + |Serialize(e.record)| && Read(buf, 0, 4) == |Serialize(e.record)|
  {
    CapacityOfWidths();
    var payload := Serialize(e.record);
    assert |payload| < U32;
    hide Serialize, LeBytes, Capacity;
    var buf := Frame(e) + rest;
    assert buf[0..] == LeBytes(|payload|, 4) + (LeBytes(e.lsn, 8) + payload) + rest;
    ReadBack(buf, 0, |payload|, 4, LeBytes(e.lsn, 8) + payload, rest);
  }

  lemma ConsumedFrame(e: Entry, rest: seq<byte>)
    requires Fits(e.record)
    ensures Consumed(Frame(e) + rest) == |Frame(e)| + Consumed(rest)
  {
    FrameHeader(e, rest);
    hide Frame, Serialize, Read;
    assert (Frame(e) + rest)[|Frame(e)|..] == rest;
  }

  lemma {:induction false} ConsumedFrames(es: seq<Entry>, rest: seq<byte>)
    requires forall e :: e in es ==> Fits(e.record)
    ensures Consumed(LogBytes(es) + rest) == |LogBytes(es)| + Consumed(rest)
  {
    hide Consumed, Frame, Fits;
    if es == [] {
      assert LogBytes(es) + rest == rest;
    } else {
      FramesUnfold(es, rest);
      ConsumedFrame(es[0], LogBytes(es[1..]) + rest);
      ConsumedFrames(es[1..], rest);
    }
  }

  // ----- The tear that a cut leaves -----

  /** The front of a frame, cut before its end. */
  ghost predicate Torn(torn: seq<byte>, e: Entry) {
    Fits(e.record) && |torn| < |Frame(e)| && torn == Frame(e)[..|torn|]
  }

  lemma TearConsumesNothing(torn: seq<byte>, e: Entry)
    requires Torn(torn, e)
    ensures Consumed(torn) == 0
  {
    TearHeader(torn, e);
    hide Frame, Serialize, Read;
  }

  /** With four bytes left of a frame, its size field still promises more than is left. */
  lemma TearHeader(torn: seq<byte>, e: Entry)
    requires Torn(torn, e)
    ensures |torn| >= 4 ==> |torn| < 12 + Read(torn, 0, 4)
  {
    FrameHeader(e, []);
    hide Frame, Serialize, Fits;
    assert Frame(e) + [] == Frame(e);
    if |torn| >= 4 {
      SliceOfPrefix(Frame(e), |torn|, 0, 4);
    }
  }

  /** A cut leaves whole frames and then a tear, which is empty exactly if the cut fell between frames. */
  lemma CutLeavesTear(l: State, keep: nat) returns (k: nat, torn: seq<byte>)
    requires l.Valid() && Tiled(l) && l.synced <= keep <= |l.file|
    ensures k <= |l.placed| && Crashed(l, keep).placed == l.placed[..k]
    ensures Crashed(l, keep).file == l.file[..keep] == LogBytes(EntriesOf(l.placed)[..k]) + torn
    ensures torn == [] <==> OnBoundary(l, keep)
    ensures torn != [] ==> k < |l.placed| && Torn(torn, l.placed[k].entry)
  {
    hide *;
    var es := EntriesOf(l.placed);
    k := WhollyInside(es, keep);
    WhollyInsideIsMaximal(es, keep);
    TiledFits(l);
    CrashKeeps(l, keep);
    torn := l.file[|LogBytes(es[..k])|..keep];
    TearBehindWhole(l, keep, k);
    BoundaryIff(l, keep);
    if torn != [] {
      FileIsFrames(l);
      TearOfNext(es, k, keep);
    }
  }

  lemma FileIsFrames(l: State)
    requires Tiled(l)
    ensures l.file == LogBytes(EntriesOf(l.placed))
  {
  }

  lemma CrashKeeps(l: State, keep: nat)
    requires l.Valid() && Tiled(l) && l.synced <= keep <= |l.file|
    ensures Crashed(l, keep).placed == l.placed[..WhollyInside(EntriesOf(l.placed), keep)]
    ensures Crashed(l, keep).file == l.file[..keep]
  {
    SurvivorsAreInside(l, keep);
    hide Surviving, WhollyInside, State.Valid, Tiled;
  }

  lemma TearBehindWhole(l: State, keep: nat, k: nat)
    requires Tiled(l) && k <= |l.placed| && |LogBytes(EntriesOf(l.placed)[..k])| <= keep <= |l.file|
    ensures var whole := LogBytes(EntriesOf(l.placed)[..k]); l.file[..keep] == whole + l.file[|whole|..keep]
  {
    hide *;
    FileIsFrames(l);
    LogBytesPrefix(EntriesOf(l.placed), k);
    SplitFront(l.file, |LogBytes(EntriesOf(l.placed)[..k])|, keep);
  }

  lemma SplitFront(file: seq<byte>, n: nat, keep: nat)
    requires n <= keep <= |file|
    ensures file[..keep] == file[..n] + file[n..keep]
  {
  }

  lemma BoundaryIff(l: State, keep: nat)
    ensures var k := WhollyInside(EntriesOf(l.placed), keep);
            OnBoundary(l, keep) <==> keep == |LogBytes(EntriesOf(l.placed)[..k])|
  {
    hide LogBytes, WhollyInside;
    if OnBoundary(l, keep) {
      BoundaryIsReached(EntriesOf(l.placed), keep);
    }
  }

  lemma TearOfNext(es: seq<Entry>, k: nat, keep: nat)
    requires k <= |es| && |LogBytes(es[..k])| < keep <= |LogBytes(es)|
    requires forall j :: k < j <= |es| ==> |LogBytes(es[..j])| > keep
    requires forall e :: e in es ==> Fits(e.record)
    ensures k < |es| && Torn(LogBytes(es)[|LogBytes(es[..k])|..keep], es[k])
  {
    hide LogBytes, Frame, Fits;
    assert es[..|es|] == es;
    var whole, next := LogBytes(es[..k]), LogBytes(es[..k + 1]);
    assert es[..k + 1] == es[..k] + [es[k]];
    LogBytesAppend(es[..k], es[k]);
    LogBytesPrefix(es, k + 1);
    var torn := LogBytes(es)[|whole|..keep];
    assert |next| > keep && next == LogBytes(es)[..|next|] == whole + Frame(es[k]);
    assert forall i :: 0 <= i < |torn| ==> torn[i] == LogBytes(es)[|whole| + i] == next[|whole| + i] == Frame(es[k])[i];
  }

  /** A caller can see whether a log is torn: its scan then ends before its last byte. */
  lemma OnBoundaryIff(l: State, keep: nat)
    requires l.Valid() && Tiled(l) && l.synced <= keep <= |l.file|
    ensures OnBoundary(l, keep) <==> Consumed(l.file[..keep]) == keep
  {
    var k, torn := CutLeavesTear(l, keep);
    TiledFits(l);
    hide *;
    ConsumedFrames(EntriesOf(l.placed)[..k], torn);
    if torn == [] {
      NothingConsumed(torn);
    } else {
      TearConsumesNothing(torn, l.placed[k].entry);
    }
  }

  lemma NothingConsumed(buf: seq<byte>)
    requires buf == []
    ensures Consumed(buf) == 0
  {
  }

  // ----- A commit behind a tear -----

  /** Too short for the frame of any record: the scan finds nothing in it. */
  lemma ShortScanIsEmpty(buf: seq<byte>)
    requires |buf| < 21
    ensures Scan(buf) == []
  {
    if |buf| >= 12 && 12 + Read(buf, 0, 4) <= |buf| {
      var size := Read(buf, 0, 4);
      ShortIsRejected(buf[12..12 + size]);
      assert Scan(buf[12 + size..]) == [];
      hide Collect, Read;
    }
  }

  lemma ShortIsRejected(payload: seq<byte>)
    requires |payload| < 9
    ensures Collect(payload) == []
  {
  }

  function CommitFrame(lsn: u64, y: u64): seq<byte> {
    Frame(Entry(lsn, Commit(y)))
  }

  /** The frame of a commit: its length, and then nothing of the transaction id before byte 13. */
  lemma CommitBytes(lsn: u64, y: u64)
    ensures var f := CommitFrame(lsn, y);
            && |f| == 21 && f[0] == 9 && f[13] == y % 256
            && forall i :: 0 <= i < 13 ==> f[i] == CommitFrame(lsn, 0)[i]
  {
    CommitLayout(lsn, y);
    CommitLayout(lsn, 0);
    assert LeBytes(9, 4)[0] == 9 && LeBytes(y, 8)[0] == y % 256;
    hide LeBytes, CommitFrame;
    var front := LeBytes(9, 4) + LeBytes(lsn, 8) + [2];
    assert (front + LeBytes(y, 8))[13] == LeBytes(y, 8)[0];
  }

  lemma CommitLayout(lsn: u64, y: u64)
    ensures CommitFrame(lsn, y) == LeBytes(9, 4) + LeBytes(lsn, 8) + [2] + LeBytes(y, 8)
  {
    assert Serialize(Commit(y)) == [2] + LeBytes(y, 8);
    hide Serialize, LeBytes;
  }

  lemma {:induction false} LeNatDigit(b: seq<byte>, i: nat)
    requires i < |b|
    ensures LeNat(b) >= b[i] && (i > 0 ==> LeNat(b) >= 256 * (b[i] as int))
  {
    if i > 0 {
      LeNatDigit(b[1..], i - 1);
      assert b[1..][i - 1] == b[i];
    }
  }

  /** With fewer than four bytes left, the size field runs into the length of the commit behind the tear. */
  lemma ShortTearStops(torn: seq<byte>, lsn: u64, y: u64)
    requires 0 < |torn| < 4
    ensures Scan(torn + CommitFrame(lsn, y)) == []
  {
    CommitBytes(lsn, y);
    hide CommitFrame;
    var buf := torn + CommitFrame(lsn, y);
    assert buf[|torn|] == 9 && buf[0..4][|torn|] == 9;
    LeNatDigit(buf[0..4], |torn|);
    assert Read(buf, 0, 4) >= 2304;
  }

  /** Otherwise the torn frame swallows the front of the commit, and what is left of that is too short for a frame. */
  lemma LongTearSwallows(torn: seq<byte>, e: Entry, lsn: u64, y: u64)
    requires Torn(torn, e) && |torn| >= 4
    ensures var buf, size := torn + CommitFrame(lsn, y), Read(torn, 0, 4);
            Scan(buf) == if 12 + size > |buf| then [] else Collect(buf[12..12 + size])
  {
    TearHeader(torn, e);
    CommitBytes(lsn, y);
    hide CommitFrame, Frame, Serialize, Fits, Collect;
    var buf, size := torn + CommitFrame(lsn, y), Read(torn, 0, 4);
    assert buf[0..4] == torn[0..4];
    if 12 + size <= |buf| {
      ShortScanIsEmpty(buf[12 + size..]);
    }
  }

  /** A payload that decodes to a commit holds the low byte of its transaction id. */
  lemma CommitLowByte(payload: seq<byte>, y: u64)
    requires Collect(payload) == [Commit(y)]
    ensures |payload| >= 9 && payload[1] == y % 256
  {
    assert |payload| >= 9 && Read(payload, 1, 8) == y;
    assert payload[1..9][0] == payload[1] && LeNat(payload[1..9]) == y;
    hide Collect, Deserialize;
  }

  /** So some commit behind a tear is not recovered: at least all those whose id has another low byte than the one
      byte that the decoder would read it from. */
  lemma TearHidesCommit(torn: seq<byte>, e: Entry, lsn: u64) returns (y: u64)
    requires torn != [] && Torn(torn, e)
    ensures Scan(torn + CommitFrame(lsn, y)) != [Commit(y)]
  {
    hide *;
    if |torn| < 4 {
      y := 0;
      ShortTearStops(torn, lsn, y);
    } else {
      y := OtherLowByte(torn, lsn);
      LongTearHides(torn, e, lsn, y);
    }
  }

  /** The byte that the decoder would read the low byte of an id from, and an id with another one. */
  lemma OtherLowByte(torn: seq<byte>, lsn: u64) returns (y: u64)
    requires |torn| >= 4
    ensures |torn + CommitFrame(lsn, y)| > 13 && (torn + CommitFrame(lsn, y))[13] != y % 256
  {
    CommitBytes(lsn, 0);
    var b: int := (torn + CommitFrame(lsn, 0))[13];
    y := if b == 0 then 1 else 0;
    CommitBytes(lsn, y);
    hide CommitFrame;
    assert (torn + CommitFrame(lsn, y))[13] == b;
  }

  lemma LongTearHides(torn: seq<byte>, e: Entry, lsn: u64, y: u64)
    requires Torn(torn, e) && |torn| >= 4
    requires |torn + CommitFrame(lsn, y)| > 13 && (torn + CommitFrame(lsn, y))[13] != y % 256
    ensures Scan(torn + CommitFrame(lsn, y)) != [Commit(y)]
  {
    hide *;
    LongTearSwallows(torn, e, lsn, y);
    var buf, size := torn + CommitFrame(lsn, y), Read(torn, 0, 4);
    if 12 + size <= |buf| && Collect(buf[12..12 + size]) == [Commit(y)] {
      CommitLowByte(buf[12..12 + size], y);
    }
  }

  // ----- When appending to a reopened log is safe -----

  /** Recovery yields the decodable records of all entries. */
  ghost predicate Recovered(l: State) {
    Scan(l.file) == DecodableOf(EntriesOf(l.placed))
  }

  lemma TiledIsRecovered(l: State)
    requires Tiled(l)
    ensures Recovered(l)
  {
    TiledFits(l);
    ScanFrames(EntriesOf(l.placed), []);
    ShortScanIsEmpty([]);
    assert LogBytes(EntriesOf(l.placed)) + [] == LogBytes(EntriesOf(l.placed));
    hide LogBytes, DecodableOf, EntriesOf, Scan, Fits;
  }

  lemma CommitIsShort(y: u64)
    ensures |Serialize(Commit(y))| == 9
  {
  }

  /** A commit appended and flushed on the log reopened after a crash. */
  function CommitBehind(l: State, keep: nat, y: u64): (l': State)
    requires l.Valid() && l.synced <= keep <= |l.file| && |l.file| + 21 < U64
    ensures l'.Valid() && l'.Truthful()
  {
    CommitIsShort(y);
    Flushed(Appended(Crashed(l, keep), Commit(y)))
  }

  lemma BehindIs(l: State, keep: nat, y: u64)
    requires l.Valid() && l.synced <= keep <= |l.file| && |l.file| + 21 < U64
    ensures var was, l' := Crashed(l, keep), CommitBehind(l, keep, y);
            && was.nextLsn == keep + 1 && l'.file == was.file + CommitFrame(was.nextLsn, y)
            && EntriesOf(l'.placed) == EntriesOf(was.placed) + [Entry(was.nextLsn, Commit(y))]
  {
    CommitIsShort(y);
    hide Frame, Serialize, Surviving, State.Valid;
  }

  lemma BoundaryIsSafe(l: State, keep: nat, y: u64)
    requires l.Valid() && Tiled(l) && l.synced <= keep <= |l.file| && |l.file| + 21 < U64
    requires OnBoundary(l, keep)
    ensures Recovered(CommitBehind(l, keep, y))
  {
    CommitIsShort(y);
    ReopenedIsTiledIff(l, keep);
    hide State.Valid, Tiled, OnBoundary, Crashed, Recovered, Serialize;
    var l' := Appended(Crashed(l, keep), Commit(y));
    AppendStaysTiled(Crashed(l, keep), Commit(y));
    FlushStaysTiled(l');
    TiledIsRecovered(Flushed(l'));
  }

  lemma FlushStaysTiled(l: State)
    requires Tiled(l)
    ensures Tiled(Flushed(l))
  {
    hide LogBytes, EndsInPlace;
  }

  function IfDecodable(r: Record): seq<Record> {
    if Decodable(r) then [r] else []
  }

  lemma DecodableUnfold(es: seq<Entry>)
    requires es != []
    ensures DecodableOf(es) == IfDecodable(es[0].record) + DecodableOf(es[1..])
  {
    hide Decodable;
  }

  lemma {:induction false} DecodableConcat(es: seq<Entry>, e: Entry)
    ensures DecodableOf(es + [e]) == DecodableOf(es) + IfDecodable(e.record)
  {
    hide Decodable, DecodableOf, IfDecodable;
    var all := es + [e];
    DecodableUnfold(all);
    if es == [] {
      NothingDecodable(es);
      NothingDecodable(all[1..]);
    } else {
      DecodableUnfold(es);
      assert all[0] == es[0] && all[1..] == es[1..] + [e];
      DecodableConcat(es[1..], e);
      RegroupRecords(IfDecodable(es[0].record), DecodableOf(es[1..]), IfDecodable(e.record));
    }
  }

  lemma NothingDecodable(es: seq<Entry>)
    requires es == []
    ensures DecodableOf(es) == []
  {
  }

  lemma RegroupRecords(a: seq<Record>, b: seq<Record>, c: seq<Record>)
    ensures a + b + c == a + (b + c)
  {
  }

  lemma TearIsUnsafe(l: State, keep: nat) returns (y: u64)
    requires l.Valid() && Tiled(l) && l.synced <= keep <= |l.file| && |l.file| + 21 < U64
    requires !OnBoundary(l, keep)
    ensures !Recovered(CommitBehind(l, keep, y))
  {
    hide *;
    var k, torn := CutLeavesTear(l, keep);
    var es := EntriesOf(l.placed)[..k];
    TiledFits(l);
    y := TearHidesCommit(torn, l.placed[k].entry, keep + 1);
    BehindIs(l, keep, y);
    UnsafeBehind(es, torn, keep + 1, y);
    EntriesOfPrefix(l.placed, k);
    NotRecovered(CommitBehind(l, keep, y), es + [Entry(keep + 1, Commit(y))]);
  }

  lemma NotRecovered(l: State, es: seq<Entry>)
    requires EntriesOf(l.placed) == es && Scan(l.file) != DecodableOf(es)
    ensures !Recovered(l)
  {
  }

  lemma CancelFront<T>(a: seq<T>, b: seq<T>, c: seq<T>)
    ensures a + b == a + c ==> b == c
  {
    assert (a + b)[|a|..] == b && (a + c)[|a|..] == c;
  }

  lemma UnsafeBehind(es: seq<Entry>, torn: seq<byte>, lsn: u64, y: u64)
    requires (forall e :: e in es ==> Fits(e.record)) && Scan(torn + CommitFrame(lsn, y)) != [Commit(y)]
    ensures Scan((LogBytes(es) + torn) + CommitFrame(lsn, y)) != DecodableOf(es + [Entry(lsn, Commit(y))])
  {
    var e := Entry(lsn, Commit(y));
    assert IfDecodable(e.record) == [Commit(y)];
    hide *;
    DecodableConcat(es, e);
    ScanFrames(es, torn + CommitFrame(lsn, y));
    Regroup(LogBytes(es), torn, CommitFrame(lsn, y));
    CancelFront(DecodableOf(es), Scan(torn + CommitFrame(lsn, y)), [Commit(y)]);
  }

  lemma Regroup(a: seq<byte>, b: seq<byte>, c: seq<byte>)
    ensures a + b + c == a + (b + c)
  {
  }

  /** Every commit appended and flushed on a reopened log is recovered, with all that the log holds, if and only if the
      cut fell between frames. */
  lemma AppendIsRecoveredIff(l: State, keep: nat)
    requires l.Valid() && Tiled(l) && l.synced <= keep <= |l.file| && |l.file| + 21 < U64
    ensures OnBoundary(l, keep) <==> forall y: u64 :: Recovered(CommitBehind(l, keep, y))
  {
    hide *;
    if OnBoundary(l, keep) {
      forall y: u64
        ensures Recovered(CommitBehind(l, keep, y))
      {
        BoundaryIsSafe(l, keep, y);
      }
    } else {
      var y := TearIsUnsafe(l, keep);
    }
  }

  // ----- Two small runs -----

  lemma NothingLogged()
    ensures var l := Opened([], 0, []); l.Valid() && l.Truthful() && Tiled(l)
  {
  }

  lemma CommitFirst(l: State, x: u64)
    requires l == Opened([], 0, []) && l.Valid()
    ensures |l.file| + 12 + |Serialize(Commit(x))| < U64
    ensures var l' := Appended(l, Commit(x));
            && l'.synced == 0 && l'.flushedLsn == 0 && l'.file == CommitFrame(1, x)
            && l'.placed == [Placed(Entry(1, Commit(x)), 0, 21)]
  {
    hide Frame, Serialize, State.Valid, State.Durable, State.Truthful;
    CommitIsShort(x);
    CommitBytes(1, x);
    var f := Frame(Entry(1, Commit(x)));
    assert f == CommitFrame(1, x);
    hide CommitFrame;
    assert l.file + f == f && l.placed + [Placed(Entry(1, Commit(x)), 0, |f|)] == [Placed(Entry(1, Commit(x)), 0, |f|)];
  }

  /** A log of one commit, not flushed. */
  lemma FirstCommit(x: u64) returns (l: State)
    ensures l.Valid() && l.Truthful() && Tiled(l) && l.synced == 0 && l.flushedLsn == 0 && l.file == CommitFrame(1, x)
    ensures l.placed == [Placed(Entry(1, Commit(x)), 0, 21)]
  {
    hide *;
    var empty := Opened([], 0, []);
    NothingLogged();
    CommitFirst(empty, x);
    CommitFits(x);
    l := Appended(empty, Commit(x));
    AppendStaysTiled(empty, Commit(x));
  }

  lemma CommitFits(x: u64)
    ensures Fits(Commit(x))
  {
  }

  lemma NobodyLeft(p: Placed, keep: nat)
    requires p.end > keep
    ensures Surviving([p], keep) == []
  {
    assert [p][..0] == [];
  }

  lemma CutToOneByte(l: State, x: u64)
    requires l.Valid() && l.synced == 0 && l.file == CommitFrame(1, x)
    requires l.placed == [Placed(Entry(1, Commit(x)), 0, 21)]
    ensures 1 <= |l.file|
    ensures var l' := Crashed(l, 1); l'.file == [9] && l'.placed == [] && l'.nextLsn == 2
  {
    CommitBytes(1, x);
    NobodyLeft(l.placed[0], 1);
    hide CommitFrame, Surviving, State.Valid;
  }

  lemma CommitAfterTear(l: State, y: u64)
    requires l.Valid() && l.file == [9] && l.placed == [] && l.nextLsn == 2
    ensures |l.file| + 12 + |Serialize(Commit(y))| < U64
    ensures var l' := Flushed(Appended(l, Commit(y)));
            && l'.Valid() && l'.placed != [] && l'.placed[0].entry == Entry(2, Commit(y))
            && l'.flushedLsn == 2 && Scan(l'.file) == []
  {
    CommitIsShort(y);
    ShortTearStops([9], 2, y);
    hide Frame, Serialize, Scan, State.Valid, State.Durable;
  }

  /** What is appended behind a torn frame is lost, though it was flushed: a commit is cut after its first byte, and the
      scan takes that byte and the next commit for one longer frame. */
  lemma TornTailLosesAppend(x: u64, y: u64) returns (torn: State, reopened: State, l: State)
    ensures torn.Valid() && Tiled(torn) && torn.synced <= 1 <= |torn.file| && reopened == Crashed(torn, 1)
    ensures l.Valid() && l.placed != [] && l.placed[0].entry == Entry(reopened.nextLsn, Commit(y))
    ensures reopened.nextLsn <= l.flushedLsn && Scan(l.file) == []
  {
    hide *;
    torn := FirstCommit(x);
    CutToOneByte(torn, x);
    reopened := Crashed(torn, 1);
    CommitAfterTear(reopened, y);
    l := Flushed(Appended(reopened, Commit(y)));
  }

  /** A commit that was never flushed is reported as flushed once the log is reopened, and a loss of power then takes
      it. */
  lemma RestartForgetsCommit(x: u64) returns (l: State, reopened: State)
    ensures l.Valid() && Tiled(l) && l.placed != [] && l.placed[0].entry.record == Commit(x)
    ensures l.placed[0].entry.lsn > l.flushedLsn && reopened == Restarted(l)
    ensures reopened.placed == l.placed && l.placed[0].entry.lsn <= reopened.flushedLsn
    ensures reopened.synced == 0 && Scan(Crashed(reopened, 0).file) == []
  {
    l := FirstCommit(x);
    CommitBytes(1, x);
    hide CommitFrame, Tiled, State.Valid, State.Durable, Surviving;
    reopened := Restarted(l);
    ShortScanIsEmpty(Crashed(reopened, 0).file);
  }
}
