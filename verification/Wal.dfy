/** The write-ahead log: record codec, framing, recovery scan and LSN bookkeeping (wasdb_wal/src/lib.rs). */
module Wal {
  import opened Util

  datatype Record =
    | Insert(txnId: u64, fileId: u32, pageNum: u32, offset: u16, data: seq<byte>)
    | Commit(txnId: u64)
    | Abort(txnId: u64)

  /** The payload length, and so the data length, is representable in its u32 field. */
  predicate Fits(r: Record) {
    r.Insert? ==> 23 + |r.data| < U32
  }

  // ----- Record codec -----

  function Serialize(r: Record): seq<byte> {
    match r
    case Insert(_, _, _, _, _) => [1] + FromTxn(r)
    case Commit(txnId) => [2] + LeBytes(txnId, 8)
    case Abort(txnId) => [3] + LeBytes(txnId, 8)
  }

  // The fields of an insert, each followed by the rest of the record.

  function FromTxn(r: Record): seq<byte>
    requires r.Insert?
  {
    LeBytes(r.txnId, 8) + FromFile(r)
  }

  function FromFile(r: Record): seq<byte>
    requires r.Insert?
  {
    LeBytes(r.fileId, 4) + FromPage(r)
  }

  function FromPage(r: Record): seq<byte>
    requires r.Insert?
  {
    LeBytes(r.pageNum, 4) + FromOffset(r)
  }

  function FromOffset(r: Record): seq<byte>
    requires r.Insert?
  {
    LeBytes(r.offset, 2) + FromLength(r)
  }

  function FromLength(r: Record): seq<byte>
    requires r.Insert?
  {
    LeBytes(|r.data|, 4) + r.data
  }

  function Read(buf: seq<byte>, at: nat, width: nat): (v: nat)
    requires at + width <= |buf|
    ensures v < Capacity(width)
  {
    LeNatBound(buf[at..at + width]);
    LeNat(buf[at..at + width])
  }

  /** Mirrors the decoder, which asks for 25 bytes before it reads the 23-byte header of an insert. */
  function Deserialize(buf: seq<byte>): Option<(Record, nat)> {
    CapacityOfWidths();
    if buf == [] then None
    else if buf[0] == 1 then
      if |buf| < 25 then None
      else
        var len := Read(buf, 19, 4);
        if |buf| < 23 + len then None
        else Some((Insert(Read(buf, 1, 8), Read(buf, 9, 4), Read(buf, 13, 4), Read(buf, 17, 2), buf[23..23 + len]),
                   23 + len))
    else if buf[0] == 2 || buf[0] == 3 then
      if |buf| < 9 then None
      else if buf[0] == 2 then Some((Commit(Read(buf, 1, 8)), 9))
      else Some((Abort(Read(buf, 1, 8)), 9))
    else None
  }

  /** A field read back at its offset, and what follows it. */
  lemma ReadBack(buf: seq<byte>, at: nat, v: nat, width: nat, after: seq<byte>, rest: seq<byte>)
    requires v < Capacity(width) && at <= |buf| && buf[at..] == LeBytes(v, width) + after + rest
    ensures at + width <= |buf| && Read(buf, at, width) == v
    ensures buf[at + width..] == after + rest
  {
    assert buf[at..at + width] == buf[at..][..width] == LeBytes(v, width);
    assert buf[at + width..] == buf[at..][width..];
    LeRoundTrip(v, width);
  }

  lemma InsertStarts(r: Record, rest: seq<byte>)
    requires r.Insert?
    ensures var buf := Serialize(r) + rest;
            |buf| > 0 && buf[0] == 1 && buf[1..] == LeBytes(r.txnId, 8) + FromFile(r) + rest
  {
    hide LeBytes, FromFile;
  }

  /** The fixed-width fields of an insert, each found where the decoder looks for it. */
  lemma InsertFields(r: Record, rest: seq<byte>)
    requires r.Insert? && Fits(r)
    ensures var buf := Serialize(r) + rest;
            && |buf| == 23 + |r.data| + |rest| && buf[0] == 1
            && Read(buf, 1, 8) == r.txnId && Read(buf, 9, 4) == r.fileId && Read(buf, 13, 4) == r.pageNum
            && Read(buf, 17, 2) == r.offset && Read(buf, 19, 4) == |r.data|
            && buf[23..23 + |r.data|] == r.data
  {
    CapacityOfWidths();
    hide LeBytes, LeNat, Read, Capacity, FromFile;
    var buf := Serialize(r) + rest;
    InsertStarts(r, rest);
    hide Serialize;
    ReadBack(buf, 1, r.txnId, 8, FromFile(r), rest);
    InsertPageFields(r, buf, rest);
    InsertDataFields(r, buf, rest);
  }

  lemma InsertPageFields(r: Record, buf: seq<byte>, rest: seq<byte>)
    requires r.Insert? && Fits(r) && |buf| >= 9 && buf[9..] == FromFile(r) + rest
    ensures |buf| >= 17 && Read(buf, 9, 4) == r.fileId && Read(buf, 13, 4) == r.pageNum
    ensures buf[17..] == FromOffset(r) + rest
  {
    CapacityOfWidths();
    hide LeBytes, LeNat, Read, Capacity, FromOffset;
    ReadBack(buf, 9, r.fileId, 4, FromPage(r), rest);
    ReadBack(buf, 13, r.pageNum, 4, FromOffset(r), rest);
  }

  lemma InsertDataFields(r: Record, buf: seq<byte>, rest: seq<byte>)
    requires r.Insert? && Fits(r) && |buf| >= 17 && buf[17..] == FromOffset(r) + rest
    ensures |buf| == 23 + |r.data| + |rest|
    ensures Read(buf, 17, 2) == r.offset && Read(buf, 19, 4) == |r.data|
    ensures buf[23..23 + |r.data|] == r.data
  {
    CapacityOfWidths();
    hide LeBytes, LeNat, Read, Capacity;
    ReadBack(buf, 17, r.offset, 2, FromLength(r), rest);
    ReadBack(buf, 19, |r.data|, 4, r.data, rest);
    assert buf[23..][..|r.data|] == r.data;
  }

  /** `deserialize` undoes `serialize`, whatever follows, except that an insert whose data and trailing
      bytes together are shorter than two bytes is rejected. */
  lemma RecordRoundTrip(r: Record, rest: seq<byte>)
    requires Fits(r)
    ensures Deserialize(Serialize(r) + rest) == Some((r, |Serialize(r)|))
            <==> (r.Insert? ==> |r.data| + |rest| >= 2)
    ensures Deserialize(Serialize(r) + rest).None? <==> (r.Insert? && |r.data| + |rest| < 2)
  {
    if r.Insert? {
      InsertRoundTrip(r, rest);
    } else {
      EndRoundTrip(r, rest);
    }
    hide Deserialize;
  }

  /** The bytes of a number read back are those it was read from. */
  lemma {:induction false} LeBytesOfRead(bytes: seq<byte>)
    ensures LeBytes(LeNat(bytes), |bytes|) == bytes
  {
    if bytes != [] {
      LeBytesOfRead(bytes[1..]);
      var b, rest := bytes[0], LeNat(bytes[1..]);
      assert (b + 256 * rest) % 256 == b && (b + 256 * rest) / 256 == rest;
      assert bytes == [bytes[0]] + bytes[1..];
    }
  }

  lemma ReadBytes(buf: seq<byte>, at: nat, width: nat)
    requires at + width <= |buf|
    ensures LeBytes(Read(buf, at, width), width) == buf[at..at + width]
  {
    LeBytesOfRead(buf[at..at + width]);
  }

  lemma Joined(buf: seq<byte>, a: nat, b: nat, c: nat)
    requires a <= b <= c <= |buf|
    ensures buf[a..b] + buf[b..c] == buf[a..c]
  {
  }

  /** The insert that the decoder reads, its data up to byte `n`. */
  function InsertIn(buf: seq<byte>, n: nat): Record
    requires 23 <= n <= |buf|
  {
    CapacityOfWidths();
    Insert(Read(buf, 1, 8), Read(buf, 9, 4), Read(buf, 13, 4), Read(buf, 17, 2), buf[23..n])
  }

  lemma OffsetDecoded(buf: seq<byte>, n: nat)
    requires 23 <= n <= |buf| && Read(buf, 19, 4) == n - 23
    ensures FromOffset(InsertIn(buf, n)) == buf[17..n]
  {
    ReadBytes(buf, 17, 2);
    ReadBytes(buf, 19, 4);
    Joined(buf, 19, 23, n);
    Joined(buf, 17, 19, n);
    hide LeBytes, Read;
  }

  lemma FileDecoded(buf: seq<byte>, n: nat)
    requires 23 <= n <= |buf| && FromOffset(InsertIn(buf, n)) == buf[17..n]
    ensures FromFile(InsertIn(buf, n)) == buf[9..n]
  {
    ReadBytes(buf, 9, 4);
    ReadBytes(buf, 13, 4);
    Joined(buf, 13, 17, n);
    Joined(buf, 9, 13, n);
    hide LeBytes, Read, FromOffset;
  }

  lemma InsertDecoded(buf: seq<byte>, n: nat)
    requires 23 <= n <= |buf| && buf[0] == 1 && Read(buf, 19, 4) == n - 23
    ensures Serialize(InsertIn(buf, n)) == buf[..n]
  {
    OffsetDecoded(buf, n);
    FileDecoded(buf, n);
    ReadBytes(buf, 1, 8);
    Joined(buf, 1, 9, n);
    Joined(buf, 0, 1, n);
    hide LeBytes, Read, FromFile, FromOffset;
    assert buf[0..1] == [1] && buf[0..n] == buf[..n];
  }

  /** Whatever bytes the decoder accepts are those that encoding gives back. */
  lemma DecodedIsEncoded(buf: seq<byte>)
    requires Deserialize(buf).Some?
    ensures var (r, n) := Deserialize(buf).value; n <= |buf| && Serialize(r) == buf[..n]
  {
    if buf[0] == 1 {
      InsertDecoded(buf, 23 + Read(buf, 19, 4));
    } else {
      ReadBytes(buf, 1, 8);
      assert buf[..9] == [buf[0]] + buf[1..9];
      hide Read, LeBytes;
    }
    hide Serialize;
  }

  lemma InsertRoundTrip(r: Record, rest: seq<byte>)
    requires r.Insert? && Fits(r)
    ensures var buf := Serialize(r) + rest;
            Deserialize(buf) == if |r.data| + |rest| >= 2 then Some((r, |Serialize(r)|)) else None
  {
    InsertFields(r, rest);
    var buf := Serialize(r) + rest;
    assert |Serialize(r)| == 23 + |r.data|;
    hide Serialize, Read;
  }

  /** The one field of a commit or an abort. */
  lemma EndFields(r: Record, rest: seq<byte>)
    requires !r.Insert?
    ensures var buf := Serialize(r) + rest;
            && |Serialize(r)| == 9 && buf[0] == (if r.Commit? then 2 else 3) && Read(buf, 1, 8) == r.txnId
  {
    CapacityOfWidths();
    var buf := Serialize(r) + rest;
    hide LeBytes, LeNat, Read, Capacity;
    assert buf[1..] == LeBytes(r.txnId, 8) + [] + rest;
    ReadBack(buf, 1, r.txnId, 8, [], rest);
  }

  lemma EndRoundTrip(r: Record, rest: seq<byte>)
    requires !r.Insert?
    ensures Deserialize(Serialize(r) + rest) == Some((r, |Serialize(r)|))
  {
    hide Serialize, LeBytes, LeNat, Read, Capacity;
    EndFields(r, rest);
  }

  // ----- Framing and the recovery scan -----

  datatype Entry = Entry(lsn: u64, record: Record)

  function Frame(e: Entry): seq<byte> {
    LeBytes(|Serialize(e.record)|, 4) + LeBytes(e.lsn, 8) + Serialize(e.record)
  }

  /** A frame is the payload's length in four bytes, the LSN in eight, and the payload. */
  lemma FrameFields(e: Entry, rest: seq<byte>)
    requires Fits(e.record)
    ensures var buf, payload := Frame(e) + rest, Serialize(e.record);
            && |Frame(e)| == 12 + |payload| && Read(buf, 0, 4) == |payload| && Read(buf, 4, 8) == e.lsn
            && buf[12..12 + |payload|] == payload
  {
    CapacityOfWidths();
    var payload := Serialize(e.record);
    assert |payload| < U32;
    hide Serialize, LeBytes, Read, Capacity;
    var buf := Frame(e) + rest;
    assert buf[0..] == LeBytes(|payload|, 4) + (LeBytes(e.lsn, 8) + payload) + rest;
    ReadBack(buf, 0, |payload|, 4, LeBytes(e.lsn, 8) + payload, rest);
    assert buf[4..] == LeBytes(e.lsn, 8) + payload + rest;
    ReadBack(buf, 4, e.lsn, 8, payload, rest);
    assert buf[12..][..|payload|] == payload;
  }

  function LogBytes(entries: seq<Entry>): seq<byte> {
    if entries == [] then [] else Frame(entries[0]) + LogBytes(entries[1..])
  }

  /** The records that the recovery scan collects from a log suffix. */
  function Scan(buf: seq<byte>): seq<Record>
    decreases |buf|
  {
    if |buf| < 12 then []
    else
      var size := Read(buf, 0, 4);
      if 12 + size > |buf| then []
      else Collect(buf[12..12 + size]) + Scan(buf[12 + size..])
  }

  /** What one framed payload adds to the result: nothing if the decoder rejects it. */
  function Collect(payload: seq<byte>): seq<Record> {
    match Deserialize(payload)
    case None => []
    case Some(decoded) => [decoded.0]
  }

  lemma ScanAt(buf: seq<byte>, cursor: nat)
    requires cursor + 12 <= |buf|
    ensures var size, start := Read(buf, cursor, 4), cursor + 12;
            Scan(buf[cursor..]) ==
            if start + size > |buf| then []
            else Collect(buf[start..start + size]) + Scan(buf[start + size..])
  {
    var suffix := buf[cursor..];
    var size, start := Read(buf, cursor, 4), cursor + 12;
    assert suffix[0..4] == buf[cursor..cursor + 4];
    if start + size <= |buf| {
      assert suffix[12..12 + size] == buf[start..start + size];
      assert suffix[12 + size..] == buf[start + size..];
    }
  }

  /** Reads the frame header at the cursor and, unless the record is incomplete, its record. */
  method ReadFrame(buf: seq<byte>, cursor: nat) returns (complete: bool, found: seq<Record>, next: nat)
    requires cursor + 12 <= |buf|
    ensures !complete ==> Scan(buf[cursor..]) == []
    ensures complete ==> cursor < next <= |buf| && Scan(buf[cursor..]) == found + Scan(buf[next..])
  {
    hide *;
    ScanAt(buf, cursor);
    var size := Read(buf, cursor, 4);
    next := cursor + 12;
    if next + size > |buf| {
      return false, [], next;
    }
    found := Collect(buf[next..next + size]);
    return true, found, next + size;
  }

  method Recover(buf: seq<byte>) returns (records: seq<Record>)
    ensures records == Scan(buf)
  {
    records := [];
    var cursor := 0;
    assert buf[0..] == buf;
    while cursor + 12 <= |buf|
      invariant cursor <= |buf|
      invariant records + Scan(buf[cursor..]) == Scan(buf)
    {
      var complete, found, next := ReadFrame(buf, cursor);
      if !complete {
        return;
      }
      records := records + found;
      cursor := next;
    }
  }

  /** The decoder accepts the record on its own, as the scan presents it. */
  predicate Decodable(r: Record) {
    r.Insert? ==> |r.data| >= 2
  }

  function DecodableOf(entries: seq<Entry>): seq<Record> {
    if entries == [] then []
    else (if Decodable(entries[0].record) then [entries[0].record] else []) + DecodableOf(entries[1..])
  }

  /** How many entries lie wholly inside the first `n` bytes of the log. */
  function WhollyInside(entries: seq<Entry>, n: nat): (k: nat)
    ensures k <= |entries|
  {
    if entries == [] || |Frame(entries[0])| > n then 0
    else 1 + WhollyInside(entries[1..], n - |Frame(entries[0])|)
  }

  lemma WhollyInsideIsMaximal(entries: seq<Entry>, n: nat)
    ensures |LogBytes(entries[..WhollyInside(entries, n)])| <= n
    ensures forall k :: WhollyInside(entries, n) < k <= |entries| ==> |LogBytes(entries[..k])| > n
  {
    if entries != [] {
      forall k | 1 <= k <= |entries|
        ensures |LogBytes(entries[..k])| == |Frame(entries[0])| + |LogBytes(entries[1..][..k - 1])|
      {
        assert entries[..k][1..] == entries[1..][..k - 1];
      }
      if |Frame(entries[0])| <= n {
        WhollyInsideIsMaximal(entries[1..], n - |Frame(entries[0])|);
      }
    }
  }

  lemma ScanFrame(e: Entry, rest: seq<byte>)
    requires Fits(e.record)
    ensures Scan(Frame(e) + rest) == (if Decodable(e.record) then [e.record] else []) + Scan(rest)
  {
    CapacityOfWidths();
    var payload := Serialize(e.record);
    var buf := Frame(e) + rest;
    assert buf[0..] == LeBytes(|payload|, 4) + (LeBytes(e.lsn, 8) + payload) + rest;
    ReadBack(buf, 0, |payload|, 4, LeBytes(e.lsn, 8) + payload, rest);
    assert buf[12..12 + |payload|] == payload && buf[12 + |payload|..] == rest;
    RecordRoundTrip(e.record, []);
    assert payload + [] == payload;
  }

  lemma ScanTornFrame(e: Entry, n: nat)
    requires Fits(e.record) && n < |Frame(e)|
    ensures Scan(Frame(e)[..n]) == []
  {
    CapacityOfWidths();
    var payload := Serialize(e.record);
    if n >= 12 {
      var buf := Frame(e)[..n];
      assert buf[0..] == LeBytes(|payload|, 4) + buf[4..] + [];
      ReadBack(buf, 0, |payload|, 4, buf[4..], []);
    }
  }

  /** Recovery of a log cut at any byte returns exactly the decodable records wholly before the cut, in
      order; a record the decoder rejects costs only itself. */
  lemma {:induction false} RecoverTruncated(entries: seq<Entry>, n: nat)
    requires forall e :: e in entries ==> Fits(e.record)
    requires n <= |LogBytes(entries)|
    ensures Scan(LogBytes(entries)[..n]) == DecodableOf(entries[..WhollyInside(entries, n)])
  {
    assert Scan([]) == [];
    hide Scan, Frame, Decodable;
    if entries != [] {
      var frame, rest := Frame(entries[0]), LogBytes(entries[1..]);
      if |frame| <= n {
        RecoverTruncated(entries[1..], n - |frame|);
        ScanFrame(entries[0], rest[..n - |frame|]);
        TakeOfConcat(frame, rest, n);
        FirstIsInside(entries, n);
      } else {
        TakeOfConcat(frame, rest, n);
        ScanTornFrame(entries[0], n);
      }
    }
  }

  lemma TakeOfConcat(a: seq<byte>, b: seq<byte>, n: nat)
    requires n <= |a| + |b|
    ensures (a + b)[..n] == if n < |a| then a[..n] else a + b[..n - |a|]
  {
  }

  lemma FirstIsInside(entries: seq<Entry>, n: nat)
    requires entries != [] && |Frame(entries[0])| <= n
    ensures DecodableOf(entries[..WhollyInside(entries, n)]) ==
            (if Decodable(entries[0].record) then [entries[0].record] else [])
            + DecodableOf(entries[1..][..WhollyInside(entries[1..], n - |Frame(entries[0])|)])
  {
    var k := WhollyInside(entries, n);
    assert entries[..k][1..] == entries[1..][..k - 1];
  }

  function RecordsOf(entries: seq<Entry>): seq<Record> {
    if entries == [] then [] else [entries[0].record] + RecordsOf(entries[1..])
  }

  lemma {:induction false} DecodableOfLength(entries: seq<Entry>)
    ensures |DecodableOf(entries)| <= |entries| == |RecordsOf(entries)|
    ensures DecodableOf(entries) == RecordsOf(entries) <==> forall e :: e in entries ==> Decodable(e.record)
  {
    if entries != [] {
      DecodableOfLength(entries[1..]);
      assert forall e :: e in entries <==> e == entries[0] || e in entries[1..];
      assert DecodableOf(entries) == RecordsOf(entries) ==> DecodableOf(entries)[1..] == RecordsOf(entries)[1..];
    }
  }

  lemma {:induction false} AllWhollyInside(entries: seq<Entry>)
    ensures WhollyInside(entries, |LogBytes(entries)|) == |entries|
  {
    if entries != [] {
      AllWhollyInside(entries[1..]);
    }
  }

  /** Recovery of a complete log returns every record exactly when no insert carries fewer than two bytes. */
  lemma RecoversEverythingIff(entries: seq<Entry>)
    requires forall e :: e in entries ==> Fits(e.record)
    ensures Scan(LogBytes(entries)) == RecordsOf(entries) <==> forall e :: e in entries ==> Decodable(e.record)
  {
    var n := |LogBytes(entries)|;
    assert LogBytes(entries)[..n] == LogBytes(entries);
    RecoverTruncated(entries, n);
    assert entries[..|entries|] == entries;
    AllWhollyInside(entries);
    DecodableOfLength(entries);
  }

  /** Such an insert exists: a one-byte insert is written to the log and never recovered. */
  lemma ShortInsertIsLost(e: Entry)
    requires e.record == Insert(7, 0, 0, 0, [42])
    ensures Scan(LogBytes([e])) != RecordsOf([e])
  {
    RecoversEverythingIff([e]);
    assert e in [e] && !Decodable(e.record);
  }
}
