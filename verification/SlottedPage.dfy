/** A page of records: a slot directory grows up from the header, records grow down from the end
    (wasdb_page/src/lib.rs). */
module SlottedPages {
  import opened Bytes
  import opened Storage
  import opened Util

  const HEADER_SIZE := 24
  const SLOT_SIZE := 4
  const TUPLE_HEADER_SIZE := 16

  // Header fields after the log sequence number and the next page number.
  const SLOTS_AT := 12
  const LOWER_AT := 14
  const UPPER_AT := 16

  // ----- The records a page holds -----

  datatype Stored = Stored(xmin: u64, xmax: u64, record: seq<byte>)
  {
    function Size(): nat {
      TUPLE_HEADER_SIZE + |record|
    }

    function Header(): (h: seq<byte>)
      ensures |h| == TUPLE_HEADER_SIZE
    {
      LeBytes(xmin, 8) + LeBytes(xmax, 8)
    }

    function Bytes(): (b: seq<byte>)
      ensures |b| == Size()
    {
      Header() + record
    }
  }

  function Used(rs: seq<Stored>): nat {
    if rs == [] then 0 else Used(rs[..|rs| - 1]) + rs[|rs| - 1].Size()
  }

  function Lower(rs: seq<Stored>): nat {
    HEADER_SIZE + SLOT_SIZE * |rs|
  }

  function Upper(rs: seq<Stored>): int {
    PAGE_SIZE - Used(rs)
  }

  /** Where record `i` starts: right below the one before it, the first at the end of the page. */
  function Start(rs: seq<Stored>, i: nat): int
    requires i < |rs|
  {
    Upper(rs[..i + 1])
  }

  function SlotAt(i: nat): nat {
    HEADER_SIZE + SLOT_SIZE * i
  }

  ghost predicate Holds(b: Page, rs: seq<Stored>, i: nat)
    requires i < |rs|
  {
    HoldsAt(b, i, Start(rs, i), rs[i])
  }

  /** Slot `i` names the range that starts at `start` and holds the record. */
  ghost predicate HoldsAt(b: Page, i: nat, start: int, s: Stored) {
    && SlotAt(i + 1) <= start && start + s.Size() <= PAGE_SIZE
    && b[SlotAt(i)..SlotAt(i) + 2] == U16Bytes(start)
    && b[SlotAt(i) + 2..SlotAt(i) + 4] == U16Bytes(s.Size())
    && b[start..start + s.Size()] == s.Bytes()
  }

  ghost predicate HeaderSays(b: Page, rs: seq<Stored>) {
    && U16At(b, SLOTS_AT) == |rs|
    && U16At(b, LOWER_AT) == Lower(rs)
    && U16At(b, UPPER_AT) == Upper(rs)
  }

  /** The page holds exactly these records: the directory ends at or below the records, and every slot
      names its record. */
  ghost predicate Realises(b: Page, rs: seq<Stored>) {
    && Lower(rs) <= Upper(rs)
    && HeaderSays(b, rs)
    && forall i :: 0 <= i < |rs| ==> Holds(b, rs, i)
  }

  lemma {:induction false} UsedOfPrefix(rs: seq<Stored>, i: nat)
    requires i <= |rs|
    ensures Used(rs[..i]) <= Used(rs)
    decreases |rs|
  {
    if i < |rs| {
      var front := rs[..|rs| - 1];
      UsedOfPrefix(front, i);
      assert front[..i] == rs[..i];
    } else {
      assert rs[..i] == rs;
    }
  }

  /** Records tile the space from the upper bound to the end of the page: each one ends where the one
      before it starts, the first ends the page, the last starts at the upper bound. */
  lemma RecordsTile(rs: seq<Stored>, i: nat)
    requires i < |rs|
    ensures Start(rs, i) + rs[i].Size() == if i == 0 then PAGE_SIZE as int else Start(rs, i - 1)
    ensures i == |rs| - 1 ==> Start(rs, i) == Upper(rs)
    ensures Upper(rs) <= Start(rs, i) && Start(rs, i) + rs[i].Size() <= PAGE_SIZE
  {
    var upTo := rs[..i + 1];
    assert upTo[..i] == rs[..i];
    assert Used(upTo) == Used(rs[..i]) + rs[i].Size();
    UsedOfPrefix(rs, i + 1);
    if i == |rs| - 1 {
      assert upTo == rs;
    }
  }

  /** Hence no two records overlap. */
  lemma RecordsApart(rs: seq<Stored>, i: nat, j: nat)
    requires i < j < |rs|
    ensures Start(rs, j) + rs[j].Size() <= Start(rs, i)
  {
    RecordsTile(rs, j);
    UsedOfPrefix(rs[..j], i + 1);
    assert rs[..j][..i + 1] == rs[..i + 1];
    assert rs[..j - 1 + 1] == rs[..j];
  }

  // ----- Operations on the bytes -----

  function InitBytes(b: Page): Page {
    var head := LeBytes(0, 8) + LeBytes(U32 - 1, 4);
    var counts := U16Bytes(0) + U16Bytes(HEADER_SIZE) + U16Bytes(PAGE_SIZE) + U16Bytes(0);
    Splice(Splice(b, 0, head), SLOTS_AT, counts)
  }

  datatype Insertion = Inserted(slot: nat, page: Page) | Full | Aborted

  /** What an insertion writes: the record, the new bounds and count, then the slot. */
  function WithRecord(b: Page, s: Stored, slot: nat, start: nat, lower: u16): Page
    requires start + s.Size() <= PAGE_SIZE && SlotAt(slot + 1) <= PAGE_SIZE && slot + 1 < U16
  {
    var b1 := Splice(b, start, s.Bytes());
    var b2 := Splice(Splice(Splice(b1, SLOTS_AT, U16Bytes(slot + 1)), LOWER_AT, U16Bytes(lower)),
                     UPPER_AT, U16Bytes(start));
    Splice(Splice(b2, SlotAt(slot), U16Bytes(start)), SlotAt(slot) + 2, U16Bytes(s.Size() % U16))
  }

  /** The guard truncates the space required to 16 bits, and so does the placement. `Aborted` stands for an
      arithmetic overflow or an access outside the page. */
  function Insert(b: Page, record: seq<byte>, xmin: u64): Insertion {
    var slots, lower, upper := U16At(b, SLOTS_AT), U16At(b, LOWER_AT), U16At(b, UPPER_AT);
    var s := Stored(xmin, 0, record);
    if upper < lower then Aborted
    else if upper - lower < (s.Size() + SLOT_SIZE) % U16 then Full
    else
      var start := upper - s.Size() % U16;
      if start < 0 || start + s.Size() > PAGE_SIZE || SlotAt(slots + 1) > PAGE_SIZE || slots + 1 >= U16
         || lower + SLOT_SIZE >= U16
      then Aborted
      else Inserted(slots, WithRecord(b, s, slots, start, lower + SLOT_SIZE))
  }

  /** A range that the insertion does not write. */
  predicate Apart(s: Stored, slot: nat, start: nat, lo: nat, hi: nat) {
    || hi <= SLOTS_AT
    || UPPER_AT + 2 <= lo <= hi <= SlotAt(slot)
    || SlotAt(slot + 1) <= lo <= hi <= start
    || start + s.Size() <= lo
  }

  /** The page after the record and the three header fields. */
  function WithHeader(b: Page, s: Stored, slot: nat, start: nat, lower: u16): Page
    requires start + s.Size() <= PAGE_SIZE && slot + 1 < U16
  {
    var b1 := Splice(b, start, s.Bytes());
    Splice(Splice(Splice(b1, SLOTS_AT, U16Bytes(slot + 1)), LOWER_AT, U16Bytes(lower)), UPPER_AT, U16Bytes(start))
  }

  lemma WithHeaderReads(b: Page, s: Stored, slot: nat, start: nat, lower: u16, lo: nat, hi: nat)
    requires start + s.Size() <= PAGE_SIZE && slot + 1 < U16 && SlotAt(slot + 1) <= start && lo <= hi <= PAGE_SIZE
    ensures var read := WithHeader(b, s, slot, start, lower)[lo..hi];
            && (Apart(s, slot, start, lo, hi) || (SlotAt(slot) <= lo && hi <= SlotAt(slot + 1)) ==> read == b[lo..hi])
            && (lo == start && hi == start + s.Size() ==> read == s.Bytes())
            && (lo == SLOTS_AT && hi == lo + 2 ==> read == U16Bytes(slot + 1))
            && (lo == LOWER_AT && hi == lo + 2 ==> read == U16Bytes(lower))
            && (lo == UPPER_AT && hi == lo + 2 ==> read == U16Bytes(start))
  {
    var b1 := Splice(b, start, s.Bytes());
    var b2 := Splice(b1, SLOTS_AT, U16Bytes(slot + 1));
    var b3 := Splice(b2, LOWER_AT, U16Bytes(lower));
    hide Splice, U16Bytes, Stored.Bytes;
    SpliceReads(b, start, s.Bytes(), lo, hi);
    SpliceReads(b1, SLOTS_AT, U16Bytes(slot + 1), lo, hi);
    SpliceReads(b2, LOWER_AT, U16Bytes(lower), lo, hi);
    SpliceReads(b3, UPPER_AT, U16Bytes(start), lo, hi);
  }

  /** What a read of the new page sees. */
  lemma WithRecordReads(b: Page, s: Stored, slot: nat, start: nat, lower: u16, lo: nat, hi: nat)
    requires start + s.Size() <= PAGE_SIZE && slot + 1 < U16 && SlotAt(slot + 1) <= start && lo <= hi <= PAGE_SIZE
    ensures var read := WithRecord(b, s, slot, start, lower)[lo..hi];
            && (Apart(s, slot, start, lo, hi) ==> read == b[lo..hi])
            && (lo == start && hi == start + s.Size() ==> read == s.Bytes())
            && (lo == SLOTS_AT && hi == lo + 2 ==> read == U16Bytes(slot + 1))
            && (lo == LOWER_AT && hi == lo + 2 ==> read == U16Bytes(lower))
            && (lo == UPPER_AT && hi == lo + 2 ==> read == U16Bytes(start))
            && (lo == SlotAt(slot) && hi == lo + 2 ==> read == U16Bytes(start))
            && (lo == SlotAt(slot) + 2 && hi == lo + 2 ==> read == U16Bytes(s.Size() % U16))
  {
    var b4 := WithHeader(b, s, slot, start, lower);
    var b5 := Splice(b4, SlotAt(slot), U16Bytes(start));
    assert WithRecord(b, s, slot, start, lower) == Splice(b5, SlotAt(slot) + 2, U16Bytes(s.Size() % U16));
    hide Splice, U16Bytes, Stored.Bytes, WithHeader, WithRecord;
    WithHeaderReads(b, s, slot, start, lower, lo, hi);
    SpliceReads(b4, SlotAt(slot), U16Bytes(start), lo, hi);
    SpliceReads(b5, SlotAt(slot) + 2, U16Bytes(s.Size() % U16), lo, hi);
  }

  // ----- Insertion -----

  function Free(rs: seq<Stored>): int {
    Upper(rs) - Lower(rs)
  }

  /** What an insertion should do: take the record exactly when it and its slot fit. */
  function Taken(rs: seq<Stored>, record: seq<byte>, xmin: u64): seq<Stored> {
    if Fits(rs, record) then rs + [Stored(xmin, 0, record)] else rs
  }

  predicate Fits(rs: seq<Stored>, record: seq<byte>) {
    |record| + TUPLE_HEADER_SIZE + SLOT_SIZE <= Free(rs)
  }

  lemma TakenLayout(rs: seq<Stored>, s: Stored)
    ensures Used(rs + [s]) == Used(rs) + s.Size() && Lower(rs + [s]) == Lower(rs) + SLOT_SIZE
    ensures forall i :: 0 <= i < |rs| ==> Start(rs + [s], i) == Start(rs, i)
    ensures Start(rs + [s], |rs|) == Upper(rs) - s.Size()
  {
    var all := rs + [s];
    assert all[..|all| - 1] == rs && all[..|all|] == all;
    forall i | 0 <= i < |rs|
      ensures Start(all, i) == Start(rs, i)
    {
      StartStays(rs, s, i);
    }
  }

  lemma StartStays(rs: seq<Stored>, s: Stored, i: nat)
    requires i < |rs|
    ensures Start(rs + [s], i) == Start(rs, i)
  {
    assert (rs + [s])[..i + 1] == rs[..i + 1];
    hide Used;
  }

  lemma RoomForSlot(b: Page, rs: seq<Stored>, s: Stored)
    requires Realises(b, rs) && s.Size() + SLOT_SIZE <= Free(rs)
    ensures |rs| + 1 < U16 && Lower(rs) + SLOT_SIZE < U16 && s.Size() < U16
    ensures SlotAt(|rs| + 1) <= Upper(rs) - s.Size() < U16 && Upper(rs) <= PAGE_SIZE
  {
  }

  /** The new page holds the new record and everything it held before. */
  lemma WithRecordHolds(b: Page, rs: seq<Stored>, s: Stored)
    requires Realises(b, rs) && s.Size() + SLOT_SIZE <= Free(rs)
    ensures |rs| + 1 < U16 && Lower(rs) + SLOT_SIZE < U16
    ensures Realises(WithRecord(b, s, |rs|, Upper(rs) - s.Size(), Lower(rs) + SLOT_SIZE), rs + [s])
  {
    RoomForSlot(b, rs, s);
    var all, b' := rs + [s], WithRecord(b, s, |rs|, Upper(rs) - s.Size(), Lower(rs) + SLOT_SIZE);
    assert Lower(rs + [s]) <= Upper(rs + [s]) by {
      TakenLayout(rs, s);
    }
    hide WithRecord, HeaderSays, Holds;
    NewHeader(b, rs, s);
    forall i | 0 <= i < |all|
      ensures Holds(b', all, i)
    {
      if i == |rs| {
        NewRecordHolds(b, rs, s);
      } else {
        OldRecordHolds(b, rs, s, i);
      }
    }
  }

  lemma NewHeader(b: Page, rs: seq<Stored>, s: Stored)
    requires Realises(b, rs) && s.Size() + SLOT_SIZE <= Free(rs) && |rs| + 1 < U16 && Lower(rs) + SLOT_SIZE < U16
    ensures HeaderSays(WithRecord(b, s, |rs|, Upper(rs) - s.Size(), Lower(rs) + SLOT_SIZE), rs + [s])
  {
    RoomForSlot(b, rs, s);
    TakenLayout(rs, s);
    hide WithRecord, Splice, U16Bytes, U16At, Realises;
    var n, start, lower := |rs|, Upper(rs) - s.Size(), Lower(rs) + SLOT_SIZE;
    var b' := WithRecord(b, s, n, start, lower);
    WithRecordReads(b, s, n, start, lower, SLOTS_AT, SLOTS_AT + 2);
    WithRecordReads(b, s, n, start, lower, LOWER_AT, LOWER_AT + 2);
    WithRecordReads(b, s, n, start, lower, UPPER_AT, UPPER_AT + 2);
    U16RoundTrip(b', SLOTS_AT, n + 1);
    U16RoundTrip(b', LOWER_AT, lower);
    U16RoundTrip(b', UPPER_AT, start);
  }

  lemma NewRecordHolds(b: Page, rs: seq<Stored>, s: Stored)
    requires Realises(b, rs) && s.Size() + SLOT_SIZE <= Free(rs) && |rs| + 1 < U16 && Lower(rs) + SLOT_SIZE < U16
    ensures Holds(WithRecord(b, s, |rs|, Upper(rs) - s.Size(), Lower(rs) + SLOT_SIZE), rs + [s], |rs|)
  {
    hide *;
    RoomForSlot(b, rs, s);
    TakenLayout(rs, s);
    var start, lower := Upper(rs) - s.Size(), Lower(rs) + SLOT_SIZE;
    NowHeld(b, s, |rs|, start, lower);
    HeldInList(WithRecord(b, s, |rs|, start, lower), rs + [s], |rs|, start);
  }

  lemma NowHeld(b: Page, s: Stored, slot: nat, start: nat, lower: u16)
    requires slot + 1 < U16 && SlotAt(slot + 1) <= start && start + s.Size() <= PAGE_SIZE && s.Size() < U16
    ensures HoldsAt(WithRecord(b, s, slot, start, lower), slot, start, s)
  {
    hide WithRecord, Splice, U16Bytes, Stored.Bytes;
    WithRecordReads(b, s, slot, start, lower, SlotAt(slot), SlotAt(slot) + 2);
    WithRecordReads(b, s, slot, start, lower, SlotAt(slot) + 2, SlotAt(slot) + 4);
    WithRecordReads(b, s, slot, start, lower, start, start + s.Size());
    assert s.Size() % U16 == s.Size();
  }

  lemma OldRecordHolds(b: Page, rs: seq<Stored>, s: Stored, i: nat)
    requires Realises(b, rs) && s.Size() + SLOT_SIZE <= Free(rs) && |rs| + 1 < U16 && Lower(rs) + SLOT_SIZE < U16
    requires i < |rs|
    ensures Holds(WithRecord(b, s, |rs|, Upper(rs) - s.Size(), Lower(rs) + SLOT_SIZE), rs + [s], i)
  {
    hide *;
    RoomForSlot(b, rs, s);
    TakenLayout(rs, s);
    RecordsTile(rs, i);
    RecordHeld(b, rs, i);
    var start, lower := Upper(rs) - s.Size(), Lower(rs) + SLOT_SIZE;
    StillHeld(b, s, |rs|, start, lower, i, Start(rs, i), rs[i]);
    HeldInList(WithRecord(b, s, |rs|, start, lower), rs + [s], i, Start(rs, i));
  }

  lemma RecordHeld(b: Page, rs: seq<Stored>, i: nat)
    requires Realises(b, rs) && i < |rs|
    ensures HoldsAt(b, i, Start(rs, i), rs[i]) && Start(rs, i) >= 0
  {
    assert Holds(b, rs, i);
  }

  lemma HeldInList(b: Page, rs: seq<Stored>, i: nat, start: int)
    requires i < |rs| && start == Start(rs, i) && HoldsAt(b, i, start, rs[i])
    ensures Holds(b, rs, i)
  {
  }

  lemma StillHeld(b: Page, s: Stored, slot: nat, start: nat, lower: u16, i: nat, at: nat, held: Stored)
    requires HoldsAt(b, i, at, held)
    requires i < slot && start + s.Size() <= at && slot + 1 < U16 && SlotAt(slot + 1) <= start
    ensures at + held.Size() <= PAGE_SIZE && HoldsAt(WithRecord(b, s, slot, start, lower), i, at, held)
  {
    hide WithRecord, Splice, U16Bytes, Stored.Bytes;
    WithRecordReads(b, s, slot, start, lower, SlotAt(i), SlotAt(i) + 2);
    WithRecordReads(b, s, slot, start, lower, SlotAt(i) + 2, SlotAt(i) + 4);
    WithRecordReads(b, s, slot, start, lower, at, at + held.Size());
  }

  /** The 16-bit truncation in the guard does no harm: the space required fits in 16 bits, or what is left
      of it after truncation still exceeds the free space. */
  predicate GuardIsExact(length: nat, free: int) {
    length + TUPLE_HEADER_SIZE + SLOT_SIZE < U16 || free < (length + TUPLE_HEADER_SIZE + SLOT_SIZE) % U16
  }

  ghost predicate InsertIsRight(b: Page, rs: seq<Stored>, record: seq<byte>, xmin: u64) {
    match Insert(b, record, xmin)
    case Full => !Fits(rs, record)
    case Inserted(slot, b') => Fits(rs, record) && slot == |rs| && Realises(b', Taken(rs, record, xmin))
    case Aborted => false
  }

  /** On every reachable page an insertion takes the record exactly when it fits, keeping every other one,
      if and only if the guard is exact. */
  lemma InsertIsRightIff(b: Page, rs: seq<Stored>, record: seq<byte>, xmin: u64)
    requires Realises(b, rs)
    ensures InsertIsRight(b, rs, record, xmin) <==> GuardIsExact(|record|, Free(rs))
  {
    hide Insert, Realises;
    if Fits(rs, record) {
      InsertTakes(b, rs, record, xmin);
    } else {
      InsertRefuses(b, rs, record, xmin);
    }
  }

  lemma InsertTakes(b: Page, rs: seq<Stored>, record: seq<byte>, xmin: u64)
    requires Realises(b, rs) && Fits(rs, record)
    ensures var r := Insert(b, record, xmin);
            && r.Inserted? && r.slot == |rs| && Realises(r.page, Taken(rs, record, xmin))
            && r.page == WithRecord(b, Stored(xmin, 0, record), |rs|, Upper(rs) - TUPLE_HEADER_SIZE - |record|,
                                    Lower(rs) + SLOT_SIZE)
  {
    hide *;
    var s := Stored(xmin, 0, record);
    FitsMeans(rs, record, xmin);
    HeaderReads(b, rs);
    RoomForSlot(b, rs, s);
    WithRecordHolds(b, rs, s);
    InsertWrites(b, record, xmin, |rs|, Lower(rs), Upper(rs));
  }

  lemma FitsMeans(rs: seq<Stored>, record: seq<byte>, xmin: u64)
    requires Fits(rs, record)
    ensures var s := Stored(xmin, 0, record);
            && s.Size() + SLOT_SIZE <= Free(rs) == Upper(rs) - Lower(rs) && s.Size() == TUPLE_HEADER_SIZE + |record|
            && Taken(rs, record, xmin) == rs + [s]
  {
  }

  lemma InsertWrites(b: Page, record: seq<byte>, xmin: u64, slots: nat, lower: nat, upper: int)
    requires U16At(b, SLOTS_AT) == slots && U16At(b, LOWER_AT) == lower && U16At(b, UPPER_AT) == upper <= PAGE_SIZE
    requires TUPLE_HEADER_SIZE + |record| + SLOT_SIZE <= upper - lower
    requires slots + 1 < U16 && lower + SLOT_SIZE < U16 && SlotAt(slots + 1) <= upper - TUPLE_HEADER_SIZE - |record|
    ensures var s, start := Stored(xmin, 0, record), upper - TUPLE_HEADER_SIZE - |record|;
            Insert(b, record, xmin) == Inserted(slots, WithRecord(b, s, slots, start, lower + SLOT_SIZE))
  {
    hide WithRecord, U16At, Stored.Bytes, Stored.Header;
    var s := Stored(xmin, 0, record);
    SmallNeed(s);
    assert !(upper - lower < (s.Size() + SLOT_SIZE) % U16);
  }

  lemma InsertRefuses(b: Page, rs: seq<Stored>, record: seq<byte>, xmin: u64)
    requires Realises(b, rs) && !Fits(rs, record)
    ensures Insert(b, record, xmin).Full? <==> GuardIsExact(|record|, Free(rs))
  {
    var s := Stored(xmin, 0, record);
    HeaderReads(b, rs);
    hide Realises, WithRecord, U16At;
    if s.Size() + SLOT_SIZE < U16 {
      SmallNeed(s);
    }
  }

  lemma HeaderReads(b: Page, rs: seq<Stored>)
    requires Realises(b, rs)
    ensures U16At(b, SLOTS_AT) == |rs| && U16At(b, LOWER_AT) == Lower(rs) && U16At(b, UPPER_AT) == Upper(rs)
  {
  }

  lemma SmallNeed(s: Stored)
    requires s.Size() + SLOT_SIZE < U16
    ensures (s.Size() + SLOT_SIZE) % U16 == s.Size() + SLOT_SIZE && s.Size() % U16 == s.Size()
  {
  }

  /** A record of 65516 bytes needs 65536 with its slot, which truncates to zero: no page refuses it, and
      none can hold it. */
  lemma LongRecordPassesGuard(b: Page, rs: seq<Stored>, record: seq<byte>)
    requires Realises(b, rs) && |record| == 65516
    ensures !Fits(rs, record) && !Insert(b, record, 7).Full? && !InsertIsRight(b, rs, record, 7)
  {
    InsertIsRightIff(b, rs, record, 7);
  }

  // ----- Reading and deleting -----

  /** The record in a slot of a page: nothing when the slot does not exist or is empty. */
  function Get(b: Page, slot: nat): Option<Stored> {
    if slot >= U16At(b, SLOTS_AT) || SlotAt(slot + 1) > PAGE_SIZE || U16At(b, SlotAt(slot) + 2) == 0 then None else
    var start, length := U16At(b, SlotAt(slot)), U16At(b, SlotAt(slot) + 2);
    if length < TUPLE_HEADER_SIZE || start + length > PAGE_SIZE then None
    else Some(Stored(U64At(b, start), U64At(b, start + 8), b[start + TUPLE_HEADER_SIZE..start + length]))
  }

  lemma SlotReads(b: Page, rs: seq<Stored>, i: nat)
    requires Realises(b, rs) && i < |rs|
    ensures SlotAt(i + 1) <= PAGE_SIZE && rs[i].Size() < U16
    ensures U16At(b, SlotAt(i)) == Start(rs, i) && U16At(b, SlotAt(i) + 2) == rs[i].Size()
  {
    assert Holds(b, rs, i);
    hide Realises, U16At;
    U16RoundTrip(b, SlotAt(i), Start(rs, i));
    U16RoundTrip(b, SlotAt(i) + 2, rs[i].Size());
  }

  lemma TupleReads(b: Page, at: nat, s: Stored)
    requires at + s.Size() <= PAGE_SIZE && b[at..at + s.Size()] == s.Bytes()
    ensures U64At(b, at) == s.xmin && U64At(b, at + 8) == s.xmax
    ensures b[at + TUPLE_HEADER_SIZE..at + s.Size()] == s.record
  {
    var t := b[at..at + s.Size()];
    var x, y := LeBytes(s.xmin, 8), LeBytes(s.xmax, 8);
    assert t == x + y + s.record;
    assert t[..8] == x && t[8..16] == y && t[16..] == s.record;
    SliceOfSlice(b, at, s.Size(), 0, 8);
    SliceOfSlice(b, at, s.Size(), 8, 16);
    SliceOfSlice(b, at, s.Size(), 16, s.Size());
    U64RoundTrip(b, at, s.xmin);
    U64RoundTrip(b, at + 8, s.xmax);
  }

  /** What the reads of a slot and of its record give. */
  lemma StoredReads(b: Page, rs: seq<Stored>, i: nat)
    requires Realises(b, rs) && i < |rs|
    ensures SlotAt(i + 1) <= PAGE_SIZE && rs[i].Size() == U16At(b, SlotAt(i) + 2)
    ensures var start := U16At(b, SlotAt(i));
            && start + rs[i].Size() <= PAGE_SIZE
            && U64At(b, start) == rs[i].xmin && U64At(b, start + 8) == rs[i].xmax
            && b[start + TUPLE_HEADER_SIZE..start + rs[i].Size()] == rs[i].record
  {
    SlotReads(b, rs, i);
    assert Holds(b, rs, i);
    hide Realises, U16At, U64At, Stored.Bytes;
    TupleReads(b, Start(rs, i), rs[i]);
  }

  /** Where everything lies in a page: behind the LSN and the next page number the number of slots, the end of the
      directory and the start of the records; then four bytes for each slot, with offset and length; and in a record its
      xmin, its xmax and its bytes. */
  lemma PageLayout(b: Page, rs: seq<Stored>, i: nat)
    requires Realises(b, rs)
    ensures U16At(b, 12) == |rs| && U16At(b, 14) == 24 + 4 * |rs|
    ensures U16At(b, 16) == if rs == [] then PAGE_SIZE as int else Start(rs, |rs| - 1)
    ensures i < |rs| ==>
              && 24 + 4 * i + 4 <= PAGE_SIZE
              && var start, size := U16At(b, 24 + 4 * i), 16 + |rs[i].record|;
              && start + size <= PAGE_SIZE && U16At(b, 24 + 4 * i + 2) == size
              && U64At(b, start) == rs[i].xmin && U64At(b, start + 8) == rs[i].xmax
              && b[start + 16..start + size] == rs[i].record
  {
    if rs != [] {
      RecordsTile(rs, |rs| - 1);
    }
    HeaderReads(b, rs);
    if i < |rs| {
      StoredReads(b, rs, i);
    }
    hide Holds, U16At, U64At, Start;
  }

  /** Every slot returns just the record that went in, and other slots nothing. */
  lemma GetReturnsStored(b: Page, rs: seq<Stored>, slot: nat)
    requires Realises(b, rs)
    ensures Get(b, slot) == if slot < |rs| then Some(rs[slot]) else None
  {
    HeaderReads(b, rs);
    hide Realises, U16At, U64At;
    if slot < |rs| {
      StoredReads(b, rs, slot);
    }
  }

  function Marked(rs: seq<Stored>, slot: nat, xmax: u64): seq<Stored> {
    if slot < |rs| then rs[slot := rs[slot].(xmax := xmax)] else rs
  }

  /** Rewrites the transaction header of a record that exists. */
  function Mark(b: Page, slot: nat, xmax: u64): Page {
    if Get(b, slot).None? then b
    else
      var start := U16At(b, SlotAt(slot));
      Splice(b, start, LeBytes(U64At(b, start), 8) + LeBytes(xmax, 8))
  }

  lemma {:induction false} SameSizesSameLayout(rs: seq<Stored>, qs: seq<Stored>)
    requires |rs| == |qs| && forall i :: 0 <= i < |rs| ==> rs[i].Size() == qs[i].Size()
    ensures Used(rs) == Used(qs)
  {
    if rs != [] {
      SameSizesSameLayout(rs[..|rs| - 1], qs[..|qs| - 1]);
    }
  }

  lemma MarkedLayout(rs: seq<Stored>, slot: nat, xmax: u64)
    ensures Upper(Marked(rs, slot, xmax)) == Upper(rs)
    ensures forall i :: 0 <= i < |rs| ==> Start(Marked(rs, slot, xmax), i) == Start(rs, i)
  {
    var qs := Marked(rs, slot, xmax);
    SameSizesSameLayout(rs, qs);
    forall i | 0 <= i < |rs|
      ensures Start(qs, i) == Start(rs, i)
    {
      SameSizesSameLayout(rs[..i + 1], qs[..i + 1]);
    }
  }

  /** Marking a record changes its xmax and nothing else on the page. */
  lemma MarkKeeps(b: Page, rs: seq<Stored>, slot: nat, xmax: u64)
    requires Realises(b, rs)
    ensures Realises(Mark(b, slot, xmax), Marked(rs, slot, xmax))
  {
    GetReturnsStored(b, rs, slot);
    if slot < |rs| {
      SlotReads(b, rs, slot);
      HeaderReads(b, rs);
      var start, s := Start(rs, slot), rs[slot];
      var header := LeBytes(s.xmin, 8) + LeBytes(xmax, 8);
      assert Holds(b, rs, slot) && Lower(rs) <= Upper(rs);
      RecordsTile(rs, slot);
      TupleReads(b, start, s);
      assert Mark(b, slot, xmax) == Splice(b, start, header);
      var b', qs := Splice(b, start, header), Marked(rs, slot, xmax);
      MarkedLayout(rs, slot, xmax);
      forall i | 0 <= i < |rs|
        ensures Holds(b', qs, i)
      {
        MarkHolds(b, rs, slot, xmax, i);
      }
      hide Splice, U16At, Holds, Mark, Get;
      MarkHeader(b, start, header);
    }
  }

  lemma MarkHeader(b: Page, start: nat, header: seq<byte>)
    requires HEADER_SIZE <= start && start + |header| <= PAGE_SIZE
    ensures var b' := Splice(b, start, header);
            && U16At(b', SLOTS_AT) == U16At(b, SLOTS_AT)
            && U16At(b', LOWER_AT) == U16At(b, LOWER_AT)
            && U16At(b', UPPER_AT) == U16At(b, UPPER_AT)
  {
    SpliceReads(b, start, header, SLOTS_AT, SLOTS_AT + 2);
    SpliceReads(b, start, header, LOWER_AT, LOWER_AT + 2);
    SpliceReads(b, start, header, UPPER_AT, UPPER_AT + 2);
  }

  lemma MarkHolds(b: Page, rs: seq<Stored>, slot: nat, xmax: u64, i: nat)
    requires Realises(b, rs) && slot < |rs| && i < |rs|
    ensures HEADER_SIZE <= Start(rs, slot) && Start(rs, slot) + TUPLE_HEADER_SIZE <= PAGE_SIZE
    ensures Holds(Splice(b, Start(rs, slot), LeBytes(rs[slot].xmin, 8) + LeBytes(xmax, 8)), Marked(rs, slot, xmax), i)
  {
    var start, s := Start(rs, slot), rs[slot];
    var header := LeBytes(s.xmin, 8) + LeBytes(xmax, 8);
    assert Holds(b, rs, slot) && Holds(b, rs, i);
    RecordsTile(rs, slot);
    RecordsTile(rs, i);
    if i < slot {
      RecordsApart(rs, i, slot);
    } else if slot < i {
      RecordsApart(rs, slot, i);
    }
    MarkedLayout(rs, slot, xmax);
    hide Realises, HoldsAt, Start, Upper, Splice, Stored.Bytes;
    if i == slot {
      MarkHoldsMarked(b, i, start, s, xmax);
    } else {
      HeldApart(b, start, header, i, Start(rs, i), rs[i]);
    }
  }

  lemma HeldApart(b: Page, at: nat, d: seq<byte>, i: nat, start: nat, s: Stored)
    requires HoldsAt(b, i, start, s) && SlotAt(i + 1) <= at && at + |d| <= PAGE_SIZE
    requires at + |d| <= start || start + s.Size() <= at
    ensures HoldsAt(Splice(b, at, d), i, start, s)
  {
    hide Splice, U16Bytes, Stored.Bytes;
    SpliceReads(b, at, d, SlotAt(i), SlotAt(i) + 2);
    SpliceReads(b, at, d, SlotAt(i) + 2, SlotAt(i) + 4);
    SpliceReads(b, at, d, start, start + s.Size());
  }

  lemma MarkHoldsMarked(b: Page, i: nat, start: nat, s: Stored, xmax: u64)
    requires HoldsAt(b, i, start, s)
    ensures start + TUPLE_HEADER_SIZE <= PAGE_SIZE
    ensures HoldsAt(Splice(b, start, LeBytes(s.xmin, 8) + LeBytes(xmax, 8)), i, start, s.(xmax := xmax))
  {
    var header := LeBytes(s.xmin, 8) + LeBytes(xmax, 8);
    MarkedBytes(b, start, s, xmax);
    hide Splice, U16Bytes, Stored.Bytes;
    SpliceReads(b, start, header, SlotAt(i), SlotAt(i) + 2);
    SpliceReads(b, start, header, SlotAt(i) + 2, SlotAt(i) + 4);
  }

  lemma MarkedBytes(b: Page, at: nat, s: Stored, xmax: u64)
    requires at + s.Size() <= PAGE_SIZE && b[at..at + s.Size()] == s.Bytes()
    ensures var b' := Splice(b, at, LeBytes(s.xmin, 8) + LeBytes(xmax, 8));
            b'[at..at + s.Size()] == s.(xmax := xmax).Bytes()
  {
    var header := LeBytes(s.xmin, 8) + LeBytes(xmax, 8);
    var b' := Splice(b, at, header);
    assert b[at + 16..at + s.Size()] == s.Bytes()[16..] == s.record;
    SpliceReads(b, at, header, at, at + 16);
    SpliceReads(b, at, header, at + 16, at + s.Size());
    assert b'[at..at + s.Size()] == b'[at..at + 16] + b'[at + 16..at + s.Size()];
  }

  function InitHead(): (h: seq<byte>)
    ensures |h| == 12 && h[0..8] == LeBytes(0, 8) && h[8..12] == LeBytes(0xFFFF_FFFF, 4)
  {
    LeBytes(0, 8) + LeBytes(U32 - 1, 4)
  }

  function InitCounts(): (c: seq<byte>)
    ensures |c| == 8 && c[0..2] == U16Bytes(0) && c[2..4] == U16Bytes(HEADER_SIZE) && c[4..6] == U16Bytes(PAGE_SIZE)
    ensures c[6..8] == U16Bytes(0)
  {
    hide U16Bytes;
    U16Bytes(0) + U16Bytes(HEADER_SIZE) + U16Bytes(PAGE_SIZE) + U16Bytes(0)
  }

  lemma InitParts(b: Page)
    ensures InitBytes(b)[0..12] == InitHead() && InitBytes(b)[12..20] == InitCounts()
  {
    var b1 := Splice(b, 0, InitHead());
    assert InitBytes(b) == Splice(b1, SLOTS_AT, InitCounts());
    hide Splice, InitHead, InitCounts, InitBytes;
    SpliceReads(b1, SLOTS_AT, InitCounts(), SLOTS_AT, SLOTS_AT + 8);
    SpliceReads(b1, SLOTS_AT, InitCounts(), 0, 12);
    SpliceReads(b, 0, InitHead(), 0, 12);
  }

  lemma InitReads(b: Page)
    ensures var b2 := InitBytes(b);
            && b2[0..8] == LeBytes(0, 8) && b2[SLOTS_AT..SLOTS_AT + 2] == U16Bytes(0)
            && b2[LOWER_AT..LOWER_AT + 2] == U16Bytes(HEADER_SIZE) && b2[UPPER_AT..UPPER_AT + 2] == U16Bytes(PAGE_SIZE)
            && b2[8..12] == LeBytes(0xFFFF_FFFF, 4) && b2[18..20] == U16Bytes(0)
  {
    var b2 := InitBytes(b);
    hide InitBytes, InitHead, InitCounts, LeBytes, U16Bytes;
    InitParts(b);
    SliceOfSlice(b2, 12, 8, 0, 2);
    SliceOfSlice(b2, 12, 8, 2, 4);
    SliceOfSlice(b2, 12, 8, 4, 6);
    SliceOfSlice(b2, 12, 8, 6, 8);
    SliceOfSlice(b2, 0, 12, 0, 8);
    SliceOfSlice(b2, 0, 12, 8, 12);
  }

  /** A page just initialised holds no records, has no log sequence number and no next page, and no flags. */
  lemma InitRealises(b: Page)
    ensures Realises(InitBytes(b), []) && PageLsn(InitBytes(b)) == 0
    ensures U32At(InitBytes(b), 8) == 0xFFFF_FFFF && U16At(InitBytes(b), 18) == 0
  {
    InitReads(b);
    var b2 := InitBytes(b);
    hide U16Bytes, InitBytes, Realises;
    U16RoundTrip(b2, SLOTS_AT, 0);
    U16RoundTrip(b2, LOWER_AT, HEADER_SIZE);
    U16RoundTrip(b2, UPPER_AT, PAGE_SIZE);
    U64RoundTrip(b2, 0, 0);
    U32RoundTrip(b2, 8, 0xFFFF_FFFF);
    U16RoundTrip(b2, 18, 0);
    assert b2[..8] == b2[0..8];
    EmptyRealises(b2);
  }

  lemma EmptyRealises(b: Page)
    requires U16At(b, SLOTS_AT) == 0 && U16At(b, LOWER_AT) == HEADER_SIZE && U16At(b, UPPER_AT) == PAGE_SIZE
    ensures Realises(b, [])
  {
  }

  // ----- Every run of operations -----

  datatype Op = InsertOp(record: seq<byte>, xmin: u64) | DeleteOp(slot: nat, xmax: u64)

  function Apply(rs: seq<Stored>, op: Op): seq<Stored> {
    match op
    case InsertOp(record, xmin) => Taken(rs, record, xmin)
    case DeleteOp(slot, xmax) => Marked(rs, slot, xmax)
  }

  function ApplyBytes(b: Page, op: Op): Page {
    match op
    case InsertOp(record, xmin) =>
      var r := Insert(b, record, xmin);
      if r.Inserted? then r.page else b
    case DeleteOp(slot, xmax) => Mark(b, slot, xmax)
  }

  function Run(rs: seq<Stored>, ops: seq<Op>): seq<Stored>
    decreases |ops|
  {
    if ops == [] then rs else Run(Apply(rs, ops[0]), ops[1..])
  }

  function RunBytes(b: Page, ops: seq<Op>): Page
    decreases |ops|
  {
    if ops == [] then b else RunBytes(ApplyBytes(b, ops[0]), ops[1..])
  }

  const LONGEST_SAFE := 65515

  predicate Short(op: Op) {
    op.InsertOp? ==> |op.record| <= LONGEST_SAFE
  }

  /** The bytes of a page go through every run of insertions and deletions as the list of records does. */
  lemma {:induction false} RunRealises(b: Page, rs: seq<Stored>, ops: seq<Op>)
    requires Realises(b, rs) && forall op :: op in ops ==> Short(op)
    ensures Realises(RunBytes(b, ops), Run(rs, ops))
    decreases |ops|
  {
    if ops != [] {
      hide Realises, Insert;
      assert ops[0] in ops;
      match ops[0] {
        case InsertOp(record, xmin) => InsertIsRightIff(b, rs, record, xmin);
        case DeleteOp(slot, xmax) => MarkKeeps(b, rs, slot, xmax);
      }
      RunRealises(ApplyBytes(b, ops[0]), Apply(rs, ops[0]), ops[1..]);
    }
  }

  /** The xmax that the last deletion of a slot put there. */
  function LastMark(ops: seq<Op>, slot: nat, xmax: u64): u64 {
    if ops == [] then xmax
    else LastMark(ops[1..], slot, if ops[0].DeleteOp? && ops[0].slot == slot then ops[0].xmax else xmax)
  }

  /** A record stays in its slot through every later run: the same bytes and xmin, and the last xmax put there. */
  lemma {:induction false} RecordStays(rs: seq<Stored>, ops: seq<Op>, slot: nat)
    requires slot < |rs|
    ensures slot < |Run(rs, ops)|
    ensures Run(rs, ops)[slot] == rs[slot].(xmax := LastMark(ops, slot, rs[slot].xmax))
    decreases |ops|
  {
    if ops != [] {
      RecordStays(Apply(rs, ops[0]), ops[1..], slot);
    }
  }

  /** From a fresh page: a record inserted after some operations is what its slot returns after any others. */
  lemma InsertedIsReturned(b: Page, before: seq<Op>, record: seq<byte>, xmin: u64, after: seq<Op>)
    requires forall op :: op in before + [InsertOp(record, xmin)] + after ==> Short(op)
    requires Fits(Run([], before), record)
    ensures var page := RunBytes(RunBytes(InitBytes(b), before), [InsertOp(record, xmin)] + after);
            var slot := |Run([], before)|;
            Get(page, slot) == Some(Stored(xmin, LastMark(after, slot, 0), record))
  {
    var page, rs, op := RunBytes(InitBytes(b), before), Run([], before), InsertOp(record, xmin);
    var all := before + [op] + after;
    assert forall o :: o in before || o == op || o in after ==> o in all;
    InitRealises(b);
    RunRealises(InitBytes(b), [], before);
    RunRealises(page, rs, [op] + after);
    assert ([op] + after)[1..] == after;
    hide Realises, RunBytes, Get, InitBytes;
    RecordStays(Apply(rs, op), after, |rs|);
    GetReturnsStored(RunBytes(page, [op] + after), Run(rs, [op] + after), |rs|);
  }

  /** Operations on records leave the page's log sequence number and its link to the next page alone. */
  lemma ApplyKeepsLsn(b: Page, rs: seq<Stored>, op: Op)
    requires Realises(b, rs) && Short(op)
    ensures ApplyBytes(b, op)[..SLOTS_AT] == b[..SLOTS_AT] && PageLsn(ApplyBytes(b, op)) == PageLsn(b)
  {
    match op {
      case InsertOp(record, xmin) => InsertKeepsLsn(b, rs, record, xmin);
      case DeleteOp(slot, xmax) => MarkKeepsLsn(b, rs, slot, xmax);
    }
    hide Insert, Mark;
    FirstEight(ApplyBytes(b, op), b);
  }

  lemma InsertKeepsLsn(b: Page, rs: seq<Stored>, record: seq<byte>, xmin: u64)
    requires Realises(b, rs) && |record| <= LONGEST_SAFE
    ensures Insert(b, record, xmin).Inserted? ==> Insert(b, record, xmin).page[0..SLOTS_AT] == b[0..SLOTS_AT]
  {
    hide Insert, WithRecord, Realises;
    if Fits(rs, record) {
      InsertTakes(b, rs, record, xmin);
      TakenKeepsLsn(b, rs, Stored(xmin, 0, record));
    } else {
      InsertRefuses(b, rs, record, xmin);
    }
  }

  lemma TakenKeepsLsn(b: Page, rs: seq<Stored>, s: Stored)
    requires Realises(b, rs) && s.Size() + SLOT_SIZE <= Free(rs)
    ensures |rs| + 1 < U16 && Lower(rs) + SLOT_SIZE < U16
    ensures WithRecord(b, s, |rs|, Upper(rs) - s.Size(), Lower(rs) + SLOT_SIZE)[0..SLOTS_AT] == b[0..SLOTS_AT]
  {
    RoomForSlot(b, rs, s);
    hide WithRecord, Realises, Upper, Lower;
    WithRecordReads(b, s, |rs|, Upper(rs) - s.Size(), Lower(rs) + SLOT_SIZE, 0, SLOTS_AT);
  }

  lemma MarkKeepsLsn(b: Page, rs: seq<Stored>, slot: nat, xmax: u64)
    requires Realises(b, rs)
    ensures Mark(b, slot, xmax)[0..SLOTS_AT] == b[0..SLOTS_AT]
  {
    GetReturnsStored(b, rs, slot);
    if slot < |rs| {
      SlotReads(b, rs, slot);
      RecordsTile(rs, slot);
      hide Get;
      var start := U16At(b, SlotAt(slot));
      SpliceReads(b, start, LeBytes(U64At(b, start), 8) + LeBytes(xmax, 8), 0, SLOTS_AT);
    }
  }

  lemma FirstEight(a: Page, b: Page)
    requires a[0..SLOTS_AT] == b[0..SLOTS_AT]
    ensures PageLsn(a) == PageLsn(b) && a[..SLOTS_AT] == b[..SLOTS_AT]
  {
    SliceOfSlice(a, 0, SLOTS_AT, 0, 8);
    SliceOfSlice(b, 0, SLOTS_AT, 0, 8);
  }

  // ----- The page object -----

  datatype Abort = Abort

  /** The object reports and does what the insertion on bytes says; an abort promises nothing of the bytes. */
  predicate Done(was: Insertion, r: Result<Option<nat>, Abort>, before: seq<byte>, after: seq<byte>) {
    match was
    case Inserted(slot, page) => r == Ok(Some(slot)) && after == page
    case Full => r == Ok(None) && after == before
    case Aborted => r == Err(Abort)
  }

  class SlottedPage {
    const data: array<byte>
    ghost var records: seq<Stored>

    ghost predicate Valid()
      reads this, data
    {
      data.Length == PAGE_SIZE && Realises(data[..], records)
    }

    constructor ()
      ensures Valid() && records == [] && fresh(data) && PageLsn(data[..]) == 0
    {
      data := new byte[PAGE_SIZE](_ => 0);
      records := [];
      new;
      Init();
    }

    method WriteBytes(at: nat, d: seq<byte>)
      requires at + |d| <= data.Length
      modifies data
      ensures data[..] == Splice(old(data[..]), at, d)
    {
      var i := 0;
      while i < |d|
        invariant i <= |d|
        invariant forall k :: 0 <= k < data.Length ==>
                    data[k] == if at <= k < at + i then d[k - at] else old(data[k])
      {
        data[at + i] := d[i];
        i := i + 1;
      }
    }

    method Init()
      requires data.Length == PAGE_SIZE
      modifies this, data
      ensures Valid() && records == [] && data[..] == InitBytes(old(data[..])) && PageLsn(data[..]) == 0
    {
      InitRealises(data[..]);
      hide Realises, Splice, InitBytes;
      ghost var b := data[..];
      WriteBytes(0, LeBytes(0, 8) + LeBytes(U32 - 1, 4));
      WriteBytes(SLOTS_AT, U16Bytes(0) + U16Bytes(HEADER_SIZE) + U16Bytes(PAGE_SIZE) + U16Bytes(0));
      InitIs(b);
      records := [];
    }

    method ReadU16(at: nat) returns (v: u16)
      requires at + 2 <= data.Length
      ensures v == U16At(data[..], at)
    {
      v := U16At(data[..], at);
    }

    /** Takes the record exactly when it fits, if the guard is exact; then the slot returned is the next one. */
    method InsertRecord(record: seq<byte>, xmin: u64) returns (r: Result<Option<nat>, Abort>)
      requires Valid()
      modifies this, data
      ensures Done(Insert(old(data[..]), record, xmin), r, old(data[..]), data[..])
      ensures GuardIsExact(|record|, Free(old(records))) ==>
                && Valid() && records == Taken(old(records), record, xmin)
                && r == Ok(if Fits(old(records), record) then Some(|old(records)|) else None)
    {
      InsertIsRightIff(data[..], records, record, xmin);
      hide Realises, Insert;
      r := TryInsert(record, xmin);
      records := Taken(records, record, xmin);
    }

    method TryInsert(record: seq<byte>, xmin: u64) returns (r: Result<Option<nat>, Abort>)
      requires data.Length == PAGE_SIZE
      modifies data
      ensures Done(Insert(old(data[..]), record, xmin), r, old(data[..]), data[..])
    {
      hide Realises, Splice, WithRecord, U16At;
      var slots := ReadU16(SLOTS_AT);
      var lower := ReadU16(LOWER_AT);
      var upper := ReadU16(UPPER_AT);
      var total := TUPLE_HEADER_SIZE + |record|;
      if upper < lower {
        return Err(Abort);
      }
      if upper - lower < (total + SLOT_SIZE) % U16 {
        return Ok(None);
      }
      var start := upper - total % U16;
      if start < 0 || start + total > PAGE_SIZE || SlotAt(slots + 1) > PAGE_SIZE || slots + 1 >= U16
         || lower + SLOT_SIZE >= U16 {
        return Err(Abort);
      }
      WriteRecord(Stored(xmin, 0, record), slots, start, lower + SLOT_SIZE);
      r := Ok(Some(slots));
    }

    method WriteRecord(s: Stored, slot: nat, start: nat, lower: u16)
      requires data.Length == PAGE_SIZE
      requires start + s.Size() <= PAGE_SIZE && SlotAt(slot + 1) <= PAGE_SIZE && slot + 1 < U16
      modifies data
      ensures data[..] == WithRecord(old(data[..]), s, slot, start, lower)
    {
      WriteTuple(s, start);
      hide Splice, U16Bytes, Stored.Bytes;
      WriteBytes(SLOTS_AT, U16Bytes(slot + 1));
      WriteBytes(LOWER_AT, U16Bytes(lower));
      WriteBytes(UPPER_AT, U16Bytes(start));
      WriteBytes(SlotAt(slot), U16Bytes(start));
      WriteBytes(SlotAt(slot) + 2, U16Bytes(s.Size() % U16));
    }

    /** The transaction header, then the data. */
    method WriteTuple(s: Stored, start: nat)
      requires start + s.Size() <= data.Length
      modifies data
      ensures data[..] == Splice(old(data[..]), start, s.Bytes())
    {
      SpliceTwice(data[..], start, s.Header(), s.record);
      hide Splice;
      WriteBytes(start, s.Header());
      WriteBytes(start + TUPLE_HEADER_SIZE, s.record);
    }

    method GetRecord(slot: nat) returns (r: Option<(u64, u64, seq<byte>)>)
      requires Valid()
      ensures r == if slot < |records| then Some((records[slot].xmin, records[slot].xmax, records[slot].record))
                   else None
    {
      hide Realises, Get, U16At, U64At, Stored.Bytes;
      HeaderReads(data[..], records);
      if slot < |records| {
        StoredReads(data[..], records, slot);
      }
      var slots := ReadU16(SLOTS_AT);
      if slot >= slots {
        return None;
      }
      var start := ReadU16(SlotAt(slot));
      var length := ReadU16(SlotAt(slot) + 2);
      if length == 0 {
        return None;
      }
      r := Some((U64At(data[..], start), U64At(data[..], start + 8), data[start + TUPLE_HEADER_SIZE..start + length]));
      assert data[..][start + TUPLE_HEADER_SIZE..start + length] == data[start + TUPLE_HEADER_SIZE..start + length];
    }

    method MarkDeleted(slot: nat, xmax: u64) returns (ok: bool)
      requires Valid()
      modifies this, data
      ensures Valid() && records == Marked(old(records), slot, xmax) && ok == (slot < |old(records)|)
      ensures data[..] == Mark(old(data[..]), slot, xmax)
    {
      MarkKeeps(data[..], records, slot, xmax);
      GetReturnsStored(data[..], records, slot);
      HeaderReads(data[..], records);
      if slot < |records| {
        SlotReads(data[..], records, slot);
        RecordsTile(records, slot);
      }
      hide Realises, Get, U16At, U64At, Splice;
      var slots := ReadU16(SLOTS_AT);
      if slot >= slots {
        return false;
      }
      var start := ReadU16(SlotAt(slot));
      var length := ReadU16(SlotAt(slot) + 2);
      if length == 0 {
        return false;
      }
      records := Marked(records, slot, xmax);
      WriteBytes(start, LeBytes(U64At(data[..], start), 8) + LeBytes(xmax, 8));
      ok := true;
    }
  }

  lemma InitIs(b: Page)
    ensures InitBytes(b) == Splice(Splice(b, 0, LeBytes(0, 8) + LeBytes(U32 - 1, 4)), SLOTS_AT,
                                   U16Bytes(0) + U16Bytes(HEADER_SIZE) + U16Bytes(PAGE_SIZE) + U16Bytes(0))
  {
  }

  lemma SpliceTwice(b: seq<byte>, at: nat, d: seq<byte>, e: seq<byte>)
    requires at + |d| + |e| <= |b|
    ensures Splice(Splice(b, at, d), at + |d|, e) == Splice(b, at, d + e)
  {
  }
}
