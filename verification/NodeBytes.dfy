/** The bytes of a node page: how the index reads them, what a leaf looks like, and that the pool's contract on
    pages is its contract on nodes (wasdb_btree/src/node.rs, wasdb_btree/src/tree.rs). */
module NodeBytes {
  import opened Bytes
  import opened Storage
  import opened Util

  import opened BTreeModel
  import opened FlatPool
  import Log
  import opened PoolModel

  const INTERNAL_TYPE := 1
  const LEAF_TYPE := 2

  // Offsets of the header fields and of the arrays, with the padding that C layout puts between them.
  const KEYS_AT := 24
  const VALUES_AT := 1384
  const NODE_SIZE := 5464

  // ----- Reading -----

  function Signed(v: u32): i32 {
    if v < 0x8000_0000 then v else v - U32
  }

  function Unsigned(v: i32): (u: u32)
    ensures Signed(u) == v
  {
    if v >= 0 then v else v + U32
  }

  function PageIdAt(b: seq<byte>, at: nat): PageId
    requires at + 8 <= |b|
  {
    PageId(U32At(b, at), U32At(b, at + 4))
  }

  function CtidAt(b: seq<byte>, at: nat): Ctid
    requires at + 10 <= |b|
  {
    Ctid(PageIdAt(b, at), U16At(b, at + 8))
  }

  function KeysAt(b: Page): KeyArray
    requires PAGE_SIZE >= NODE_SIZE
  {
    seq(MAX_KEYS, i requires 0 <= i < MAX_KEYS => Signed(U32At(b, KEYS_AT + 4 * i)))
  }

  function ValuesAt(b: Page): ValueArray
    requires PAGE_SIZE >= NODE_SIZE
  {
    seq(MAX_KEYS, i requires 0 <= i < MAX_KEYS => CtidAt(b, VALUES_AT + 12 * i))
  }

  function ChildrenAt(b: Page): ChildArray
    requires PAGE_SIZE >= NODE_SIZE
  {
    seq(MAX_KEYS + 1, i requires 0 <= i < MAX_KEYS + 1 => PageIdAt(b, VALUES_AT + 8 * i))
  }

  /** A page seen through the node structs. */
  function Decode(b: Page): Node
    requires PAGE_SIZE >= NODE_SIZE
  {
    if b[0] == LEAF_TYPE then Leaf(U16At(b, 2), U16At(b, 4), PageIdAt(b, 8), PageIdAt(b, 16), KeysAt(b), ValuesAt(b))
    else if b[0] == INTERNAL_TYPE then Internal(U16At(b, 2), PageIdAt(b, 8), KeysAt(b), ChildrenAt(b))
    else Raw
  }

  // ----- Writing a leaf -----

  function PageIdBytes(p: PageId): (r: seq<byte>)
    ensures |r| == 8
  {
    LeBytes(p.fileId, 4) + LeBytes(p.pageNum, 4)
  }

  /** The ten bytes of a location that are not padding. */
  function CtidBytes(c: Ctid): (r: seq<byte>)
    ensures |r| == 10
  {
    PageIdBytes(c.pageId) + U16Bytes(c.slotIdx)
  }

  /** Byte `k` of the page once the fields of a leaf are stored; padding and the rest of the page stay. */
  function LeafByte(b: Page, n: Node, k: nat): byte
    requires n.Leaf? && k < PAGE_SIZE
  {
    if k == 0 then LEAF_TYPE
    else if 2 <= k < 4 then U16Bytes(n.numKeys)[k - 2]
    else if 4 <= k < 6 then U16Bytes(n.maxKeys)[k - 4]
    else if 8 <= k < 16 then PageIdBytes(n.parent)[k - 8]
    else if 16 <= k < 24 then PageIdBytes(n.next)[k - 16]
    else if KEYS_AT <= k < VALUES_AT then LeBytes(Unsigned(n.keys[(k - KEYS_AT) / 4]), 4)[(k - KEYS_AT) % 4]
    else if VALUES_AT <= k < NODE_SIZE && (k - VALUES_AT) % 12 < 10 then
      CtidBytes(n.values[(k - VALUES_AT) / 12])[(k - VALUES_AT) % 12]
    else b[k]
  }

  function Encode(b: Page, n: Node): (r: Page)
    requires n.Leaf? && PAGE_SIZE >= NODE_SIZE
  {
    seq(PAGE_SIZE, k requires 0 <= k < PAGE_SIZE => LeafByte(b, n, k))
  }

  /** A field is read back when the page agrees with its bytes one by one. */
  lemma FieldReads(r: Page, at: nat, field: seq<byte>)
    requires at + |field| <= PAGE_SIZE && forall k :: 0 <= k < |field| ==> r[at + k] == field[k]
    ensures r[at..at + |field|] == field
  {
  }

  lemma PageIdReads(r: Page, at: nat, p: PageId)
    requires at + 8 <= PAGE_SIZE && r[at..at + 8] == PageIdBytes(p)
    ensures PageIdAt(r, at) == p
  {
    SliceOfSlice(r, at, 8, 0, 4);
    SliceOfSlice(r, at, 8, 4, 8);
    assert PageIdBytes(p)[0..4] == LeBytes(p.fileId, 4) && PageIdBytes(p)[4..8] == LeBytes(p.pageNum, 4);
    hide U32At;
    U32RoundTrip(r, at, p.fileId);
    U32RoundTrip(r, at + 4, p.pageNum);
  }

  lemma CtidReads(r: Page, at: nat, c: Ctid)
    requires at + 10 <= PAGE_SIZE && r[at..at + 10] == CtidBytes(c)
    ensures CtidAt(r, at) == c
  {
    SliceOfSlice(r, at, 10, 0, 8);
    SliceOfSlice(r, at, 10, 8, 10);
    assert CtidBytes(c)[0..8] == PageIdBytes(c.pageId) && CtidBytes(c)[8..10] == U16Bytes(c.slotIdx);
    hide PageIdAt, U16At, PageIdBytes;
    PageIdReads(r, at, c.pageId);
    U16RoundTrip(r, at + 8, c.slotIdx);
  }

  lemma HeaderReadsBack(b: Page, n: Node)
    requires n.Leaf? && PAGE_SIZE >= NODE_SIZE
    ensures var r := Encode(b, n);
            && r[0] == 2 && U16At(r, 2) == n.numKeys && U16At(r, 4) == n.maxKeys
            && PageIdAt(r, 8) == n.parent && PageIdAt(r, 16) == n.next
  {
    var r := Encode(b, n);
    assert forall k :: 0 <= k < 24 ==> r[k] == LeafByte(b, n, k);
    hide Encode, PageIdBytes, PageIdAt, U16At, U16Bytes;
    FieldReads(r, 2, U16Bytes(n.numKeys));
    FieldReads(r, 4, U16Bytes(n.maxKeys));
    FieldReads(r, 8, PageIdBytes(n.parent));
    FieldReads(r, 16, PageIdBytes(n.next));
    U16RoundTrip(r, 2, n.numKeys);
    U16RoundTrip(r, 4, n.maxKeys);
    PageIdReads(r, 8, n.parent);
    PageIdReads(r, 16, n.next);
  }

  lemma KeyReadsBack(b: Page, n: Node, i: nat)
    requires n.Leaf? && PAGE_SIZE >= NODE_SIZE && i < MAX_KEYS
    ensures Signed(U32At(Encode(b, n), 24 + 4 * i)) == n.keys[i]
  {
    var r, at, field := Encode(b, n), KEYS_AT + 4 * i, LeBytes(Unsigned(n.keys[i]), 4);
    forall k | 0 <= k < 4
      ensures r[at + k] == field[k]
    {
      assert (at + k - KEYS_AT) / 4 == i && (at + k - KEYS_AT) % 4 == k;
      assert r[at + k] == LeafByte(b, n, at + k);
    }
    FieldReads(r, at, field);
    U32RoundTrip(r, at, Unsigned(n.keys[i]));
  }

  lemma ValueReadsBack(b: Page, n: Node, i: nat)
    requires n.Leaf? && PAGE_SIZE >= NODE_SIZE && i < MAX_KEYS
    ensures CtidAt(Encode(b, n), 1384 + 12 * i) == n.values[i]
  {
    var r, at, field := Encode(b, n), VALUES_AT + 12 * i, CtidBytes(n.values[i]);
    forall k | 0 <= k < 10
      ensures r[at + k] == field[k]
    {
      assert (at + k - VALUES_AT) / 12 == i && (at + k - VALUES_AT) % 12 == k;
      assert r[at + k] == LeafByte(b, n, at + k);
    }
    FieldReads(r, at, field);
    CtidReads(r, at, n.values[i]);
  }

  lemma ArraysReadBack(b: Page, n: Node)
    requires n.Leaf? && PAGE_SIZE >= NODE_SIZE
    ensures KeysAt(Encode(b, n)) == n.keys && ValuesAt(Encode(b, n)) == n.values
  {
    hide Encode, CtidAt, U32At, Signed;
    KeysReadBack(b, n);
    ValuesReadBack(b, n);
  }

  lemma KeysAre(r: Page, keys: KeyArray)
    requires PAGE_SIZE >= NODE_SIZE && forall i :: 0 <= i < MAX_KEYS ==> Signed(U32At(r, KEYS_AT + 4 * i)) == keys[i]
    ensures KeysAt(r) == keys
  {
    hide U32At, Signed;
  }

  lemma KeysReadBack(b: Page, n: Node)
    requires n.Leaf? && PAGE_SIZE >= NODE_SIZE
    ensures KeysAt(Encode(b, n)) == n.keys
  {
    var r := Encode(b, n);
    hide Encode, U32At, Signed, KeysAt;
    forall i | 0 <= i < MAX_KEYS
      ensures Signed(U32At(r, KEYS_AT + 4 * i)) == n.keys[i]
    {
      KeyReadsBack(b, n, i);
    }
    KeysAre(r, n.keys);
  }

  lemma ValuesAre(r: Page, values: ValueArray)
    requires PAGE_SIZE >= NODE_SIZE && forall i :: 0 <= i < MAX_KEYS ==> CtidAt(r, VALUES_AT + 12 * i) == values[i]
    ensures ValuesAt(r) == values
  {
    hide CtidAt;
  }

  lemma ValuesReadBack(b: Page, n: Node)
    requires n.Leaf? && PAGE_SIZE >= NODE_SIZE
    ensures ValuesAt(Encode(b, n)) == n.values
  {
    var r := Encode(b, n);
    hide Encode, CtidAt, ValuesAt;
    forall i | 0 <= i < MAX_KEYS
      ensures CtidAt(r, VALUES_AT + 12 * i) == n.values[i]
    {
      ValueReadsBack(b, n, i);
    }
    ValuesAre(r, n.values);
  }

  /** Whatever leaf is stored in a page is what the page then shows. */
  lemma LeafReadsBack(b: Page, n: Node)
    requires n.Leaf? && PAGE_SIZE >= NODE_SIZE
    ensures Decode(Encode(b, n)) == n
  {
    HeaderReadsBack(b, n);
    ArraysReadBack(b, n);
    hide KeysAt, ValuesAt, Encode, U16At, PageIdAt;
  }

  // ----- The pool's contract on pages is its contract on nodes -----

  ghost function NodeView(a: Flat<Page>): (v: Flat<Node>)
    requires a.Total() && PAGE_SIZE >= NODE_SIZE
    ensures v.Total()
  {
    Flat(imap pid: PageId | true :: Decode(a.store[pid]), a.pins)
  }

  /** Two views with the same pins, whose stores stay the same together, meet the same pin contracts. */
  lemma PinSpecsCarryOver<P(!new), Q(!new)>(a: Flat<P>, b: Flat<Q>, pid: PageId, ok: bool, a': Flat<P>, b': Flat<Q>)
    requires a.Total() && b.Total() && a.pins == b.pins && a'.pins == b'.pins
    requires a'.store == a.store ==> b'.store == b.store
    ensures FetchSpec(a, pid, ok, a') ==> FetchSpec(b, pid, ok, b')
    ensures UnpinSpec(a, pid, ok, a') ==> UnpinSpec(b, pid, ok, b')
  {
    assert b' == Flat(b'.store, a'.pins) && b == Flat(b.store, a.pins);
  }

  /** Fetching and unpinning pages is fetching and unpinning nodes. */
  lemma PinningLifts(a: Flat<Page>, pid: PageId, ok: bool, a': Flat<Page>)
    requires PAGE_SIZE >= NODE_SIZE && a.Total() && a'.Total()
    ensures FetchSpec(a, pid, ok, a') ==> FetchSpec(NodeView(a), pid, ok, NodeView(a'))
    ensures UnpinSpec(a, pid, ok, a') ==> UnpinSpec(NodeView(a), pid, ok, NodeView(a'))
  {
    hide *;
    ViewKeepsPins(a);
    ViewKeepsPins(a');
    if a'.store == a.store {
      SameStoreSameView(a, a');
    }
    PinSpecsCarryOver(a, NodeView(a), pid, ok, a', NodeView(a'));
  }

  lemma ViewKeepsPins(a: Flat<Page>)
    requires PAGE_SIZE >= NODE_SIZE && a.Total()
    ensures NodeView(a).pins == a.pins
  {
    hide Decode;
  }

  lemma SameStoreSameView(a: Flat<Page>, a': Flat<Page>)
    requires PAGE_SIZE >= NODE_SIZE && a.Total() && a'.Total() && a'.store == a.store
    ensures NodeView(a').store == NodeView(a).store
  {
    hide Decode;
  }

  /** Storing a leaf's fields in a held page writes that node and no other. */
  lemma WritingLifts(a: Flat<Page>, pid: PageId, n: Node, a': Flat<Page>)
    requires PAGE_SIZE >= NODE_SIZE && a.Total() && a'.Total() && n.Leaf?
    requires WriteSpec(a, pid, Encode(a.store[pid], n), a')
    ensures WriteSpec(NodeView(a), pid, n, NodeView(a'))
  {
    LeafReadsBack(a.store[pid], n);
    ViewOfWrite(a, pid, Encode(a.store[pid], n));
    hide Decode, Encode, NodeView;
  }

  lemma ViewOfWrite(a: Flat<Page>, pid: PageId, p: Page)
    requires PAGE_SIZE >= NODE_SIZE && a.Total()
    ensures NodeView(a.(store := a.store[pid := p])) == NodeView(a).(store := NodeView(a).store[pid := Decode(p)])
  {
    hide Decode;
  }

  // ----- Node pages and the write-ahead rule -----

  /** The write-ahead rule, on disk: no page is ahead of the flushed log. */
  ghost predicate DiskBehindLog(s: Pool) {
    s.log.Some? && forall pid :: PageLsn(s.disk.Read(pid)) <= s.log.value.flushedLsn
  }

  /** Writing a page back, flushing the log first, keeps the rule exactly when the page's LSN field holds an LSN
      that the log has issued. */
  lemma WriteBackObeysIff(s: Pool, f: nat)
    requires |s.frames| == |s.descs| && s.Resident(f) && DiskBehindLog(s) && s.log.value.Valid()
    ensures DiskBehindLog(WriteBack(s, f)) <==> PageLsn(s.frames[f]) < s.log.value.nextLsn
  {
    var s', was := WriteBack(s, f), s.descs[f].page.value;
    hide PageLsn, Log.State.Valid;
    assert s.log.value.flushedLsn < s.log.value.nextLsn by {
      FlushedIsIssued(s.log.value);
    }
    assert forall pid :: s'.disk.Read(pid) == if pid == was then s.frames[f] else s.disk.Read(pid);
    assert s'.disk.Read(was) == s.frames[f];
  }

  lemma FlushedIsIssued(l: Log.State)
    requires l.Valid()
    ensures l.flushedLsn < l.nextLsn
  {
  }

  lemma {:induction false} LeNatSplit(a: seq<byte>, b: seq<byte>)
    ensures LeNat(a + b) == LeNat(a) + Capacity(|a|) * LeNat(b)
  {
    if a == [] {
      assert a + b == b;
    } else {
      var x, c, rest := LeNat(a[1..]), Capacity(|a| - 1), LeNat(b);
      LeNatSplit(a[1..], b);
      assert (a + b)[1..] == a[1..] + b;
      assert Capacity(|a|) == 256 * c;
      Distribute(c, rest);
      hide LeNat, Capacity;
    }
  }

  lemma Distribute(c: nat, r: nat)
    ensures 256 * c * r == 256 * (c * r)
  {
  }

  /** The header of a leaf lies where the pool looks for an LSN, and reads as a very large one. */
  lemma LeafLsn(b: Page, n: Node)
    requires n.Leaf? && PAGE_SIZE >= NODE_SIZE
    ensures PageLsn(Encode(b, n)) >= 0x1_0000_0000 * n.maxKeys
  {
    var r := Encode(b, n);
    HeaderReadsBack(b, n);
    CapacityOfWidths();
    hide Encode;
    assert r[..8] == r[0..4] + r[4..8] && r[4..8] == r[4..6] + r[6..8];
    LeNatSplit(r[0..4], r[4..8]);
    LeNatSplit(r[4..6], r[6..8]);
    assert LeNat(r[4..6]) == n.maxKeys;
  }

  /** So writing back an index leaf breaks the rule until the log has issued that many LSNs. */
  lemma IndexLeafOutrunsLog(s: Pool, f: nat, b: Page, n: Node)
    requires |s.frames| == |s.descs| && s.Resident(f) && DiskBehindLog(s) && s.log.value.Valid()
    requires n.Leaf? && PAGE_SIZE >= NODE_SIZE && s.frames[f] == Encode(b, n)
    requires s.log.value.nextLsn <= 0x1_0000_0000 * n.maxKeys
    ensures !DiskBehindLog(WriteBack(s, f))
  {
    LeafLsn(b, n);
    WriteBackObeysIff(s, f);
  }
}
