/** Trees on which the index's unfinished parts show, built as the index itself lays them out
    (wasdb_btree/src/tree.rs). */
module BTreeExamples {
  import opened Storage
  import opened Util

  import opened BTree
  import opened BTreeModel
  import opened BTreeProof
  import opened BTreeRanges
  import opened BTreeTrails
  import opened BTreeUpdates
  import opened FlatPool
  import opened NodePool

  const ROOT := PageId(0, 0)
  const LEFT := PageId(0, 1)
  const RIGHT := PageId(0, 2)
  const SEPARATOR: i32 := 10

  /** Entries whose keys run up from `first`. */
  function Run(first: int, n: nat): (es: seq<Entry>)
    requires KEY_MIN <= first && first + n <= KEY_END
    ensures |es| == n && forall i :: 0 <= i < n ==> es[i] == Entry(first + i, Ctid(ROOT, 0))
  {
    seq(n, i requires 0 <= i < n => Entry(first + i, Ctid(ROOT, 0)))
  }

  function LeafOf(es: seq<Entry>, maxKeys: u16, parent: PageId, next: PageId): (n: Node)
    requires |es| <= MAX_KEYS
    ensures SoundLeaf(n) && LeafEntries(n) == es
  {
    var n := Leaf(|es|, maxKeys, parent, next,
                  seq(MAX_KEYS, i requires 0 <= i < MAX_KEYS => if i < |es| then es[i].key else 0),
                  seq(MAX_KEYS, i requires 0 <= i < MAX_KEYS => if i < |es| then es[i].value else Ctid(ROOT, 0)));
    assert LeafEntries(n) == es;
    n
  }

  // ----- A root with one separator over two leaves -----

  ghost predicate SplitAt(a: seq<Entry>, b: seq<Entry>) {
    && |a| <= MAX_KEYS && |b| <= MAX_KEYS && Ascending(a) && Ascending(b)
    && (forall e :: e in a ==> e.key < SEPARATOR) && (forall e :: e in b ==> SEPARATOR <= e.key)
  }

  function TwoLeaves(a: seq<Entry>, b: seq<Entry>, maxKeys: u16): map<PageId, Node>
    requires |a| <= MAX_KEYS && |b| <= MAX_KEYS
  {
    map[ROOT := Internal(1, INVALID_PAGE_ID, seq(MAX_KEYS, _ => SEPARATOR),
                         seq(MAX_KEYS + 1, i => if i == 0 then LEFT else RIGHT)),
        LEFT := LeafOf(a, maxKeys, ROOT, RIGHT),
        RIGHT := LeafOf(b, maxKeys, ROOT, INVALID_PAGE_ID)]
  }

  function TwoLeafLayout(): Layout {
    Layout(map[ROOT := Span(KEY_MIN, KEY_END, 1),
               LEFT := Span(KEY_MIN, SEPARATOR, 0), RIGHT := Span(SEPARATOR, KEY_END, 0)],
           [LEFT, RIGHT])
  }

  ghost function StoreOf(pages: map<PageId, Node>): (s: Store)
    ensures Total(s)
  {
    imap pid: PageId | true :: if pid in pages then pages[pid] else Raw
  }

  lemma TwoLeavesRoute(a: seq<Entry>, b: seq<Entry>, maxKeys: u16)
    requires |a| <= MAX_KEYS && |b| <= MAX_KEYS
    ensures Routes(StoreOf(TwoLeaves(a, b, maxKeys)), ROOT, TwoLeafLayout()) && Tiles(TwoLeafLayout())
  {
    var t, root := TwoLeafLayout(), TwoLeaves(a, b, maxKeys)[ROOT];
    assert root.children[0] == LEFT && root.children[1] == RIGHT;
    assert t.chain[0] == LEFT && t.chain[1] == RIGHT;
    assert InternalOk(root, t.spans[ROOT], t.spans);
  }

  /** Such a tree is in order, whatever its leaves hold on their sides of the separator. */
  lemma TwoLeavesAreTree(a: seq<Entry>, b: seq<Entry>, maxKeys: u16)
    requires SplitAt(a, b)
    ensures var store, t := StoreOf(TwoLeaves(a, b, maxKeys)), TwoLeafLayout();
            WellFormed(store, ROOT, t) && Entries(store, t.chain) == a + b
  {
    TwoLeavesRoute(a, b, maxKeys);
    TwoLeavesFit(a, b, maxKeys);
    TwoLeavesLink(a, b, maxKeys);
    hide *;
    PairIsTree(StoreOf(TwoLeaves(a, b, maxKeys)), a, b);
  }

  lemma PairIsTree(store: Store, a: seq<Entry>, b: seq<Entry>)
    requires Routes(store, ROOT, TwoLeafLayout()) && Tiles(TwoLeafLayout()) && LeavesFit(store)
    requires Linked(store, [LEFT, RIGHT]) && LeafEntries(store[LEFT]) == a && LeafEntries(store[RIGHT]) == b
    ensures WellFormed(store, ROOT, TwoLeafLayout())
    ensures Entries(store, TwoLeafLayout().chain) == a + b
  {
    hide Routes, Tiles, Linked, LeafWithin, ParentOk, LeafEntries;
    TwoEntries(store, LEFT, RIGHT);
    assert forall i :: 0 <= i < 2 ==> TwoLeafLayout().chain[i] == LEFT || TwoLeafLayout().chain[i] == RIGHT;
  }

  ghost predicate LeavesFit(store: Store) {
    && Total(store) && SoundLeaf(store[LEFT]) && SoundLeaf(store[RIGHT])
    && var t := TwoLeafLayout();
    && LeafWithin(store[LEFT], t.spans[LEFT]) && LeafWithin(store[RIGHT], t.spans[RIGHT])
    && ParentOk(store, ROOT, t, LEFT) && ParentOk(store, ROOT, t, RIGHT)
  }

  lemma TwoLeavesFit(a: seq<Entry>, b: seq<Entry>, maxKeys: u16)
    requires SplitAt(a, b)
    ensures LeavesFit(StoreOf(TwoLeaves(a, b, maxKeys)))
  {
    var store := StoreOf(TwoLeaves(a, b, maxKeys));
    assert store[LEFT] == LeafOf(a, maxKeys, ROOT, RIGHT) && store[RIGHT] == LeafOf(b, maxKeys, ROOT, INVALID_PAGE_ID);
    assert store[ROOT].children[0] == LEFT && store[ROOT].children[1] == RIGHT;
    LeafIsNamed(a, maxKeys, ROOT, RIGHT);
    LeafIsNamed(b, maxKeys, ROOT, INVALID_PAGE_ID);
    hide LeafEntries, Ascending, LeafOf;
  }

  lemma LeafIsNamed(es: seq<Entry>, maxKeys: u16, parent: PageId, next: PageId)
    requires |es| <= MAX_KEYS
    ensures LeafOf(es, maxKeys, parent, next).parent == parent && LeafOf(es, maxKeys, parent, next).next == next
  {
  }

  lemma TwoLeavesLink(a: seq<Entry>, b: seq<Entry>, maxKeys: u16)
    requires |a| <= MAX_KEYS && |b| <= MAX_KEYS
    ensures var store := StoreOf(TwoLeaves(a, b, maxKeys));
            && Linked(store, [LEFT, RIGHT]) && SoundLeaf(store[LEFT]) && SoundLeaf(store[RIGHT])
            && LeafEntries(store[LEFT]) == a && LeafEntries(store[RIGHT]) == b
  {
    var store := StoreOf(TwoLeaves(a, b, maxKeys));
    assert store[LEFT] == LeafOf(a, maxKeys, ROOT, RIGHT) && store[RIGHT] == LeafOf(b, maxKeys, ROOT, INVALID_PAGE_ID);
    LeafIsNamed(a, maxKeys, ROOT, RIGHT);
    LeafIsNamed(b, maxKeys, ROOT, INVALID_PAGE_ID);
    hide LeafEntries, LeafOf, SoundLeaf;
  }

  lemma TwoEntries(store: Store, p: PageId, q: PageId)
    requires Total(store) && SoundLeaf(store[p]) && SoundLeaf(store[q])
    ensures Entries(store, [p, q]) == LeafEntries(store[p]) + LeafEntries(store[q])
  {
    hide LeafEntries, SoundLeaf;
    assert [p, q][1..] == [q] && [q][1..] == [];
    assert Entries(store, [q]) == LeafEntries(store[q]) + [];
  }

  /** Opens an index over such a tree. */
  method OpenTwoLeaves(a: seq<Entry>, b: seq<Entry>, maxKeys: u16) returns (index: BTreeIndex)
    requires SplitAt(a, b)
    ensures fresh(index) && fresh(index.pool) && index.Valid() && index.rootPageId == Some(ROOT)
    ensures index.layout == TwoLeafLayout() && index.pool.Store() == StoreOf(TwoLeaves(a, b, maxKeys))
    ensures index.Contents() == a + b && Spare(index.pool.Pins(), index.pool.frames, 2)
  {
    TwoLeavesAreTree(a, b, maxKeys);
    hide WellFormed, Entries, TwoLeaves, Ascending;
    var pool := new Nodes(2, TwoLeaves(a, b, maxKeys), 3);
    assert pool.Store() == StoreOf(TwoLeaves(a, b, maxKeys));
    assert Covers({}, pool.Pins());
    index := new BTreeIndex(pool, Some(ROOT), TwoLeafLayout());
  }

  // ----- Deleting from the right leaf -----

  /** What deleting from the right leaf comes to when the leaf underflows. */
  function Expected(a: seq<Entry>, b: seq<Entry>, maxKeys: u16): DeleteOutcome
    requires b != []
  {
    if |a| > maxKeys / 2 then Borrows else if |a| + |b| - 1 > MAX_KEYS then MergeOverflow else Merges
  }

  lemma RightLeafIsReached(key: i32, d: Trace)
    requires SEPARATOR <= key && d.j < 2 && TwoLeafLayout().spans[TwoLeafLayout().chain[d.j]].Has(key)
    ensures d.j == 1 && TwoLeafLayout().chain[d.j] == RIGHT
  {
  }

  /** A delete that gets hold of both the parent and the sibling does what the two leaves' sizes say. */
  lemma RightUnderflows(a: seq<Entry>, b: seq<Entry>, maxKeys: u16, key: i32, d: Trace, out: DeleteOutcome,
                        store': Store)
    requires SplitAt(a, b) && SEPARATOR <= key && Lookup(b, key).Some? && |b| - 1 < maxKeys / 2
    requires Deleted(StoreOf(TwoLeaves(a, b, maxKeys)), TwoLeafLayout(), key, d, out, store')
    ensures d.j == 1 && b != [] && Total(d.mid) && SoundLeaf(d.mid[LEFT]) && SoundLeaf(d.mid[RIGHT])
    ensures LeafEntries(d.mid[LEFT]) == a && LeafEntries(d.mid[RIGHT]) == Without(b, key)
    ensures if d.refused then out.Deletes? else out.PoolExhausted? || out == Expected(a, b, maxKeys)
  {
    var store, t := StoreOf(TwoLeaves(a, b, maxKeys)), TwoLeafLayout();
    LookupMeans(b, key);
    WithoutMembers(b, key);
    RightLeafIsReached(key, d);
    assert store[RIGHT] == LeafOf(b, maxKeys, ROOT, INVALID_PAGE_ID) && store[LEFT] == LeafOf(a, maxKeys, ROOT, RIGHT);
    assert store[ROOT].children[0] == LEFT && t.chain[0] == LEFT;
    hide LeafEntries, LeafOf, Lookup, Without, TwoLeaves;
    var leaf := d.mid[RIGHT];
    LeafSize(leaf);
    assert d.mid[LEFT] == store[LEFT] && d.mid[ROOT] == store[ROOT];
    assert !FirstChild(d.mid, RIGHT);
    LeafSize(d.mid[LEFT]);
    assert !d.refused ==> SiblingUsed(d.mid, LEFT, RIGHT, maxKeys / 2, out, store');
  }

  /** Deletes a key from the right leaf and looks another up. */
  method DeleteThenSearch(a: seq<Entry>, b: seq<Entry>, maxKeys: u16, key: i32, probe: i32)
    returns (out: DeleteOutcome, r: Result<Option<Ctid>, ()>, ghost hidden: bool)
    requires SplitAt(a, b) && SEPARATOR <= key && Lookup(b, key).Some? && |b| - 1 < maxKeys / 2
    ensures out == Expected(a, b, maxKeys)
    ensures out.Borrows? || out.Merges? ==> r.Ok? && (r.value == Lookup(Without(a + b, key), probe) <==> !hidden)
    ensures out.Borrows? ==> (hidden <==> a != [] && probe == a[|a| - 1].key)
    ensures out.Merges? ==> (hidden <==> Lookup(Without(b, key), probe).Some?)
  {
    hide Lookup, Without, Entries, LeafEntries, WellFormed, Deleted, TwoLeaves, Ascending, SplitAt, Searchable, Spare;
    hide Shaped, ChainHolds, AnswersAs, HiddenBy, BTreeIndex.Answers, Tiles, IsLast;
    var index := OpenTwoLeaves(a, b, maxKeys);
    ghost var store := index.pool.Store();
    PinTakesSpare(index.pool.Pins(), index.pool.frames, 1, ROOT);
    ghost var chain, trace;
    WellFormedIsShaped(store, ROOT, TwoLeafLayout());
    out, chain, trace := index.Delete(key);
    ghost var d := trace.value;
    RightUnderflows(a, b, maxKeys, key, d, out, index.pool.Store());
    r, hidden := Err(()), false;
    if out.Borrows? || out.Merges? {
      ghost var i := if probe < SEPARATOR then 0 else 1;
      ProbeIsSomewhere(probe);
      DescentAfterDelete(store, ROOT, TwoLeafLayout(), key, d, out, index.pool.Store(), i, probe);
      r := index.Search(probe);
      AnswersOf(index, i, probe, r, Without(a + b, key));
      hidden := HiddenBy(TwoLeafLayout(), d, out, probe);
      HiddenRight(a, b, key, d, out, probe);
    }
  }

  lemma HiddenRight(a: seq<Entry>, b: seq<Entry>, key: i32, d: Trace, out: DeleteOutcome, probe: int)
    requires d.j == 1 && Total(d.mid) && SoundLeaf(d.mid[RIGHT]) && LeafEntries(d.mid[RIGHT]) == Without(b, key)
    requires SoundLeaf(d.mid[LEFT]) && LeafEntries(d.mid[LEFT]) == a
    ensures out.Borrows? ==> (HiddenBy(TwoLeafLayout(), d, out, probe) <==> a != [] && probe == a[|a| - 1].key)
    ensures out.Merges? ==> (HiddenBy(TwoLeafLayout(), d, out, probe) <==> Lookup(Without(b, key), probe).Some?)
  {
    hide Without, LeafEntries, Lookup;
  }

  lemma AnswersOf(index: BTreeIndex, i: nat, probe: i32, r: Result<Option<Ctid>, ()>, es: seq<Entry>)
    requires index.CanSearch() && index.rootPageId.Some? && (r.Ok? ==> index.Answers(probe, r.value))
    requires i < |index.layout.chain| && index.layout.spans[index.layout.chain[i]].Has(probe)
    ensures r.Ok? ==> (r.value == Lookup(es, probe) <==> AnswersAs(index.pool.Store(), index.layout, i, probe, es))
  {
    hide Lookup, LeafEntries, Routes;
  }

  lemma ProbeIsSomewhere(probe: i32)
    ensures var t := TwoLeafLayout();
            t.spans[t.chain[if probe < SEPARATOR then 0 else 1]].Has(probe)
  {
  }

  /** Deletes a key from the right leaf and searches a range. */
  method DeleteThenRange(a: seq<Entry>, b: seq<Entry>, maxKeys: u16, key: i32, lo: i32, hi: i32)
    returns (out: DeleteOutcome, r: Result<seq<Ctid>, ()>)
    requires SplitAt(a, b) && SEPARATOR <= key && Lookup(b, key).Some? && |b| - 1 < maxKeys / 2
    ensures out == Expected(a, b, maxKeys) && (out.Borrows? || out.Merges? ==> r.Ok?)
    ensures out.Borrows? ==> r.value == InRange(Without(a + b, key), lo, hi)
    ensures out.Merges? ==>
              InRange(Without(a + b, key), lo, hi) ==
              (if lo < SEPARATOR then [] else InRange(Without(b, key), lo, hi)) + r.value
  {
    hide Lookup, Without, Entries, LeafEntries, WellFormed, Deleted, TwoLeaves, Ascending, SplitAt, Spare, InRange;
    hide Shaped, ChainHolds, Walkable, AlongTrails, Missed, Tiles;
    var index := OpenTwoLeaves(a, b, maxKeys);
    ghost var store, t := index.pool.Store(), TwoLeafLayout();
    PinTakesSpare(index.pool.Pins(), index.pool.frames, 1, ROOT);
    ghost var chain, trace, leaked;
    WellFormedIsShaped(store, ROOT, t);
    out, chain, trace := index.Delete(key);
    ghost var d := trace.value;
    RightUnderflows(a, b, maxKeys, key, d, out, index.pool.Store());
    r := Ok([]);
    if out.Borrows? || out.Merges? {
      ghost var i := if lo < SEPARATOR then 0 else 1;
      ProbeIsSomewhere(lo);
      RangeAfterDelete(store, ROOT, t, key, d, out, index.pool.Store(), i, lo, hi, []);
      r, leaked := index.RangeSearch(lo, hi);
      RangeAfterDelete(store, ROOT, t, key, d, out, index.pool.Store(), i, lo, hi, r.value);
      MissedRight(a, b, key, d, out, i, lo, hi);
    }
  }

  lemma MissedRight(a: seq<Entry>, b: seq<Entry>, key: i32, d: Trace, out: DeleteOutcome, i: nat, lo: int, hi: int)
    requires d.j == 1 && Total(d.mid) && SoundLeaf(d.mid[RIGHT]) && LeafEntries(d.mid[RIGHT]) == Without(b, key)
    requires i < 2
    ensures Missed(TwoLeafLayout(), d, out, i, lo, hi) ==
            if out.Merges? && i == 1 then InRange(Without(b, key), lo, hi) else []
  {
    hide InRange, Without, LeafEntries;
  }

  lemma {:induction false} RunAscends(first: int, n: nat)
    requires KEY_MIN <= first && first + n <= KEY_END
    ensures Ascending(Run(first, n)) && forall e :: e in Run(first, n) ==> first <= e.key < first + n
  {
  }

  lemma {:induction false} RunHas(first: int, n: nat, key: int)
    requires KEY_MIN <= first && first + n <= KEY_END && first <= key < first + n
    ensures Lookup(Run(first, n), key).Some?
  {
    var es := Run(first, n);
    assert es[key - first] in es;
    LookupMeans(es, key);
  }

  /** A borrowed key is in the chain, and `search` misses it: 20 is deleted, 3 is borrowed. */
  method BorrowedKeyIsMissed() returns (out: DeleteOutcome, r: Result<Option<Ctid>, ()>)
    ensures out.Borrows? && r.Ok? && r.value != Lookup(Without(Run(1, 3) + Run(20, 2), 20), 3)
    ensures Lookup(Without(Run(1, 3) + Run(20, 2), 20), 3).Some?
  {
    RunAscends(1, 3);
    RunAscends(20, 2);
    RunHas(20, 2, 20);
    RunHas(1, 3, 3);
    LookupConcat(Run(1, 3), Run(20, 2), 3);
    LookupSkips(Run(1, 3) + Run(20, 2), 20, 3);
    hide Lookup, Without;
    ghost var hidden;
    out, r, hidden := DeleteThenSearch(Run(1, 3), Run(20, 2), 4, 20, 3);
  }

  /** A key moved by a merge is in the chain, and `search` misses it: 20 is deleted, 21 moves to the left leaf. */
  method MovedKeyIsMissed() returns (out: DeleteOutcome, r: Result<Option<Ctid>, ()>)
    ensures out.Merges? && r.Ok? && r.value != Lookup(Without(Run(1, 2) + Run(20, 2), 20), 21)
    ensures Lookup(Without(Run(1, 2) + Run(20, 2), 20), 21).Some?
  {
    RunAscends(1, 2);
    RunAscends(20, 2);
    RunHas(20, 2, 20);
    RunHas(20, 2, 21);
    LookupConcat(Run(1, 2), Run(20, 2), 21);
    LookupSkips(Run(1, 2) + Run(20, 2), 20, 21);
    LookupSkips(Run(20, 2), 20, 21);
    hide Lookup, Without;
    ghost var hidden;
    out, r, hidden := DeleteThenSearch(Run(1, 2), Run(20, 2), 4, 20, 21);
  }

  /** The same key is not in a range search that starts where it was. */
  method MovedKeyIsNotInRange() returns (out: DeleteOutcome, r: Result<seq<Ctid>, ()>)
    ensures out.Merges? && r.Ok? && r.value != InRange(Without(Run(1, 2) + Run(20, 2), 20), 20, 30)
  {
    RunAscends(1, 2);
    RunAscends(20, 2);
    RunHas(20, 2, 20);
    MovedIsInRange();
    hide Lookup, Without, InRange;
    out, r := DeleteThenRange(Run(1, 2), Run(20, 2), 4, 20, 20, 30);
  }

  lemma MovedIsInRange()
    ensures |InRange(Without(Run(20, 2), 20), 20, 30)| == 1
  {
    var es := Run(20, 2);
    WithoutAt(es, 20, 0);
    assert Without(es, 20) == [es[1]] && [es[1]][1..] == [];
  }

  /** Two leaves of 255 entries whose headers claim 510 slots, as with pages of 8192 bytes: the merge after a delete
      runs past the array of 340. */
  method MergeOverflows() returns (out: DeleteOutcome)
    ensures out.MergeOverflow?
  {
    RunAscends(-1000, 255);
    RunAscends(10, 255);
    RunHas(10, 255, 10);
    hide Lookup, Without;
    var r;
    ghost var hidden;
    out, r, hidden := DeleteThenSearch(Run(-1000, 255), Run(10, 255), 510, 10, 10);
  }

  // ----- A tree grown from nothing -----

  /** What stops insertion into a growing root leaf: its header says it is full, or its array is. */
  function Stop(): InsertOutcome {
    if PAGE_SIZE >= 5480 then ArrayOverflow else SplitUnimplemented
  }

  lemma RootLeafDecides(store: Store, p: PageId, n: nat, key: i32, j: nat, out: InsertOutcome)
    requires WellFormed(store, p, RootLayout(p)) && StandardLeaves(store, [p]) && 0 < n <= MAX_KEYS && key as int == n
    requires Entries(store, [p]) == Run(0, n) && Decided(store, RootLayout(p), j, key, out)
    ensures out.Inserts? <==> n < CAPACITY && n < MAX_KEYS
    ensures out.Inserts? || out == Stop()
  {
    assert [p][1..] == [] && LeafEntries(store[p]) + [] == LeafEntries(store[p]);
    assert LeafEntries(store[p]) == Run(0, n) && store[p].numKeys == n;
    LookupMeans(Run(0, n), key);
    RunAscends(0, n);
  }

  lemma RunGrows(n: nat)
    requires n < KEY_END
    ensures Inserted(Run(0, n), Entry(n, Ctid(ROOT, 0))) == Run(0, n + 1)
  {
    InsertedAt(Run(0, n), Entry(n, Ctid(ROOT, 0)), n);
  }

  /** The index holds 0, 1, 2 and so on up to `n`, in its root leaf. */
  ghost predicate Grown(index: BTreeIndex, n: nat)
    requires n <= KEY_END
    reads index, index.pool
  {
    && index.Valid() && index.Standard() && index.rootPageId.Some?
    && index.layout == RootLayout(index.rootPageId.value) && index.Contents() == Run(0, n)
    && Spare(index.pool.Pins(), index.pool.frames, 1)
  }

  method InsertFirst(index: BTreeIndex) returns (out: InsertOutcome)
    requires index.Valid() && index.rootPageId.None? && Spare(index.pool.Pins(), index.pool.frames, 1)
    modifies index, index.pool
    ensures out.Inserts? && Grown(index, 1)
  {
    hide WellFormed, Entries, Inserted, StandardLeaves, Lookup, Decided;
    ghost var j;
    out, j := index.Insert(0, Ctid(ROOT, 0));
    assert Run(0, 1) == [Entry(0, Ctid(ROOT, 0))];
  }

  method InsertNext(index: BTreeIndex, n: nat) returns (out: InsertOutcome)
    requires 0 < n <= MAX_KEYS && Grown(index, n)
    modifies index, index.pool
    ensures out.Inserts? <==> n < CAPACITY && n < MAX_KEYS
    ensures if out.Inserts? then Grown(index, n + 1) else out == Stop()
  {
    hide WellFormed, Entries, Inserted, StandardLeaves, Lookup, Decided, Stop;
    ghost var store, root := index.pool.Store(), index.rootPageId.value;
    RunGrows(n);
    ghost var j;
    out, j := index.Insert(n, Ctid(ROOT, 0));
    RootLeafDecides(store, root, n, n, j, out);
  }

  /** Inserting 0, 1, 2 and so on into an empty index goes well until the root leaf is full. Then the next insert asks
      for a split if pages are below 5480 bytes, and runs past the array if they are not. */
  method InsertUntilStopped(frames: nat) returns (out: InsertOutcome, n: nat)
    requires frames > 0
    ensures out == Stop()
    ensures n == if CAPACITY == 0 then 1 else if CAPACITY < MAX_KEYS then CAPACITY else MAX_KEYS
  {
    hide WellFormed, Entries, Grown, Stop, StandardLeaves, RootLayout, Nodes.Store, Nodes.Valid;
    var pool := new Nodes(frames, map[], 0);
    var index := new BTreeIndex(pool, None, Layout(map[], []));
    assert Covers({}, pool.Pins());
    out := InsertFirst(index);
    n := 1;
    while true
      invariant fresh(index) && fresh(index.pool)
      invariant 0 < n <= MAX_KEYS && Grown(index, n) && (n > 1 ==> n <= CAPACITY)
      decreases MAX_KEYS - n
    {
      out := InsertNext(index, n);
      if !out.Inserts? {
        return;
      }
      n := n + 1;
    }
  }

  /** A tree of one full leaf. */
  lemma FullRootIsTree(n: nat)
    requires 0 < n <= MAX_KEYS
    ensures var leaf, t := LeafOf(Run(0, n), CAPACITY, INVALID_PAGE_ID, INVALID_PAGE_ID), RootLayout(LEFT);
            var store := StoreOf(map[LEFT := leaf]);
            WellFormed(store, LEFT, t) && StandardLeaves(store, t.chain)
  {
    var store := StoreOf(map[LEFT := LeafOf(Run(0, n), CAPACITY, INVALID_PAGE_ID, INVALID_PAGE_ID)]);
    RunAscends(0, n);
    RootIsTree(store, LEFT, Run(0, n));
  }

  /** In no tree whose leaves have the capacity of a new root does an insert run past the array, exactly when pages are
      below 5480 bytes. */
  lemma NoOverflowIff()
    ensures (forall store: Store, root: PageId, t: Layout, j: nat, key: i32 ::
               WellFormed(store, root, t) && StandardLeaves(store, t.chain) ==>
                 !Decided(store, t, j, key, ArrayOverflow))
            <==> PAGE_SIZE < 5480
  {
    if PAGE_SIZE >= 5480 {
      var leaf := LeafOf(Run(0, MAX_KEYS), CAPACITY, INVALID_PAGE_ID, INVALID_PAGE_ID);
      var store, t := StoreOf(map[LEFT := leaf]), RootLayout(LEFT);
      FullRootIsTree(MAX_KEYS);
      RunAscends(0, MAX_KEYS);
      LookupMeans(Run(0, MAX_KEYS), 1000);
      hide WellFormed, LeafOf;
      assert Decided(store, t, 0, 1000, ArrayOverflow);
    } else {
      forall store: Store, root: PageId, t: Layout, j: nat, key: i32
        | WellFormed(store, root, t) && StandardLeaves(store, t.chain)
        ensures !Decided(store, t, j, key, ArrayOverflow)
      {
        hide WellFormed, Lookup, LeafEntries;
      }
    }
  }
}
