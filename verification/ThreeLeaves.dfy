/** A tree in which a second merge strays into the leaf that the first one emptied (wasdb_btree/src/tree.rs). */
module ThreeLeaves {
  import opened Util
  import opened Storage

  import opened BTree
  import opened BTreeExamples
  import opened BTreeModel
  import opened BTreeProof
  import opened BTreeRuns
  import opened BTreeTrails
  import opened BTreeUpdates
  import opened FlatPool
  import opened NodePool

  const MIDDLE := PageId(0, 3)

  function RootOfThree(): Node {
    Internal(2, INVALID_PAGE_ID, seq(MAX_KEYS, i => if i == 0 then 10 else 20),
             seq(MAX_KEYS + 1, i => if i == 0 then LEFT else if i == 1 then MIDDLE else RIGHT))
  }

  /** Leaves of two entries out of four, under one root. */
  function Pages(): map<PageId, Node> {
    map[ROOT := RootOfThree(),
        LEFT := LeafOf(Run(1, 2), 4, ROOT, MIDDLE),
        MIDDLE := LeafOf(Run(10, 2), 4, ROOT, RIGHT),
        RIGHT := LeafOf(Run(20, 2), 4, ROOT, INVALID_PAGE_ID)]
  }

  function Three(): Layout {
    Layout(map[ROOT := Span(KEY_MIN, KEY_END, 1), LEFT := Span(KEY_MIN, 10, 0), MIDDLE := Span(10, 20, 0),
               RIGHT := Span(20, KEY_END, 0)],
           [LEFT, MIDDLE, RIGHT])
  }

  ghost predicate IsPlain(n: Node, es: seq<Entry>, next: PageId) {
    && SoundLeaf(n) && LeafEntries(n) == es && |es| == n.numKeys == 2 && n.maxKeys == 4
    && n.parent == ROOT && n.next == next
  }

  ghost predicate IsThree(store: Store) {
    && Total(store) && store[ROOT] == RootOfThree()
    && IsPlain(store[LEFT], Run(1, 2), MIDDLE)
    && IsPlain(store[MIDDLE], Run(10, 2), RIGHT)
    && IsPlain(store[RIGHT], Run(20, 2), INVALID_PAGE_ID)
  }

  lemma PlainLeaf(es: seq<Entry>, next: PageId)
    requires |es| == 2
    ensures IsPlain(LeafOf(es, 4, ROOT, next), es, next)
  {
    LeafSize(LeafOf(es, 4, ROOT, next));
    hide LeafEntries;
  }

  lemma PagesAreThree()
    ensures IsThree(StoreOf(Pages()))
  {
    PlainLeaf(Run(1, 2), MIDDLE);
    PlainLeaf(Run(10, 2), RIGHT);
    PlainLeaf(Run(20, 2), INVALID_PAGE_ID);
    hide IsPlain, LeafOf, Run, RootOfThree;
  }

  lemma ThreeTile()
    ensures Tiles(Three())
  {
    var t := Three();
    assert t.chain[0] == LEFT && t.chain[1] == MIDDLE && t.chain[2] == RIGHT;
  }

  lemma RootIsOk()
    ensures InternalOk(RootOfThree(), Three().spans[ROOT], Three().spans)
  {
    var t, root := Three(), RootOfThree();
    assert root.children[0] == LEFT && root.children[1] == MIDDLE && root.children[2] == RIGHT;
    assert root.keys[0] == 10 && root.keys[1] == 20;
  }

  lemma ThreeRoute(store: Store)
    requires IsThree(store)
    ensures Routes(store, ROOT, Three()) && Tiles(Three())
  {
    ThreeTile();
    RootIsOk();
    hide LeafEntries, Run, RootOfThree, InternalOk, Tiles;
  }

  lemma ThreeFit(store: Store)
    requires IsThree(store)
    ensures var t := Three();
            && (forall i :: 0 <= i < 3 ==> LeafWithin(store[t.chain[i]], t.spans[t.chain[i]]))
            && (forall i :: 0 <= i < 3 ==> ParentOk(store, ROOT, t, t.chain[i]))
  {
    RunAscends(1, 2);
    RunAscends(10, 2);
    RunAscends(20, 2);
    hide Run, LeafEntries, Ascending;
    var t, root := Three(), RootOfThree();
    assert root.children[0] == LEFT && root.children[1] == MIDDLE && root.children[2] == RIGHT;
    assert t.chain[0] == LEFT && t.chain[1] == MIDDLE && t.chain[2] == RIGHT;
  }

  lemma ThreeLink(store: Store)
    requires IsThree(store)
    ensures Linked(store, Three().chain)
  {
    hide LeafEntries, Run, RootOfThree;
    var t := Three();
    assert t.chain[0] == LEFT && t.chain[1] == MIDDLE && t.chain[2] == RIGHT;
  }

  lemma ThreeIsTree(store: Store)
    requires IsThree(store)
    ensures WellFormed(store, ROOT, Three())
  {
    ThreeRoute(store);
    ThreeFit(store);
    ThreeLink(store);
    hide IsThree, Routes, Tiles, Linked, LeafWithin, ParentOk;
  }

  // ----- Two deletes -----

  /** A delete that leaves one of two entries merges the leaf into a left sibling that has none to spare. */
  lemma MergesLeft(store: Store, key: i32, d: Trace, out: DeleteOutcome, store': Store)
    requires Deleted(store, Three(), key, d, out, store') && !d.refused && !out.PoolExhausted? && 0 < d.j < 3
    requires var left, p := Three().chain[d.j - 1], Three().chain[d.j];
             && SoundLeaf(store[left]) && store[left].numKeys <= 2 && store[ROOT] == RootOfThree()
             && SoundLeaf(store[p]) && store[p].numKeys == 2 && store[p].maxKeys == 4 && store[p].parent == ROOT
             && Ascending(LeafEntries(store[p])) && Lookup(LeafEntries(store[p]), key).Some?
    ensures out.Merges? && Total(store) && Total(store') && Total(d.mid)
    ensures var left, p := Three().chain[d.j - 1], Three().chain[d.j];
            && (forall x: PageId :: x != left && x != p ==> store'[x] == store[x])
            && d.mid[p].Leaf? && d.mid[p].numKeys == 1 && SoundLeaf(store'[p]) && store'[p].numKeys == 0
            && SoundLeaf(store[left]) && SoundLeaf(store[p]) && SoundLeaf(store'[left])
            && LeafEntries(store'[left]) == LeafEntries(store[left]) + Without(LeafEntries(store[p]), key)
  {
    var left, p := Three().chain[d.j - 1], Three().chain[d.j];
    ThreePages(d.j);
    DeletedPlain(store, Three(), key, d, out, store');
    OneLeft(store[p], d.mid[p], key);
    hide LeafEntries, Deleted, Lookup, Without, Ascending, Three, RootOfThree, SoundLeaf, SiblingUsed;
    assert !FirstChild(d.mid, p) && d.mid[left] == store[left];
    MergesIntoLeft(d.mid, left, p, 2, out, store');
  }

  lemma ThreePages(j: nat)
    requires 0 < j < 3
    ensures var left, p := Three().chain[j - 1], Three().chain[j];
            left != p && p != ROOT && left != ROOT && RootOfThree().Internal? && RootOfThree().children[0] != p
  {
  }

  lemma OneLeft(n: Node, n': Node, key: int)
    requires SoundLeaf(n) && SoundLeaf(n') && n.numKeys == 2 && Ascending(LeafEntries(n))
    requires Lookup(LeafEntries(n), key).Some? && LeafEntries(n') == Without(LeafEntries(n), key)
    ensures n'.Leaf? && n'.numKeys == 1
  {
    LeafSize(n);
    LeafSize(n');
    LookupMeans(LeafEntries(n), key);
    WithoutMembers(LeafEntries(n), key);
  }

  lemma MergesIntoLeft(mid: Store, left: PageId, p: PageId, minKeys: nat, out: DeleteOutcome, store': Store)
    requires SiblingUsed(mid, left, p, minKeys, out, store') && !out.PoolExhausted? && left != p
    requires mid[left].Leaf? && mid[left].numKeys <= minKeys && mid[p].Leaf? && mid[p].numKeys == 1 && minKeys == 2
    ensures out.Merges? && Total(store') && forall x: PageId :: x != left && x != p ==> store'[x] == mid[x]
    ensures SoundLeaf(mid[left]) && SoundLeaf(mid[p]) && SoundLeaf(store'[left]) && SoundLeaf(store'[p])
    ensures store'[p].numKeys == 0 && LeafEntries(store'[left]) == LeafEntries(mid[left]) + LeafEntries(mid[p])
  {
    hide LeafEntries;
  }

  lemma LeafIsReached(key: i32, d: Trace, i: nat)
    requires d.j < 3 && i < 3 && Three().spans[Three().chain[i]].Has(key) && Three().spans[Three().chain[d.j]].Has(key)
    ensures d.j == i
  {
  }

  /** What the first delete leaves: 11 has moved to the left leaf. */
  ghost predicate IsMerged(store: Store) {
    && Total(store) && store[ROOT] == RootOfThree()
    && SoundLeaf(store[LEFT]) && LeafEntries(store[LEFT]) == Run(1, 2) + Without(Run(10, 2), 10)
    && SoundLeaf(store[MIDDLE]) && store[MIDDLE].numKeys == 0
    && IsPlain(store[RIGHT], Run(20, 2), INVALID_PAGE_ID)
  }

  lemma FirstMerges(store: Store, d: Trace, out: DeleteOutcome, store': Store)
    requires IsThree(store) && Deleted(store, Three(), 10, d, out, store') && !d.refused && !out.PoolExhausted?
    ensures d.j == 1 && out.Merges? && IsMerged(store')
  {
    RunAscends(10, 2);
    RunHas(10, 2, 10);
    LeafIsReached(10, d, 1);
    MergesLeft(store, 10, d, out, store');
    hide LeafEntries, Run, Deleted, Lookup, Without, Ascending, RootOfThree, SoundLeaf;
  }

  /** What the second delete leaves: 21 has moved to the middle leaf. */
  ghost predicate IsStrayed(store: Store) {
    && Total(store)
    && SoundLeaf(store[LEFT]) && LeafEntries(store[LEFT]) == Run(1, 2) + Without(Run(10, 2), 10)
    && SoundLeaf(store[MIDDLE]) && LeafEntries(store[MIDDLE]) == Without(Run(20, 2), 20)
    && SoundLeaf(store[RIGHT]) && LeafEntries(store[RIGHT]) == []
  }

  lemma SecondStrays(store: Store, d: Trace, out: DeleteOutcome, store': Store)
    requires IsMerged(store) && Deleted(store, Three(), 20, d, out, store') && !d.refused && !out.PoolExhausted?
    ensures d.j == 2 && Strays(Three(), {MIDDLE}, Step(20, d, out)) && IsStrayed(store')
  {
    RunAscends(20, 2);
    RunHas(20, 2, 20);
    LeafIsReached(20, d, 2);
    MergesLeft(store, 20, d, out, store');
    NoEntries(store[MIDDLE]);
    NoEntries(store'[RIGHT]);
    hide LeafEntries, Run, Deleted, Lookup, Without, Ascending, RootOfThree, SoundLeaf;
  }

  // ----- What is lost -----

  /** The entries of the tree. */
  function List(): seq<Entry> {
    Run(1, 2) + (Run(10, 2) + Run(20, 2))
  }

  lemma ThreeEntries(store: Store)
    requires IsThree(store) && SoundChain(store, Three().chain)
    ensures Entries(store, Three().chain) == List()
  {
    var chain := Three().chain;
    hide LeafEntries, Run, SoundLeaf, RootOfThree;
    TwoEntries(store, MIDDLE, RIGHT);
    assert chain[0] == LEFT && chain[1..] == [MIDDLE, RIGHT];
    EntriesUnfold(store, chain);
  }

  /** The chain lacks more than the two deleted entries. */
  lemma StrayIsLost(store: Store, d: Trace, out: DeleteOutcome, mid: Store, d': Trace, out': DeleteOutcome,
                    store': Store)
    requires IsThree(store) && Deleted(store, Three(), 10, d, out, mid) && Deleted(mid, Three(), 20, d', out', store')
    requires d.j == 1 && out.Merges? && Strays(Three(), {MIDDLE}, Step(20, d', out'))
    ensures !ChainIs(store', Three(), Without(Without(List(), 10), 20))
  {
    ThreeLink(store);
    FirstStep(d, out);
    hide Three, Deleted, Strays, IsThree, Without, List, Entries, ChainIs, Linked, Emptied;
    ThreeIsTree(store);
    ThreeEntries(store);
    WellFormedIsWorn(store, ROOT, Three());
    StepStaysWorn(store, ROOT, Three(), {}, List(), Step(10, d, out), mid);
    StrayLosesEntries(mid, ROOT, Three(), {MIDDLE}, Without(List(), 10), Step(20, d', out'), store');
  }

  lemma FirstStep(d: Trace, out: DeleteOutcome)
    requires d.j == 1 && out.Merges?
    ensures Emptied(Three(), {}, Step(10, d, out)) == {MIDDLE} && !Strays(Three(), {}, Step(10, d, out))
  {
  }

  lemma StillListed()
    ensures Lookup(Without(Without(List(), 10), 20), 21).Some?
  {
    RunAscends(1, 2);
    RunAscends(10, 2);
    RunHas(20, 2, 21);
    LookupMeans(Run(1, 2), 21);
    LookupMeans(Run(10, 2), 21);
    hide Run, Lookup, Without, Ascending;
    LookupConcat(Run(10, 2), Run(20, 2), 21);
    LookupConcat(Run(1, 2), Run(10, 2) + Run(20, 2), 21);
    LookupSkips(List(), 10, 21);
    LookupSkips(Without(List(), 10), 20, 21);
  }

  lemma {:induction false} RestAscends(first: int)
    requires KEY_MIN <= first && first + 2 <= KEY_END
    ensures Ascending(Without(Run(first, 2), first)) && forall e :: e in Without(Run(first, 2), first) ==> first < e.key
  {
    WithoutAt(Run(first, 2), first, 0);
  }

  lemma StrayedListsAscend()
    ensures Ascending(Run(1, 2) + Without(Run(10, 2), 10)) && Ascending(Without(Run(20, 2), 20)) && Ascending([])
  {
    RunAscends(1, 2);
    RestAscends(10);
    RestAscends(20);
    hide Run, Without;
    AscendingConcat(Run(1, 2), Without(Run(10, 2), 10), 10);
  }

  lemma StrayedIsSearchable(store: Store)
    requires IsStrayed(store) && Shaped(store, ROOT, Three())
    ensures Searchable(store, ROOT, Three())
  {
    hide Run, Without, Ascending, LeafEntries, Shaped, Routes, Tiles, SoundLeaf;
    StrayedListsAscend();
    ShapedRoutes(store, ROOT, Three());
    assert forall i :: 0 <= i < 3 ==> Three().chain[i] in [LEFT, MIDDLE, RIGHT];
  }

  lemma StrayedAnswer(index: BTreeIndex, v: Option<Ctid>)
    requires index.CanSearch() && index.rootPageId.Some? && index.layout == Three() && index.Answers(21, v)
    requires IsStrayed(index.pool.Store())
    ensures v == None
  {
    hide Lookup, LeafEntries, Routes, Run, Without;
    assert Three().chain[2] == RIGHT && Three().spans[RIGHT].Has(21);
    assert v == Lookup(LeafEntries(index.pool.Store()[RIGHT]), 21);
    EmptyTree(Entry(21, Ctid(ROOT, 0)));
  }

  method OpenThreeLeaves() returns (index: BTreeIndex)
    ensures fresh(index) && fresh(index.pool) && index.Valid() && index.rootPageId == Some(ROOT)
    ensures index.layout == Three() && IsThree(index.pool.Store())
    ensures Spare(index.pool.Pins(), index.pool.frames, 2)
  {
    PagesAreThree();
    hide WellFormed, IsThree, Pages, Three;
    var pool := new Nodes(2, Pages(), 4);
    assert pool.Store() == StoreOf(Pages());
    assert Covers({}, pool.Pins());
    ThreeIsTree(pool.Store());
    index := new BTreeIndex(pool, Some(ROOT), Three());
  }

  /** 10 is deleted and its leaf merged into the left one; 20 is deleted and 21 moved to the leaf so emptied. Neither
      the chain nor `search` has 21 any more. */
  method StrayedKeyIsLost() returns (first: DeleteOutcome, second: DeleteOutcome, r: Result<Option<Ctid>, ()>,
                                     ghost store: Store)
    ensures first.Merges? && second.Merges? && Lookup(Without(Without(List(), 10), 20), 21).Some?
    ensures !ChainIs(store, Three(), Without(Without(List(), 10), 20))
    ensures r == Ok(None)
  {
    hide WellFormed, Shaped, Three, Deleted, Lookup, Without, List, IsThree, IsMerged, IsStrayed, Strays, Spare;
    hide Searchable, ChainIs, ChainHolds, Entries, BTreeIndex.Answers, Nodes.Store, Nodes.Pins;
    StillListed();
    var index := OpenThreeLeaves();
    ghost var chain, trace, trace';
    ghost var store0 := index.pool.Store();
    PinTakesSpare(index.pool.Pins(), index.pool.frames, 1, ROOT);
    WellFormedIsShaped(store0, ROOT, Three());
    first, chain, trace := index.Delete(10);
    FirstMerges(store0, trace.value, first, index.pool.Store());
    ghost var mid := index.pool.Store();
    second, chain, trace' := index.Delete(20);
    store := index.pool.Store();
    SecondStrays(mid, trace'.value, second, store);
    StraysMerges(Three(), {MIDDLE}, Step(20, trace'.value, second));
    StrayIsLost(store0, trace.value, first, mid, trace'.value, second, store);
    StrayedIsSearchable(store);
    r := index.Search(21);
    StrayedAnswer(index, r.value);
  }

  lemma StraysMerges(t: Layout, gone: set<PageId>, s: Step)
    requires Strays(t, gone, s)
    ensures s.out.Merges?
  {
  }
}
