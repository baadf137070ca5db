/** What changing one or two leaves does to the tree. */
module BTreeUpdates {
  import opened Util
  import opened Storage
  import opened BTreeModel
  import opened BTreeProof

  ghost predicate SameLinks(n: Node, n': Node) {
    n.Leaf? && n'.Leaf? && n'.next == n.next && n'.parent == n.parent && n'.maxKeys == n.maxKeys
  }

  /** A leaf that keeps to its interval and its links can be replaced. */
  lemma LeafReplaced(store: Store, root: PageId, t: Layout, j: nat, n: Node)
    requires WellFormed(store, root, t) && j < |t.chain|
    requires LeafWithin(n, t.spans[t.chain[j]]) && SameLinks(store[t.chain[j]], n)
    ensures WellFormed(store[t.chain[j] := n], root, t)
  {
    RoutesKept(store, root, t, t.chain[j], n);
    LinksKept(store, t.chain, j, n);
    ParentsKept(store, root, t, j, n);
    LeavesKept(store, t, j, n);
    hide Routes, Tiles, Linked, ParentOk, LeafWithin;
  }

  lemma ParentsKept(store: Store, root: PageId, t: Layout, j: nat, n: Node)
    requires Total(store) && j < |t.chain| && n.Leaf? && store[t.chain[j]].Leaf?
    requires n.parent == store[t.chain[j]].parent
    requires forall i :: 0 <= i < |t.chain| ==> store[t.chain[i]].Leaf? && ParentOk(store, root, t, t.chain[i])
    ensures forall i :: 0 <= i < |t.chain| ==>
              store[t.chain[j] := n][t.chain[i]].Leaf? && ParentOk(store[t.chain[j] := n], root, t, t.chain[i])
  {
  }

  lemma LeavesKept(store: Store, t: Layout, j: nat, n: Node)
    requires Total(store) && j < |t.chain| && (forall i :: 0 <= i < |t.chain| ==> t.chain[i] in t.spans)
    requires forall i :: 0 <= i < |t.chain| ==> LeafWithin(store[t.chain[i]], t.spans[t.chain[i]])
    requires LeafWithin(n, t.spans[t.chain[j]])
    ensures forall i :: 0 <= i < |t.chain| ==> LeafWithin(store[t.chain[j] := n][t.chain[i]], t.spans[t.chain[i]])
  {
    hide LeafWithin;
  }

  lemma RoutesKept(store: Store, root: PageId, t: Layout, p: PageId, n: Node)
    requires Routes(store, root, t) && p in t.spans && t.spans[p].level == 0 && SoundLeaf(n)
    ensures Routes(store[p := n], root, t)
  {
  }

  lemma LinksKept(store: Store, chain: seq<PageId>, j: nat, n: Node)
    requires Linked(store, chain) && j < |chain| && SoundLeaf(n) && n.next == store[chain[j]].next
    ensures Linked(store[chain[j] := n], chain)
  {
  }

  lemma EmptiedLinks(store: Store, chain: seq<PageId>, j: nat, store': Store)
    requires Linked(store, chain) && j < |chain| && Total(store')
    requires SoundLeaf(store'[chain[j]]) && SameLinks(store[chain[j]], store'[chain[j]])
    requires forall i :: 0 <= i < |chain| && i != j ==> store'[chain[i]] == store[chain[i]]
    ensures Linked(store', chain)
  {
  }

  /** No other leaf mentions a key of the `j`-th leaf's interval. */
  lemma KeyIsLocal(store: Store, t: Layout, j: nat, key: int)
    requires LeavesWithin(store, t) && j < |t.chain| && t.spans[t.chain[j]].Has(key)
    ensures forall e :: e in Before(store, t.chain, j) ==> e.key < key
    ensures forall e :: e in After(store, t.chain, j + 1) ==> key < e.key
  {
    AfterIsAbove(store, t, j + 1);
    if j > 0 {
      BeforeIsBelow(store, t, j);
      assert t.spans[t.chain[j - 1]].hi == t.spans[t.chain[j]].lo;
    }
  }

  /** Putting a new key in its leaf puts it in the tree. */
  lemma InsertLands(store: Store, root: PageId, t: Layout, j: nat, n: Node, e: Entry)
    requires WellFormed(store, root, t) && j < |t.chain| && t.spans[t.chain[j]].Has(e.key)
    requires Lookup(LeafEntries(store[t.chain[j]]), e.key).None?
    requires SoundLeaf(n) && SameLinks(store[t.chain[j]], n)
    requires LeafEntries(n) == Inserted(LeafEntries(store[t.chain[j]]), e)
    ensures WellFormed(store[t.chain[j] := n], root, t)
    ensures Entries(store[t.chain[j] := n], t.chain) == Inserted(Entries(store, t.chain), e)
  {
    hide Routes, Tiles, ParentOk;
    var was := LeafEntries(store[t.chain[j]]);
    LookupMeans(was, e.key);
    InsertedMembers(was, e);
    LeafReplaced(store, root, t, j, n);
    KeyIsLocal(store, t, j, e.key);
    EntriesAround(store, t.chain, j);
    EntriesReplaced(store, t.chain, j, n);
    InsertedWithin(Before(store, t.chain, j), was, After(store, t.chain, j + 1), e);
  }

  /** Taking a key out of its leaf takes it out of the tree. */
  lemma DeleteLands(store: Store, root: PageId, t: Layout, j: nat, n: Node, key: int)
    requires WellFormed(store, root, t) && j < |t.chain| && t.spans[t.chain[j]].Has(key)
    requires Lookup(LeafEntries(store[t.chain[j]]), key).Some?
    requires SoundLeaf(n) && SameLinks(store[t.chain[j]], n)
    requires LeafEntries(n) == Without(LeafEntries(store[t.chain[j]]), key)
    ensures WellFormed(store[t.chain[j] := n], root, t)
    ensures Entries(store[t.chain[j] := n], t.chain) == Without(Entries(store, t.chain), key)
  {
    hide Routes, Tiles, ParentOk;
    var was := LeafEntries(store[t.chain[j]]);
    LookupMeans(was, key);
    WithoutMembers(was, key);
    LeafReplaced(store, root, t, j, n);
    KeyIsLocal(store, t, j, key);
    EntriesAround(store, t.chain, j);
    EntriesReplaced(store, t.chain, j, n);
    WithoutWithin(Before(store, t.chain, j), was, After(store, t.chain, j + 1), key);
  }

  // ----- Two neighbouring leaves -----

  /** The list around two neighbouring leaves. */
  lemma EntriesAroundPair(store: Store, chain: seq<PageId>, j: nat)
    requires SoundChain(store, chain) && 0 < j < |chain|
    ensures Entries(store, chain) ==
            Before(store, chain, j - 1)
            + (LeafEntries(store[chain[j - 1]]) + LeafEntries(store[chain[j]]) + After(store, chain, j + 1))
  {
    EntriesAround(store, chain, j - 1);
    AfterUnfolds(store, chain, j);
    hide *;
    Assoc(LeafEntries(store[chain[j - 1]]), LeafEntries(store[chain[j]]), After(store, chain, j + 1));
  }

  lemma Assoc(a: seq<Entry>, b: seq<Entry>, c: seq<Entry>)
    ensures a + (b + c) == a + b + c
  {
  }

  /** Moving the last entry of a leaf to the front of its right neighbour leaves the chain as it was. */
  lemma BorrowKeepsChain(store: Store, chain: seq<PageId>, j: nat, left: Node, right: Node)
    requires Linked(store, chain) && 0 < j < |chain| && SoundLeaf(left) && SoundLeaf(right)
    requires SameLinks(store[chain[j - 1]], left) && SameLinks(store[chain[j]], right)
    requires LeafEntries(left) + LeafEntries(right) ==
             LeafEntries(store[chain[j - 1]]) + LeafEntries(store[chain[j]])
    ensures var store' := store[chain[j - 1] := left][chain[j] := right];
            Linked(store', chain) && Entries(store', chain) == Entries(store, chain)
  {
    var mid := store[chain[j - 1] := left];
    var store' := mid[chain[j] := right];
    LinksKept(store, chain, j - 1, left);
    LinksKept(mid, chain, j, right);
    SoundSlices(store, chain, j - 1);
    SoundSlices(store, chain, j + 1);
    hide LeafEntries, Entries, SoundLeaf, SoundChain;
    EntriesAroundPair(store, chain, j);
    EntriesAroundPair(store', chain, j);
    EntriesFrame(store, store', chain[..j - 1]);
    EntriesFrame(store, store', chain[j + 1..]);
  }

  /** Emptying a leaf into its left neighbour, which takes over its link, shortens the chain by that leaf. */
  lemma MergeKeepsChain(store: Store, chain: seq<PageId>, j: nat, left: Node, right: Node)
    requires Linked(store, chain) && 0 < j < |chain| && SoundLeaf(left) && SoundLeaf(right)
    requires left.next == store[chain[j]].next
    requires LeafEntries(left) == LeafEntries(store[chain[j - 1]]) + LeafEntries(store[chain[j]])
    ensures var store', chain' := store[chain[j - 1] := left][chain[j] := right], chain[..j] + chain[j + 1..];
            Linked(store', chain') && Entries(store', chain') == Entries(store, chain)
  {
    var store' := store[chain[j - 1] := left][chain[j] := right];
    MergedIsLinked(store, chain, j, left, right);
    hide LeafEntries, Entries, SoundLeaf;
    MergedEntries(store, store', chain, j);
  }

  lemma MergedEntries(store: Store, store': Store, chain: seq<PageId>, j: nat)
    requires 0 < j < |chain| && SoundChain(store, chain) && SoundChain(store', chain[..j] + chain[j + 1..])
    requires forall i :: 0 <= i < |chain| && i != j - 1 && i != j ==> store'[chain[i]] == store[chain[i]]
    requires LeafEntries(store'[(chain[..j] + chain[j + 1..])[j - 1]]) ==
             LeafEntries(store[chain[j - 1]]) + LeafEntries(store[chain[j]])
    ensures Entries(store', chain[..j] + chain[j + 1..]) == Entries(store, chain)
  {
    var chain' := chain[..j] + chain[j + 1..];
    SoundSlices(store, chain, j - 1);
    SoundSlices(store, chain, j + 1);
    hide LeafEntries, Entries, SoundLeaf;
    EntriesFrame(store, store', chain[..j - 1]);
    EntriesFrame(store, store', chain[j + 1..]);
    hide SoundChain;
    EntriesAroundPair(store, chain, j);
    EntriesAround(store', chain', j - 1);
    assert chain'[..j - 1] == chain[..j - 1] && chain'[j..] == chain[j + 1..];
  }

  lemma MergedIsLinked(store: Store, chain: seq<PageId>, j: nat, left: Node, right: Node)
    requires Linked(store, chain) && 0 < j < |chain| && SoundLeaf(left) && SoundLeaf(right)
    requires left.next == store[chain[j]].next
    ensures Linked(store[chain[j - 1] := left][chain[j] := right], chain[..j] + chain[j + 1..])
  {
    var store', chain' := store[chain[j - 1] := left][chain[j] := right], chain[..j] + chain[j + 1..];
    hide SoundLeaf;
    forall i | 0 <= i < |chain'|
      ensures SoundLeaf(store'[chain'[i]]) && chain'[i] != INVALID_PAGE_ID
      ensures store'[chain'[i]].Leaf?
      ensures store'[chain'[i]].next == if i + 1 < |chain'| then chain'[i + 1] else INVALID_PAGE_ID
    {
      MergedLink(store, chain, j, left, right, i);
    }
  }

  /** A leaf of the shortened chain still names its successor. */
  lemma MergedLink(store: Store, chain: seq<PageId>, j: nat, left: Node, right: Node, i: nat)
    requires Linked(store, chain) && 0 < j < |chain| && SoundLeaf(left) && SoundLeaf(right)
    requires left.next == store[chain[j]].next && i < |chain| - 1
    ensures var store', chain' := store[chain[j - 1] := left][chain[j] := right], chain[..j] + chain[j + 1..];
            && SoundLeaf(store'[chain'[i]]) && chain'[i] != INVALID_PAGE_ID
            && store'[chain'[i]].next == if i + 1 < |chain'| then chain'[i + 1] else INVALID_PAGE_ID
  {
    var m := if i < j then i else i + 1;
    assert (chain[..j] + chain[j + 1..])[i] == chain[m] != chain[j];
    assert m + 1 < |chain| ==> store[chain[m]].next == chain[m + 1];
    assert j + 1 < |chain| ==> store[chain[j]].next == chain[j + 1];
  }

  /** The page just left of a leaf under their common parent is its left neighbour in the chain. */
  lemma SiblingIsNeighbour(store: Store, root: PageId, t: Layout, j: nat, q: PageId, i: nat)
    requires Shaped(store, root, t) && j < |t.chain|
    requires q in t.spans && t.spans[q].level == 1 && 0 < i <= store[q].numKeys
    requires store[q].children[i] == t.chain[j]
    ensures 0 < j && store[q].children[i - 1] == t.chain[j - 1]
  {
    hide ParentOk;
    var s := t.spans[q];
    assert InternalOk(store[q], s, t.spans);
    var left := store[q].children[i - 1];
    assert t.spans[left] == ChildSpan(store[q], s, i - 1);
    assert t.spans[t.chain[j]] == ChildSpan(store[q], s, i);
    var m :| 0 <= m < |t.chain| && t.chain[m] == left;
    if m < j {
      if m + 1 < j {
        ChainOrdered(t, m + 1, j);
      }
    } else if j < m {
      ChainOrdered(t, j, m);
    }
  }
}
