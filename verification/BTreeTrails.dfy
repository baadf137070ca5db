/** Where the links between leaves lead, whatever the leaves hold (wasdb_btree/src/tree.rs). */
module BTreeTrails {
  import opened Util
  import opened Storage
  import opened BTreeModel
  import opened BTreeProof

  // ----- Where the leaf links lead -----

  /** The pages that the links lead to from a page, to the last leaf; their entries ascend. */
  ghost predicate IsTrail(store: Store, p: PageId, path: seq<PageId>) {
    Linked(store, path) && path[0] == p && Ascending(Entries(store, path))
  }

  ghost predicate HasTrail(store: Store, p: PageId) {
    exists path :: IsTrail(store, p, path)
  }

  /** Descent ends, every key has one leaf, and from every leaf the links lead to an end. */
  ghost predicate Walkable(store: Store, root: PageId, t: Layout) {
    Routes(store, root, t) && Tiles(t) && forall i :: 0 <= i < |t.chain| ==> HasTrail(store, t.chain[i])
  }

  /** The values in range along the links from the leaf that descent reaches for the lower bound. */
  ghost predicate AlongTrails(store: Store, t: Layout, lo: int, hi: int, values: seq<Ctid>)
    requires Tiles(t)
  {
    forall i, path :: 0 <= i < |t.chain| && t.spans[t.chain[i]].Has(lo) && IsTrail(store, t.chain[i], path) ==>
                        values == InRange(Entries(store, path), lo, hi)
  }

  lemma WalkableRoutes(store: Store, root: PageId, t: Layout)
    requires Walkable(store, root, t)
    ensures Routes(store, root, t) && Tiles(t)
  {
  }

  lemma TrailFrom(store: Store, root: PageId, t: Layout, j: nat) returns (path: seq<PageId>)
    requires Walkable(store, root, t) && j < |t.chain|
    ensures IsTrail(store, t.chain[j], path)
  {
    hide Routes, Tiles, IsTrail;
    assert HasTrail(store, t.chain[j]);
    path :| IsTrail(store, t.chain[j], path);
  }

  /** Links are followed in one way. */
  lemma {:induction false} SameSteps(store: Store, a: seq<PageId>, b: seq<PageId>, i: nat)
    requires Linked(store, a) && Linked(store, b) && a[0] == b[0] && i < |a| && i < |b|
    ensures a[i] == b[i]
  {
    hide SoundChain;
    if i > 0 {
      SameSteps(store, a, b, i - 1);
    }
  }

  lemma LinksEndTogether(store: Store, a: seq<PageId>, b: seq<PageId>)
    requires Linked(store, a) && Linked(store, b) && a[0] == b[0]
    ensures |b| <= |a|
  {
    assert |a| < |b| ==> store[b[|a| - 1]].next == b[|a|];
    if |a| < |b| {
      SameSteps(store, a, b, |a| - 1);
    }
  }

  lemma LinksAreOne(store: Store, a: seq<PageId>, b: seq<PageId>)
    requires Linked(store, a) && Linked(store, b) && a[0] == b[0]
    ensures a == b
  {
    LinksEndTogether(store, a, b);
    LinksEndTogether(store, b, a);
    forall i | 0 <= i < |a|
      ensures a[i] == b[i]
    {
      SameSteps(store, a, b, i);
    }
  }

  lemma OnlyTrail(store: Store, root: PageId, t: Layout, j: nat, path: seq<PageId>, lo: int, hi: int)
    requires Walkable(store, root, t) && j < |t.chain| && t.spans[t.chain[j]].Has(lo)
    requires IsTrail(store, t.chain[j], path)
    ensures AlongTrails(store, t, lo, hi, InRange(Entries(store, path), lo, hi))
  {
    hide InRange, Entries, SoundChain, Routes, HasTrail, Ascending;
    forall i, other | 0 <= i < |t.chain| && t.spans[t.chain[i]].Has(lo) && IsTrail(store, t.chain[i], other)
      ensures other == path
    {
      LeafIsUnique(t, i, j, lo);
      LinksAreOne(store, other, path);
    }
  }

  lemma TrailStarts(store: Store, p: PageId, path: seq<PageId>, lo: int, hi: int)
    requires IsTrail(store, p, path)
    ensures SoundChain(store, path) && |path| > 0 && path[0] == p
    ensures [] + InRange(After(store, path, 0), lo, hi) == InRange(Entries(store, path), lo, hi)
  {
    assert path[0..] == path;
    hide InRange, Entries, Ascending;
  }

  /** The entries of a leaf on the way, and those behind it. */
  lemma TrailAscends(store: Store, p: PageId, path: seq<PageId>, k: nat)
    requires IsTrail(store, p, path) && k < |path|
    ensures SoundChain(store, path) && SoundLeaf(store[path[k]])
    ensures var leaf, rest := LeafEntries(store[path[k]]), After(store, path, k + 1);
            && After(store, path, k) == leaf + rest && Ascending(leaf) && Ascending(rest) && Ascending(leaf + rest)
            && forall e, e' :: e in leaf && e' in rest ==> e.key < e'.key
  {
    EntriesSplit(store, path, k);
    AfterUnfolds(store, path, k);
    hide Entries, LeafEntries;
    AscendingParts(Before(store, path, k), LeafEntries(store[path[k]]), After(store, path, k + 1));
  }

  lemma AscendingParts(a: seq<Entry>, b: seq<Entry>, c: seq<Entry>)
    requires Ascending(a + (b + c))
    ensures Ascending(b) && Ascending(c) && Ascending(b + c)
    ensures forall e, e' :: e in b && e' in c ==> e.key < e'.key
  {
    var bc := b + c;
    SuffixAscends(a, bc);
    SuffixAscends(b, c);
    assert b == bc[..|b|];
    forall e, e' | e in b && e' in c
      ensures e.key < e'.key
    {
      var i :| 0 <= i < |b| && b[i] == e;
      var j :| 0 <= j < |c| && c[j] == e';
      assert bc[i] == e && bc[|b| + j] == e';
    }
  }

  lemma SuffixAscends(a: seq<Entry>, b: seq<Entry>)
    requires Ascending(a + b)
    ensures Ascending(b)
  {
    forall i, j | 0 <= i < j < |b|
      ensures b[i].key < b[j].key
    {
      assert (a + b)[|a| + i] == b[i] && (a + b)[|a| + j] == b[j];
    }
  }

  /** One leaf's contribution, what a key beyond the range tells about the rest, and where the link leads. */
  lemma TrailStep(store: Store, p: PageId, path: seq<PageId>, k: nat, lo: int, hi: int)
    requires IsTrail(store, p, path) && k < |path|
    ensures SoundChain(store, path) && SoundLeaf(store[path[k]]) && Ascending(LeafEntries(store[path[k]]))
    ensures InRange(After(store, path, k), lo, hi) ==
            InRange(LeafEntries(store[path[k]]), lo, hi) + InRange(After(store, path, k + 1), lo, hi)
    ensures Passes(LeafEntries(store[path[k]]), hi) || store[path[k]].next == INVALID_PAGE_ID
            ==> InRange(After(store, path, k + 1), lo, hi) == []
    ensures store[path[k]].next != INVALID_PAGE_ID ==> k + 1 < |path| && store[path[k]].next == path[k + 1]
  {
    TrailAscends(store, p, path, k);
    TrailLink(store, p, path, k);
    var leaf, rest := LeafEntries(store[path[k]]), After(store, path, k + 1);
    InRangeConcat(leaf, rest, lo, hi);
    hide IsTrail, LeafEntries, Ascending, After;
    if Passes(leaf, hi) || k + 1 == |path| {
      InRangeEmpty(rest, lo, hi);
    }
  }

  lemma TrailLink(store: Store, p: PageId, path: seq<PageId>, k: nat)
    requires IsTrail(store, p, path) && k < |path|
    ensures SoundChain(store, path) && SoundLeaf(store[path[k]])
    ensures if k + 1 < |path| then store[path[k]].next == path[k + 1] != INVALID_PAGE_ID
            else store[path[k]].next == INVALID_PAGE_ID && After(store, path, k + 1) == []
  {
    if k + 1 < |path| {
      assert store[path[k]].next == path[k + 1];
    } else {
      assert path[k + 1..] == [];
    }
  }

  // ----- Range searches on a tree in order -----

  /** Nothing left of the first leaf is in range. */
  lemma RangeStarts(store: Store, t: Layout, j: nat, lo: int, hi: int)
    requires LeavesWithin(store, t) && j < |t.chain| && t.spans[t.chain[j]].Has(lo)
    ensures InRange(Before(store, t.chain, j), lo, hi) == []
    ensures InRange(After(store, t.chain, j), lo, hi) == InRange(Entries(store, t.chain), lo, hi)
  {
    EntriesSplit(store, t.chain, j);
    if j > 0 {
      BeforeIsBelow(store, t, j);
    }
    InRangeEmpty(Before(store, t.chain, j), lo, hi);
    InRangeConcat(Before(store, t.chain, j), After(store, t.chain, j), lo, hi);
  }

  /** The links lead from a leaf through the rest of the chain. */
  lemma SuffixIsTrail(store: Store, chain: seq<PageId>, j: nat)
    requires Linked(store, chain) && Ascending(Entries(store, chain)) && j < |chain|
    ensures IsTrail(store, chain[j], chain[j..])
  {
    SoundSlices(store, chain, j);
    EntriesSplit(store, chain, j);
    hide SoundChain, Entries;
    SuffixAscends(Entries(store, chain[..j]), Entries(store, chain[j..]));
    SuffixIsLinked(store, chain, j);
  }

  lemma SuffixIsLinked(store: Store, chain: seq<PageId>, j: nat)
    requires Linked(store, chain) && j < |chain|
    ensures Linked(store, chain[j..])
  {
    SoundSlices(store, chain, j);
    hide SoundChain;
    var path := chain[j..];
    forall i | 0 < i < |path|
      ensures store[path[i - 1]].next == path[i]
    {
      assert path[i - 1] == chain[j + i - 1] && path[i] == chain[j + i];
    }
  }

  lemma TreeTrail(store: Store, root: PageId, t: Layout, j: nat, path: seq<PageId>, lo: int, hi: int)
    requires WellFormed(store, root, t) && j < |t.chain| && t.spans[t.chain[j]].Has(lo)
    requires IsTrail(store, t.chain[j], path)
    ensures InRange(Entries(store, path), lo, hi) == InRange(Entries(store, t.chain), lo, hi)
  {
    WellFormedRoutes(store, root, t);
    TreeIsAscending(store, t);
    RangeStarts(store, t, j, lo, hi);
    SuffixIsTrail(store, t.chain, j);
    hide WellFormed, LeavesWithin, InRange, Ascending, Entries;
    LinksAreOne(store, path, t.chain[j..]);
  }

  lemma WellFormedIsWalkable(store: Store, root: PageId, t: Layout)
    requires WellFormed(store, root, t)
    ensures Walkable(store, root, t)
  {
    WellFormedRoutes(store, root, t);
    TreeIsAscending(store, t);
    hide Routes, Entries, Ascending, LeavesWithin, IsTrail, SoundChain;
    forall i | 0 <= i < |t.chain|
      ensures HasTrail(store, t.chain[i])
    {
      SuffixIsTrail(store, t.chain, i);
    }
  }

  /** Some key is beyond the range. */
  ghost predicate Passes(es: seq<Entry>, hi: int) {
    exists e :: e in es && e.key > hi
  }
}
