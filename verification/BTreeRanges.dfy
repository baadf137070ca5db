/** Range searches behind a delete, whose borrow or merge leaves the separators as they were
    (wasdb_btree/src/tree.rs). */
module BTreeRanges {
  import opened Util
  import opened Storage

  import opened BTree
  import opened BTreeModel
  import opened BTreeProof
  import opened BTreeTrails
  import opened BTreeUpdates

  /** What a range search from the `i`-th leaf misses: behind a merge, the moved entries if it starts in the emptied
      leaf. */
  ghost function Missed(t: Layout, d: Trace, out: DeleteOutcome, i: nat, lo: int, hi: int): seq<Ctid>
    requires Total(d.mid) && d.j < |t.chain| && SoundLeaf(d.mid[t.chain[d.j]])
  {
    if out.Merges? && i == d.j then InRange(LeafEntries(d.mid[t.chain[d.j]]), lo, hi) else []
  }

  /** The trail from a leaf shows a list in range except for what is missed. */
  ghost predicate ShowsAllBut(store: Store, t: Layout, i: nat, path: seq<PageId>, es: seq<Entry>, lo: int, hi: int,
                              missed: seq<Ctid>)
  {
    && i < |t.chain| && IsTrail(store, t.chain[i], path)
    && InRange(es, lo, hi) == missed + InRange(Entries(store, path), lo, hi)
  }

  // ----- Lists -----

  /** A list's start that is no longer than another start below the range is below the range too. */
  lemma ShorterStart(a: seq<Entry>, b: seq<Entry>, c: seq<Entry>, d: seq<Entry>, lo: int, hi: int)
    requires a + b == c + d && |a| <= |c| && forall e :: e in c ==> e.key < lo
    ensures InRange(a + b, lo, hi) == [] + InRange(b, lo, hi)
  {
    forall e | e in a
      ensures e.key < lo
    {
      var i :| 0 <= i < |a| && a[i] == e;
      assert e == (a + b)[i] == (c + d)[i] == c[i];
    }
    hide InRange;
    InRangeEmpty(a, lo, hi);
    InRangeConcat(a, b, lo, hi);
  }

  /** Everything left of a leaf is below its interval. */
  lemma BelowStart(store: Store, root: PageId, t: Layout, i: nat, lo: int)
    requires WellFormed(store, root, t) && i < |t.chain| && t.spans[t.chain[i]].Has(lo)
    ensures SoundChain(store, t.chain)
    ensures forall e :: e in Before(store, t.chain, i) ==> e.key < lo
    ensures Entries(store, t.chain) == Before(store, t.chain, i) + After(store, t.chain, i)
  {
    WellFormedRoutes(store, root, t);
    EntriesSplit(store, t.chain, i);
    if i > 0 {
      BeforeIsBelow(store, t, i);
      assert t.spans[t.chain[i - 1]].hi == t.spans[t.chain[i]].lo;
    } else {
      BeforeNothing(store, t.chain);
    }
  }

  // ----- Behind a borrow -----

  /** A borrow moves an entry to the right, so that no leaf has more before it than it had. */
  lemma BorrowShortensStarts(store: Store, chain: seq<PageId>, j: nat, minKeys: nat, store': Store, i: nat)
    requires Linked(store, chain) && SoundChain(store', chain) && 0 < j < |chain| && i <= |chain|
    requires SiblingUsed(store, chain[j - 1], chain[j], minKeys, Borrows, store')
    requires Entries(store', chain) == Entries(store, chain)
    ensures |Before(store', chain, i)| <= |Before(store, chain, i)|
  {
    OthersStay(store, chain, j, minKeys, Borrows, store');
    EntriesSplit(store, chain, i);
    EntriesSplit(store', chain, i);
    hide Entries, LeafEntries, SoundLeaf, Linked, SiblingUsed;
    if i < j {
      BeforeFrame(store, store', chain, i);
    } else if i == j {
      BeforeUnfolds(store, chain, j);
      BeforeUnfolds(store', chain, j);
      BeforeFrame(store, store', chain, j - 1);
      BorrowShortensLeft(store, chain[j - 1], chain[j], minKeys, store');
    } else {
      AfterFrame(store, store', chain, i);
    }
  }

  lemma BorrowShortensLeft(store: Store, p: PageId, q: PageId, minKeys: nat, store': Store)
    requires SiblingUsed(store, p, q, minKeys, Borrows, store') && p != q
    ensures SoundLeaf(store[p]) && SoundLeaf(store'[p]) && |LeafEntries(store'[p])| < |LeafEntries(store[p])|
  {
    LeafSize(store[p]);
    hide LeafEntries;
  }

  /** The sibling's use changes two neighbouring leaves. */
  lemma OthersStay(store: Store, chain: seq<PageId>, j: nat, minKeys: nat, out: DeleteOutcome, store': Store)
    requires Linked(store, chain) && 0 < j < |chain| && (out.Borrows? || out.Merges?)
    requires SiblingUsed(store, chain[j - 1], chain[j], minKeys, out, store')
    ensures Total(store) && Total(store') && chain[j - 1] != chain[j]
    ensures forall i :: 0 <= i < |chain| && i != j - 1 && i != j ==> store'[chain[i]] == store[chain[i]]
  {
    hide LeafEntries, SoundLeaf, Borrowed;
  }

  lemma RangeAfterBorrow(store: Store, root: PageId, t: Layout, j: nat, minKeys: nat, store': Store, i: nat, lo: int,
                         hi: int)
    requires WellFormed(store, root, t) && 0 < j < |t.chain| && i < |t.chain| && t.spans[t.chain[i]].Has(lo)
    requires SoundChain(store, t.chain) && SiblingUsed(store, t.chain[j - 1], t.chain[j], minKeys, Borrows, store')
    ensures ShowsAllBut(store', t, i, t.chain[i..], Entries(store, t.chain), lo, hi, [])
  {
    var es := Entries(store, t.chain);
    TreeHolds(store, root, t);
    hide WellFormed, SiblingUsed, InRange, Entries, Before, After, SoundChain, Ascending;
    BelowStart(store, root, t, i, lo);
    SiblingKeepsChain(store, t.chain, j, minKeys, Borrows, store', es);
    BorrowShortensStarts(store, t.chain, j, minKeys, store', i);
    EntriesSplit(store', t.chain, i);
    ShorterStart(Before(store', t.chain, i), After(store', t.chain, i), Before(store, t.chain, i),
                 After(store, t.chain, i), lo, hi);
    SuffixIsTrail(store', t.chain, i);
    AfterIsSuffix(store', t.chain, i);
  }

  lemma AfterIsSuffix(store: Store, chain: seq<PageId>, i: nat)
    requires SoundChain(store, chain) && i <= |chain|
    ensures SoundChain(store, chain[i..]) && After(store, chain, i) == Entries(store, chain[i..])
  {
  }

  lemma TreeHolds(store: Store, root: PageId, t: Layout)
    requires WellFormed(store, root, t)
    ensures SoundChain(store, t.chain) && ChainHolds(store, t.chain, Entries(store, t.chain))
    ensures Linked(store, t.chain)
  {
    WellFormedRoutes(store, root, t);
    TreeIsAscending(store, t);
  }

  lemma TreeAscends(store: Store, root: PageId, t: Layout)
    requires WellFormed(store, root, t)
    ensures SoundChain(store, t.chain) && Ascending(Entries(store, t.chain))
  {
    WellFormedRoutes(store, root, t);
    TreeIsAscending(store, t);
  }

  // ----- Behind a merge -----

  /** The emptied leaf still links to the leaf behind it. */
  lemma RightIsTrail(store: Store, chain: seq<PageId>, j: nat, minKeys: nat, store': Store)
    requires Linked(store, chain) && Ascending(Entries(store, chain)) && 0 < j < |chain|
    requires SiblingUsed(store, chain[j - 1], chain[j], minKeys, Merges, store')
    ensures IsTrail(store', chain[j], chain[j..])
    ensures Entries(store', chain[j..]) == After(store, chain, j + 1)
  {
    OthersStay(store, chain, j, minKeys, Merges, store');
    RightEmptied(store, chain[j - 1], chain[j], minKeys, store');
    SuffixIsTrail(store, chain, j);
    assert chain[j..][1..] == chain[j + 1..];
    SoundSlices(store, chain, j + 1);
    hide SiblingUsed, LeafEntries, Ascending, SoundLeaf, Entries, SoundChain;
    HeadEmptied(store, store', chain[j], chain[j..]);
  }

  lemma RightEmptied(store: Store, p: PageId, q: PageId, minKeys: nat, store': Store)
    requires SiblingUsed(store, p, q, minKeys, Merges, store')
    ensures SoundLeaf(store[q]) && SoundLeaf(store'[q]) && SameLinks(store[q], store'[q]) && store'[q].numKeys == 0
  {
  }

  lemma TrailParts(store: Store, p: PageId, path: seq<PageId>)
    requires IsTrail(store, p, path)
    ensures Linked(store, path) && SoundChain(store, path) && |path| > 0 && path[0] == p
    ensures SoundChain(store, path[1..]) && Ascending(Entries(store, path[1..]))
  {
    SoundSlices(store, path, 1);
    TrailAscends(store, p, path, 0);
    hide LeafEntries, SoundLeaf, Ascending, Entries;
  }

  lemma TrailOf(store: Store, p: PageId, path: seq<PageId>)
    requires Linked(store, path) && path[0] == p && Ascending(Entries(store, path))
    ensures IsTrail(store, p, path)
  {
  }

  lemma TailStays(store: Store, store': Store, path: seq<PageId>)
    requires |path| > 0 && SoundChain(store, path[1..]) && Total(store')
    requires forall i :: 0 < i < |path| ==> store'[path[i]] == store[path[i]]
    ensures SoundChain(store', path[1..]) && Entries(store', path[1..]) == Entries(store, path[1..])
  {
    hide Entries, SoundLeaf;
    EntriesFrame(store, store', path[1..]);
  }

  lemma HeadIsEmpty(store: Store, path: seq<PageId>)
    requires SoundChain(store, path) && |path| > 0 && SoundLeaf(store[path[0]]) && store[path[0]].numKeys == 0
    ensures SoundChain(store, path[1..]) && Entries(store, path) == Entries(store, path[1..])
  {
    NoEntries(store[path[0]]);
    EntriesUnfold(store, path);
    hide LeafEntries, SoundLeaf, Entries, SoundChain;
    assert [] + Entries(store, path[1..]) == Entries(store, path[1..]);
  }

  lemma HeadEmptied(store: Store, store': Store, p: PageId, path: seq<PageId>)
    requires IsTrail(store, p, path) && Total(store')
    requires SoundLeaf(store'[p]) && SameLinks(store[p], store'[p]) && store'[p].numKeys == 0
    requires forall i :: 0 < i < |path| ==> store'[path[i]] == store[path[i]]
    ensures SoundChain(store, path[1..]) && IsTrail(store', p, path)
    ensures Entries(store', path) == Entries(store, path[1..])
  {
    TrailParts(store, p, path);
    EmptiedLinks(store, path, 0, store');
    hide LeafEntries, SoundLeaf, Ascending, Entries, IsTrail, SameLinks;
    TailStays(store, store', path);
    HeadIsEmpty(store', path);
    TrailOf(store', p, path);
  }

  lemma RangeFromMerged(store: Store, root: PageId, t: Layout, j: nat, minKeys: nat, store': Store, lo: int, hi: int)
    requires WellFormed(store, root, t) && 0 < j < |t.chain| && t.spans[t.chain[j]].Has(lo)
    requires SoundChain(store, t.chain) && SiblingUsed(store, t.chain[j - 1], t.chain[j], minKeys, Merges, store')
    ensures ShowsAllBut(store', t, j, t.chain[j..], Entries(store, t.chain), lo, hi,
                        InRange(LeafEntries(store[t.chain[j]]), lo, hi))
  {
    TreeHolds(store, root, t);
    hide WellFormed, SiblingUsed, InRange, Entries, LeafEntries, Before, After, SoundLeaf;
    BelowStart(store, root, t, j, lo);
    AfterUnfolds(store, t.chain, j);
    var before, after := Before(store, t.chain, j), After(store, t.chain, j);
    ShorterStart(before, after, before, after, lo, hi);
    InRangeConcat(LeafEntries(store[t.chain[j]]), After(store, t.chain, j + 1), lo, hi);
    RightIsTrail(store, t.chain, j, minKeys, store');
  }

  lemma RangeBehindMerged(store: Store, root: PageId, t: Layout, j: nat, minKeys: nat, store': Store, i: nat, lo: int,
                          hi: int)
    requires WellFormed(store, root, t) && 0 < j < i < |t.chain| && t.spans[t.chain[i]].Has(lo)
    requires SoundChain(store, t.chain) && SiblingUsed(store, t.chain[j - 1], t.chain[j], minKeys, Merges, store')
    ensures ShowsAllBut(store', t, i, t.chain[i..], Entries(store, t.chain), lo, hi, [])
  {
    hide WellFormed, SiblingUsed, InRange, Entries, LeafEntries, Before, After, SoundLeaf, Ascending, IsTrail, Linked;
    hide SoundChain, Tiles;
    TreeHolds(store, root, t);
    TreeAscends(store, root, t);
    OthersStay(store, t.chain, j, minKeys, Merges, store');
    AfterIsSuffix(store, t.chain, i);
    BelowStart(store, root, t, i, lo);
    var before, after := Before(store, t.chain, i), After(store, t.chain, i);
    ShorterStart(before, after, before, after, lo, hi);
    SuffixIsTrail(store, t.chain, i);
    TrailFrame(store, store', t.chain[i], t.chain[i..]);
  }

  lemma TrailFrame(store: Store, store': Store, p: PageId, path: seq<PageId>)
    requires IsTrail(store, p, path) && Total(store')
    requires forall i :: 0 <= i < |path| ==> store'[path[i]] == store[path[i]]
    ensures SoundChain(store', path) && SoundChain(store, path)
    ensures IsTrail(store', p, path) && Entries(store', path) == Entries(store, path)
  {
    EntriesFrame(store, store', path);
    hide Entries, Ascending;
  }

  lemma RangeBeforeMerged(store: Store, root: PageId, t: Layout, j: nat, minKeys: nat, store': Store, i: nat, lo: int,
                          hi: int)
    requires WellFormed(store, root, t) && i < j < |t.chain| && t.spans[t.chain[i]].Has(lo)
    requires SoundChain(store, t.chain) && SiblingUsed(store, t.chain[j - 1], t.chain[j], minKeys, Merges, store')
    ensures ShowsAllBut(store', t, i, (t.chain[..j] + t.chain[j + 1..])[i..], Entries(store, t.chain), lo, hi, [])
  {
    var es, chain' := Entries(store, t.chain), t.chain[..j] + t.chain[j + 1..];
    TreeHolds(store, root, t);
    hide WellFormed, SiblingUsed, InRange, Entries, Before, After, SoundChain, Ascending;
    BelowStart(store, root, t, i, lo);
    SiblingKeepsChain(store, t.chain, j, minKeys, Merges, store', es);
    StartsStay(store, t.chain, j, minKeys, store', i);
    EntriesSplit(store', chain', i);
    ShorterStart(Before(store', chain', i), After(store', chain', i), Before(store, t.chain, i),
                 After(store, t.chain, i), lo, hi);
    SuffixIsTrail(store', chain', i);
    AfterIsSuffix(store', chain', i);
  }

  lemma StartsStay(store: Store, chain: seq<PageId>, j: nat, minKeys: nat, store': Store, i: nat)
    requires Linked(store, chain) && i < j < |chain| && SoundChain(store', chain[..j] + chain[j + 1..])
    requires SiblingUsed(store, chain[j - 1], chain[j], minKeys, Merges, store')
    ensures Before(store', chain[..j] + chain[j + 1..], i) == Before(store, chain, i)
  {
    OthersStay(store, chain, j, minKeys, Merges, store');
    SoundSlices(store, chain, i);
    assert (chain[..j] + chain[j + 1..])[..i] == chain[..i];
    hide Linked, SiblingUsed, SoundLeaf, Entries;
    EntriesFrame(store, store', chain[..i]);
  }

  // ----- Behind a delete -----

  /** Where the links lead from the `i`-th leaf: behind a merge, past the emptied leaf unless they start there. */
  function PathFrom(t: Layout, j: nat, out: DeleteOutcome, i: nat): seq<PageId>
    requires i < |t.chain| && j < |t.chain|
  {
    if out.Merges? && i < j then (t.chain[..j] + t.chain[j + 1..])[i..] else t.chain[i..]
  }

  lemma TrailShows(store: Store, root: PageId, t: Layout, key: i32, d: Trace, out: DeleteOutcome, store': Store,
                   i: nat, lo: int, hi: int)
    requires WellFormed(store, root, t) && Deleted(store, t, key, d, out, store')
    requires out.Deletes? || out.Borrows? || out.Merges?
    requires i < |t.chain| && t.spans[t.chain[i]].Has(lo)
    ensures SoundChain(store, t.chain) && Total(d.mid) && d.j < |t.chain| && SoundLeaf(d.mid[t.chain[d.j]])
    ensures ShowsAllBut(store', t, i, PathFrom(t, d.j, out, i), Without(Entries(store, t.chain), key), lo, hi,
                        Missed(t, d, out, i, lo, hi))
  {
    hide WellFormed, Deleted, SiblingUsed, Entries, Without, InRange, LeafEntries, SoundChain, ShowsAllBut;
    hide ChainHolds, Linked, PathFrom, Missed;
    TreeHolds(store, root, t);
    DeletedIsTree(store, root, t, key, d, out, store');
    TreeHolds(d.mid, root, t);
    var p := t.chain[d.j];
    WhereItLeads(t, d, out, i, lo, hi);
    if out.Deletes? {
      ShownWhole(d.mid, root, t, i, lo, hi);
    } else if out.Borrows? {
      RangeAfterBorrow(d.mid, root, t, d.j, d.mid[p].maxKeys / 2, store', i, lo, hi);
    } else if i < d.j {
      RangeBeforeMerged(d.mid, root, t, d.j, d.mid[p].maxKeys / 2, store', i, lo, hi);
    } else if i == d.j {
      RangeFromMerged(d.mid, root, t, d.j, d.mid[p].maxKeys / 2, store', lo, hi);
    } else {
      RangeBehindMerged(d.mid, root, t, d.j, d.mid[p].maxKeys / 2, store', i, lo, hi);
    }
  }

  lemma WhereItLeads(t: Layout, d: Trace, out: DeleteOutcome, i: nat, lo: int, hi: int)
    requires Total(d.mid) && d.j < |t.chain| && SoundLeaf(d.mid[t.chain[d.j]]) && i < |t.chain|
    ensures if out.Merges? && i < d.j then PathFrom(t, d.j, out, i) == (t.chain[..d.j] + t.chain[d.j + 1..])[i..]
            else PathFrom(t, d.j, out, i) == t.chain[i..]
    ensures if out.Merges? && i == d.j
            then Missed(t, d, out, i, lo, hi) == InRange(LeafEntries(d.mid[t.chain[d.j]]), lo, hi)
            else Missed(t, d, out, i, lo, hi) == []
  {
    hide InRange, LeafEntries, SoundLeaf;
  }

  lemma ShownWhole(store: Store, root: PageId, t: Layout, i: nat, lo: int, hi: int)
    requires WellFormed(store, root, t) && i < |t.chain| && t.spans[t.chain[i]].Has(lo)
    ensures SoundChain(store, t.chain)
    ensures ShowsAllBut(store, t, i, t.chain[i..], Entries(store, t.chain), lo, hi, [])
  {
    hide WellFormed, Entries, InRange, SoundChain, Ascending, Linked, IsTrail, Tiles;
    TreeHolds(store, root, t);
    TreeAscends(store, root, t);
    SuffixIsTrail(store, t.chain, i);
    TreeTrail(store, root, t, i, t.chain[i..], lo, hi);
  }

  /** Behind a delete range searches still end, and one that descends to the `i`-th leaf returns the values in range
      of what the delete left, except that behind a merge one which starts in the emptied leaf misses the moved
      entries. */
  lemma RangeAfterDelete(store: Store, root: PageId, t: Layout, key: i32, d: Trace, out: DeleteOutcome, store': Store,
                         i: nat, lo: i32, hi: i32, values: seq<Ctid>)
    requires WellFormed(store, root, t) && Deleted(store, t, key, d, out, store')
    requires out.Deletes? || out.Borrows? || out.Merges?
    requires i < |t.chain| && t.spans[t.chain[i]].Has(lo)
    ensures SoundChain(store, t.chain) && Total(d.mid) && d.j < |t.chain| && SoundLeaf(d.mid[t.chain[d.j]])
    ensures Walkable(store', root, t)
    ensures AlongTrails(store', t, lo, hi, values) <==>
            InRange(Without(Entries(store, t.chain), key), lo, hi) == Missed(t, d, out, i, lo, hi) + values
  {
    hide WellFormed, Deleted, Entries, Without, InRange, Walkable, Missed, IsTrail, AlongTrails, ShowsAllBut, Tiles;
    hide PathFrom, SoundChain, SoundLeaf;
    DeletedIsWalkable(store, root, t, key, d, out, store');
    WalkableRoutes(store', root, t);
    TrailShows(store, root, t, key, d, out, store', i, lo, hi);
    var path := PathFrom(t, d.j, out, i);
    Shown(store', t, i, path, Without(Entries(store, t.chain), key), lo, hi, Missed(t, d, out, i, lo, hi), values);
    OnlyTrail(store', root, t, i, path, lo, hi);
    OneAnswer(store', t, i, path, lo, hi, values);
  }

  lemma Shown(store: Store, t: Layout, i: nat, path: seq<PageId>, es: seq<Entry>, lo: int, hi: int, missed: seq<Ctid>,
              values: seq<Ctid>)
    requires ShowsAllBut(store, t, i, path, es, lo, hi, missed)
    ensures i < |t.chain| && IsTrail(store, t.chain[i], path) && SoundChain(store, path)
    ensures InRange(es, lo, hi) == missed + values <==> values == InRange(Entries(store, path), lo, hi)
  {
    hide InRange, Entries, Ascending;
    Cancels(missed, InRange(Entries(store, path), lo, hi), values);
  }

  lemma Cancels(a: seq<Ctid>, b: seq<Ctid>, c: seq<Ctid>)
    ensures a + b == a + c <==> b == c
  {
    assert b == (a + b)[|a|..] && c == (a + c)[|a|..];
  }

  /** The trail from the leaf decides what a range search returns. */
  lemma OneAnswer(store: Store, t: Layout, i: nat, path: seq<PageId>, lo: int, hi: int, values: seq<Ctid>)
    requires Tiles(t) && i < |t.chain| && t.spans[t.chain[i]].Has(lo) && IsTrail(store, t.chain[i], path)
    requires AlongTrails(store, t, lo, hi, InRange(Entries(store, path), lo, hi))
    ensures AlongTrails(store, t, lo, hi, values) <==> values == InRange(Entries(store, path), lo, hi)
  {
    hide IsTrail, InRange, Entries, Tiles;
  }

  lemma DeletedIsWalkable(store: Store, root: PageId, t: Layout, key: i32, d: Trace, out: DeleteOutcome, store': Store)
    requires WellFormed(store, root, t) && Deleted(store, t, key, d, out, store')
    requires out.Deletes? || out.Borrows? || out.Merges?
    ensures Walkable(store', root, t)
  {
    WellFormedIsShaped(store, root, t);
    DeletedStaysShaped(store, root, t, key, d, out, store');
    ShapedRoutes(store', root, t);
    hide WellFormed, Shaped, Deleted, Routes, IsTrail;
    forall i | 0 <= i < |t.chain|
      ensures HasTrail(store', t.chain[i])
    {
      var lo := t.spans[t.chain[i]].lo;
      TrailShows(store, root, t, key, d, out, store', i, lo, lo);
    }
  }
}
