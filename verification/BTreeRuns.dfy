/** Runs of deletes. A merge empties a leaf and takes it off the leaf chain, but its parent keeps it as a child
    (wasdb_btree/src/tree.rs). */
module BTreeRuns {
  import opened Util
  import opened Storage

  import opened BTree
  import opened BTreeModel
  import opened BTreeProof
  import opened BTreeTrails
  import opened BTreeUpdates

  // ----- The leaves still on the chain -----

  /** The leaves, in order, that no merge has taken off the chain. */
  function Live(chain: seq<PageId>, gone: set<PageId>): seq<PageId> {
    if chain == [] then [] else (if chain[0] in gone then [] else [chain[0]]) + Live(chain[1..], gone)
  }

  lemma {:induction false} LiveConcat(a: seq<PageId>, b: seq<PageId>, gone: set<PageId>)
    ensures Live(a + b, gone) == Live(a, gone) + Live(b, gone)
  {
    if a == [] {
      assert a + b == b;
    } else {
      assert (a + b)[1..] == a[1..] + b;
      LiveConcat(a[1..], b, gone);
    }
  }

  lemma {:induction false} LiveMembers(chain: seq<PageId>, gone: set<PageId>)
    ensures forall p :: p in Live(chain, gone) <==> p in chain && p !in gone
  {
    if chain != [] {
      LiveMembers(chain[1..], gone);
      assert forall p :: p in chain <==> p == chain[0] || p in chain[1..];
    }
  }

  lemma {:induction false} LiveElsewhere(chain: seq<PageId>, gone: set<PageId>, p: PageId)
    requires p !in chain
    ensures Live(chain, gone + {p}) == Live(chain, gone)
  {
    if chain != [] {
      assert chain[0] in chain && forall q :: q in chain[1..] ==> q in chain;
      LiveElsewhere(chain[1..], gone, p);
    }
  }

  ghost predicate Distinct(chain: seq<PageId>) {
    forall i, j :: 0 <= i < j < |chain| ==> chain[i] != chain[j]
  }

  /** Where a leaf is among those still on the chain. */
  function Rank(chain: seq<PageId>, gone: set<PageId>, j: nat): nat
    requires j <= |chain|
  {
    |Live(chain[..j], gone)|
  }

  lemma LiveOne(p: PageId, gone: set<PageId>)
    ensures Live([p], gone) == if p in gone then [] else [p]
  {
    assert [p][1..] == [];
  }

  lemma LiveSplit(chain: seq<PageId>, gone: set<PageId>, j: nat)
    requires j < |chain|
    ensures Live(chain, gone) == Live(chain[..j], gone) + (Live([chain[j]], gone) + Live(chain[j + 1..], gone))
    ensures Live(chain[..j + 1], gone) == Live(chain[..j], gone) + Live([chain[j]], gone)
  {
    hide *;
    assert chain == chain[..j] + ([chain[j]] + chain[j + 1..]) && chain[..j + 1] == chain[..j] + [chain[j]];
    LiveConcat(chain[..j], [chain[j]] + chain[j + 1..], gone);
    LiveConcat([chain[j]], chain[j + 1..], gone);
    LiveConcat(chain[..j], [chain[j]], gone);
  }

  lemma LiveAround(chain: seq<PageId>, gone: set<PageId>, j: nat)
    requires j < |chain| && chain[j] !in gone
    ensures var live, n := Live(chain, gone), Rank(chain, gone, j);
            && n < |live| && live[n] == chain[j] && Rank(chain, gone, j + 1) == n + 1
            && live[..n] == Live(chain[..j], gone) && live[n + 1..] == Live(chain[j + 1..], gone)
  {
    hide Live;
    LiveSplit(chain, gone, j);
    LiveOne(chain[j], gone);
  }

  lemma LiveWithout(chain: seq<PageId>, gone: set<PageId>, j: nat)
    requires Distinct(chain) && j < |chain| && chain[j] !in gone
    ensures var live, n := Live(chain, gone), Rank(chain, gone, j);
            n < |live| && Live(chain, gone + {chain[j]}) == live[..n] + live[n + 1..]
  {
    hide *;
    OnlyHere(chain, j);
    LiveAround(chain, gone, j);
    LiveSplit(chain, gone + {chain[j]}, j);
    LiveOne(chain[j], gone + {chain[j]});
    LiveElsewhere(chain[..j], gone, chain[j]);
    LiveElsewhere(chain[j + 1..], gone, chain[j]);
  }

  lemma OnlyHere(chain: seq<PageId>, j: nat)
    requires Distinct(chain) && j < |chain|
    ensures chain[j] !in chain[..j] && chain[j] !in chain[j + 1..]
  {
  }

  lemma LivePair(chain: seq<PageId>, gone: set<PageId>, j: nat)
    requires 0 < j < |chain| && chain[j - 1] !in gone && chain[j] !in gone
    ensures var live, n := Live(chain, gone), Rank(chain, gone, j);
            0 < n < |live| && live[n - 1] == chain[j - 1] && live[n] == chain[j]
  {
    LiveAround(chain, gone, j - 1);
    LiveAround(chain, gone, j);
  }

  lemma ShapedIsDistinct(store: Store, root: PageId, t: Layout)
    requires Shaped(store, root, t)
    ensures |t.chain| > 0 && Distinct(t.chain)
  {
    forall i, j | 0 <= i < j < |t.chain|
      ensures t.chain[i] != t.chain[j]
    {
      ChainOrdered(t, i, j);
    }
  }

  // ----- One delete -----

  /** A delete that reaches a leaf, and what it comes to. */
  datatype Step = Step(key: i32, d: Trace, out: DeleteOutcome)

  ghost predicate Takes(store: Store, t: Layout, s: Step, store': Store) {
    Deleted(store, t, s.key, s.d, s.out, store')
  }

  /** What is left of a list once the step is done. */
  function Remains(es: seq<Entry>, s: Step): seq<Entry> {
    if s.out.KeyNotFound? then es else Without(es, s.key)
  }

  /** A merge into a leaf of the chain takes the emptied leaf off it. */
  function Emptied(t: Layout, gone: set<PageId>, s: Step): set<PageId> {
    if s.out.Merges? && 0 < s.d.j < |t.chain| && t.chain[s.d.j - 1] !in gone then gone + {t.chain[s.d.j]} else gone
  }

  /** The step merges entries into a leaf that an earlier merge emptied. */
  ghost predicate Strays(t: Layout, gone: set<PageId>, s: Step) {
    && s.out.Merges? && 0 < s.d.j < |t.chain| && t.chain[s.d.j - 1] in gone
    && Total(s.d.mid) && s.d.mid[t.chain[s.d.j]].Leaf? && s.d.mid[t.chain[s.d.j]].numKeys > 0
  }

  /** Descent works, the leaves still on the chain hold the given ascending list, and the others are empty. */
  ghost predicate Worn(store: Store, root: PageId, t: Layout, gone: set<PageId>, es: seq<Entry>) {
    && Shaped(store, root, t) && t.chain[0] !in gone
    && ChainHolds(store, Live(t.chain, gone), es)
    && forall p :: p in gone ==> store[p].Leaf? && store[p].numKeys == 0
  }

  /** The links lead from the first leaf along leaves that hold the list. */
  ghost predicate ChainIs(store: Store, t: Layout, es: seq<Entry>) {
    |t.chain| > 0 && exists path :: LeadsAlong(store, t.chain[0], path, es)
  }

  ghost predicate LeadsAlong(store: Store, p: PageId, path: seq<PageId>, es: seq<Entry>) {
    Linked(store, path) && path[0] == p && Entries(store, path) == es
  }

  /** Taking one entry out of a leaf takes it out of the list of a chain. */
  lemma TakenFromChain(store: Store, chain: seq<PageId>, j: nat, n: Node, key: int, es: seq<Entry>)
    requires ChainHolds(store, chain, es) && j < |chain| && SoundLeaf(n) && SameLinks(store[chain[j]], n)
    requires Lookup(LeafEntries(store[chain[j]]), key).Some?
    requires LeafEntries(n) == Without(LeafEntries(store[chain[j]]), key)
    ensures ChainHolds(store[chain[j] := n], chain, Without(es, key))
  {
    LinksKept(store, chain, j, n);
    EntriesAround(store, chain, j);
    EntriesReplaced(store, chain, j, n);
    hide LeafEntries, Entries, SoundLeaf, Linked, SoundChain;
    var before, leaf, behind := Before(store, chain, j), LeafEntries(store[chain[j]]), After(store, chain, j + 1);
    LookupMeans(leaf, key);
    KeyIsInside(before, leaf, behind, key);
    WithoutWithin(before, leaf, behind, key);
    WithoutMembers(es, key);
  }

  /** In an ascending list a key of the middle part is not in the first, and it is in the whole. */
  lemma KeyIsInside(a: seq<Entry>, b: seq<Entry>, c: seq<Entry>, key: int)
    requires Ascending(a + (b + c)) && HasKey(b, key)
    ensures (forall x :: x in a ==> x.key != key) && HasKey(a + (b + c), key)
  {
    var es := a + (b + c);
    var e :| e in b && e.key == key;
    var m :| 0 <= m < |b| && b[m] == e;
    assert es[|a| + m] == e;
    forall x | x in a
      ensures x.key != key
    {
      var i :| 0 <= i < |a| && a[i] == x;
      assert es[i] == x;
    }
  }

  /** A leaf emptied in its place, its links kept, is what the list then lacks. */
  lemma EmptiedInPlace(store: Store, chain: seq<PageId>, j: nat, store': Store, es: seq<Entry>)
    requires ChainHolds(store, chain, es) && j < |chain| && Total(store')
    requires SoundLeaf(store'[chain[j]]) && SameLinks(store[chain[j]], store'[chain[j]])
    requires store'[chain[j]].numKeys == 0
    requires forall i :: 0 <= i < |chain| && i != j ==> store'[chain[i]] == store[chain[i]]
    ensures Linked(store', chain)
    ensures if store[chain[j]].numKeys == 0 then ChainHolds(store', chain, es)
            else |Entries(store', chain)| < |es|
  {
    EmptiedLinks(store, chain, j, store');
    SoundSlices(store, chain, j);
    SoundSlices(store, chain, j + 1);
    EntriesAround(store, chain, j);
    EntriesAround(store', chain, j);
    LeafSize(store[chain[j]]);
    LeafSize(store'[chain[j]]);
    hide Linked, LeafEntries, Entries, SoundLeaf;
    BeforeFrame(store, store', chain, j);
    AfterFrame(store, store', chain, j + 1);
    hide SoundChain, Before, After;
    if store[chain[j]].numKeys == 0 {
      assert LeafEntries(store[chain[j]]) == LeafEntries(store'[chain[j]]) == [];
    }
  }

  lemma WornFacts(store: Store, root: PageId, t: Layout, gone: set<PageId>, es: seq<Entry>)
    requires Worn(store, root, t, gone, es)
    ensures Total(store) && Shaped(store, root, t) && |t.chain| > 0 && t.chain[0] !in gone && Distinct(t.chain)
    ensures ChainHolds(store, Live(t.chain, gone), es) && Linked(store, Live(t.chain, gone))
    ensures forall p :: p in gone ==> store[p].Leaf? && store[p].numKeys == 0
  {
    ShapedIsDistinct(store, root, t);
    hide Routes, Tiles, ParentOk, Live, Linked;
  }

  lemma WornAgain(store: Store, root: PageId, t: Layout, gone: set<PageId>, es: seq<Entry>)
    requires Shaped(store, root, t) && |t.chain| > 0 && t.chain[0] !in gone
    requires ChainHolds(store, Live(t.chain, gone), es)
    requires Total(store) && forall p :: p in gone ==> store[p].Leaf? && store[p].numKeys == 0
    ensures Worn(store, root, t, gone, es)
  {
    hide Shaped, ChainHolds, Live;
  }

  /** Only a leaf on the chain has entries to take. */
  lemma LiveLeafTaken(store: Store, t: Layout, gone: set<PageId>, es: seq<Entry>, s: Step, store': Store)
    requires Takes(store, t, s, store') && !s.out.KeyNotFound?
    requires Total(store) && ChainHolds(store, Live(t.chain, gone), es)
    requires forall p :: p in gone ==> store[p].Leaf? && store[p].numKeys == 0
    ensures s.d.j < |t.chain| && t.chain[s.d.j] !in gone
    ensures ChainHolds(s.d.mid, Live(t.chain, gone), Without(es, s.key))
    ensures Total(s.d.mid) && SoundLeaf(s.d.mid[t.chain[s.d.j]])
    ensures s.d.mid == store[t.chain[s.d.j] := s.d.mid[t.chain[s.d.j]]]
    ensures s.d.mid[t.chain[s.d.j]].parent == store[t.chain[s.d.j]].parent
    ensures Rebalanced(s.d.mid, t, s.d.j, s.d.refused, s.out, store')
  {
    var j, p := s.d.j, t.chain[s.d.j];
    DeletedPlain(store, t, s.key, s.d, s.out, store');
    NothingToFind(store[p], s.key);
    LiveAround(t.chain, gone, j);
    hide Takes, Deleted, Without, Lookup, LeafEntries, Live, Rank, ChainHolds, SoundLeaf, Rebalanced;
    TakenFromChain(store, Live(t.chain, gone), Rank(t.chain, gone, j), s.d.mid[p], s.key, es);
  }

  lemma NothingToFind(n: Node, key: int)
    requires SoundLeaf(n) && Lookup(LeafEntries(n), key).Some?
    ensures n.numKeys > 0
  {
  }

  /** Up to the use of the sibling: the entry is out of its leaf, which is on the chain. */
  lemma TakenFromWorn(store: Store, root: PageId, t: Layout, gone: set<PageId>, es: seq<Entry>, s: Step, store': Store)
    requires Worn(store, root, t, gone, es) && Takes(store, t, s, store') && !s.out.KeyNotFound?
    ensures s.d.j < |t.chain| && t.chain[s.d.j] !in gone
    ensures Worn(s.d.mid, root, t, gone, Without(es, s.key))
    ensures Total(s.d.mid) && s.d.mid[t.chain[s.d.j]].Leaf?
    ensures Rebalanced(s.d.mid, t, s.d.j, s.d.refused, s.out, store')
  {
    hide Worn, Shaped, Takes, ChainHolds, Live, Rank, Rebalanced, SiblingUsed, SoundLeaf, Without, Linked, Entries;
    hide SameLinks, Distinct;
    WornFacts(store, root, t, gone, es);
    LiveLeafTaken(store, t, gone, es, s, store');
    var j, p := s.d.j, t.chain[s.d.j];
    LeafKeepsShape(store, root, t, j, s.d.mid[p]);
    WornAgain(s.d.mid, root, t, gone, Without(es, s.key));
    SoundIsLeaf(s.d.mid[p]);
  }

  /** Which pages the sibling's use touches, and when the right one ends up empty. */
  lemma SiblingLeaves(store: Store, left: PageId, p: PageId, minKeys: nat, out: DeleteOutcome, store': Store)
    requires SiblingUsed(store, left, p, minKeys, out, store') && (out.Borrows? || out.Merges?) && left != p
    ensures Total(store) && Total(store') && SoundLeaf(store[left]) && SoundLeaf(store[p])
    ensures forall q: PageId :: q != left && q != p ==> store'[q] == store[q]
    ensures SoundLeaf(store'[p]) && SoundLeaf(store'[left]) && SameLinks(store[p], store'[p])
    ensures out.Borrows? ==> store[left].numKeys > 0
    ensures out.Merges? ==> store'[p].numKeys == 0
    ensures out.Merges? ==> store'[left].numKeys == store[left].numKeys + store[p].numKeys
  {
    if out.Merges? {
      LeafSize(store[left]);
      LeafSize(store[p]);
      LeafSize(store'[left]);
    }
    hide LeafEntries, Borrowed;
  }

  /** Between two leaves of the chain, borrowing keeps it and merging takes the emptied leaf off. */
  lemma LivePairStaysWorn(store: Store, root: PageId, t: Layout, gone: set<PageId>, es: seq<Entry>, j: nat,
                          minKeys: nat, out: DeleteOutcome, store': Store)
    requires Worn(store, root, t, gone, es) && 0 < j < |t.chain| && (out.Borrows? || out.Merges?)
    requires t.chain[j - 1] !in gone && t.chain[j] !in gone
    requires SiblingUsed(store, t.chain[j - 1], t.chain[j], minKeys, out, store')
    ensures Worn(store', root, t, if out.Merges? then gone + {t.chain[j]} else gone, es)
  {
    hide Worn, Shaped, Takes, ChainHolds, Live, Rank, Rebalanced, SiblingUsed, SoundLeaf, Without, Linked, Entries;
    hide SameLinks, Distinct;
    var live, n := Live(t.chain, gone), Rank(t.chain, gone, j);
    WornFacts(store, root, t, gone, es);
    DistinctAt(t.chain, j);
    LivePair(t.chain, gone, j);
    LiveWithout(t.chain, gone, j);
    SiblingKeepsShape(store, root, t, j, minKeys, out, store');
    SiblingLeaves(store, t.chain[j - 1], t.chain[j], minKeys, out, store');
    SiblingKeepsChain(store, live, n, minKeys, out, store', es);
    SoundIsLeaf(store'[t.chain[j]]);
    WornAgain(store', root, t, if out.Merges? then gone + {t.chain[j]} else gone, es);
  }

  lemma DistinctAt(chain: seq<PageId>, j: nat)
    requires Distinct(chain) && 0 < j < |chain|
    ensures chain[0] != chain[j] && chain[j - 1] != chain[j]
  {
  }

  /** With a left sibling off the chain there is nothing to borrow, and a merge empties the leaf in its place. */
  lemma GoneSibling(store: Store, root: PageId, t: Layout, gone: set<PageId>, es: seq<Entry>, j: nat,
                    minKeys: nat, out: DeleteOutcome, store': Store)
    requires Worn(store, root, t, gone, es) && 0 < j < |t.chain| && (out.Borrows? || out.Merges?)
    requires t.chain[j - 1] in gone && t.chain[j] !in gone
    requires SiblingUsed(store, t.chain[j - 1], t.chain[j], minKeys, out, store')
    ensures out.Merges? && Linked(store', Live(t.chain, gone)) && Total(store) && store[t.chain[j]].Leaf?
    ensures store[t.chain[j]].numKeys == 0 ==> Worn(store', root, t, gone, es)
    ensures store[t.chain[j]].numKeys > 0 ==> |Entries(store', Live(t.chain, gone))| < |es|
  {
    hide Worn, Shaped, Takes, ChainHolds, Live, Rank, Rebalanced, SiblingUsed, SoundLeaf, Without, Linked, Entries;
    hide SameLinks, Distinct;
    var live, n := Live(t.chain, gone), Rank(t.chain, gone, j);
    WornFacts(store, root, t, gone, es);
    DistinctAt(t.chain, j);
    LiveAround(t.chain, gone, j);
    LiveMembers(t.chain, gone);
    LiveIsDistinct(store, live, n);
    SiblingKeepsShape(store, root, t, j, minKeys, out, store');
    SiblingLeaves(store, t.chain[j - 1], t.chain[j], minKeys, out, store');
    SoundIsLeaf(store[t.chain[j]]);
    SoundIsLeaf(store'[t.chain[j - 1]]);
    EmptiedInPlace(store, live, n, store', es);
    if store[t.chain[j]].numKeys == 0 {
      WornAgain(store', root, t, gone, es);
    }
  }

  lemma LiveIsDistinct(store: Store, live: seq<PageId>, n: nat)
    requires Linked(store, live) && n < |live|
    ensures forall i :: 0 <= i < |live| && i != n ==> live[i] != live[n] && live[i] in live
  {
  }

  /** A delete that does not stray takes its entry out of the list, and the leaves stay like that. */
  lemma StepStaysWorn(store: Store, root: PageId, t: Layout, gone: set<PageId>, es: seq<Entry>, s: Step, store': Store)
    requires Worn(store, root, t, gone, es) && Takes(store, t, s, store') && !Strays(t, gone, s)
    ensures Worn(store', root, t, Emptied(t, gone, s), Remains(es, s))
  {
    if s.out.KeyNotFound? {
      NothingTaken(store, t, s, store');
    } else {
      hide Worn, Shaped, Takes, Live, Rebalanced, SiblingUsed, SoundLeaf, Without;
      TakenFromWorn(store, root, t, gone, es, s, store');
      var j := s.d.j;
      RebalancedPlain(s.d.mid, t, j, s.d.refused, s.out, store');
      if s.out.Borrows? || s.out.Merges? {
        var minKeys := s.d.mid[t.chain[j]].maxKeys / 2;
        if t.chain[j - 1] in gone {
          GoneSibling(s.d.mid, root, t, gone, Without(es, s.key), j, minKeys, s.out, store');
        } else {
          LivePairStaysWorn(s.d.mid, root, t, gone, Without(es, s.key), j, minKeys, s.out, store');
        }
      } else {
        NoSiblingUsed(s.d.mid, t, j, s.d.refused, s.out, store');
      }
    }
  }

  lemma NothingTaken(store: Store, t: Layout, s: Step, store': Store)
    requires Takes(store, t, s, store') && s.out.KeyNotFound?
    ensures store' == store
  {
    DeletedPlain(store, t, s.key, s.d, s.out, store');
  }

  lemma NoSiblingUsed(mid: Store, t: Layout, j: nat, refused: bool, out: DeleteOutcome, store': Store)
    requires Total(mid) && j < |t.chain| && mid[t.chain[j]].Leaf? && Rebalanced(mid, t, j, refused, out, store')
    requires !out.Borrows? && !out.Merges?
    ensures store' == mid
  {
  }

  /** A delete that strays leaves a chain that lacks more than its entry. */
  lemma StrayLosesEntries(store: Store, root: PageId, t: Layout, gone: set<PageId>, es: seq<Entry>, s: Step,
                          store': Store)
    requires Worn(store, root, t, gone, es) && Takes(store, t, s, store') && Strays(t, gone, s)
    ensures !ChainIs(store', t, Remains(es, s))
  {
    var j, live := s.d.j, Live(t.chain, gone);
    var minKeys := s.d.mid[t.chain[j]].maxKeys / 2;
    hide Worn, Shaped, Takes, Live, Rebalanced, SiblingUsed, SoundLeaf, Without, Entries, SoundChain, ChainIs;
    TakenFromWorn(store, root, t, gone, es, s, store');
    RebalancedPlain(s.d.mid, t, j, s.d.refused, s.out, store');
    GoneSibling(s.d.mid, root, t, gone, Without(es, s.key), j, minKeys, s.out, store');
    LiveStarts(store, root, t, gone, es);
    if ChainIs(store', t, Remains(es, s)) {
      ChainIsOne(store', t, live, Remains(es, s));
    }
  }

  lemma LiveStarts(store: Store, root: PageId, t: Layout, gone: set<PageId>, es: seq<Entry>)
    requires Worn(store, root, t, gone, es)
    ensures |t.chain| > 0 && |Live(t.chain, gone)| > 0 && Live(t.chain, gone)[0] == t.chain[0]
  {
    hide Routes, ParentOk, Linked, Entries, Ascending;
  }

  /** There is only one chain to hold a list. */
  lemma ChainIsOne(store: Store, t: Layout, path: seq<PageId>, es: seq<Entry>)
    requires Linked(store, path) && |t.chain| > 0 && path[0] == t.chain[0] && ChainIs(store, t, es)
    ensures Entries(store, path) == es
  {
    var other :| LeadsAlong(store, t.chain[0], other, es);
    LinksAreOne(store, other, path);
  }

  // ----- Runs -----

  ghost predicate IsRun(states: seq<Store>, t: Layout, steps: seq<Step>) {
    && |states| == |steps| + 1
    && forall n :: 0 <= n < |steps| ==> Takes(states[n], t, steps[n], states[n + 1])
  }

  /** What a run leaves of a list. */
  function RemainsOf(es: seq<Entry>, steps: seq<Step>): seq<Entry> {
    if steps == [] then es else Remains(RemainsOf(es, steps[..|steps| - 1]), steps[|steps| - 1])
  }

  /** The leaves that a run takes off the chain. */
  function EmptiedBy(t: Layout, steps: seq<Step>): set<PageId> {
    if steps == [] then {} else Emptied(t, EmptiedBy(t, steps[..|steps| - 1]), steps[|steps| - 1])
  }

  /** The `n`-th step merges entries into a leaf that an earlier one emptied. */
  ghost predicate StraysAt(t: Layout, steps: seq<Step>, n: nat)
    requires n < |steps|
  {
    Strays(t, EmptiedBy(t, steps[..n]), steps[n])
  }

  ghost predicate NeverStrays(t: Layout, steps: seq<Step>, n: nat)
    requires n <= |steps|
  {
    forall m :: 0 <= m < n ==> !StraysAt(t, steps, m)
  }

  /** After `n` steps the chain holds what they leave of the list. */
  ghost predicate KeepsAt(states: seq<Store>, t: Layout, es: seq<Entry>, steps: seq<Step>, n: nat)
    requires n < |states| && n <= |steps|
  {
    ChainIs(states[n], t, RemainsOf(es, steps[..n]))
  }

  lemma WellFormedIsWorn(store: Store, root: PageId, t: Layout)
    requires WellFormed(store, root, t)
    ensures Worn(store, root, t, {}, Entries(store, t.chain))
  {
    WellFormedIsLinked(store, root, t);
    WellFormedRoutes(store, root, t);
    hide *;
    WellFormedIsShaped(store, root, t);
    TreeIsAscending(store, t);
    AllLive(t.chain);
    WellFormedHolds(store, root, t, Entries(store, t.chain));
    WornAgain(store, root, t, {}, Entries(store, t.chain));
  }

  lemma WellFormedIsLinked(store: Store, root: PageId, t: Layout)
    requires WellFormed(store, root, t)
    ensures Total(store) && SoundChain(store, t.chain) && |t.chain| > 0
  {
  }

  lemma {:induction false} AllLive(chain: seq<PageId>)
    ensures Live(chain, {}) == chain
  {
    if chain != [] {
      AllLive(chain[1..]);
    }
  }

  lemma {:induction false} RunStaysWorn(states: seq<Store>, root: PageId, t: Layout, es: seq<Entry>, steps: seq<Step>,
                                        n: nat)
    requires IsRun(states, t, steps) && n <= |steps| && Worn(states[0], root, t, {}, es)
    requires NeverStrays(t, steps, n)
    ensures Worn(states[n], root, t, EmptiedBy(t, steps[..n]), RemainsOf(es, steps[..n]))
  {
    hide Worn, Strays, Takes, Emptied, Remains;
    if n > 0 {
      RunStaysWorn(states, root, t, es, steps, n - 1);
      assert steps[..n][..n - 1] == steps[..n - 1] && steps[..n][n - 1] == steps[n - 1];
      assert !StraysAt(t, steps, n - 1);
      StepStaysWorn(states[n - 1], root, t, EmptiedBy(t, steps[..n - 1]), RemainsOf(es, steps[..n - 1]),
                    steps[n - 1], states[n]);
    }
  }

  lemma WornKeeps(store: Store, root: PageId, t: Layout, gone: set<PageId>, es: seq<Entry>)
    requires Worn(store, root, t, gone, es)
    ensures ChainIs(store, t, es)
  {
    LiveStarts(store, root, t, gone, es);
    hide Shaped, Live, Linked, Entries, SoundChain;
    assert LeadsAlong(store, t.chain[0], Live(t.chain, gone), es);
  }

  /** While the chain keeps what the steps leave, none of them strays. */
  lemma {:induction false} KeepingDoesNotStray(states: seq<Store>, root: PageId, t: Layout, es: seq<Entry>,
                                               steps: seq<Step>, n: nat)
    requires IsRun(states, t, steps) && n <= |steps| && Worn(states[0], root, t, {}, es)
    requires forall m :: 0 <= m <= n ==> KeepsAt(states, t, es, steps, m)
    ensures NeverStrays(t, steps, n)
  {
    hide Worn, Strays, Takes, Emptied, Remains, ChainIs;
    if n > 0 {
      KeepingDoesNotStray(states, root, t, es, steps, n - 1);
      RunStaysWorn(states, root, t, es, steps, n - 1);
      assert steps[..n][..n - 1] == steps[..n - 1] && steps[..n][n - 1] == steps[n - 1];
      assert RemainsOf(es, steps[..n]) == Remains(RemainsOf(es, steps[..n - 1]), steps[n - 1]);
      assert KeepsAt(states, t, es, steps, n);
      if StraysAt(t, steps, n - 1) {
        StrayLosesEntries(states[n - 1], root, t, EmptiedBy(t, steps[..n - 1]), RemainsOf(es, steps[..n - 1]),
                          steps[n - 1], states[n]);
      }
    }
  }

  /** From a tree in order, a run of deletes loses nothing but the deleted entries at any of its moments if and only if
      no delete merges entries into a leaf that an earlier one emptied. */
  lemma RunKeepsListIff(states: seq<Store>, root: PageId, t: Layout, steps: seq<Step>)
    requires IsRun(states, t, steps) && WellFormed(states[0], root, t)
    ensures (forall n :: 0 <= n <= |steps| ==> KeepsAt(states, t, Entries(states[0], t.chain), steps, n))
            <==> (forall n :: 0 <= n < |steps| ==> !StraysAt(t, steps, n))
  {
    var es := Entries(states[0], t.chain);
    WellFormedIsWorn(states[0], root, t);
    hide Worn, StraysAt, Takes, ChainIs, WellFormed, Entries;
    if forall n :: 0 <= n <= |steps| ==> KeepsAt(states, t, es, steps, n) {
      KeepingDoesNotStray(states, root, t, es, steps, |steps|);
    } else if forall n :: 0 <= n < |steps| ==> !StraysAt(t, steps, n) {
      forall n | 0 <= n <= |steps|
        ensures KeepsAt(states, t, es, steps, n)
      {
        RunStaysWorn(states, root, t, es, steps, n);
        WornKeeps(states[n], root, t, EmptiedBy(t, steps[..n]), RemainsOf(es, steps[..n]));
      }
    }
  }
}
