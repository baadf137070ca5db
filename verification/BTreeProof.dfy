/** Facts about well-formed trees and their leaf chains. */
module BTreeProof {
  import opened Util
  import opened Storage
  import opened BTreeModel

  // ----- Lists of entries -----

  /** `Lookup` finds a binding exactly when there is one. */
  lemma {:induction false} LookupMeans(es: seq<Entry>, key: int)
    ensures Lookup(es, key).Some? <==> HasKey(es, key)
    ensures Lookup(es, key).Some? ==> exists e :: e in es && e.key == key && e.value == Lookup(es, key).value
  {
    if es != [] {
      assert es[0] in es;
      assert forall e :: e in es <==> e == es[0] || e in es[1..];
      LookupMeans(es[1..], key);
    }
  }

  lemma {:induction false} LookupConcat(a: seq<Entry>, b: seq<Entry>, key: int)
    ensures Lookup(a + b, key) == if Lookup(a, key).Some? then Lookup(a, key) else Lookup(b, key)
  {
    if a == [] {
      assert a + b == b;
    } else {
      assert (a + b)[1..] == a[1..] + b;
      LookupConcat(a[1..], b, key);
    }
  }

  lemma {:induction false} InRangeConcat(a: seq<Entry>, b: seq<Entry>, lo: int, hi: int)
    ensures InRange(a + b, lo, hi) == InRange(a, lo, hi) + InRange(b, lo, hi)
  {
    if a == [] {
      assert a + b == b;
    } else {
      assert (a + b)[1..] == a[1..] + b;
      InRangeConcat(a[1..], b, lo, hi);
    }
  }

  lemma LastInRange(es: seq<Entry>, lo: int, hi: int)
    requires es != []
    ensures var n := |es| - 1;
            InRange(es, lo, hi) == InRange(es[..n], lo, hi) + if lo <= es[n].key <= hi then [es[n].value] else []
  {
    var n := |es| - 1;
    assert es == es[..n] + [es[n]];
    InRangeConcat(es[..n], [es[n]], lo, hi);
    assert [es[n]][1..] == [];
  }

  /** The places of the keys in a closed range. */
  ghost function Places(es: seq<Entry>, lo: int, hi: int): (at: seq<nat>)
    ensures forall k :: 0 <= k < |at| ==> at[k] < |es|
  {
    if es == [] then []
    else
      var n := |es| - 1;
      Places(es[..n], lo, hi) + if lo <= es[n].key <= hi then [n] else []
  }

  lemma {:induction false} PlacesMembers(es: seq<Entry>, lo: int, hi: int, i: nat)
    ensures i in Places(es, lo, hi) <==> i < |es| && lo <= es[i].key <= hi
  {
    if es != [] {
      PlacesMembers(es[..|es| - 1], lo, hi, i);
    }
  }

  lemma {:induction false} PlacesAscend(es: seq<Entry>, lo: int, hi: int, j: nat, k: nat)
    requires j < k < |Places(es, lo, hi)|
    ensures Places(es, lo, hi)[j] < Places(es, lo, hi)[k]
  {
    var front := es[..|es| - 1];
    if k < |Places(front, lo, hi)| {
      PlacesAscend(front, lo, hi, j, k);
    }
  }

  lemma {:induction false} PlacesValues(es: seq<Entry>, lo: int, hi: int, k: nat)
    ensures |Places(es, lo, hi)| == |InRange(es, lo, hi)|
    ensures k < |InRange(es, lo, hi)| ==> InRange(es, lo, hi)[k] == es[Places(es, lo, hi)[k]].value
  {
    if es != [] {
      PlacesValues(es[..|es| - 1], lo, hi, k);
      LastInRange(es, lo, hi);
      hide InRange;
    }
  }

  /** The values found are those at exactly the places whose keys lie in the range, both ends included, in order. */
  lemma InRangeMeans(es: seq<Entry>, lo: int, hi: int) returns (at: seq<nat>)
    ensures |at| == |InRange(es, lo, hi)| && forall j, k :: 0 <= j < k < |at| ==> at[j] < at[k]
    ensures forall k :: 0 <= k < |at| ==> at[k] < |es| && InRange(es, lo, hi)[k] == es[at[k]].value
    ensures forall i: nat :: i in at <==> i < |es| && lo <= es[i].key <= hi
  {
    at := Places(es, lo, hi);
    PlacesValues(es, lo, hi, 0);
    forall i: nat ensures i in at <==> i < |es| && lo <= es[i].key <= hi {
      PlacesMembers(es, lo, hi, i);
    }
    hide Places, InRange;
    forall j, k | 0 <= j < k < |at| ensures at[j] < at[k] {
      PlacesAscend(es, lo, hi, j, k);
    }
    forall k | 0 <= k < |at| ensures InRange(es, lo, hi)[k] == es[at[k]].value {
      PlacesValues(es, lo, hi, k);
    }
  }

  lemma {:induction false} InRangeEmpty(es: seq<Entry>, lo: int, hi: int)
    requires forall e :: e in es ==> !(lo <= e.key <= hi)
    ensures InRange(es, lo, hi) == []
  {
    if es != [] {
      assert es[0] in es;
      InRangeEmpty(es[1..], lo, hi);
    }
  }

  /** In an ascending list each entry is the binding of its key. */
  lemma {:induction false} LookupAscending(es: seq<Entry>, e: Entry)
    requires Ascending(es) && e in es
    ensures Lookup(es, e.key) == Some(e.value)
  {
    if es[0] != e {
      assert e in es[1..];
      LookupAscending(es[1..], e);
    }
  }

  // ----- The chain -----

  lemma SoundSlices(store: Store, chain: seq<PageId>, j: nat)
    requires SoundChain(store, chain) && j <= |chain|
    ensures SoundChain(store, chain[..j]) && SoundChain(store, chain[j..])
  {
    hide SoundLeaf;
  }

  lemma EntriesUnfold(store: Store, chain: seq<PageId>)
    requires SoundChain(store, chain) && chain != []
    ensures Total(store) && SoundLeaf(store[chain[0]]) && SoundChain(store, chain[1..])
    ensures Entries(store, chain) == LeafEntries(store[chain[0]]) + Entries(store, chain[1..])
  {
    hide LeafEntries, SoundLeaf;
  }

  lemma EntriesNone(store: Store, a: seq<PageId>, b: seq<PageId>)
    requires SoundChain(store, b) && a == []
    ensures SoundChain(store, a) && SoundChain(store, a + b)
    ensures a + b == b && Entries(store, a + b) == Entries(store, a) + Entries(store, b)
  {
    hide SoundLeaf, LeafEntries;
    assert a + b == b && Entries(store, a) == [];
    hide Entries;
  }

  lemma SoundConcat(store: Store, a: seq<PageId>, b: seq<PageId>)
    requires SoundChain(store, a) && SoundChain(store, b)
    ensures SoundChain(store, a + b)
  {
    hide SoundLeaf;
  }

  lemma {:induction false} EntriesConcat(store: Store, a: seq<PageId>, b: seq<PageId>)
    requires SoundChain(store, a) && SoundChain(store, b)
    ensures SoundChain(store, a + b) && Entries(store, a + b) == Entries(store, a) + Entries(store, b)
  {
    hide SoundChain, SoundLeaf, LeafEntries, Entries;
    SoundConcat(store, a, b);
    if a == [] {
      EntriesNone(store, a, b);
    } else {
      EntriesUnfold(store, a);
      EntriesUnfold(store, a + b);
      assert (a + b)[0] == a[0] && (a + b)[1..] == a[1..] + b;
      EntriesConcat(store, a[1..], b);
      Joined(LeafEntries(store[a[0]]), Entries(store, a[1..]), Entries(store, b));
    }
  }

  lemma EntriesSplit(store: Store, chain: seq<PageId>, j: nat)
    requires SoundChain(store, chain) && j <= |chain|
    ensures SoundChain(store, chain[..j]) && SoundChain(store, chain[j..])
    ensures Entries(store, chain) == Entries(store, chain[..j]) + Entries(store, chain[j..])
  {
    hide *;
    SoundSlices(store, chain, j);
    EntriesConcat(store, chain[..j], chain[j..]);
    assert chain == chain[..j] + chain[j..];
  }

  lemma Joined(a: seq<Entry>, b: seq<Entry>, c: seq<Entry>)
    ensures a + (b + c) == a + b + c
  {
  }

  lemma {:induction false} EntriesFrame(store: Store, store': Store, chain: seq<PageId>)
    requires SoundChain(store, chain) && Total(store')
    requires forall i :: 0 <= i < |chain| ==> store'[chain[i]] == store[chain[i]]
    ensures SoundChain(store', chain) && Entries(store', chain) == Entries(store, chain)
  {
    if chain != [] {
      EntriesFrame(store, store', chain[1..]);
    }
  }

  /** The entries around the `j`-th leaf of the chain. */
  ghost function Before(store: Store, chain: seq<PageId>, j: nat): seq<Entry>
    requires SoundChain(store, chain) && j <= |chain|
  {
    Entries(store, chain[..j])
  }

  ghost function After(store: Store, chain: seq<PageId>, j: nat): seq<Entry>
    requires SoundChain(store, chain) && j <= |chain|
  {
    Entries(store, chain[j..])
  }

  lemma EntriesAround(store: Store, chain: seq<PageId>, j: nat)
    requires SoundChain(store, chain) && j < |chain|
    ensures Entries(store, chain) ==
            Before(store, chain, j) + (LeafEntries(store[chain[j]]) + After(store, chain, j + 1))
  {
    EntriesSplit(store, chain, j);
    assert chain[j..][1..] == chain[j + 1..];
  }

  /** Replacing one leaf changes the list only in that leaf's place. */
  lemma EntriesReplaced(store: Store, chain: seq<PageId>, j: nat, n: Node)
    requires SoundChain(store, chain) && j < |chain| && SoundLeaf(n)
    requires forall i :: 0 <= i < |chain| && i != j ==> chain[i] != chain[j]
    ensures SoundChain(store[chain[j] := n], chain)
    ensures Entries(store[chain[j] := n], chain) ==
            Before(store, chain, j) + (LeafEntries(n) + After(store, chain, j + 1))
  {
    var store' := store[chain[j] := n];
    SoundReplaced(store, chain, j, n);
    SoundSlices(store, chain, j);
    SoundSlices(store, chain, j + 1);
    OthersKept(store, chain, j, n);
    hide *;
    EntriesAround(store', chain, j);
    BeforeFrame(store, store', chain, j);
    AfterFrame(store, store', chain, j + 1);
  }

  lemma SoundReplaced(store: Store, chain: seq<PageId>, j: nat, n: Node)
    requires SoundChain(store, chain) && j < |chain| && SoundLeaf(n)
    ensures SoundChain(store[chain[j] := n], chain)
  {
    hide SoundLeaf;
  }

  lemma OthersKept(store: Store, chain: seq<PageId>, j: nat, n: Node)
    requires Total(store) && j < |chain| && forall i :: 0 <= i < |chain| && i != j ==> chain[i] != chain[j]
    ensures forall i :: 0 <= i < j ==> store[chain[j] := n][chain[i]] == store[chain[i]]
    ensures forall i :: j < i < |chain| ==> store[chain[j] := n][chain[i]] == store[chain[i]]
  {
  }

  lemma BeforeFrame(store: Store, store': Store, chain: seq<PageId>, j: nat)
    requires SoundChain(store, chain) && SoundChain(store', chain) && j <= |chain|
    requires forall i :: 0 <= i < j ==> store'[chain[i]] == store[chain[i]]
    ensures Before(store', chain, j) == Before(store, chain, j)
  {
    SoundSlices(store, chain, j);
    hide Entries, SoundLeaf;
    EntriesFrame(store, store', chain[..j]);
  }

  lemma AfterFrame(store: Store, store': Store, chain: seq<PageId>, j: nat)
    requires SoundChain(store, chain) && SoundChain(store', chain) && j <= |chain|
    requires forall i :: j <= i < |chain| ==> store'[chain[i]] == store[chain[i]]
    ensures After(store', chain, j) == After(store, chain, j)
  {
    SoundSlices(store, chain, j);
    hide Entries, SoundLeaf;
    EntriesFrame(store, store', chain[j..]);
  }

  // ----- Intervals -----

  lemma {:induction false} ChainOrdered(t: Layout, i: nat, j: nat)
    requires Tiles(t) && i < j < |t.chain|
    ensures t.spans[t.chain[i]].hi <= t.spans[t.chain[j]].lo
  {
    if i + 1 < j {
      ChainOrdered(t, i, j - 1);
    }
  }

  /** At most one leaf's interval contains a key. */
  lemma LeafIsUnique(t: Layout, i: nat, j: nat, key: int)
    requires Tiles(t) && i < |t.chain| && j < |t.chain|
    requires t.spans[t.chain[i]].Has(key) && t.spans[t.chain[j]].Has(key)
    ensures i == j
  {
    if i < j {
      ChainOrdered(t, i, j);
    } else if j < i {
      ChainOrdered(t, j, i);
    }
  }

  ghost predicate LeavesWithin(store: Store, t: Layout) {
    && Tiles(t) && SoundChain(store, t.chain)
    && forall i :: 0 <= i < |t.chain| ==> LeafWithin(store[t.chain[i]], t.spans[t.chain[i]])
  }

  lemma WellFormedRoutes(store: Store, root: PageId, t: Layout)
    requires WellFormed(store, root, t)
    ensures Routes(store, root, t) && LeavesWithin(store, t)
  {
  }

  /** Two ascending lists on either side of a bound join into one. */
  lemma AscendingConcat(a: seq<Entry>, b: seq<Entry>, bound: int)
    requires Ascending(a) && Ascending(b)
    requires (forall e :: e in a ==> e.key < bound) && (forall e :: e in b ==> bound <= e.key)
    ensures Ascending(a + b) && forall e :: e in a + b <==> e in a || e in b
  {
    assert forall i :: 0 <= i < |a| ==> a[i] in a;
    assert forall i :: 0 <= i < |b| ==> b[i] in b;
  }

  /** Everything from the `j`-th leaf on is at or above its interval's lower end, and ascending. */
  lemma {:induction false} AfterIsAbove(store: Store, t: Layout, j: nat)
    requires LeavesWithin(store, t) && j <= |t.chain|
    ensures Ascending(After(store, t.chain, j))
    ensures j < |t.chain| ==> forall e :: e in After(store, t.chain, j) ==> t.spans[t.chain[j]].lo <= e.key
    ensures j > 0 ==> forall e :: e in After(store, t.chain, j) ==> t.spans[t.chain[j - 1]].hi <= e.key
    decreases |t.chain| - j
  {
    if j < |t.chain| {
      LeafBound(store, t, j);
      hide *;
      AfterUnfolds(store, t.chain, j);
      AfterIsAbove(store, t, j + 1);
      Above(LeafEntries(store[t.chain[j]]), After(store, t.chain, j + 1), t.spans[t.chain[j]]);
    } else {
      assert t.chain[j..] == [];
    }
  }

  /** A leaf's entries, and behind them what lies beyond its interval. */
  lemma Above(leaf: seq<Entry>, rest: seq<Entry>, s: Span)
    requires Ascending(leaf) && Ascending(rest) && s.lo < s.hi
    requires (forall e :: e in leaf ==> s.Has(e.key)) && (forall e :: e in rest ==> s.hi <= e.key)
    ensures Ascending(leaf + rest) && forall e :: e in leaf + rest ==> s.lo <= e.key
  {
    hide Ascending;
    AscendingConcat(leaf, rest, s.hi);
  }

  lemma AfterUnfolds(store: Store, chain: seq<PageId>, j: nat)
    requires SoundChain(store, chain) && j < |chain|
    ensures After(store, chain, j) == LeafEntries(store[chain[j]]) + After(store, chain, j + 1)
  {
    assert chain[j..][1..] == chain[j + 1..];
    SoundSlices(store, chain, j);
    hide LeafEntries, SoundLeaf;
  }

  lemma {:induction false} BeforeIsBelow(store: Store, t: Layout, j: nat)
    requires LeavesWithin(store, t) && 0 < j <= |t.chain|
    ensures forall e :: e in Before(store, t.chain, j) ==> e.key < t.spans[t.chain[j - 1]].hi
  {
    LeafBound(store, t, j - 1);
    hide LeavesWithin, Entries, LeafEntries, Before, LeafWithin, Ascending;
    BeforeUnfolds(store, t.chain, j);
    var before, bound := Before(store, t.chain, j - 1), t.spans[t.chain[j - 1]].hi;
    if j > 1 {
      BeforeIsBelow(store, t, j - 1);
    } else {
      BeforeNothing(store, t.chain);
    }
    assert forall e :: e in before ==> e.key < bound;
    hide Tiles, Total;
  }

  lemma BeforeNothing(store: Store, chain: seq<PageId>)
    requires SoundChain(store, chain)
    ensures Before(store, chain, 0) == []
  {
    assert chain[..0] == [];
  }

  lemma LeafBound(store: Store, t: Layout, j: nat)
    requires LeavesWithin(store, t) && j < |t.chain|
    ensures SoundChain(store, t.chain) && SoundLeaf(store[t.chain[j]])
    ensures Tiles(t) && t.spans[t.chain[j]].lo < t.spans[t.chain[j]].hi
    ensures Ascending(LeafEntries(store[t.chain[j]]))
    ensures forall e :: e in LeafEntries(store[t.chain[j]]) ==> t.spans[t.chain[j]].Has(e.key)
    ensures j > 0 ==> t.spans[t.chain[j - 1]].hi == t.spans[t.chain[j]].lo
  {
    assert LeafWithin(store[t.chain[j]], t.spans[t.chain[j]]);
  }

  lemma BeforeUnfolds(store: Store, chain: seq<PageId>, j: nat)
    requires SoundChain(store, chain) && 0 < j <= |chain|
    ensures Before(store, chain, j) == Before(store, chain, j - 1) + LeafEntries(store[chain[j - 1]])
  {
    SoundSlices(store, chain, j);
    EntriesSplit(store, chain[..j], j - 1);
    assert chain[..j][..j - 1] == chain[..j - 1] && chain[..j][j - 1..] == [chain[j - 1]];
    assert [chain[j - 1]][1..] == [];
    hide LeafEntries, SoundLeaf;
  }

  /** A well-formed tree means one strictly ascending list. */
  lemma TreeIsAscending(store: Store, t: Layout)
    requires LeavesWithin(store, t)
    ensures Ascending(Entries(store, t.chain))
  {
    AfterIsAbove(store, t, 0);
    assert t.chain[0..] == t.chain;
  }

  /** The leaf whose interval contains a key knows all there is to know about that key. */
  lemma LookupInLeaf(store: Store, t: Layout, j: nat, key: int)
    requires LeavesWithin(store, t) && j < |t.chain| && t.spans[t.chain[j]].Has(key)
    ensures Lookup(Entries(store, t.chain), key) == Lookup(LeafEntries(store[t.chain[j]]), key)
  {
    EntriesAround(store, t.chain, j);
    AfterIsAbove(store, t, j + 1);
    if j > 0 {
      BeforeIsBelow(store, t, j);
    }
    LookupMeans(Before(store, t.chain, j), key);
    LookupMeans(After(store, t.chain, j + 1), key);
    LookupConcat(Before(store, t.chain, j), LeafEntries(store[t.chain[j]]) + After(store, t.chain, j + 1), key);
    LookupConcat(LeafEntries(store[t.chain[j]]), After(store, t.chain, j + 1), key);
  }

  // ----- Adding and removing one entry -----

  /** Ordered insertion, before the first greater key. */
  function Inserted(es: seq<Entry>, e: Entry): seq<Entry> {
    if es == [] || e.key < es[0].key then [e] + es else [es[0]] + Inserted(es[1..], e)
  }

  function Without(es: seq<Entry>, key: int): seq<Entry> {
    if es == [] then [] else if es[0].key == key then es[1..] else [es[0]] + Without(es[1..], key)
  }

  lemma {:induction false} InsertedAt(es: seq<Entry>, e: Entry, at: nat)
    requires at <= |es|
    requires forall i :: 0 <= i < at ==> es[i].key <= e.key
    requires at < |es| ==> e.key < es[at].key
    ensures Inserted(es, e) == es[..at] + [e] + es[at..]
  {
    if at > 0 {
      InsertedAt(es[1..], e, at - 1);
      assert es[1..][..at - 1] == es[1..at] && es[1..][at - 1..] == es[at..];
      assert es[..at] == [es[0]] + es[1..at];
    }
  }

  lemma {:induction false} WithoutAt(es: seq<Entry>, key: int, at: nat)
    requires at < |es| && es[at].key == key
    requires forall i :: 0 <= i < at ==> es[i].key != key
    ensures Without(es, key) == es[..at] + es[at + 1..]
  {
    if at > 0 {
      WithoutAt(es[1..], key, at - 1);
      assert es[1..][..at - 1] == es[1..at] && es[1..][at..] == es[at + 1..];
      assert es[..at] == [es[0]] + es[1..at];
    }
  }

  lemma {:induction false} InsertedMembers(es: seq<Entry>, e: Entry)
    requires Ascending(es) && !HasKey(es, e.key)
    ensures Ascending(Inserted(es, e))
    ensures forall x :: x in Inserted(es, e) <==> x == e || x in es
  {
    if es != [] && e.key >= es[0].key {
      var first, tail, rest := es[0], es[1..], Inserted(es[1..], e);
      assert es == [first] + tail && first in es && Inserted(es, e) == [first] + rest;
      assert forall x :: x in tail ==> x in es;
      FirstIsLeast(es);
      InsertedMembers(tail, e);
      hide Inserted, HasKey;
      assert forall x :: x in [first] + rest <==> x == first || x in rest;
      assert forall x :: x in es <==> x == first || x in tail;
      FirstStaysLeast(first, rest);
    }
  }

  lemma FirstIsLeast(es: seq<Entry>)
    requires Ascending(es) && es != []
    ensures Ascending(es[1..]) && forall x :: x in es[1..] ==> es[0].key < x.key
  {
    forall x | x in es[1..]
      ensures es[0].key < x.key
    {
      var i :| 0 <= i < |es[1..]| && es[1..][i] == x;
      assert es[i + 1] == x;
    }
  }

  lemma FirstStaysLeast(first: Entry, rest: seq<Entry>)
    requires Ascending(rest) && forall x :: x in rest ==> first.key < x.key
    ensures Ascending([first] + rest)
  {
    assert forall i :: 0 <= i < |rest| ==> rest[i] in rest;
  }

  lemma {:induction false} InsertedLookup(es: seq<Entry>, e: Entry, key: int)
    requires key == e.key ==> Lookup(es, key).None?
    ensures Lookup(Inserted(es, e), key) == if key == e.key then Some(e.value) else Lookup(es, key)
  {
    if es == [] || e.key < es[0].key {
      assert ([e] + es)[1..] == es;
    } else {
      InsertedLookup(es[1..], e, key);
      assert Inserted(es, e)[1..] == Inserted(es[1..], e);
    }
  }

  /** Insertion adds one binding and keeps the order. */
  lemma InsertedMeans(es: seq<Entry>, e: Entry, key: int)
    requires Ascending(es) && Lookup(es, e.key).None?
    ensures Ascending(Inserted(es, e)) && |Inserted(es, e)| == |es| + 1
    ensures Lookup(Inserted(es, e), key) == if key == e.key then Some(e.value) else Lookup(es, key)
  {
    LookupMeans(es, e.key);
    InsertedMembers(es, e);
    InsertedLookup(es, e, key);
    InsertedLength(es, e);
  }

  lemma {:induction false} InsertedLength(es: seq<Entry>, e: Entry)
    ensures |Inserted(es, e)| == |es| + 1
  {
    if es != [] && e.key >= es[0].key {
      InsertedLength(es[1..], e);
    }
  }

  lemma {:induction false} WithoutMembers(es: seq<Entry>, key: int)
    requires Ascending(es) && HasKey(es, key)
    ensures Ascending(Without(es, key)) && |Without(es, key)| == |es| - 1
    ensures forall x :: x in Without(es, key) <==> x in es && x.key != key
  {
    assert forall x :: x in es <==> x == es[0] || x in es[1..];
    if es[0].key == key {
      forall x | x in es[1..]
        ensures x.key != key
      {
        var i :| 0 <= i < |es[1..]| && es[1..][i] == x;
        assert es[0].key < es[i + 1].key;
      }
    } else {
      var rest := Without(es[1..], key);
      WithoutMembers(es[1..], key);
      assert forall i :: 0 <= i < |rest| ==> rest[i] in rest;
      assert forall x :: x in Without(es, key) <==> x == es[0] || x in rest;
    }
  }

  lemma {:induction false} LookupSkips(es: seq<Entry>, key: int, other: int)
    requires other != key
    ensures Lookup(Without(es, key), other) == Lookup(es, other)
  {
    if es != [] && es[0].key != key {
      LookupSkips(es[1..], key, other);
      assert Without(es, key)[1..] == Without(es[1..], key);
    }
  }

  /** Removal takes out one binding and keeps the order. */
  lemma WithoutMeans(es: seq<Entry>, key: int, other: int)
    requires Ascending(es) && Lookup(es, key).Some?
    ensures Ascending(Without(es, key)) && |Without(es, key)| == |es| - 1
    ensures Lookup(Without(es, key), other) == if other == key then None else Lookup(es, other)
  {
    LookupMeans(es, key);
    WithoutMembers(es, key);
    if other == key {
      LookupMeans(Without(es, key), key);
    } else {
      LookupSkips(es, key, other);
    }
  }

  lemma {:induction false} InsertedBehind(a: seq<Entry>, b: seq<Entry>, e: Entry)
    requires forall x :: x in a ==> x.key < e.key
    ensures Inserted(a + b, e) == a + Inserted(b, e)
  {
    if a == [] {
      assert a + b == b;
    } else {
      assert a[0] in a && (a + b)[1..] == a[1..] + b;
      InsertedBehind(a[1..], b, e);
    }
  }

  lemma {:induction false} InsertedBefore(b: seq<Entry>, c: seq<Entry>, e: Entry)
    requires forall x :: x in c ==> e.key < x.key
    ensures Inserted(b + c, e) == Inserted(b, e) + c
  {
    if b == [] {
      assert b + c == c && (c != [] ==> c[0] in c);
    } else if e.key >= b[0].key {
      assert (b + c)[1..] == b[1..] + c;
      InsertedBefore(b[1..], c, e);
    }
  }

  lemma InsertedWithin(a: seq<Entry>, b: seq<Entry>, c: seq<Entry>, e: Entry)
    requires forall x :: x in a ==> x.key < e.key
    requires forall x :: x in c ==> e.key < x.key
    ensures Inserted(a + (b + c), e) == a + (Inserted(b, e) + c)
  {
    hide Inserted;
    InsertedBehind(a, b + c, e);
    InsertedBefore(b, c, e);
  }

  lemma {:induction false} WithoutPasses(a: seq<Entry>, rest: seq<Entry>, key: int)
    requires forall x :: x in a ==> x.key != key
    ensures Without(a + rest, key) == a + Without(rest, key)
  {
    if a == [] {
      assert a + rest == rest;
    } else {
      var tail := a[1..];
      assert (a + rest)[1..] == tail + rest;
      assert a[0] in a && forall x :: x in tail ==> x in a;
      WithoutPasses(tail, rest, key);
      PrependTail(a, Without(rest, key));
    }
  }

  lemma PrependTail(a: seq<Entry>, b: seq<Entry>)
    requires a != []
    ensures [a[0]] + (a[1..] + b) == a + b
  {
  }

  lemma {:induction false} WithoutStops(b: seq<Entry>, c: seq<Entry>, key: int)
    requires HasKey(b, key)
    ensures Without(b + c, key) == Without(b, key) + c
  {
    assert (b + c)[1..] == b[1..] + c;
    if b[0].key != key {
      WithoutStops(b[1..], c, key);
      hide HasKey;
      assert [b[0]] + (Without(b[1..], key) + c) == ([b[0]] + Without(b[1..], key)) + c;
    }
  }

  lemma WithoutWithin(a: seq<Entry>, b: seq<Entry>, c: seq<Entry>, key: int)
    requires forall x :: x in a ==> x.key != key
    requires HasKey(b, key)
    ensures Without(a + (b + c), key) == a + (Without(b, key) + c)
  {
    WithoutPasses(a, b + c, key);
    WithoutStops(b, c, key);
    hide Without;
  }
}
