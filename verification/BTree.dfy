/** The B+ tree index over pinned pages (wasdb_btree/src/tree.rs). */
module BTree {
  import opened Util
  import opened Storage
  import opened FlatPool
  import opened BTreeModel
  import opened BTreeProof
  import opened BTreeTrails
  import opened BTreeUpdates
  import opened NodePool

  /** The capacity computed from the page size for a new root. */
  const CAPACITY: u16 := (PAGE_SIZE - 24) / 16

  /** What an insert comes to. The last two abort the program: a full leaf would have to be split, and a
      leaf may hold all its array slots before it reaches the capacity computed from the page size. */
  datatype InsertOutcome = Inserts | DuplicateKey | PoolExhausted | SplitUnimplemented | ArrayOverflow

  datatype DeleteOutcome = Deletes | Borrows | Merges | KeyNotFound | PoolExhausted | MergeOverflow

  /** What the target leaf makes of a key. */
  function Verdict(leaf: Node, key: i32): InsertOutcome
    requires SoundLeaf(leaf)
  {
    if Lookup(LeafEntries(leaf), key).Some? then DuplicateKey
    else if leaf.numKeys >= leaf.maxKeys then SplitUnimplemented
    else if leaf.numKeys == MAX_KEYS then ArrayOverflow
    else Inserts
  }

  /** The outcome is the verdict of the `j`-th leaf, whose interval holds the key. */
  ghost predicate Decided(store: Store, t: Layout, j: nat, key: i32, out: InsertOutcome) {
    && Total(store) && j < |t.chain| && t.chain[j] in t.spans && t.spans[t.chain[j]].Has(key)
    && SoundLeaf(store[t.chain[j]]) && out == Verdict(store[t.chain[j]], key)
  }

  /** `slice::binary_search` on an ascending prefix. */
  method BinarySearch(keys: KeyArray, values: ValueArray, n: nat, key: i32) returns (at: Option<nat>)
    requires n <= MAX_KEYS && Ascending(Zip(keys, values, n))
    ensures at.Some? ==> at.value < n && keys[at.value] == key
    ensures at.Some? <==> Lookup(Zip(keys, values, n), key).Some?
    ensures at.Some? ==> Lookup(Zip(keys, values, n), key) == Some(values[at.value])
  {
    ghost var es := Zip(keys, values, n);
    LookupMeans(es, key);
    var lo, hi := 0, n;
    while lo < hi
      invariant 0 <= lo <= hi <= n
      invariant forall i :: 0 <= i < lo ==> es[i].key < key
      invariant forall i :: hi <= i < n ==> key < es[i].key
    {
      var mid := (lo + hi) / 2;
      assert es[mid].key == keys[mid];
      if keys[mid] < key {
        lo := mid + 1;
      } else if key < keys[mid] {
        hi := mid;
      } else {
        assert es[mid] in es;
        LookupAscending(es, es[mid]);
        return Some(mid);
      }
    }
    at := None;
  }

  /** Makes room at the first greater key by shifting, and stores the entry there. */
  method InsertSlot(keys: KeyArray, values: ValueArray, n: nat, key: i32, value: Ctid)
    returns (keys': KeyArray, values': ValueArray)
    requires n < MAX_KEYS
    ensures Zip(keys', values', n + 1) == Inserted(Zip(keys, values, n), Entry(key, value))
  {
    ghost var es := Zip(keys, values, n);
    var at := 0;
    while at < n && keys[at] <= key
      invariant at <= n
      invariant forall i :: 0 <= i < at ==> es[i].key <= key
    {
      at := at + 1;
    }
    assert at < n ==> es[at].key == keys[at];
    keys', values' := ShiftRight(keys, values, at, n);
    keys', values' := keys'[at := key], values'[at := value];
    InsertedAt(es, Entry(key, value), at);
    assert Zip(keys', values', n + 1) == es[..at] + [Entry(key, value)] + es[at..];
  }

  /** Moves the slots from `at` on one place to the right, last slot first. */
  method ShiftRight(keys: KeyArray, values: ValueArray, at: nat, n: nat) returns (keys': KeyArray, values': ValueArray)
    requires at <= n < MAX_KEYS
    ensures forall i :: 0 <= i < at ==> keys'[i] == keys[i] && values'[i] == values[i]
    ensures forall i :: at <= i < n ==> keys'[i + 1] == keys[i] && values'[i + 1] == values[i]
  {
    keys', values' := keys, values;
    var i := n;
    while at < i
      invariant at <= i <= n
      invariant forall k :: 0 <= k < i ==> keys'[k] == keys[k] && values'[k] == values[k]
      invariant forall k :: i <= k < n ==> keys'[k + 1] == keys[k] && values'[k + 1] == values[k]
    {
      i := i - 1;
      keys' := keys'[i + 1 := keys'[i]];
      values' := values'[i + 1 := values'[i]];
    }
  }

  /** Closes the gap left by a slot by shifting the later slots left. */
  method RemoveSlot(keys: KeyArray, values: ValueArray, n: nat, at: nat)
    returns (keys': KeyArray, values': ValueArray)
    requires at < n <= MAX_KEYS
    ensures Zip(keys', values', n - 1) == Zip(keys, values, n)[..at] + Zip(keys, values, n)[at + 1..]
  {
    keys', values' := keys, values;
    var i := at;
    while i < n - 1
      invariant at <= i <= n - 1
      invariant forall k :: 0 <= k < at || i < k < MAX_KEYS ==> keys'[k] == keys[k] && values'[k] == values[k]
      invariant forall k :: at <= k < i ==> keys'[k] == keys[k + 1] && values'[k] == values[k + 1]
    {
      keys' := keys'[i := keys'[i + 1]];
      values' := values'[i := values'[i + 1]];
      i := i + 1;
    }
  }

  /** Copies the slots of one leaf behind those of another. */
  method AppendSlots(keys: KeyArray, values: ValueArray, m: nat, fromKeys: KeyArray, fromValues: ValueArray, n: nat)
    returns (keys': KeyArray, values': ValueArray)
    requires m + n <= MAX_KEYS
    ensures Zip(keys', values', m + n) == Zip(keys, values, m) + Zip(fromKeys, fromValues, n)
  {
    keys', values' := keys, values;
    var i := 0;
    while i < n
      invariant i <= n
      invariant Zip(keys', values', m + i) == Zip(keys, values, m) + Zip(fromKeys, fromValues, n)[..i]
    {
      keys' := keys'[m + i := fromKeys[i]];
      values' := values'[m + i := fromValues[i]];
      i := i + 1;
    }
  }

  /** Moves the last entry of the left leaf to the front of the right one. */
  method MoveLast(l: Node, r: Node) returns (l': Node, r': Node)
    requires SoundLeaf(l) && SoundLeaf(r) && l.numKeys > 0 && r.numKeys < MAX_KEYS
    ensures SoundLeaf(l') && SoundLeaf(r') && SameLinks(l, l') && SameLinks(r, r') && Borrowed(l, r, l', r')
  {
    var last := l.numKeys - 1;
    var keys, values := ShiftRight(r.keys, r.values, 0, r.numKeys);
    var n := r.numKeys + 1;
    l' := WithSlots(l, last, l.keys, l.values);
    r' := WithSlots(r, n, keys[0 := l.keys[last]], values[0 := l.values[last]]);
  }

  /** Moves every entry of the right leaf behind those of the left one, which takes over its link. */
  method MoveAll(l: Node, r: Node) returns (l': Node, r': Node)
    requires SoundLeaf(l) && SoundLeaf(r) && l.numKeys + r.numKeys <= MAX_KEYS
    ensures SoundLeaf(l') && SoundLeaf(r') && l'.next == r.next && l'.numKeys == l.numKeys + r.numKeys
    ensures LeafEntries(l') == LeafEntries(l) + LeafEntries(r) && r'.numKeys == 0
    ensures SameLinks(r, r') && l'.parent == l.parent && l'.maxKeys == l.maxKeys
  {
    var keys, values := AppendSlots(l.keys, l.values, l.numKeys, r.keys, r.values, r.numKeys);
    var n := l.numKeys + r.numKeys;
    l' := Leaf(n, l.maxKeys, l.parent, r.next, keys, values);
    r' := WithSlots(r, 0, r.keys, r.values);
  }

  class BTreeIndex {
    const pool: Nodes
    var rootPageId: Option<PageId>
    ghost var layout: Layout

    ghost predicate Valid()
      reads this, pool
    {
      pool.Valid() && (rootPageId.Some? ==> WellFormed(pool.Store(), rootPageId.value, layout))
    }

    /** Every leaf has the capacity that a new root is given. */
    ghost predicate Standard()
      reads this, pool
    {
      rootPageId.Some? ==> StandardLeaves(pool.Store(), layout.chain)
    }

    ghost function Contents(): seq<Entry>
      requires Valid()
      reads this, pool
    {
      if rootPageId.None? then [] else Entries(pool.Store(), layout.chain)
    }

    /** Opens an empty index, or one whose tree is already in the pool. */
    constructor (pool: Nodes, rootPageId: Option<PageId>, ghost layout: Layout)
      requires pool.Valid() && (rootPageId.Some? ==> WellFormed(pool.Store(), rootPageId.value, layout))
      ensures this.pool == pool && this.rootPageId == rootPageId && this.layout == layout && Valid()
    {
      this.pool, this.rootPageId, this.layout := pool, rootPageId, layout;
    }

    /** Descends to the leaf whose interval holds the key and leaves it pinned. */
    method FindLeafPage(key: i32) returns (found: Result<Option<PageId>, ()>)
      requires pool.Valid() && (rootPageId.Some? ==> Routes(pool.Store(), rootPageId.value, layout))
      modifies pool
      ensures pool.Valid()
      ensures pool.Store() == old(pool.Store()) && pool.touched == old(pool.touched)
      ensures found.Err? ==> rootPageId.Some? && pool.Pins() == old(pool.Pins())
      ensures found.Ok? ==> (found.value.None? <==> rootPageId.None?)
      ensures Spare(old(pool.Pins()), pool.frames, 1) ==> found.Ok?
      ensures found.Ok? && found.value.None? ==> pool.Pins() == old(pool.Pins())
      ensures found.Ok? && found.value.Some? ==>
                var p := found.value.value;
                && p in layout.spans && layout.spans[p].level == 0 && layout.spans[p].Has(key)
                && pool.Pins() == old(pool.Pins())[p := old(pool.Pins())[p] + 1]
    {
      hide Nodes.Store, Nodes.Pins, Nodes.Valid, Routes;
      if rootPageId.None? {
        return Ok(None);
      }
      var curr := rootPageId.value;
      RootSpan(pool.Store(), curr, layout, key);
      while true
        invariant pool.Valid() && pool.Store() == old(pool.Store()) && pool.touched == old(pool.touched)
        invariant pool.Pins() == old(pool.Pins())
        invariant curr in layout.spans && layout.spans[curr].Has(key)
        decreases layout.spans[curr].level
      {
        var ok, atLeaf, next := VisitNode(curr, key, rootPageId.value);
        if !ok {
          return Err(());
        }
        if atLeaf {
          return Ok(Some(curr));
        }
        curr := next;
      }
    }

    /** One step of the descent: keeps a leaf pinned, or releases an internal node and names the child. */
    method VisitNode(curr: PageId, key: i32, ghost root: PageId) returns (ok: bool, atLeaf: bool, next: PageId)
      requires pool.Valid() && Routes(pool.Store(), root, layout)
      requires curr in layout.spans && layout.spans[curr].Has(key)
      modifies pool
      ensures pool.Valid() && pool.Store() == old(pool.Store()) && pool.touched == old(pool.touched)
      ensures !ok || !atLeaf ==> pool.Pins() == old(pool.Pins())
      ensures Spare(old(pool.Pins()), pool.frames, 1) ==> ok
      ensures ok && atLeaf ==>
                layout.spans[curr].level == 0 && pool.Pins() == old(pool.Pins())[curr := old(pool.Pins())[curr] + 1]
      ensures ok && !atLeaf ==>
                && next in layout.spans && layout.spans[next].Has(key)
                && layout.spans[next].level < layout.spans[curr].level
    {
      hide Nodes.Store, Nodes.Pins, InternalOk, Routes;
      NodeKind(pool.Store(), root, layout, curr);
      atLeaf, next := false, curr;
      ok := pool.FetchPage(curr);
      if ok {
        var node := pool.ReadPage(curr);
        atLeaf := node.Leaf?;
        if !atLeaf {
          next := Route(node, layout.spans[curr], layout.spans, key);
          pool.UnpinPage(curr, false);
          assert pool.Pins() == old(pool.Pins());
        }
      }
    }

    /** The child whose interval holds the key: the first separator above it, or the last child. */
    method Route(node: Node, ghost s: Span, ghost spans: map<PageId, Span>, key: i32) returns (child: PageId)
      requires InternalOk(node, s, spans) && s.Has(key)
      ensures child in spans && spans[child].level == s.level - 1 && spans[child].Has(key)
    {
      var childIdx := 0;
      while childIdx < node.numKeys && node.keys[childIdx] <= key
        invariant childIdx <= node.numKeys
        invariant forall i :: 0 <= i < childIdx ==> node.keys[i] <= key
      {
        childIdx := childIdx + 1;
      }
      child := node.children[childIdx];
      assert spans[child] == ChildSpan(node, s, childIdx);
    }

    /** Looks a key up in a pinned leaf and unpins it. */
    method SearchLeaf(p: PageId, key: i32) returns (v: Option<Ctid>)
      requires pool.Valid() && pool.Pins()[p] > 0 && (p in pool.touched ==> pool.Pins()[p] >= 2)
      requires SoundLeaf(pool.Store()[p]) && Ascending(LeafEntries(pool.Store()[p]))
      modifies pool
      ensures pool.Valid() && UnpinSpec(old(pool.Abs()), p, true, pool.Abs()) && pool.touched == old(pool.touched)
      ensures v == Lookup(LeafEntries(old(pool.Store())[p]), key)
    {
      hide Nodes.Store, Nodes.Pins, Nodes.Valid, Zip, Lookup, Ascending;
      var leaf := pool.ReadPage(p);
      var at := BinarySearch(leaf.keys, leaf.values, leaf.numKeys, key);
      pool.UnpinPage(p, false);
      v := if at.Some? then Some(leaf.values[at.value]) else None;
    }

    /** Every key has a leaf that descent reaches, and the leaf can be searched. A tree in order is like that, and
        so is what a delete leaves, whose separators may be wrong. */
    ghost predicate CanSearch()
      reads this, pool
    {
      pool.Valid() && (rootPageId.Some? ==> Searchable(pool.Store(), rootPageId.value, layout))
    }

    /** What the leaf reached by descent holds for a key. */
    ghost predicate Answers(key: i32, v: Option<Ctid>)
      requires CanSearch()
      reads this, pool
    {
      if rootPageId.None? then v == None
      else forall i :: 0 <= i < |layout.chain| && layout.spans[layout.chain[i]].Has(key) ==>
                         v == Lookup(LeafEntries(pool.Store()[layout.chain[i]]), key)
    }

    /** `search` answers for the leaf that descent reaches, which in a tree in order is lookup in the tree's list. It
        leaves every pin count as it was. */
    method Search(key: i32) returns (r: Result<Option<Ctid>, ()>)
      requires CanSearch()
      modifies pool
      ensures pool.Store() == old(pool.Store()) && pool.touched == old(pool.touched)
      ensures pool.Pins() == old(pool.Pins()) && CanSearch() && (old(Valid()) ==> Valid())
      ensures r.Ok? ==> Answers(key, r.value)
      ensures r.Ok? && old(Valid()) ==> r.value == Lookup(old(Contents()), key)
      ensures Spare(old(pool.Pins()), pool.frames, 1) ==> r.Ok?
    {
      hide WellFormed, Routes, LeafEntries, Lookup, Entries, Ascending, SoundChain, Nodes.Store, Nodes.Pins;
      ghost var store := pool.Store();
      EmptyTree(Entry(key, Ctid(INVALID_PAGE_ID, 0)));
      var found := FindLeafPage(key);
      if found.Err? {
        return Err(());
      }
      if found.value.None? {
        return Ok(None);
      }
      var p := found.value.value;
      LeafIsSearchable(store, rootPageId.value, layout, p, key);
      var v := SearchLeaf(p, key);
      assert pool.Pins() == old(pool.Pins());
      if old(Valid()) {
        LeafAnswers(store, rootPageId.value, layout, p, key);
      }
      hide Searchable;
      r := Ok(v);
    }

    /** Collects one leaf's values in range, stopping at the first key beyond it. */
    method CollectLeaf(leaf: Node, lo: i32, hi: i32) returns (values: seq<Ctid>, stop: bool)
      requires SoundLeaf(leaf) && Ascending(LeafEntries(leaf))
      ensures values == InRange(LeafEntries(leaf), lo, hi)
      ensures stop <==> Passes(LeafEntries(leaf), hi)
    {
      ghost var es := LeafEntries(leaf);
      assert forall k :: 0 <= k < |es| ==> es[k] == Entry(leaf.keys[k], leaf.values[k]);
      hide LeafEntries, InRange, Ascending;
      values, stop := [], false;
      var i := 0;
      CollectStart(es, lo, hi);
      while i < leaf.numKeys
        invariant i <= leaf.numKeys == |es|
        invariant values + InRange(es[i..], lo, hi) == InRange(es, lo, hi)
        invariant forall k :: 0 <= k < i ==> es[k].key <= hi
      {
        var k := leaf.keys[i];
        CollectStep(es, i, lo, hi, values);
        if lo <= k <= hi {
          values := values + [leaf.values[i]];
        } else if k > hi {
          return values, true;
        }
        i := i + 1;
      }
      CollectEnd(es, lo, hi, values);
    }

    /** One step of the walk: pins a leaf, collects from it and unpins it. */
    method VisitLeaf(p: PageId, lo: i32, hi: i32) returns (ok: bool, values: seq<Ctid>, stop: bool, next: PageId)
      requires pool.Valid() && SoundLeaf(pool.Store()[p]) && Ascending(LeafEntries(pool.Store()[p]))
      modifies pool
      ensures pool.Valid() && pool.Store() == old(pool.Store()) && pool.touched == old(pool.touched)
      ensures pool.Pins() == old(pool.Pins())
      ensures Spare(old(pool.Pins()), pool.frames, 1) ==> ok
      ensures ok ==> values == InRange(LeafEntries(pool.Store()[p]), lo, hi) && next == pool.Store()[p].next
      ensures ok ==> (stop <==> Passes(LeafEntries(pool.Store()[p]), hi))
    {
      hide LeafEntries, Ascending, InRange, Nodes.Store, Nodes.Pins;
      values, stop, next := [], false, INVALID_PAGE_ID;
      ok := pool.FetchPage(p);
      if ok {
        var leaf := pool.ReadPage(p);
        values, stop := CollectLeaf(leaf, lo, hi);
        next := leaf.next;
        pool.UnpinPage(p, false);
        assert pool.Pins() == old(pool.Pins());
      }
    }

    /** Walks the leaf links from a page, up to the first leaf with a key beyond the range. */
    method WalkLeaves(from: PageId, lo: i32, hi: i32, ghost path: seq<PageId>) returns (r: Result<seq<Ctid>, ()>)
      requires pool.Valid() && IsTrail(pool.Store(), from, path)
      modifies pool
      ensures pool.Valid() && pool.Store() == old(pool.Store()) && pool.touched == old(pool.touched)
      ensures pool.Pins() == old(pool.Pins())
      ensures Spare(old(pool.Pins()), pool.frames, 1) ==> r.Ok?
      ensures r.Ok? ==> r.value == InRange(Entries(pool.Store(), path), lo, hi)
    {
      hide *;
      ghost var store, k := pool.Store(), 0;
      var curr := from;
      var results: seq<Ctid> := [];
      TrailStarts(store, from, path, lo, hi);
      while true
        invariant pool.Valid() && pool.Store() == store && pool.touched == old(pool.touched)
        invariant pool.Pins() == old(pool.Pins())
        invariant k < |path| && curr == path[k]
        invariant results + InRange(After(store, path, k), lo, hi) == InRange(Entries(store, path), lo, hi)
        decreases |path| - k
      {
        TrailStep(store, from, path, k, lo, hi);
        var ok, values, stop, next := VisitLeaf(curr, lo, hi);
        if !ok {
          return Err(());
        }
        Extended(results, values, InRange(After(store, path, k + 1), lo, hi));
        results := results + values;
        if stop || next == INVALID_PAGE_ID {
          return Ok(results);
        }
        curr, k := next, k + 1;
      }
    }

    /** Descent works, and the links lead from every leaf along an ascending list to an end. A tree in order is like
        that, and so is what a delete leaves. */
    ghost predicate CanWalk()
      reads this, pool
    {
      pool.Valid() && (rootPageId.Some? ==> Walkable(pool.Store(), rootPageId.value, layout))
    }

    /** What the leaves hold from the one that descent reaches for the lower bound. */
    ghost predicate WalkAnswers(lo: i32, hi: i32, values: seq<Ctid>)
      requires CanWalk()
      reads this, pool
    {
      if rootPageId.None? then values == [] else AlongTrails(pool.Store(), layout, lo, hi, values)
    }

    /** `range_search` returns the values of the keys in a closed range, in key order, by walking the leaf links from
        the leaf that descent reaches, which in a tree in order are those of the whole list. It keeps the pin of the
        leaf where it started. */
    method RangeSearch(lo: i32, hi: i32) returns (r: Result<seq<Ctid>, ()>, ghost leaked: Option<PageId>)
      requires CanWalk()
      modifies pool
      ensures pool.Store() == old(pool.Store()) && pool.touched == old(pool.touched)
      ensures CanWalk() && (old(Valid()) ==> Valid())
      ensures r.Ok? ==> WalkAnswers(lo, hi, r.value)
      ensures r.Ok? && old(Valid()) ==> r.value == InRange(old(Contents()), lo, hi)
      ensures r.Ok? ==> (leaked.Some? <==> rootPageId.Some?)
      ensures Spare(old(pool.Pins()), pool.frames, 2) ==> r.Ok?
      ensures leaked.None? ==> pool.Pins() == old(pool.Pins())
      ensures leaked.Some? ==>
                && leaked.value in layout.spans && layout.spans[leaked.value].Has(lo)
                && pool.Pins() == old(pool.Pins())[leaked.value := old(pool.Pins())[leaked.value] + 1]
    {
      hide WellFormed, Walkable, LeafEntries, Lookup, Entries, Ascending, SoundChain, Nodes.Store, Nodes.Pins;
      hide Tiles, Routes, InRange, Spare, AlongTrails, IsTrail, Nodes.Valid, Nodes.Abs, Total;
      ghost var store, t := pool.Store(), layout;
      EmptyRange(lo, hi);
      if rootPageId.Some? {
        WalkableRoutes(store, rootPageId.value, t);
      }
      PinTakesSpare(pool.Pins(), pool.frames, 1, INVALID_PAGE_ID);
      var found := FindLeafPage(lo);
      leaked := None;
      if found.Err? {
        return Err(()), None;
      }
      if found.value.None? {
        return Ok([]), None;
      }
      leaked := Some(found.value.value);
      PinTakesSpare(old(pool.Pins()), pool.frames, 1, found.value.value);
      ghost var j := ChainIndex(t, found.value.value);
      ghost var path := TrailFrom(store, rootPageId.value, t, j);
      r := WalkLeaves(found.value.value, lo, hi, path);
      OnlyTrail(store, rootPageId.value, t, j, path, lo, hi);
      if old(Valid()) {
        TreeTrail(store, rootPageId.value, t, j, path, lo, hi);
      }
    }

    /** Starts the tree with a root leaf holding one entry. */
    method CreateRoot(key: i32, value: Ctid) returns (ok: bool)
      requires Valid() && rootPageId.None?
      modifies this, pool
      ensures Valid() && pool.Pins() == old(pool.Pins()) && pool.touched <= old(pool.touched)
      ensures ok ==>
                && rootPageId.Some? && layout == RootLayout(rootPageId.value)
                && Contents() == [Entry(key, value)] && Standard()
      ensures !ok ==> rootPageId.None? && layout == old(layout) && pool.Store() == old(pool.Store())
      ensures Spare(old(pool.Pins()), pool.frames, 1) ==> ok
    {
      hide WellFormed, LeafEntries, SoundLeaf, Entries, Nodes.Store, Nodes.Pins;
      var pid;
      ok, pid := pool.NewPage();
      if !ok {
        return;
      }
      StoreFirstLeaf(pid, key, value);
      rootPageId := Some(pid);
      layout := RootLayout(pid);
      assert pool.Pins() == old(pool.Pins());
      RootIsTree(pool.Store(), pid, [Entry(key, value)]);
    }

    /** Writes a leaf with one entry to a new page and unpins it. */
    method StoreFirstLeaf(pid: PageId, key: i32, value: Ctid)
      requires pool.Valid() && pool.Pins()[pid] > 0
      modifies pool
      ensures pool.Valid() && pool.Pins() == old(pool.Pins())[pid := old(pool.Pins())[pid] - 1]
      ensures pool.touched == old(pool.touched) - {pid}
      ensures var leaf := pool.Store()[pid];
              && leaf.Leaf? && SoundLeaf(leaf) && LeafEntries(leaf) == [Entry(key, value)]
              && leaf.maxKeys == CAPACITY && leaf.parent == leaf.next == INVALID_PAGE_ID
    {
      hide Nodes.Store, Nodes.Pins;
      var keys: KeyArray := seq(MAX_KEYS, _ => key);
      var values: ValueArray := seq(MAX_KEYS, _ => value);
      pool.WritePage(pid, Leaf(1, CAPACITY, INVALID_PAGE_ID, INVALID_PAGE_ID, keys, values));
      pool.UnpinPage(pid, true);
    }

    /** Inserting adds exactly one binding and keeps the tree well formed, or changes nothing; the leaf whose
        interval holds the key (the `j`-th) decides which. */
    method Insert(key: i32, value: Ctid) returns (out: InsertOutcome, ghost j: nat)
      requires Valid()
      modifies this, pool
      ensures Valid() && pool.touched <= old(pool.touched)
      ensures out != ArrayOverflow ==> pool.Pins() == old(pool.Pins())
      ensures out.Inserts? ==>
                Lookup(old(Contents()), key).None? && Contents() == Inserted(old(Contents()), Entry(key, value))
      ensures !out.Inserts? ==>
                pool.Store() == old(pool.Store()) && rootPageId == old(rootPageId) && layout == old(layout)
      ensures out.DuplicateKey? <==> Lookup(old(Contents()), key).Some? && !out.PoolExhausted?
      ensures old(rootPageId).None? ==> out.Inserts? || out.PoolExhausted?
      ensures old(rootPageId).Some? && !out.PoolExhausted? ==>
                Decided(old(pool.Store()), layout, j, key, out)
      ensures old(rootPageId).Some? ==> rootPageId == old(rootPageId) && layout == old(layout)
      ensures old(rootPageId).None? && out.Inserts? ==>
                rootPageId.Some? && layout == RootLayout(rootPageId.value) && Contents() == [Entry(key, value)]
      ensures old(Standard()) ==> Standard()
      ensures Spare(old(pool.Pins()), pool.frames, 1) ==> !out.PoolExhausted?
    {
      hide WellFormed, Routes, LeafEntries, Lookup, Entries, Ascending, SoundChain, Nodes.Store, Nodes.Pins;
      hide Tiles, Inserted, Linked, StandardLeaves;
      j := 0;
      if rootPageId.None? {
        EmptyTree(Entry(key, value));
        var ok := CreateRoot(key, value);
        return if ok then Inserts else InsertOutcome.PoolExhausted, 0;
      }
      ghost var store, t := pool.Store(), layout;
      WellFormedRoutes(store, rootPageId.value, t);
      var found := FindLeafPage(key);
      if found.Err? {
        return InsertOutcome.PoolExhausted, 0;
      }
      var p := found.value.value;
      LeafAnswers(store, rootPageId.value, t, p, key);
      j := ChainIndex(t, p);
      ghost var pinned := pool.Pins();
      out := InsertIntoLeaf(p, key, value);
      if out.Inserts? {
        InsertLands(store, rootPageId.value, t, j, pool.Store()[p], Entry(key, value));
        if old(Standard()) {
          StandardKept(store, t.chain, p, pool.Store()[p]);
        }
      }
      if out != ArrayOverflow {
        assert pool.Pins() == old(pool.Pins());
      }
    }

    /** Decides on a pinned leaf, and stores the entry if there is room. */
    method InsertIntoLeaf(p: PageId, key: i32, value: Ctid) returns (out: InsertOutcome)
      requires pool.Valid() && pool.Pins()[p] > 0 && (p in pool.touched ==> pool.Pins()[p] >= 2)
      requires SoundLeaf(pool.Store()[p]) && Ascending(LeafEntries(pool.Store()[p]))
      modifies pool
      ensures pool.Valid() && pool.touched <= old(pool.touched)
      ensures out == Verdict(old(pool.Store())[p], key)
      ensures out != ArrayOverflow ==> pool.Pins() == old(pool.Pins())[p := old(pool.Pins())[p] - 1]
      ensures !out.Inserts? ==> pool.Store() == old(pool.Store())
      ensures out.Inserts? ==>
                var leaf, leaf' := old(pool.Store())[p], pool.Store()[p];
                && pool.Store() == old(pool.Store())[p := leaf'] && SoundLeaf(leaf') && SameLinks(leaf, leaf')
                && LeafEntries(leaf') == Inserted(LeafEntries(leaf), Entry(key, value))
    {
      hide Lookup, Ascending, Nodes.Store, Nodes.Pins, Inserted;
      var leaf := pool.ReadPage(p);
      var at := BinarySearch(leaf.keys, leaf.values, leaf.numKeys, key);
      if at.Some? {
        pool.UnpinPage(p, false);
        return DuplicateKey;
      }
      if leaf.numKeys >= leaf.maxKeys {
        pool.UnpinPage(p, false);
        return SplitUnimplemented;
      }
      if leaf.numKeys == MAX_KEYS {
        return ArrayOverflow;
      }
      StoreEntry(p, leaf, key, value);
      out := Inserts;
    }

    /** Puts the entry in its slot of a pinned leaf with room, and unpins the leaf. */
    method StoreEntry(p: PageId, leaf: Node, key: i32, value: Ctid)
      requires pool.Valid() && pool.Pins()[p] > 0 && leaf == pool.Store()[p]
      requires SoundLeaf(leaf) && leaf.numKeys < MAX_KEYS
      modifies pool
      ensures pool.Valid() && pool.touched <= old(pool.touched)
      ensures pool.Pins() == old(pool.Pins())[p := old(pool.Pins())[p] - 1]
      ensures var leaf' := pool.Store()[p];
              && pool.Store() == old(pool.Store())[p := leaf'] && SoundLeaf(leaf') && SameLinks(leaf, leaf')
              && LeafEntries(leaf') == Inserted(LeafEntries(leaf), Entry(key, value))
    {
      hide Lookup, Ascending, Nodes.Store, Nodes.Pins, Inserted;
      var keys, values := InsertSlot(leaf.keys, leaf.values, leaf.numKeys, key, value);
      var n := leaf.numKeys + 1;
      pool.WritePage(p, WithSlots(leaf, n, keys, values));
      pool.UnpinPage(p, true);
    }

    /** Index of the first slot holding the key, or the number of keys. */
    method FindSlot(leaf: Node, key: i32) returns (at: nat)
      requires SoundLeaf(leaf)
      ensures at <= leaf.numKeys
      ensures at < leaf.numKeys ==> LeafEntries(leaf)[at].key == key
      ensures forall i :: 0 <= i < at ==> LeafEntries(leaf)[i].key != key
      ensures at < leaf.numKeys <==> Lookup(LeafEntries(leaf), key).Some?
    {
      ghost var es := LeafEntries(leaf);
      LookupMeans(es, key);
      at := 0;
      while at < leaf.numKeys && leaf.keys[at] != key
        invariant at <= leaf.numKeys
        invariant forall i :: 0 <= i < at ==> es[i].key != key
      {
        at := at + 1;
      }
      if at < leaf.numKeys {
        assert es[at] in es;
      }
    }

    /** Takes the key out of a pinned leaf; an absent key changes nothing. */
    method RemoveFromLeaf(p: PageId, key: i32) returns (found: bool)
      requires pool.Valid() && pool.Pins()[p] > 0 && SoundLeaf(pool.Store()[p])
      modifies pool
      ensures pool.Valid() && pool.Pins() == old(pool.Pins())
      ensures found <==> Lookup(LeafEntries(old(pool.Store())[p]), key).Some?
      ensures !found ==> pool.Store() == old(pool.Store()) && pool.touched == old(pool.touched)
      ensures found ==>
                var leaf, leaf' := old(pool.Store())[p], pool.Store()[p];
                && pool.touched == old(pool.touched) + {p} && pool.Store() == old(pool.Store())[p := leaf']
                && SoundLeaf(leaf') && SameLinks(leaf, leaf') && leaf'.maxKeys == leaf.maxKeys
                && leaf'.numKeys < MAX_KEYS && LeafEntries(leaf') == Without(LeafEntries(leaf), key)
    {
      hide Lookup, Nodes.Store, Nodes.Pins, Without;
      var leaf := pool.ReadPage(p);
      var at := FindSlot(leaf, key);
      found := at < leaf.numKeys;
      if found {
        var keys, values := RemoveSlot(leaf.keys, leaf.values, leaf.numKeys, at);
        WithoutAt(LeafEntries(leaf), key, at);
        var n := leaf.numKeys - 1;
        pool.WritePage(p, WithSlots(leaf, n, keys, values));
      }
    }

    /** Position of a page among the children, or the first position if it is not there. */
    method FindChild(parent: Node, p: PageId) returns (childIdx: nat)
      requires parent.Internal? && parent.numKeys <= MAX_KEYS
      ensures childIdx <= parent.numKeys
      ensures (exists i :: 0 <= i <= parent.numKeys && parent.children[i] == p) ==> parent.children[childIdx] == p
      ensures childIdx > 0 ==> parent.children[0] != p
    {
      childIdx := 0;
      var i := 0;
      while i <= parent.numKeys
        invariant i <= parent.numKeys + 1 && childIdx == 0
        invariant forall k :: 0 <= k < i ==> parent.children[k] != p
      {
        if parent.children[i] == p {
          return i;
        }
        i := i + 1;
      }
    }

    /** Writes two pinned pages and releases the first. */
    method StorePair(left: PageId, l: Node, p: PageId, r: Node)
      requires pool.Valid() && left != p && pool.Pins()[left] > 0 && pool.Pins()[p] > 0 && p in pool.touched
      modifies pool
      ensures pool.Valid() && pool.Store() == old(pool.Store())[left := l][p := r]
      ensures pool.Pins() == old(pool.Pins())[left := old(pool.Pins())[left] - 1]
      ensures pool.touched == old(pool.touched) - {left}
    {
      hide Nodes.Store, Nodes.Pins;
      pool.WritePage(left, l);
      pool.WritePage(p, r);
      pool.UnpinPage(left, true);
    }

    /** Makes up for an underflow with the left sibling: borrows its last entry if it can spare one, else
        empties the leaf into it. A merge past the last array slot aborts the program. */
    method UseLeftSibling(left: PageId, p: PageId, minKeys: nat) returns (out: DeleteOutcome)
      requires pool.Valid() && left != p && pool.Pins()[p] > 0 && p in pool.touched
      requires SoundLeaf(pool.Store()[left]) && SoundLeaf(pool.Store()[p]) && pool.Store()[p].numKeys < minKeys
      requires pool.Store()[p].numKeys < MAX_KEYS
      modifies pool
      ensures pool.Valid() && (out != MergeOverflow ==> pool.Pins() == old(pool.Pins()))
      ensures pool.touched <= old(pool.touched) && p in pool.touched
      ensures SiblingUsed(old(pool.Store()), left, p, minKeys, out, pool.Store())
      ensures out.Borrows? || out.Merges? || out.MergeOverflow?
              || (out.PoolExhausted? && pool.Store() == old(pool.Store()))
      ensures Spare(old(pool.Pins()), pool.frames, 1) ==> !out.PoolExhausted?
    {
      hide Nodes.Store, Nodes.Pins, Nodes.Valid, LeafEntries, Borrowed;
      var ok := pool.FetchPage(left);
      if !ok {
        return DeleteOutcome.PoolExhausted;
      }
      var ls := pool.ReadPage(left);
      var our := pool.ReadPage(p);
      if ls.numKeys > minKeys {
        var ls', our' := MoveLast(ls, our);
        StorePair(left, ls', p, our');
        out := Borrows;
      } else if ls.numKeys + our.numKeys > MAX_KEYS {
        return MergeOverflow;
      } else {
        var ls', our' := MoveAll(ls, our);
        StorePair(left, ls', p, our');
        out := Merges;
      }
      assert pool.Pins() == old(pool.Pins());
    }

    /** Looks for a left sibling under the leaf's parent and uses it. Without one the underflow stays: the
        right sibling is only pinned and released. A parent that cannot be fetched is ignored. */
    method Rebalance(p: PageId, minKeys: nat, ghost root: PageId, ghost j: nat)
      returns (out: DeleteOutcome, ghost refused: bool)
      requires pool.Valid() && pool.Pins()[p] > 0 && p in pool.touched
      requires Shaped(pool.Store(), root, layout) && j < |layout.chain| && layout.chain[j] == p
      requires pool.Store()[p].Leaf? && pool.Store()[p].parent != INVALID_PAGE_ID
      requires pool.Store()[p].numKeys < minKeys && pool.Store()[p].numKeys < MAX_KEYS
      modifies pool
      ensures pool.Valid() && (out != MergeOverflow ==> pool.Pins() == old(pool.Pins()))
      ensures pool.touched <= old(pool.touched) && p in pool.touched
      ensures out != KeyNotFound
      ensures out.Deletes? || out.PoolExhausted? ==> pool.Store() == old(pool.Store())
      ensures refused ==> old(pool.Pins())[old(pool.Store())[p].parent] == 0
      ensures Spare(old(pool.Pins()), pool.frames, 1) ==> !refused && !out.PoolExhausted?
      ensures if refused || FirstChild(old(pool.Store()), p)
              then (out.Deletes? || (out.PoolExhausted? && !refused)) && pool.Store() == old(pool.Store())
              else 0 < j && SiblingUsed(old(pool.Store()), layout.chain[j - 1], p, minKeys, out, pool.Store())
    {
      hide Shaped, Nodes.Store, Nodes.Pins, SiblingUsed, SoundChain, LeafEntries, SoundLeaf, FirstChild;
      ghost var store := pool.Store();
      FamilyOf(store, root, layout, j);
      var our := pool.ReadPage(p);
      var left, right;
      left, right, refused := FindSiblings(our.parent, p, root, j);
      out := Deletes;
      if left.Some? {
        out := UseLeftSibling(left.value, p, minKeys);
      } else if right.Some? {
        var ok := pool.FetchPage(right.value);
        if !ok {
          return DeleteOutcome.PoolExhausted, refused;
        }
        pool.UnpinPage(right.value, false);
        assert pool.Pins() == old(pool.Pins());
      }
    }

    /** Reads the neighbours of a leaf off its parent; none if the parent cannot be fetched. */
    method FindSiblings(parentId: PageId, p: PageId, ghost root: PageId, ghost j: nat)
      returns (left: Option<PageId>, right: Option<PageId>, ghost refused: bool)
      requires pool.Valid() && Shaped(pool.Store(), root, layout) && j < |layout.chain| && layout.chain[j] == p
      requires pool.Store()[p].Leaf? && pool.Store()[p].parent == parentId != INVALID_PAGE_ID
      modifies pool
      ensures pool.Valid() && pool.Store() == old(pool.Store()) && pool.Pins() == old(pool.Pins())
      ensures pool.touched == old(pool.touched)
      ensures left.Some? ==> 0 < j && left.value == layout.chain[j - 1]
      ensures refused ==> left.None? && right.None? && old(pool.Pins())[parentId] == 0
      ensures !refused ==> (left.None? <==> FirstChild(pool.Store(), p))
      ensures Spare(old(pool.Pins()), pool.frames, 1) ==> !refused
    {
      hide Shaped, SoundLeaf, Total, Spare, Nodes.Store, Nodes.Pins;
      ghost var store := pool.Store();
      FamilyOf(store, root, layout, j);
      left, right := None, None;
      var ok := pool.FetchPage(parentId);
      refused := !ok;
      if ok {
        var parent := pool.ReadPage(parentId);
        var childIdx := FindChild(parent, p);
        if childIdx > 0 {
          SiblingIsNeighbour(store, root, layout, j, parentId, childIdx);
          left := Some(parent.children[childIdx - 1]);
        }
        if childIdx < parent.numKeys {
          right := Some(parent.children[childIdx + 1]);
        }
        pool.UnpinPage(parentId, false);
        assert pool.Pins() == old(pool.Pins());
      }
    }

    /** Descent works, whatever the leaves hold and wherever they link. */
    ghost predicate CanDelete()
      reads this, pool
    {
      pool.Valid() && (rootPageId.Some? ==> Shaped(pool.Store(), rootPageId.value, layout))
    }

    /** What a delete does is decided by the key's leaf and that leaf's left sibling (`Deleted`), as far as the pool
        lets it get: to the leaf, and then to its parent, which nobody holds if it is refused. Pin counts are restored.
        On a tree in order it takes exactly one entry out of the leaf chain and keeps that linked and ascending, whether
        the leaf only shifts, borrows from its left sibling or is merged into it. */
    method Delete(key: i32) returns (out: DeleteOutcome, ghost chain: seq<PageId>, ghost trace: Option<Trace>)
      requires CanDelete()
      modifies pool
      ensures CanDelete()
      ensures trace.None? ==>
                && pool.Store() == old(pool.Store()) && pool.Pins() == old(pool.Pins()) && (old(Valid()) ==> Valid())
                && out == if rootPageId.None? then KeyNotFound else DeleteOutcome.PoolExhausted
      ensures trace.Some? ==>
                && rootPageId.Some?
                && Deleted(old(pool.Store()), layout, key, trace.value, out, pool.Store())
                && (trace.value.refused ==>
                      old(pool.Pins())[old(pool.Store())[layout.chain[trace.value.j]].parent] == 0)
      ensures !out.PoolExhausted? && !out.MergeOverflow? ==>
                pool.Pins() == old(pool.Pins()) && pool.touched <= old(pool.touched)
      ensures Spare(old(pool.Pins()), pool.frames, 2) ==> !out.PoolExhausted? && (trace.Some? ==> !trace.value.refused)
      ensures old(Valid()) && out.KeyNotFound? ==> Valid() && Lookup(old(Contents()), key).None?
      ensures out.KeyNotFound? ==> pool.Store() == old(pool.Store())
      ensures old(Valid()) && (out.Deletes? || out.Borrows? || out.Merges?) ==>
                && Lookup(old(Contents()), key).Some?
                && ChainHolds(pool.Store(), chain, Without(old(Contents()), key))
      ensures out.Deletes? || out.Borrows? ==> chain == layout.chain
      ensures out.Merges? ==>
                && trace.Some? && 0 < trace.value.j < |layout.chain|
                && chain == layout.chain[..trace.value.j] + layout.chain[trace.value.j + 1..]
      ensures old(Valid()) && out.Deletes? ==> Valid()
      ensures old(Valid()) && out.PoolExhausted? ==>
                Valid() && (Contents() == old(Contents()) || Contents() == Without(old(Contents()), key))
    {
      hide WellFormed, Shaped, Deleted, Entries, Lookup, Without, ChainHolds, Spare, Nodes.Store, Nodes.Pins;
      ghost var store, t := pool.Store(), layout;
      EmptyTree(Entry(key, Ctid(INVALID_PAGE_ID, 0)));
      out, trace := TryDelete(key);
      chain := t.chain;
      if trace.Some? {
        ghost var d := trace.value;
        DeletedPlain(store, t, key, d, out, pool.Store());
        if out.Merges? {
          chain := t.chain[..d.j] + t.chain[d.j + 1..];
        }
        if old(Valid()) {
          DeleteKeepsTree(store, rootPageId.value, t, key, d, out, pool.Store());
        }
      }
    }

    method TryDelete(key: i32) returns (out: DeleteOutcome, ghost trace: Option<Trace>)
      requires CanDelete()
      modifies pool
      ensures CanDelete()
      ensures trace.None? ==>
                && pool.Store() == old(pool.Store()) && pool.Pins() == old(pool.Pins())
                && out == if rootPageId.None? then KeyNotFound else DeleteOutcome.PoolExhausted
      ensures trace.Some? ==>
                && rootPageId.Some?
                && Deleted(old(pool.Store()), layout, key, trace.value, out, pool.Store())
                && (trace.value.refused ==>
                      old(pool.Pins())[old(pool.Store())[layout.chain[trace.value.j]].parent] == 0)
      ensures !out.PoolExhausted? && !out.MergeOverflow? ==>
                pool.Pins() == old(pool.Pins()) && pool.touched <= old(pool.touched)
      ensures Spare(old(pool.Pins()), pool.frames, 2) ==> !out.PoolExhausted? && (trace.Some? ==> !trace.value.refused)
    {
      hide Routes, Shaped, Tiles, Spare, Deleted, Nodes.Store, Nodes.Pins;
      trace := None;
      ghost var store := pool.Store();
      if rootPageId.Some? {
        ShapedRoutes(store, rootPageId.value, layout);
      }
      PinTakesSpare(pool.Pins(), pool.frames, 1, INVALID_PAGE_ID);
      var found := FindLeafPage(key);
      if found.Err? {
        return DeleteOutcome.PoolExhausted, None;
      }
      if found.value.None? {
        return KeyNotFound, None;
      }
      var p := found.value.value;
      PinTakesSpare(old(pool.Pins()), pool.frames, 1, p);
      ghost var j := ChainIndex(layout, p);
      ParentIsNotLeaf(store, rootPageId.value, layout, j);
      ghost var d;
      out, d := DeleteFrom(p, key, rootPageId.value, j);
      trace := Some(d);
      DeletedStaysShaped(store, rootPageId.value, layout, key, d, out, pool.Store());
      if !out.PoolExhausted? && !out.MergeOverflow? {
        assert pool.Pins() == old(pool.Pins());
      }
    }

    /** Deletes a key from the pinned leaf whose interval holds it, the `j`-th. */
    method DeleteFrom(p: PageId, key: i32, ghost root: PageId, ghost j: nat)
      returns (out: DeleteOutcome, ghost trace: Trace)
      requires pool.Valid() && Shaped(pool.Store(), root, layout)
      requires j < |layout.chain| && layout.chain[j] == p
      requires p in layout.spans && layout.spans[p].level == 0 && layout.spans[p].Has(key)
      requires pool.Pins()[p] > 0 && (p in pool.touched ==> pool.Pins()[p] >= 2)
      modifies pool
      ensures pool.Valid()
      ensures trace.j == j && Deleted(old(pool.Store()), layout, key, trace, out, pool.Store())
      ensures trace.refused ==> old(pool.Pins())[old(pool.Store())[p].parent] == 0
      ensures Spare(old(pool.Pins()), pool.frames, 1) ==> !trace.refused && !out.PoolExhausted?
      ensures !out.PoolExhausted? && !out.MergeOverflow? ==>
                pool.Pins() == old(pool.Pins())[p := old(pool.Pins())[p] - 1] && pool.touched <= old(pool.touched)
    {
      hide Shaped, Routes, LeafEntries, Lookup, Nodes.Store, Nodes.Pins;
      hide Tiles, Without, SiblingUsed, SoundLeaf, Rebalanced, Deleted;
      ghost var store, t := pool.Store(), layout;
      ParentIsNotLeaf(store, root, t, j);
      var removed := RemoveFromLeaf(p, key);
      if !removed {
        pool.UnpinPage(p, false);
        trace := Trace(j, store, false);
        NothingDeleted(store, t, key, trace);
        return KeyNotFound, trace;
      }
      ghost var mid := pool.Store();
      LeafKeepsShape(store, root, t, j, mid[p]);
      ghost var refused;
      out, refused := FinishDelete(p, root, j);
      trace := Trace(j, mid, refused);
      OneDeleted(store, t, key, trace, out, pool.Store());
    }

    /** Everything a delete does after the entry is gone from its leaf. */
    method FinishDelete(p: PageId, ghost root: PageId, ghost j: nat) returns (out: DeleteOutcome, ghost refused: bool)
      requires pool.Valid() && pool.Pins()[p] > 0 && p in pool.touched
      requires Shaped(pool.Store(), root, layout) && j < |layout.chain| && layout.chain[j] == p
      requires pool.Store()[p].Leaf? && pool.Store()[p].numKeys < MAX_KEYS
      modifies pool
      ensures pool.Valid() && pool.touched <= old(pool.touched)
      ensures refused ==> old(pool.Pins())[old(pool.Store())[p].parent] == 0
      ensures Spare(old(pool.Pins()), pool.frames, 1) ==> !refused && !out.PoolExhausted?
      ensures Rebalanced(old(pool.Store()), layout, j, refused, out, pool.Store()) && !out.KeyNotFound?
      ensures !out.PoolExhausted? && !out.MergeOverflow? ==>
                pool.Pins() == old(pool.Pins())[p := old(pool.Pins())[p] - 1] && p !in pool.touched
    {
      hide Shaped, Routes, LeafEntries, Nodes.Store, Nodes.Pins, Tiles, SiblingUsed, FirstChild;
      ghost var store := pool.Store();
      refused := false;
      var leaf := pool.ReadPage(p);
      out := Deletes;
      if leaf.numKeys < leaf.maxKeys / 2 && leaf.parent != INVALID_PAGE_ID {
        out, refused := Rebalance(p, leaf.maxKeys / 2, root, j);
        RebalancedPlain(store, layout, j, refused, out, pool.Store());
        if out.PoolExhausted? || out.MergeOverflow? {
          return;
        }
      }
      pool.UnpinPage(p, true);
    }
  }

  // ----- What a delete decides -----

  /** How a delete that reaches a leaf (the `j`-th) goes on: the pages once the entry is out of that leaf, and whether
      the pool then refused the leaf's parent. */
  datatype Trace = Trace(j: nat, mid: Store, refused: bool)

  /** The parent lists the leaf first: there is no left sibling. */
  ghost predicate FirstChild(store: Store, p: PageId)
    requires Total(store) && store[p].Leaf?
  {
    store[store[p].parent].Internal? && store[store[p].parent].children[0] == p
  }

  /** An underflow in a leaf with a parent is made up for with the left sibling. Without an underflow, without such a
      sibling or without the parent the leaf stays as it is; looking at the right sibling may still fail. */
  ghost predicate Rebalanced(mid: Store, t: Layout, j: nat, refused: bool, out: DeleteOutcome, store': Store)
    requires Total(mid) && j < |t.chain| && mid[t.chain[j]].Leaf?
  {
    var p := t.chain[j];
    var leaf := mid[p];
    if leaf.numKeys >= leaf.maxKeys / 2 || leaf.parent == INVALID_PAGE_ID then out.Deletes? && !refused && store' == mid
    else if refused then out.Deletes? && store' == mid
    else if FirstChild(mid, p) then (out.Deletes? || out.PoolExhausted?) && store' == mid
    else
      0 < j && SiblingUsed(mid, t.chain[j - 1], p, leaf.maxKeys / 2, out, store')
  }

  lemma RebalancedPlain(mid: Store, t: Layout, j: nat, refused: bool, out: DeleteOutcome, store': Store)
    requires Total(mid) && j < |t.chain| && mid[t.chain[j]].Leaf? && Rebalanced(mid, t, j, refused, out, store')
    ensures !out.KeyNotFound? && (out.Deletes? || out.PoolExhausted? ==> store' == mid)
    ensures out.Borrows? || out.Merges? ==>
              0 < j && SiblingUsed(mid, t.chain[j - 1], t.chain[j], mid[t.chain[j]].maxKeys / 2, out, store')
  {
    hide Borrowed, LeafEntries, SoundLeaf;
  }

  /** What a delete does to the pages once it has reached the key's leaf. */
  ghost predicate Deleted(store: Store, t: Layout, key: i32, d: Trace, out: DeleteOutcome, store': Store) {
    && Total(store) && d.j < |t.chain|
    && var p := t.chain[d.j];
    && p in t.spans && t.spans[p].Has(key) && SoundLeaf(store[p])
    && if Lookup(LeafEntries(store[p]), key).None? then out.KeyNotFound? && store' == store
       else
         && Total(d.mid) && d.mid == store[p := d.mid[p]]
         && SoundLeaf(d.mid[p]) && SameLinks(store[p], d.mid[p])
         && LeafEntries(d.mid[p]) == Without(LeafEntries(store[p]), key)
         && Rebalanced(d.mid, t, d.j, d.refused, out, store')
  }

  lemma NothingDeleted(store: Store, t: Layout, key: i32, d: Trace)
    requires Total(store) && d.j < |t.chain| && t.chain[d.j] in t.spans && t.spans[t.chain[d.j]].Has(key)
    requires SoundLeaf(store[t.chain[d.j]]) && Lookup(LeafEntries(store[t.chain[d.j]]), key).None?
    ensures Deleted(store, t, key, d, KeyNotFound, store)
  {
  }

  lemma OneDeleted(store: Store, t: Layout, key: i32, d: Trace, out: DeleteOutcome, store': Store)
    requires Total(store) && d.j < |t.chain| && t.chain[d.j] in t.spans && t.spans[t.chain[d.j]].Has(key)
    requires SoundLeaf(store[t.chain[d.j]]) && Lookup(LeafEntries(store[t.chain[d.j]]), key).Some?
    requires Total(d.mid) && d.mid == store[t.chain[d.j] := d.mid[t.chain[d.j]]] && SoundLeaf(d.mid[t.chain[d.j]])
    requires SameLinks(store[t.chain[d.j]], d.mid[t.chain[d.j]])
    requires LeafEntries(d.mid[t.chain[d.j]]) == Without(LeafEntries(store[t.chain[d.j]]), key)
    requires Rebalanced(d.mid, t, d.j, d.refused, out, store')
    ensures Deleted(store, t, key, d, out, store')
  {
    hide Rebalanced, LeafEntries, Lookup, Without, SoundLeaf, SameLinks;
  }

  lemma ParentIsNotLeaf(store: Store, root: PageId, t: Layout, j: nat)
    requires Shaped(store, root, t) && j < |t.chain|
    ensures Total(store) && SoundLeaf(store[t.chain[j]]) && store[t.chain[j]].parent != t.chain[j]
  {
    assert ParentOk(store, root, t, t.chain[j]);
  }

  lemma DeletedPlain(store: Store, t: Layout, key: i32, d: Trace, out: DeleteOutcome, store': Store)
    requires Deleted(store, t, key, d, out, store')
    ensures Total(store) && d.j < |t.chain| && SoundLeaf(store[t.chain[d.j]])
    ensures out.KeyNotFound? ==> store' == store && Lookup(LeafEntries(store[t.chain[d.j]]), key).None?
    ensures !out.KeyNotFound? ==>
              && var p := t.chain[d.j];
              && Lookup(LeafEntries(store[p]), key).Some?
              && Total(d.mid) && d.mid == store[p := d.mid[p]] && SoundLeaf(d.mid[p]) && SameLinks(store[p], d.mid[p])
              && LeafEntries(d.mid[p]) == Without(LeafEntries(store[p]), key)
              && Rebalanced(d.mid, t, d.j, d.refused, out, store')
    ensures out.Deletes? || out.PoolExhausted? ==> store' == d.mid
    ensures out.Borrows? || out.Merges? ==> 0 < d.j
  {
    hide Lookup, LeafEntries, Without, SoundLeaf, SiblingUsed;
    if Lookup(LeafEntries(store[t.chain[d.j]]), key).Some? {
      RebalancedPlain(d.mid, t, d.j, d.refused, out, store');
    }
  }

  lemma ShapedRoutes(store: Store, root: PageId, t: Layout)
    requires Shaped(store, root, t)
    ensures Routes(store, root, t) && Tiles(t)
  {
  }

  lemma WellFormedIsShaped(store: Store, root: PageId, t: Layout)
    requires WellFormed(store, root, t)
    ensures Shaped(store, root, t)
  {
  }

  /** A leaf may come to hold anything and link anywhere; its parent stays. */
  lemma LeafKeepsShape(store: Store, root: PageId, t: Layout, j: nat, n: Node)
    requires Shaped(store, root, t) && j < |t.chain| && SoundLeaf(n) && n.parent == store[t.chain[j]].parent
    ensures Shaped(store[t.chain[j] := n], root, t)
  {
    hide Routes, ParentOk, SoundLeaf;
    ShapedParts(store, root, t);
    RoutesKept(store, root, t, t.chain[j], n);
    NodeKind(store, root, t, t.chain[j]);
    LeavesAreLeaves(store, root, t);
    SoundIsLeaf(n);
    ParentsKept(store, root, t, j, n);
  }

  lemma ShapedParts(store: Store, root: PageId, t: Layout)
    requires Shaped(store, root, t)
    ensures Total(store) && Routes(store, root, t) && Tiles(t)
    ensures forall i :: 0 <= i < |t.chain| ==> store[t.chain[i]].Leaf? && ParentOk(store, root, t, t.chain[i])
  {
    hide ParentOk;
  }

  lemma LeavesAreLeaves(store: Store, root: PageId, t: Layout)
    requires Routes(store, root, t) && Tiles(t)
    ensures Total(store) && forall i :: 0 <= i < |t.chain| ==> store[t.chain[i]].Leaf?
  {
  }

  lemma SoundIsLeaf(n: Node)
    requires SoundLeaf(n)
    ensures n.Leaf?
  {
  }

  /** Whatever a delete comes to, descent works afterwards. */
  lemma DeletedStaysShaped(store: Store, root: PageId, t: Layout, key: i32, d: Trace, out: DeleteOutcome, store': Store)
    requires Shaped(store, root, t) && Deleted(store, t, key, d, out, store')
    ensures Shaped(store', root, t)
  {
    hide Shaped, Lookup, LeafEntries, Without, SoundLeaf, SiblingUsed;
    if Lookup(LeafEntries(store[t.chain[d.j]]), key).Some? {
      LeafKeepsShape(store, root, t, d.j, d.mid[t.chain[d.j]]);
      if store' != d.mid {
        SiblingKeepsShape(d.mid, root, t, d.j, d.mid[t.chain[d.j]].maxKeys / 2, out, store');
      }
    }
  }

  lemma SiblingKeepsShape(store: Store, root: PageId, t: Layout, j: nat, minKeys: nat, out: DeleteOutcome,
                          store': Store)
    requires Shaped(store, root, t) && 0 < j < |t.chain|
    requires SiblingUsed(store, t.chain[j - 1], t.chain[j], minKeys, out, store')
    ensures Shaped(store', root, t)
  {
    hide Shaped, LeafEntries, SoundLeaf, Borrowed;
    var l', r' := store'[t.chain[j - 1]], store'[t.chain[j]];
    if out.Borrows? || out.Merges? {
      ChainOrderedPages(store, root, t, j);
      LeafKeepsShape(store, root, t, j - 1, l');
      LeafKeepsShape(store[t.chain[j - 1] := l'], root, t, j, r');
    }
  }

  lemma ChainOrderedPages(store: Store, root: PageId, t: Layout, j: nat)
    requires Shaped(store, root, t) && 0 < j < |t.chain|
    ensures t.chain[j - 1] != t.chain[j]
  {
    assert t.spans[t.chain[j - 1]].lo < t.spans[t.chain[j - 1]].hi == t.spans[t.chain[j]].lo;
    hide Routes, ParentOk;
  }

  /** A chain of linked leaves whose entries, in order, are the given ascending list. */
  ghost predicate ChainHolds(store: Store, chain: seq<PageId>, es: seq<Entry>) {
    Linked(store, chain) && Entries(store, chain) == es && Ascending(es)
  }

  lemma WellFormedHolds(store: Store, root: PageId, t: Layout, es: seq<Entry>)
    requires WellFormed(store, root, t) && Entries(store, t.chain) == es && Ascending(es)
    ensures ChainHolds(store, t.chain, es)
  {
  }

  /** The parent of a leaf that names one is an internal node just above the leaves that lists it. */
  lemma FamilyOf(store: Store, root: PageId, t: Layout, j: nat)
    requires Shaped(store, root, t) && j < |t.chain| && store[t.chain[j]].parent != INVALID_PAGE_ID
    ensures var p := t.chain[j];
            var q := store[p].parent;
            && SoundLeaf(store[p]) && q in t.spans && t.spans[q].level == 1
            && store[q].Internal? && store[q].numKeys <= MAX_KEYS
            && (exists i :: 0 <= i <= store[q].numKeys && store[q].children[i] == p)
            && (0 < j ==> SoundLeaf(store[t.chain[j - 1]]) && t.chain[j - 1] != p)
  {
    assert ParentOk(store, root, t, t.chain[j]);
    if 0 < j {
      ChainOrderedPages(store, root, t, j);
    }
  }

  lemma WithoutIsAscending(store: Store, t: Layout, key: int)
    requires LeavesWithin(store, t) && Lookup(Entries(store, t.chain), key).Some?
    ensures Ascending(Without(Entries(store, t.chain), key))
  {
    TreeIsAscending(store, t);
    LookupMeans(Entries(store, t.chain), key);
    WithoutMembers(Entries(store, t.chain), key);
  }

  /** Borrowing and merging keep the chain's list. */
  lemma SiblingKeepsChain(store: Store, chain: seq<PageId>, j: nat, minKeys: nat, out: DeleteOutcome, store': Store,
                          es: seq<Entry>)
    requires ChainHolds(store, chain, es) && 0 < j < |chain| && (out.Borrows? || out.Merges?)
    requires SiblingUsed(store, chain[j - 1], chain[j], minKeys, out, store')
    ensures var chain' := if out.Merges? then chain[..j] + chain[j + 1..] else chain;
            ChainHolds(store', chain', es)
  {
    var l, r, l', r' := store[chain[j - 1]], store[chain[j]], store'[chain[j - 1]], store'[chain[j]];
    if out.Borrows? {
      var ls := LeafEntries(l);
      assert ls == ls[..l.numKeys - 1] + [ls[l.numKeys - 1]];
      assert LeafEntries(l') + LeafEntries(r') == ls + LeafEntries(r);
      BorrowKeepsChain(store, chain, j, l', r');
    } else {
      MergeKeepsChain(store, chain, j, l', r');
    }
  }

  /** What using the left sibling does to the two pages: borrowing exactly when it has entries to spare,
      an abort exactly when the entries of a merge exceed the array, otherwise a merge. */
  ghost predicate SiblingUsed(store: Store, left: PageId, p: PageId, minKeys: nat, out: DeleteOutcome, store': Store)
  {
    && Total(store) && Total(store') && SoundLeaf(store[left]) && SoundLeaf(store[p])
    && var l, r, l', r' := store[left], store[p], store'[left], store'[p];
    && match out
       case PoolExhausted => store' == store
       case MergeOverflow => store' == store && l.numKeys <= minKeys && l.numKeys + r.numKeys > MAX_KEYS
       case Borrows =>
         && store' == store[left := l'][p := r'] && l.numKeys > minKeys && SoundLeaf(l') && SoundLeaf(r')
         && SameLinks(l, l') && SameLinks(r, r') && Borrowed(l, r, l', r')
       case Merges =>
         && store' == store[left := l'][p := r'] && l.numKeys <= minKeys && SoundLeaf(l') && SoundLeaf(r')
         && l'.next == r.next && l'.parent == l.parent && l'.maxKeys == l.maxKeys && SameLinks(r, r')
         && LeafEntries(l') == LeafEntries(l) + LeafEntries(r) && r'.numKeys == 0
       case _ => false
  }

  /** The last entry of the left leaf has become the first of the right one. */
  ghost predicate Borrowed(l: Node, r: Node, l': Node, r': Node)
    requires SoundLeaf(l) && SoundLeaf(r) && SoundLeaf(l') && SoundLeaf(r')
  {
    && l.numKeys > 0
    && LeafEntries(l') == LeafEntries(l)[..l.numKeys - 1]
    && LeafEntries(r') == [LeafEntries(l)[l.numKeys - 1]] + LeafEntries(r)
  }

  /** On a tree in order a delete takes exactly one entry out of the chain, or reports that the key is not there. */
  lemma DeleteKeepsTree(store: Store, root: PageId, t: Layout, key: i32, d: Trace, out: DeleteOutcome, store': Store)
    requires WellFormed(store, root, t) && Deleted(store, t, key, d, out, store')
    ensures var es := Entries(store, t.chain);
            && (out.KeyNotFound? <==> Lookup(es, key).None?)
            && (out.KeyNotFound? ==> store' == store)
            && (out.Deletes? || out.PoolExhausted? ==>
                  WellFormed(store', root, t) && Entries(store', t.chain) == Without(es, key))
            && (out.Deletes? || out.Borrows? ==> ChainHolds(store', t.chain, Without(es, key)))
            && (out.Merges? ==>
                  0 < d.j && ChainHolds(store', t.chain[..d.j] + t.chain[d.j + 1..], Without(es, key)))
  {
    hide WellFormed, Deleted, Lookup, LeafEntries, Entries, Without, ChainHolds, Rebalanced, SiblingUsed, SoundChain;
    DeletedPlain(store, t, key, d, out, store');
    KeyIsInTree(store, root, t, key, d, out, store');
    if !out.KeyNotFound? {
      TakenFromTree(store, root, t, key, d, out, store');
      RebalancedPlain(d.mid, t, d.j, d.refused, out, store');
      if out.Borrows? || out.Merges? {
        SiblingKeepsChain(d.mid, t.chain, d.j, d.mid[t.chain[d.j]].maxKeys / 2, out, store',
                          Without(Entries(store, t.chain), key));
      }
    }
  }

  lemma KeyIsInTree(store: Store, root: PageId, t: Layout, key: i32, d: Trace, out: DeleteOutcome, store': Store)
    requires WellFormed(store, root, t) && Deleted(store, t, key, d, out, store')
    ensures out.KeyNotFound? <==> Lookup(Entries(store, t.chain), key).None?
  {
    DeletedPlain(store, t, key, d, out, store');
    WellFormedRoutes(store, root, t);
    LookupInLeaf(store, t, d.j, key);
    hide Lookup, LeafEntries, Entries, WellFormed, Rebalanced;
  }

  lemma TakenFromTree(store: Store, root: PageId, t: Layout, key: i32, d: Trace, out: DeleteOutcome, store': Store)
    requires WellFormed(store, root, t) && Deleted(store, t, key, d, out, store') && !out.KeyNotFound?
    ensures Total(d.mid) && SoundChain(store, t.chain) && WellFormed(d.mid, root, t)
    ensures ChainHolds(d.mid, t.chain, Without(Entries(store, t.chain), key))
    ensures Entries(d.mid, t.chain) == Without(Entries(store, t.chain), key)
  {
    DeletedPlain(store, t, key, d, out, store');
    KeyIsInTree(store, root, t, key, d, out, store');
    WellFormedRoutes(store, root, t);
    hide WellFormed, LeafEntries, Lookup, SoundChain, Entries, Without, Tiles, Routes, LeavesWithin, ChainHolds;
    hide Rebalanced;
    DeleteLands(store, root, t, d.j, d.mid[t.chain[d.j]], key);
    WithoutIsAscending(store, t, key);
    WellFormedHolds(d.mid, root, t, Without(Entries(store, t.chain), key));
  }

  // ----- What the missing separator updates and the array bound cost -----

  /** The leaf that descent reaches for a key, the `i`-th, answers as the list does. */
  ghost predicate AnswersAs(store: Store, t: Layout, i: nat, key: int, es: seq<Entry>) {
    && Total(store) && i < |t.chain| && SoundLeaf(store[t.chain[i]])
    && Lookup(LeafEntries(store[t.chain[i]]), key) == Lookup(es, key)
  }

  ghost predicate IsLast(store: Store, p: PageId, key: int) {
    && Total(store) && SoundLeaf(store[p]) && LeafEntries(store[p]) != []
    && key == LeafEntries(store[p])[|LeafEntries(store[p])| - 1].key
  }

  /** Without a parent update, descent still goes where the separators point. After a borrow it therefore
      misses exactly the borrowed key, although the chain holds it. */
  lemma BorrowHidesOneKey(store: Store, root: PageId, t: Layout, j: nat, minKeys: nat, store': Store, i: nat, key: i32)
    requires WellFormed(store, root, t) && 0 < j < |t.chain|
    requires SiblingUsed(store, t.chain[j - 1], t.chain[j], minKeys, Borrows, store')
    requires i < |t.chain| && t.spans[t.chain[i]].Has(key)
    ensures AnswersAs(store', t, i, key, Entries(store, t.chain)) <==> !IsLast(store, t.chain[j - 1], key)
  {
    hide *;
    LeafAnswersAs(store, root, t, i, key);
    LeftPairIsSound(store, root, t, j);
    BorrowedLookups(store, t.chain[j - 1], t.chain[j], minKeys, store', key);
    if i != j - 1 {
      KeyIsElsewhere(store, root, t, j - 1, i, key);
    }
    ChainIsDistinct(store, root, t, i, j);
    BorrowCases(store, store', t, i, j, key, Entries(store, t.chain));
  }

  lemma BorrowCases(store: Store, store': Store, t: Layout, i: nat, j: nat, key: i32, es: seq<Entry>)
    requires Total(store) && i < |t.chain| && 0 < j < |t.chain| && AnswersAs(store, t, i, key, es)
    requires (t.chain[i] == t.chain[j] <==> i == j) && (t.chain[i] == t.chain[j - 1] <==> i == j - 1)
    requires SoundLeaf(store[t.chain[j - 1]]) && SoundLeaf(store[t.chain[j]])
    requires Total(store') && SoundLeaf(store'[t.chain[j - 1]]) && SoundLeaf(store'[t.chain[j]])
    requires forall x: PageId :: x != t.chain[j - 1] && x != t.chain[j] ==> store'[x] == store[x]
    requires var p, q := t.chain[j - 1], t.chain[j];
             && (IsLast(store, p, key) ==>
                   Lookup(LeafEntries(store'[p]), key).None? && Lookup(LeafEntries(store[p]), key).Some?)
             && (!IsLast(store, p, key) ==>
                   && Lookup(LeafEntries(store'[p]), key) == Lookup(LeafEntries(store[p]), key)
                   && Lookup(LeafEntries(store'[q]), key) == Lookup(LeafEntries(store[q]), key))
    requires i != j - 1 ==> !IsLast(store, t.chain[j - 1], key)
    ensures AnswersAs(store', t, i, key, es) <==> !IsLast(store, t.chain[j - 1], key)
  {
    hide Lookup, LeafEntries, SoundLeaf, IsLast;
  }

  lemma ChainIsDistinct(store: Store, root: PageId, t: Layout, i: nat, j: nat)
    requires WellFormed(store, root, t) && i < |t.chain| && 0 < j < |t.chain|
    ensures (t.chain[i] == t.chain[j] <==> i == j) && (t.chain[i] == t.chain[j - 1] <==> i == j - 1)
  {
  }

  lemma LeafAnswersAs(store: Store, root: PageId, t: Layout, i: nat, key: i32)
    requires WellFormed(store, root, t) && i < |t.chain| && t.spans[t.chain[i]].Has(key)
    ensures AnswersAs(store, t, i, key, Entries(store, t.chain))
  {
    WellFormedRoutes(store, root, t);
    LookupInLeaf(store, t, i, key);
    hide Lookup, LeafEntries, Entries, WellFormed, Tiles;
  }

  /** A key that belongs to one leaf is not in another. */
  lemma KeyIsElsewhere(store: Store, root: PageId, t: Layout, j: nat, i: nat, key: i32)
    requires WellFormed(store, root, t) && i < |t.chain| && j < |t.chain| && i != j && t.spans[t.chain[i]].Has(key)
    ensures SoundLeaf(store[t.chain[j]]) && Lookup(LeafEntries(store[t.chain[j]]), key).None?
    ensures !IsLast(store, t.chain[j], key)
  {
    assert LeafWithin(store[t.chain[j]], t.spans[t.chain[j]]);
    ChainSpansDiffer(t, i, j, key);
    hide WellFormed, Routes, Tiles;
    KeyOutside(store[t.chain[j]], t.spans[t.chain[j]], key);
  }

  lemma BorrowedLookups(store: Store, p: PageId, q: PageId, minKeys: nat, store': Store, key: int)
    requires SiblingUsed(store, p, q, minKeys, Borrows, store') && p != q && Ascending(LeafEntries(store[p]))
    ensures SoundLeaf(store'[p]) && SoundLeaf(store'[q])
    ensures Total(store') && forall x: PageId :: x != p && x != q ==> store'[x] == store[x]
    ensures IsLast(store, p, key) ==>
              Lookup(LeafEntries(store'[p]), key).None? && Lookup(LeafEntries(store[p]), key).Some?
    ensures !IsLast(store, p, key) ==>
              && Lookup(LeafEntries(store'[p]), key) == Lookup(LeafEntries(store[p]), key)
              && Lookup(LeafEntries(store'[q]), key) == Lookup(LeafEntries(store[q]), key)
  {
    var left := LeafEntries(store[p]);
    LeafSize(store[p]);
    LookupWithoutLast(left, key);
    LookupConcat([left[|left| - 1]], LeafEntries(store[q]), key);
    hide LeafEntries, Lookup, Ascending;
  }

  lemma LeftPairIsSound(store: Store, root: PageId, t: Layout, j: nat)
    requires WellFormed(store, root, t) && 0 < j < |t.chain|
    ensures Total(store) && SoundChain(store, t.chain) && t.chain[j - 1] != t.chain[j]
    ensures SoundLeaf(store[t.chain[j - 1]]) && Ascending(LeafEntries(store[t.chain[j - 1]]))
    ensures SoundLeaf(store[t.chain[j]])
  {
    assert LeafWithin(store[t.chain[j - 1]], t.spans[t.chain[j - 1]]);
  }

  /** Two neighbouring leaves keep to their disjoint intervals, and descent ignores what they hold. */
  lemma PairFacts(store: Store, root: PageId, t: Layout, j: nat, l': Node, r': Node)
    requires WellFormed(store, root, t) && 0 < j < |t.chain| && SoundLeaf(l') && SoundLeaf(r')
    ensures var p, q := t.chain[j - 1], t.chain[j];
            && LeavesWithin(store, t) && Tiles(t) && p != q
            && Routes(store[p := l'][q := r'], root, t)
            && LeafWithin(store[p], t.spans[p]) && LeafWithin(store[q], t.spans[q])
            && t.spans[p].hi == t.spans[q].lo
  {
    var p, q := t.chain[j - 1], t.chain[j];
    RoutesKept(store, root, t, p, l');
    RoutesKept(store[p := l'], root, t, q, r');
    assert LeafWithin(store[p], t.spans[p]) && LeafWithin(store[q], t.spans[q]);
  }

  lemma LookupWithoutLast(es: seq<Entry>, key: int)
    requires Ascending(es) && es != []
    ensures var last := es[|es| - 1];
            && Lookup(es[..|es| - 1], key) == (if key == last.key then None else Lookup(es, key))
            && Lookup([last], key) == (if key == last.key then Some(last.value) else None)
            && Lookup(es, last.key) == Some(last.value)
  {
    var n := |es| - 1;
    assert es == es[..n] + [es[n]];
    LookupConcat(es[..n], [es[n]], key);
    LookupMeans(es[..n], key);
    LookupAscending(es, es[n]);
  }

  /** After a merge it misses exactly the keys that moved. */
  lemma MergeHidesMovedKeys(store: Store, root: PageId, t: Layout, j: nat, minKeys: nat, store': Store, i: nat,
                            key: i32)
    requires WellFormed(store, root, t) && 0 < j < |t.chain|
    requires SiblingUsed(store, t.chain[j - 1], t.chain[j], minKeys, Merges, store')
    requires i < |t.chain| && t.spans[t.chain[i]].Has(key)
    ensures AnswersAs(store', t, i, key, Entries(store, t.chain))
            <==> Lookup(LeafEntries(store[t.chain[j]]), key).None?
  {
    hide *;
    LeafAnswersAs(store, root, t, i, key);
    LeftPairIsSound(store, root, t, j);
    MergedLookups(store, t.chain[j - 1], t.chain[j], minKeys, store', key);
    if i != j {
      KeyIsElsewhere(store, root, t, j, i, key);
    }
    ChainIsDistinct(store, root, t, i, j);
    MergeCases(store, store', t, i, j, key, Entries(store, t.chain));
  }

  lemma MergeCases(store: Store, store': Store, t: Layout, i: nat, j: nat, key: i32, es: seq<Entry>)
    requires Total(store) && i < |t.chain| && 0 < j < |t.chain| && AnswersAs(store, t, i, key, es)
    requires (t.chain[i] == t.chain[j] <==> i == j) && (t.chain[i] == t.chain[j - 1] <==> i == j - 1)
    requires SoundLeaf(store[t.chain[j - 1]]) && SoundLeaf(store[t.chain[j]])
    requires Total(store') && SoundLeaf(store'[t.chain[j - 1]]) && SoundLeaf(store'[t.chain[j]])
    requires forall x: PageId :: x != t.chain[j - 1] && x != t.chain[j] ==> store'[x] == store[x]
    requires Lookup(LeafEntries(store'[t.chain[j]]), key).None?
    requires Lookup(LeafEntries(store[t.chain[j]]), key).None? ==>
               Lookup(LeafEntries(store'[t.chain[j - 1]]), key) == Lookup(LeafEntries(store[t.chain[j - 1]]), key)
    requires i != j ==> Lookup(LeafEntries(store[t.chain[j]]), key).None?
    ensures AnswersAs(store', t, i, key, es) <==> Lookup(LeafEntries(store[t.chain[j]]), key).None?
  {
    hide Lookup, LeafEntries, SoundLeaf;
  }

  /** Only the leaf that a key belongs to has it in its interval. */
  lemma ChainSpansDiffer(t: Layout, i: nat, j: nat, key: int)
    requires Tiles(t) && i < |t.chain| && j < |t.chain| && i != j && t.spans[t.chain[i]].Has(key)
    ensures !t.spans[t.chain[j]].Has(key) && t.chain[i] != t.chain[j]
  {
    if t.spans[t.chain[j]].Has(key) {
      LeafIsUnique(t, i, j, key);
    }
  }

  lemma KeyOutside(leaf: Node, s: Span, key: int)
    requires LeafWithin(leaf, s) && !s.Has(key)
    ensures Lookup(LeafEntries(leaf), key).None?
  {
    LookupMeans(LeafEntries(leaf), key);
  }

  lemma MergedLookups(store: Store, p: PageId, q: PageId, minKeys: nat, store': Store, key: int)
    requires SiblingUsed(store, p, q, minKeys, Merges, store') && p != q
    ensures SoundLeaf(store'[p]) && SoundLeaf(store'[q])
    ensures Total(store') && forall x: PageId :: x != p && x != q ==> store'[x] == store[x]
    ensures Lookup(LeafEntries(store'[q]), key).None?
    ensures Lookup(LeafEntries(store[q]), key).None? ==>
              Lookup(LeafEntries(store'[p]), key) == Lookup(LeafEntries(store[p]), key)
  {
    LookupConcat(LeafEntries(store[p]), LeafEntries(store[q]), key);
    assert LeafEntries(store'[q]) == [];
  }

  /** Borrowing and merging leave leaves that can be searched. */
  lemma SiblingSearchable(store: Store, root: PageId, t: Layout, j: nat, minKeys: nat, out: DeleteOutcome,
                          store': Store)
    requires WellFormed(store, root, t) && 0 < j < |t.chain| && (out.Borrows? || out.Merges?)
    requires SiblingUsed(store, t.chain[j - 1], t.chain[j], minKeys, out, store')
    ensures Searchable(store', root, t)
  {
    var p, q := t.chain[j - 1], t.chain[j];
    LeftPairIsSound(store, root, t, j);
    PairOfStore(store, p, q, minKeys, out, store');
    hide *;
    PairFacts(store, root, t, j, store'[p], store'[q]);
    LeavesAscend(store, t, j);
    SiblingAscends(store, p, q, minKeys, out, store');
    PairSearchable(store, root, t, j, store'[p], store'[q]);
  }

  lemma PairOfStore(store: Store, p: PageId, q: PageId, minKeys: nat, out: DeleteOutcome, store': Store)
    requires SiblingUsed(store, p, q, minKeys, out, store') && (out.Borrows? || out.Merges?)
    ensures store' == store[p := store'[p]][q := store'[q]] && SoundLeaf(store'[p]) && SoundLeaf(store'[q])
  {
  }

  lemma LeavesAscend(store: Store, t: Layout, j: nat)
    requires LeavesWithin(store, t) && 0 < j < |t.chain|
    ensures SoundLeaf(store[t.chain[j - 1]]) && SoundLeaf(store[t.chain[j]])
    ensures var a, b := LeafEntries(store[t.chain[j - 1]]), LeafEntries(store[t.chain[j]]);
            && Ascending(a + b)
            && (a != [] ==> Ascending(a[..|a| - 1]) && Ascending([a[|a| - 1]] + b))
  {
    assert LeafWithin(store[t.chain[j - 1]], t.spans[t.chain[j - 1]]);
    assert LeafWithin(store[t.chain[j]], t.spans[t.chain[j]]);
    hide Ascending, LeafEntries;
    PairAscends(LeafEntries(store[t.chain[j - 1]]), LeafEntries(store[t.chain[j]]), t.spans[t.chain[j]].lo);
  }

  lemma PairSearchable(store: Store, root: PageId, t: Layout, j: nat, l': Node, r': Node)
    requires WellFormed(store, root, t) && 0 < j < |t.chain| && SoundLeaf(l') && SoundLeaf(r')
    requires Ascending(LeafEntries(l')) && Ascending(LeafEntries(r'))
    requires Routes(store[t.chain[j - 1] := l'][t.chain[j] := r'], root, t)
    ensures Searchable(store[t.chain[j - 1] := l'][t.chain[j] := r'], root, t)
  {
    WellFormedIsSearchable(store, root, t);
    hide WellFormed, Routes, Tiles, LeafEntries, Ascending, SoundLeaf;
  }

  lemma SiblingAscends(store: Store, p: PageId, q: PageId, minKeys: nat, out: DeleteOutcome, store': Store)
    requires SiblingUsed(store, p, q, minKeys, out, store') && (out.Borrows? || out.Merges?)
    requires var a, b := LeafEntries(store[p]), LeafEntries(store[q]);
             && Ascending(a + b)
             && (a != [] ==> Ascending(a[..|a| - 1]) && Ascending([a[|a| - 1]] + b))
    ensures SoundLeaf(store'[p]) && SoundLeaf(store'[q])
    ensures Ascending(LeafEntries(store'[p])) && Ascending(LeafEntries(store'[q]))
  {
    if out.Merges? {
      NoEntries(store'[q]);
    }
    LeafSize(store[p]);
    hide Ascending, LeafEntries;
  }

  lemma LeafSize(n: Node)
    requires SoundLeaf(n)
    ensures |LeafEntries(n)| == n.numKeys
  {
  }

  lemma NoEntries(n: Node)
    requires SoundLeaf(n) && n.numKeys == 0
    ensures LeafEntries(n) == [] && Ascending(LeafEntries(n))
  {
  }

  lemma PairAscends(a: seq<Entry>, b: seq<Entry>, bound: int)
    requires Ascending(a) && Ascending(b)
    requires (forall e :: e in a ==> e.key < bound) && (forall e :: e in b ==> bound <= e.key)
    ensures Ascending(a + b)
    ensures a != [] ==> Ascending(a[..|a| - 1]) && Ascending([a[|a| - 1]] + b)
  {
    AscendingConcat(a, b, bound);
    if a != [] {
      var last := [a[|a| - 1]];
      assert last[0] in a && Ascending(last);
      AscendingConcat(last, b, bound);
    }
  }

  /** A key that descent no longer finds where the chain has it: the borrowed one, or those moved by a merge. */
  ghost predicate HiddenBy(t: Layout, d: Trace, out: DeleteOutcome, key: int)
    requires Total(d.mid) && d.j < |t.chain| && SoundLeaf(d.mid[t.chain[d.j]])
  {
    match out
    case Borrows => 0 < d.j && IsLast(d.mid, t.chain[d.j - 1], key)
    case Merges => Lookup(LeafEntries(d.mid[t.chain[d.j]]), key).Some?
    case _ => false
  }

  /** After a delete descent still ends at a leaf that can be searched, and the answer there is that of the chain if
      and only if the key is neither the borrowed one nor one that a merge moved. */
  lemma DescentAfterDelete(store: Store, root: PageId, t: Layout, key: i32, d: Trace, out: DeleteOutcome, store': Store,
                           i: nat, k: i32)
    requires WellFormed(store, root, t) && Deleted(store, t, key, d, out, store')
    requires out.Deletes? || out.Borrows? || out.Merges?
    requires i < |t.chain| && t.spans[t.chain[i]].Has(k)
    ensures Searchable(store', root, t)
    ensures Total(d.mid) && SoundLeaf(d.mid[t.chain[d.j]])
    ensures AnswersAs(store', t, i, k, Without(Entries(store, t.chain), key)) <==> !HiddenBy(t, d, out, k)
  {
    var p := t.chain[d.j];
    DeletedIsTree(store, root, t, key, d, out, store');
    hide *;
    if out.Deletes? {
      ShiftedDescent(d.mid, root, t, i, k);
      NothingHidden(t, d, k);
    } else {
      SiblingSearchable(d.mid, root, t, d.j, d.mid[p].maxKeys / 2, out, store');
      if out.Borrows? {
        BorrowedDescent(d.mid, root, t, d, store', i, k);
      } else {
        MergedDescent(d.mid, root, t, d, store', i, k);
      }
    }
  }

  /** Up to the use of the sibling the tree is in order, less the deleted entry. */
  lemma DeletedIsTree(store: Store, root: PageId, t: Layout, key: i32, d: Trace, out: DeleteOutcome, store': Store)
    requires WellFormed(store, root, t) && Deleted(store, t, key, d, out, store')
    requires out.Deletes? || out.Borrows? || out.Merges?
    ensures Total(d.mid) && d.j < |t.chain| && SoundLeaf(d.mid[t.chain[d.j]]) && WellFormed(d.mid, root, t)
    ensures Entries(d.mid, t.chain) == Without(Entries(store, t.chain), key)
    ensures out.Deletes? ==> store' == d.mid
    ensures !out.Deletes? ==>
              && 0 < d.j
              && SiblingUsed(d.mid, t.chain[d.j - 1], t.chain[d.j], d.mid[t.chain[d.j]].maxKeys / 2, out, store')
  {
    hide WellFormed, LeafEntries, Lookup, SiblingUsed, SoundChain, Entries, Without;
    DeleteLands(store, root, t, d.j, d.mid[t.chain[d.j]], key);
    if out.Deletes? {
      RebalancedPlain(d.mid, t, d.j, d.refused, out, store');
    }
  }

  lemma NothingHidden(t: Layout, d: Trace, key: int)
    requires Total(d.mid) && d.j < |t.chain| && SoundLeaf(d.mid[t.chain[d.j]])
    ensures !HiddenBy(t, d, Deletes, key)
  {
  }

  lemma ShiftedDescent(store: Store, root: PageId, t: Layout, i: nat, k: i32)
    requires WellFormed(store, root, t) && i < |t.chain| && t.spans[t.chain[i]].Has(k)
    ensures Searchable(store, root, t) && AnswersAs(store, t, i, k, Entries(store, t.chain))
  {
    hide *;
    WellFormedIsSearchable(store, root, t);
    LeafAnswersAs(store, root, t, i, k);
  }

  lemma BorrowedDescent(store: Store, root: PageId, t: Layout, d: Trace, store': Store, i: nat, k: i32)
    requires Total(store) && WellFormed(store, root, t) && d.mid == store && 0 < d.j < |t.chain|
    requires SoundLeaf(store[t.chain[d.j]])
    requires SiblingUsed(store, t.chain[d.j - 1], t.chain[d.j], store[t.chain[d.j]].maxKeys / 2, Borrows, store')
    requires i < |t.chain| && t.spans[t.chain[i]].Has(k)
    ensures AnswersAs(store', t, i, k, Entries(store, t.chain)) <==> !HiddenBy(t, d, Borrows, k)
  {
    hide WellFormed, SiblingUsed, Entries, IsLast, AnswersAs;
    BorrowHidesOneKey(store, root, t, d.j, store[t.chain[d.j]].maxKeys / 2, store', i, k);
  }

  lemma MergedDescent(store: Store, root: PageId, t: Layout, d: Trace, store': Store, i: nat, k: i32)
    requires Total(store) && WellFormed(store, root, t) && d.mid == store && 0 < d.j < |t.chain|
    requires SoundLeaf(store[t.chain[d.j]])
    requires SiblingUsed(store, t.chain[d.j - 1], t.chain[d.j], store[t.chain[d.j]].maxKeys / 2, Merges, store')
    requires i < |t.chain| && t.spans[t.chain[i]].Has(k)
    ensures AnswersAs(store', t, i, k, Entries(store, t.chain)) <==> !HiddenBy(t, d, Merges, k)
  {
    hide WellFormed, LeafEntries, Lookup, SiblingUsed, Entries, AnswersAs;
    MergeHidesMovedKeys(store, root, t, d.j, store[t.chain[d.j]].maxKeys / 2, store', i, k);
  }

  /** A merged leaf stays below the capacity in its neighbour's header, and a merge can run past the array
      only in leaves whose header claims more room than the array has. */
  lemma MergeFits(store: Store, left: PageId, p: PageId, out: DeleteOutcome, store': Store)
    requires Total(store) && SoundLeaf(store[p]) && store[p].numKeys < store[p].maxKeys / 2
    requires SiblingUsed(store, left, p, store[p].maxKeys / 2, out, store')
    ensures out.Merges? ==> |LeafEntries(store'[left])| < store[p].maxKeys
    ensures out.MergeOverflow? ==> store[p].maxKeys > MAX_KEYS + 1
  {
  }

  ghost predicate StandardLeaves(store: Store, chain: seq<PageId>) {
    Total(store) && forall i :: 0 <= i < |chain| ==> store[chain[i]].Leaf? && store[chain[i]].maxKeys == CAPACITY
  }

  lemma StandardKept(store: Store, chain: seq<PageId>, p: PageId, n: Node)
    requires StandardLeaves(store, chain) && store[p].Leaf? && n.Leaf? && n.maxKeys == store[p].maxKeys
    ensures StandardLeaves(store[p := n], chain)
  {
  }

  function RootLayout(p: PageId): Layout {
    Layout(map[p := Span(KEY_MIN, KEY_END, 0)], [p])
  }

  lemma RootIsTree(store: Store, p: PageId, es: seq<Entry>)
    requires Total(store) && p != INVALID_PAGE_ID && SoundLeaf(store[p]) && LeafEntries(store[p]) == es && Ascending(es)
    requires store[p].parent == store[p].next == INVALID_PAGE_ID
    ensures WellFormed(store, p, RootLayout(p)) && Entries(store, RootLayout(p).chain) == es
  {
    assert [p][1..] == [];
    assert es + [] == es;
    hide LeafEntries, Ascending;
  }

  lemma EmptyTree(e: Entry)
    ensures Inserted([], e) == [e] && Lookup([], e.key) == None
  {
  }

  lemma EmptyRange(lo: int, hi: int)
    ensures InRange([], lo, hi) == []
  {
  }

  // ----- Range searches -----

  lemma Extended(a: seq<Ctid>, b: seq<Ctid>, c: seq<Ctid>)
    ensures a + (b + c) == a + b + c && (c == [] ==> a + (b + c) == a + b)
  {
  }

  lemma CollectStart(es: seq<Entry>, lo: int, hi: int)
    ensures [] + InRange(es[0..], lo, hi) == InRange(es, lo, hi)
  {
    assert es[0..] == es;
  }

  lemma CollectEnd(es: seq<Entry>, lo: int, hi: int, values: seq<Ctid>)
    ensures values + InRange(es[|es|..], lo, hi) == values
  {
    assert es[|es|..] == [];
  }

  /** One slot of a leaf: in the range it adds its value, beyond the range it ends the leaf's contribution. */
  lemma CollectStep(es: seq<Entry>, i: nat, lo: int, hi: int, values: seq<Ctid>)
    requires i < |es| && Ascending(es)
    ensures lo <= es[i].key <= hi ==>
              values + InRange(es[i..], lo, hi) == values + [es[i].value] + InRange(es[i + 1..], lo, hi)
    ensures es[i].key < lo ==> values + InRange(es[i..], lo, hi) == values + InRange(es[i + 1..], lo, hi)
    ensures es[i].key > hi ==> values + InRange(es[i..], lo, hi) == values && es[i] in es
  {
    assert es[i..] == [es[i]] + es[i + 1..];
    if es[i].key > hi {
      assert forall k :: i <= k < |es| ==> es[i].key <= es[k].key;
      InRangeEmpty(es[i..], lo, hi);
    }
    hide Ascending;
  }

  lemma RootSpan(store: Store, root: PageId, t: Layout, key: i32)
    requires Routes(store, root, t)
    ensures root in t.spans && t.spans[root].Has(key)
  {
  }

  /** Height and node type agree. */
  lemma NodeKind(store: Store, root: PageId, t: Layout, p: PageId)
    requires Routes(store, root, t) && p in t.spans
    ensures Total(store) && (store[p].Leaf? <==> t.spans[p].level == 0)
    ensures t.spans[p].level > 0 ==> InternalOk(store[p], t.spans[p], t.spans)
  {
  }

  /** Descent ends, every key has one leaf, and the leaves can be searched. */
  ghost predicate Searchable(store: Store, root: PageId, t: Layout) {
    && Routes(store, root, t) && Tiles(t)
    && forall i :: 0 <= i < |t.chain| ==> SoundLeaf(store[t.chain[i]]) && Ascending(LeafEntries(store[t.chain[i]]))
  }

  lemma LeafIsSearchable(store: Store, root: PageId, t: Layout, p: PageId, key: i32)
    requires Searchable(store, root, t) && p in t.spans && t.spans[p].level == 0 && t.spans[p].Has(key)
    ensures SoundLeaf(store[p]) && Ascending(LeafEntries(store[p]))
    ensures forall i :: 0 <= i < |t.chain| && t.spans[t.chain[i]].Has(key) ==> t.chain[i] == p
  {
    var j := ChainIndex(t, p);
    hide Routes, LeafEntries, Ascending;
    forall i | 0 <= i < |t.chain| && t.spans[t.chain[i]].Has(key)
      ensures i == j
    {
      LeafIsUnique(t, i, j, key);
    }
  }

  lemma WellFormedIsSearchable(store: Store, root: PageId, t: Layout)
    requires WellFormed(store, root, t)
    ensures Searchable(store, root, t)
  {
    forall i | 0 <= i < |t.chain|
      ensures SoundLeaf(store[t.chain[i]]) && Ascending(LeafEntries(store[t.chain[i]]))
    {
      assert LeafWithin(store[t.chain[i]], t.spans[t.chain[i]]);
    }
    hide Routes, Tiles, Linked, LeafWithin, ParentOk;
  }

  /** The leaf reached by descent answers for the whole tree. */
  lemma LeafAnswers(store: Store, root: PageId, t: Layout, p: PageId, key: i32)
    requires WellFormed(store, root, t) && p in t.spans && t.spans[p].level == 0 && t.spans[p].Has(key)
    ensures SoundLeaf(store[p]) && Ascending(LeafEntries(store[p]))
    ensures LeafEntries(store[p]) == Zip(store[p].keys, store[p].values, store[p].numKeys)
    ensures Lookup(Entries(store, t.chain), key) == Lookup(LeafEntries(store[p]), key)
  {
    var j := ChainIndex(t, p);
    assert LeafWithin(store[t.chain[j]], t.spans[t.chain[j]]);
    LookupInLeaf(store, t, j, key);
  }

  ghost function ChainIndex(t: Layout, p: PageId): (j: nat)
    requires Tiles(t) && p in t.spans && t.spans[p].level == 0
    ensures j < |t.chain| && t.chain[j] == p
  {
    var j :| 0 <= j < |t.chain| && t.chain[j] == p;
    j
  }
}
