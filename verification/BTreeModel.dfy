/** B+ tree nodes, the shape of a well-formed tree, and its meaning as one ordered list of entries
    (wasdb_btree/src/node.rs, wasdb_btree/src/tree.rs). */
module BTreeModel {
  import opened Util
  import opened Storage

  const MAX_KEYS := 340

  const INVALID_PAGE_ID := PageId(U32 - 1, U32 - 1)

  /** A tuple's location, the value type of the index. */
  datatype Ctid = Ctid(pageId: PageId, slotIdx: u16)

  const KEY_MIN := -0x8000_0000
  const KEY_END := 0x8000_0000

  type KeyArray = a: seq<i32> | |a| == MAX_KEYS ghost witness seq(MAX_KEYS, _ => 0)
  type ValueArray = a: seq<Ctid> | |a| == MAX_KEYS ghost witness seq(MAX_KEYS, _ => Ctid(INVALID_PAGE_ID, 0))
  type ChildArray = a: seq<PageId> | |a| == MAX_KEYS + 1 ghost witness seq(MAX_KEYS + 1, _ => INVALID_PAGE_ID)

  /** A page read as a node; a page of another type byte is `Raw`. */
  datatype Node =
    | Raw
    | Leaf(numKeys: u16, maxKeys: u16, parent: PageId, next: PageId, keys: KeyArray, values: ValueArray)
    | Internal(numKeys: u16, parent: PageId, keys: KeyArray, children: ChildArray)

  datatype Entry = Entry(key: i32, value: Ctid)

  type Store = imap<PageId, Node>

  ghost predicate Total(store: Store) {
    forall pid: PageId :: pid in store
  }

  // ----- Meaning: the entries along the leaf chain -----

  function Zip(keys: KeyArray, values: ValueArray, n: nat): (es: seq<Entry>)
    requires n <= MAX_KEYS
    ensures |es| == n && forall i :: 0 <= i < n ==> es[i] == Entry(keys[i], values[i])
  {
    seq(n, i requires 0 <= i < n => Entry(keys[i], values[i]))
  }

  ghost predicate SoundLeaf(n: Node) {
    n.Leaf? && n.numKeys <= MAX_KEYS
  }

  /** A leaf with other slots in use; its header is otherwise kept. */
  function WithSlots(n: Node, count: u16, keys: KeyArray, values: ValueArray): (n': Node)
    requires n.Leaf?
    ensures n'.Leaf?
  {
    Leaf(count, n.maxKeys, n.parent, n.next, keys, values)
  }

  function LeafEntries(n: Node): seq<Entry>
    requires SoundLeaf(n)
  {
    Zip(n.keys, n.values, n.numKeys)
  }

  ghost predicate SoundChain(store: Store, chain: seq<PageId>) {
    Total(store) && forall i :: 0 <= i < |chain| ==> SoundLeaf(store[chain[i]])
  }

  ghost function Entries(store: Store, chain: seq<PageId>): seq<Entry>
    requires SoundChain(store, chain)
  {
    if chain == [] then [] else LeafEntries(store[chain[0]]) + Entries(store, chain[1..])
  }

  ghost predicate Ascending(es: seq<Entry>) {
    forall i, j :: 0 <= i < j < |es| ==> es[i].key < es[j].key
  }

  /** The value bound to a key. */
  function Lookup(es: seq<Entry>, key: int): Option<Ctid> {
    if es == [] then None else if es[0].key == key then Some(es[0].value) else Lookup(es[1..], key)
  }

  ghost predicate HasKey(es: seq<Entry>, key: int) {
    exists e :: e in es && e.key == key
  }

  /** The values of the keys in a closed range, in list order. */
  function InRange(es: seq<Entry>, lo: int, hi: int): seq<Ctid> {
    if es == [] then []
    else (if lo <= es[0].key <= hi then [es[0].value] else []) + InRange(es[1..], lo, hi)
  }

  // ----- Shape: a layout assigns each page of the tree its key interval and height -----

  datatype Span = Span(lo: int, hi: int, level: nat)
  {
    predicate Has(key: int) {
      lo <= key < hi
    }
  }

  /** `chain` lists the leaves from left to right. */
  datatype Layout = Layout(spans: map<PageId, Span>, chain: seq<PageId>)

  /** The interval of the `i`-th child of an internal node. */
  function ChildSpan(n: Node, s: Span, i: nat): Span
    requires n.Internal? && i <= n.numKeys <= MAX_KEYS && s.level > 0
  {
    Span(if i == 0 then s.lo else n.keys[i - 1], if i == n.numKeys then s.hi else n.keys[i], s.level - 1)
  }

  ghost predicate InternalOk(n: Node, s: Span, spans: map<PageId, Span>) {
    && n.Internal? && n.numKeys <= MAX_KEYS && s.level > 0
    && (forall i :: 0 <= i < n.numKeys ==> s.lo < n.keys[i] < s.hi)
    && (forall i, j :: 0 <= i < j < n.numKeys ==> n.keys[i] < n.keys[j])
    && (forall i :: 0 <= i <= n.numKeys ==>
          n.children[i] in spans && spans[n.children[i]] == ChildSpan(n, s, i))
  }

  /** Internal nodes route every key of their interval; height zero means leaf. */
  ghost predicate Routes(store: Store, root: PageId, t: Layout) {
    && Total(store)
    && root in t.spans && t.spans[root].lo == KEY_MIN && t.spans[root].hi == KEY_END
    && (forall p :: p in t.spans && t.spans[p].level == 0 ==> SoundLeaf(store[p]))
    && (forall p :: p in t.spans && t.spans[p].level > 0 ==> InternalOk(store[p], t.spans[p], t.spans))
  }

  /** The chain holds exactly the leaves, and their intervals tile the key range from left to right. */
  ghost predicate Tiles(t: Layout) {
    && |t.chain| > 0
    && (forall i :: 0 <= i < |t.chain| ==> t.chain[i] in t.spans && t.spans[t.chain[i]].level == 0)
    && (forall i :: 0 <= i < |t.chain| ==> t.spans[t.chain[i]].lo < t.spans[t.chain[i]].hi)
    && (forall p :: p in t.spans && t.spans[p].level == 0 ==> p in t.chain)
    && t.spans[t.chain[0]].lo == KEY_MIN && t.spans[t.chain[|t.chain| - 1]].hi == KEY_END
    && (forall i :: 0 < i < |t.chain| ==> t.spans[t.chain[i - 1]].hi == t.spans[t.chain[i]].lo)
  }

  ghost predicate Linked(store: Store, chain: seq<PageId>) {
    && SoundChain(store, chain) && |chain| > 0
    && (forall i :: 0 <= i < |chain| ==> chain[i] != INVALID_PAGE_ID)
    && (forall i, j :: 0 <= i < j < |chain| ==> chain[i] != chain[j])
    && (forall i :: 0 < i < |chain| ==> store[chain[i - 1]].next == chain[i])
    && store[chain[|chain| - 1]].next == INVALID_PAGE_ID
  }

  ghost predicate LeafWithin(n: Node, s: Span) {
    && SoundLeaf(n)
    && Ascending(LeafEntries(n))
    && forall e :: e in LeafEntries(n) ==> s.Has(e.key)
  }

  /** Only a leaf that is the root has no parent. */
  ghost predicate ParentOk(store: Store, root: PageId, t: Layout, p: PageId)
    requires Total(store) && store[p].Leaf?
  {
    var q := store[p].parent;
    if p == root then q == INVALID_PAGE_ID
    else
      && q != INVALID_PAGE_ID && q in t.spans && t.spans[q].level == 1
      && store[q].Internal? && store[q].numKeys <= MAX_KEYS
      && exists i :: 0 <= i <= store[q].numKeys && store[q].children[i] == p
  }

  /** Descent works and leaves know their parents, whatever the leaves hold and wherever they link. */
  ghost predicate Shaped(store: Store, root: PageId, t: Layout) {
    && Routes(store, root, t) && Tiles(t)
    && (forall i :: 0 <= i < |t.chain| ==> t.chain[i] != INVALID_PAGE_ID)
    && (forall i :: 0 <= i < |t.chain| ==> ParentOk(store, root, t, t.chain[i]))
  }

  ghost predicate WellFormed(store: Store, root: PageId, t: Layout) {
    && Routes(store, root, t) && Tiles(t) && Linked(store, t.chain)
    && (forall i :: 0 <= i < |t.chain| ==> LeafWithin(store[t.chain[i]], t.spans[t.chain[i]]))
    && (forall i :: 0 <= i < |t.chain| ==> ParentOk(store, root, t, t.chain[i]))
  }
}
