/** A leaf as a buffer in memory, with insertion in place (wasdb_btree/src/node.rs). */
module LeafNode {
  import opened Util
  import opened Storage
  import opened BTreeModel
  import opened BTreeProof

  /** Ordered insertion before the first key that is not smaller. */
  function InsertedFirst(es: seq<Entry>, e: Entry): seq<Entry> {
    if es == [] || e.key <= es[0].key then [e] + es else [es[0]] + InsertedFirst(es[1..], e)
  }

  /** For a new key this is the insertion the tree performs; for a present key it shadows the old binding
      and breaks the strict order. */
  lemma {:induction false} InsertedFirstMeans(es: seq<Entry>, e: Entry)
    requires Ascending(es)
    ensures Lookup(InsertedFirst(es, e), e.key) == Some(e.value)
    ensures !HasKey(es, e.key) ==> InsertedFirst(es, e) == Inserted(es, e)
    ensures Ascending(InsertedFirst(es, e)) <==> !HasKey(es, e.key)
  {
    if es == [] {
    } else if e.key < es[0].key {
      assert forall i :: 0 <= i < |es| ==> es[i] in es;
      assert forall x :: x in es ==> es[0].key <= x.key;
    } else if e.key == es[0].key {
      EqualKeyInFront(es, e);
    } else {
      InsertedFirstMeans(es[1..], e);
      StepPast(es, e);
    }
  }

  lemma EqualKeyInFront(es: seq<Entry>, e: Entry)
    requires es != [] && e.key == es[0].key
    ensures InsertedFirst(es, e) == [e] + es && !Ascending([e] + es) && HasKey(es, e.key)
  {
    assert es[0] in es;
    var both := [e] + es;
    assert both[0].key == both[1].key;
  }

  lemma StepPast(es: seq<Entry>, e: Entry)
    requires Ascending(es) && es != [] && es[0].key < e.key
    ensures HasKey(es, e.key) <==> HasKey(es[1..], e.key)
    ensures InsertedFirst(es, e)[1..] == InsertedFirst(es[1..], e) && Inserted(es, e)[1..] == Inserted(es[1..], e)
    ensures Ascending(InsertedFirst(es, e)) <==> Ascending(InsertedFirst(es[1..], e))
    ensures Lookup(InsertedFirst(es, e), e.key) == Lookup(InsertedFirst(es[1..], e), e.key)
  {
    var first, rest := es[0], es[1..];
    assert es == [first] + rest;
    assert Ascending(rest) && forall x :: x in rest ==> first.key < x.key;
    assert InsertedFirst(es, e) == [first] + InsertedFirst(rest, e) && Inserted(es, e) == [first] + Inserted(rest, e);
    InsertedFirstHead(rest, e);
    hide InsertedFirst, Inserted, Ascending, Lookup, HasKey;
    HasKeyBehind(first, rest, e.key);
    AscendingBehind(first, InsertedFirst(rest, e));
    LookupBehind(first, InsertedFirst(rest, e), e.key);
  }

  lemma HasKeyBehind(first: Entry, rest: seq<Entry>, key: int)
    requires first.key != key
    ensures HasKey([first] + rest, key) <==> HasKey(rest, key)
  {
    assert forall x :: x in [first] + rest <==> x == first || x in rest;
  }

  lemma AscendingBehind(first: Entry, rest: seq<Entry>)
    requires forall x :: x in rest ==> first.key < x.key
    ensures Ascending([first] + rest) <==> Ascending(rest)
  {
    var all := [first] + rest;
    assert forall i :: 1 <= i < |all| ==> all[i] == rest[i - 1] && all[i] in rest;
    if Ascending(all) {
      assert forall i, j :: 0 <= i < j < |rest| ==> rest[i] == all[i + 1] && rest[j] == all[j + 1];
    }
  }

  lemma LookupBehind(first: Entry, rest: seq<Entry>, key: int)
    requires first.key != key
    ensures Lookup([first] + rest, key) == Lookup(rest, key)
  {
    assert ([first] + rest)[1..] == rest;
  }

  lemma {:induction false} InsertedFirstHead(es: seq<Entry>, e: Entry)
    ensures forall x :: x in InsertedFirst(es, e) <==> x == e || x in es
  {
    if es != [] && e.key > es[0].key {
      InsertedFirstHead(es[1..], e);
    }
  }

  datatype LeafError = NodeFull | Panic

  class LeafBuffer {
    var numKeys: u16
    const maxKeys: u16
    const keys: array<i32>
    const values: array<Ctid>

    ghost predicate Valid()
      reads this, keys, values
    {
      keys.Length == values.Length == MAX_KEYS && numKeys <= MAX_KEYS
    }

    ghost function Contents(): seq<Entry>
      requires Valid()
      reads this, keys, values
    {
      Zip(keys[..], values[..], numKeys)
    }

    constructor (maxKeys: u16)
      ensures Valid() && Contents() == [] && this.maxKeys == maxKeys && fresh(keys) && fresh(values)
    {
      this.maxKeys, numKeys := maxKeys, 0;
      keys := new i32[MAX_KEYS](_ => 0);
      values := new Ctid[MAX_KEYS](_ => Ctid(PageId(0, 0), 0));
    }

    /** Refused exactly when the header says the leaf is full. A leaf that has used every array slot below that
        capacity panics, before anything is moved. */
    method Insert(key: i32, value: Ctid) returns (r: Result<(), LeafError>)
      requires Valid()
      modifies this, keys, values
      ensures Valid()
      ensures r == if old(numKeys) >= maxKeys then Err(NodeFull)
                   else if old(numKeys) == MAX_KEYS then Err(Panic) else Ok(())
      ensures Contents() == if r.Ok? then InsertedFirst(old(Contents()), Entry(key, value)) else old(Contents())
    {
      if numKeys >= maxKeys {
        return Err(NodeFull);
      }
      var idx := FindSlot(key);
      if numKeys == MAX_KEYS {
        return Err(Panic);
      }
      FirstPosition(Contents(), Entry(key, value), idx);
      hide InsertedFirst;
      PutAt(idx, key, value);
      r := Ok(());
    }

    /** Index of the first key that is not smaller. */
    method FindSlot(key: i32) returns (idx: nat)
      requires Valid()
      ensures idx <= numKeys
      ensures forall i :: 0 <= i < idx ==> Contents()[i].key < key
      ensures idx < numKeys ==> key <= Contents()[idx].key
    {
      idx := 0;
      while idx < numKeys && keys[idx] < key
        invariant idx <= numKeys
        invariant forall i :: 0 <= i < idx ==> keys[i] < key
      {
        idx := idx + 1;
      }
    }

    /** Makes room at a slot and stores the entry there. */
    method PutAt(idx: nat, key: i32, value: Ctid)
      requires Valid() && idx <= numKeys < MAX_KEYS
      modifies this, keys, values
      ensures Valid()
      ensures Contents() == old(Contents())[..idx] + [Entry(key, value)] + old(Contents())[idx..]
    {
      ghost var es := Contents();
      MakeRoom(idx);
      keys[idx] := key;
      values[idx] := value;
      numKeys := numKeys + 1;
      MovedUp(es, Contents(), idx, Entry(key, value));
    }

    /** `copy_within(idx..num_keys, idx + 1)` on both arrays. */
    method MakeRoom(idx: nat)
      requires Valid() && idx <= numKeys < MAX_KEYS
      modifies keys, values
      ensures forall i :: 0 <= i < idx ==> keys[i] == old(keys[i]) && values[i] == old(values[i])
      ensures forall i :: idx <= i < numKeys ==> keys[i + 1] == old(keys[i]) && values[i + 1] == old(values[i])
    {
      var i: int := numKeys;
      while idx < i
        invariant idx <= i <= numKeys
        invariant forall k :: 0 <= k < i ==> keys[k] == old(keys[k])
        invariant forall k :: 0 <= k < i ==> values[k] == old(values[k])
        invariant forall k :: i < k <= numKeys ==> keys[k] == old(keys[k - 1])
        invariant forall k :: i < k <= numKeys ==> values[k] == old(values[k - 1])
      {
        i := i - 1;
        keys[i + 1] := keys[i];
        values[i + 1] := values[i];
      }
    }
  }

  lemma MovedUp(es: seq<Entry>, es': seq<Entry>, idx: nat, e: Entry)
    requires idx <= |es| && |es'| == |es| + 1 && es'[idx] == e
    requires forall i :: 0 <= i < idx ==> es'[i] == es[i]
    requires forall i :: idx <= i < |es| ==> es'[i + 1] == es[i]
    ensures es' == es[..idx] + [e] + es[idx..]
  {
    assert forall i :: idx < i < |es'| ==> es'[i] == es[i - 1];
  }

  lemma {:induction false} FirstPosition(es: seq<Entry>, e: Entry, at: nat)
    requires at <= |es|
    requires forall i :: 0 <= i < at ==> es[i].key < e.key
    requires at < |es| ==> e.key <= es[at].key
    ensures InsertedFirst(es, e) == es[..at] + [e] + es[at..]
  {
    if at > 0 {
      FirstPosition(es[1..], e, at - 1);
      assert es[1..][..at - 1] == es[1..at] && es[1..][at - 1..] == es[at..];
      assert es[..at] == [es[0]] + es[1..at];
    }
  }
}
