/** Rows and their values, and the lists that query plans denote (wasdb_query/src/executors.rs). */
module Tuples {
  import opened Util

  datatype Value = Integer(i: i32) | Varchar(s: string) | Boolean(b: bool)

  datatype Tuple = Tuple(xmin: u64, xmax: u64, values: seq<Value>)

  const INVALID_TXN_ID: u64 := 0

  // ----- The derived order on values: by variant, then by content -----

  predicate StringLeq(a: string, b: string) {
    if a == [] then true
    else if b == [] then false
    else if a[0] != b[0] then a[0] < b[0]
    else StringLeq(a[1..], b[1..])
  }

  function Variant(v: Value): nat {
    match v
    case Integer(_) => 0
    case Varchar(_) => 1
    case Boolean(_) => 2
  }

  predicate Leq(a: Value, b: Value) {
    match (a, b)
    case (Integer(x), Integer(y)) => x <= y
    case (Varchar(x), Varchar(y)) => StringLeq(x, y)
    case (Boolean(x), Boolean(y)) => x ==> y
    case _ => Variant(a) < Variant(b)
  }

  lemma {:induction false} StringOrder(a: string, b: string, c: string)
    ensures StringLeq(a, b) || StringLeq(b, a)
    ensures StringLeq(a, b) && StringLeq(b, a) ==> a == b
    ensures StringLeq(a, b) && StringLeq(b, c) ==> StringLeq(a, c)
  {
    if a != [] && b != [] {
      StringOrder(a[1..], b[1..], if c == [] then [] else c[1..]);
      assert a[0] == b[0] && a[1..] == b[1..] ==> a == b by {
        assert a == [a[0]] + a[1..] && b == [b[0]] + b[1..];
      }
    }
  }

  /** Values of any variants are totally ordered, so comparison never falls back to "equal". */
  lemma ValueOrder(a: Value, b: Value, c: Value)
    ensures Leq(a, b) || Leq(b, a)
    ensures Leq(a, b) && Leq(b, a) ==> a == b
    ensures Leq(a, b) && Leq(b, c) ==> Leq(a, c)
  {
    if a.Varchar? && b.Varchar? {
      StringOrder(a.s, b.s, if c.Varchar? then c.s else []);
    }
  }

  /** The order of values, spelled out: integers by size, then strings as in a dictionary, then false before true. */
  ghost predicate InValueOrder(a: Value, b: Value) {
    || (a.Integer? && b.Integer? && a.i <= b.i)
    || (a.Varchar? && b.Varchar? && InDictionaryOrder(a.s, b.s))
    || (a.Boolean? && b.Boolean? && !(a.b && !b.b))
    || (a.Integer? && (b.Varchar? || b.Boolean?))
    || (a.Varchar? && b.Boolean?)
  }

  /** A beginning of the other, or smaller at the first place where they differ. */
  ghost predicate InDictionaryOrder(a: string, b: string) {
    a <= b || exists k :: SmallerAt(a, b, k)
  }

  ghost predicate SmallerAt(a: string, b: string, k: int) {
    0 <= k < |a| && k < |b| && a[..k] == b[..k] && a[k] < b[k]
  }

  lemma {:induction false} StringLeqMeans(a: string, b: string)
    ensures StringLeq(a, b) <==> InDictionaryOrder(a, b)
  {
    if a != [] && b != [] {
      if a[0] == b[0] {
        StringLeqMeans(a[1..], b[1..]);
        SameFirst(a, b);
        hide InDictionaryOrder;
      } else if a[0] < b[0] {
        assert SmallerAt(a, b, 0);
      }
    }
  }

  lemma SameFirst(a: string, b: string)
    requires a != [] && b != [] && a[0] == b[0]
    ensures InDictionaryOrder(a, b) <==> InDictionaryOrder(a[1..], b[1..])
  {
    hide SmallerAt;
    PrefixOfRest(a, b);
    forall k ensures SmallerAt(a, b, k) <==> SmallerAt(a[1..], b[1..], k - 1) {
      SmallerInRest(a, b, k);
    }
    if k :| SmallerAt(a[1..], b[1..], k) {
      assert SmallerAt(a, b, k + 1);
    }
  }

  lemma PrefixOfRest(a: string, b: string)
    requires a != [] && b != [] && a[0] == b[0]
    ensures a <= b <==> a[1..] <= b[1..]
  {
    assert a == [a[0]] + a[1..] && b == [b[0]] + b[1..];
  }

  lemma SmallerInRest(a: string, b: string, k: int)
    requires a != [] && b != [] && a[0] == b[0]
    ensures SmallerAt(a, b, k) <==> SmallerAt(a[1..], b[1..], k - 1)
  {
    if 0 < k < |a| && k < |b| {
      assert a[1..][..k - 1] == a[..k][1..] && b[1..][..k - 1] == b[..k][1..];
      assert a[..k] == [a[0]] + a[..k][1..] && b[..k] == [b[0]] + b[..k][1..];
    }
  }

  /** What comparing two values comes to. */
  lemma LeqMeans(a: Value, b: Value)
    ensures Leq(a, b) <==> InValueOrder(a, b)
  {
    if a.Varchar? && b.Varchar? {
      StringLeqMeans(a.s, b.s);
    }
  }

  // ----- Lists -----

  function Select<T>(s: seq<T>, p: T -> bool): (r: seq<T>)
  {
    if s == [] then [] else (if p(s[0]) then [s[0]] else []) + Select(s[1..], p)
  }

  lemma {:induction false} SelectMeans<T>(s: seq<T>, p: T -> bool)
    ensures forall x :: x in Select(s, p) <==> x in s && p(x)
  {
    if s != [] {
      SelectMeans(s[1..], p);
      assert forall x :: x in s <==> x == s[0] || x in s[1..];
    }
  }

  /** Two filters agree on a list exactly when their predicates agree on its members. */
  lemma {:induction false} SelectAgreesIff<T>(s: seq<T>, p: T -> bool, q: T -> bool)
    ensures Select(s, p) == Select(s, q) <==> forall x :: x in s ==> p(x) == q(x)
  {
    if Select(s, p) == Select(s, q) {
      SelectMeans(s, p);
      SelectMeans(s, q);
    } else if s != [] {
      SelectAgreesIff(s[1..], p, q);
      assert s[0] in s && forall x :: x in s[1..] ==> x in s;
    }
  }

  lemma SelectFirst<T>(x: T, rest: seq<T>, p: T -> bool)
    ensures Select([x] + rest, p) == if p(x) then [x] + Select(rest, p) else Select(rest, p)
  {
    var s := [x] + rest;
    assert s[1..] == rest;
    assert Select(s, p) == (if p(s[0]) then [s[0]] else []) + Select(s[1..], p);
    hide Select;
  }

  lemma {:induction false} SelectTwice<T>(s: seq<T>, p: T -> bool)
    ensures Select(Select(s, p), p) == Select(s, p)
  {
    if s != [] {
      SelectTwice(s[1..], p);
      assert s == [s[0]] + s[1..];
      hide Select;
      SelectFirst(s[0], s[1..], p);
      SelectFirst(s[0], Select(s[1..], p), p);
    }
  }

  lemma {:induction false} SelectAll<T>(s: seq<T>, p: T -> bool)
    requires forall x :: x in s ==> p(x)
    ensures Select(s, p) == s
  {
    if s != [] {
      assert s[0] in s;
      SelectAll(s[1..], p);
    }
  }

  /** The row a join makes of a matching pair; it belongs to no transaction. */
  function Combine(l: Tuple, r: Tuple): Tuple {
    Tuple(INVALID_TXN_ID, INVALID_TXN_ID, l.values + r.values)
  }

  function JoinRow(l: Tuple, rs: seq<Tuple>, p: (Tuple, Tuple) -> bool): seq<Tuple> {
    if rs == [] then [] else (if p(l, rs[0]) then [Combine(l, rs[0])] else []) + JoinRow(l, rs[1..], p)
  }

  function JoinRows(ls: seq<Tuple>, rs: seq<Tuple>, p: (Tuple, Tuple) -> bool): seq<Tuple> {
    if ls == [] then [] else JoinRow(ls[0], rs, p) + JoinRows(ls[1..], rs, p)
  }

  function PairsOf(l: Tuple, rs: seq<Tuple>): seq<(Tuple, Tuple)> {
    seq(|rs|, i requires 0 <= i < |rs| => (l, rs[i]))
  }

  /** All pairs, left-major. */
  function Pairs(ls: seq<Tuple>, rs: seq<Tuple>): seq<(Tuple, Tuple)> {
    if ls == [] then [] else PairsOf(ls[0], rs) + Pairs(ls[1..], rs)
  }

  function CombineAll(ps: seq<(Tuple, Tuple)>): seq<Tuple> {
    seq(|ps|, i requires 0 <= i < |ps| => Combine(ps[i].0, ps[i].1))
  }

  lemma {:induction false} SelectConcat<T>(a: seq<T>, b: seq<T>, p: T -> bool)
    ensures Select(a + b, p) == Select(a, p) + Select(b, p)
  {
    hide Select;
    if a == [] {
      SelectNone(a, p);
      assert a + b == b && [] + Select(b, p) == Select(b, p);
    } else {
      var rest := a[1..];
      SelectConcat(rest, b, p);
      SelectFirst(a[0], rest, p);
      SelectFirst(a[0], rest + b, p);
      assert a == [a[0]] + rest;
      Associate([a[0]], rest, b);
      Associate(if p(a[0]) then [a[0]] else [], Select(rest, p), Select(b, p));
    }
  }

  lemma SelectNone<T>(s: seq<T>, p: T -> bool)
    requires s == []
    ensures Select(s, p) == []
  {
  }

  lemma Associate<T>(a: seq<T>, b: seq<T>, c: seq<T>)
    ensures a + (b + c) == a + b + c
  {
  }

  lemma {:induction false} JoinRowIsSelection(l: Tuple, rs: seq<Tuple>, p: (Tuple, Tuple) -> bool)
    ensures JoinRow(l, rs, p) == CombineAll(Select(PairsOf(l, rs), (lr: (Tuple, Tuple)) => p(lr.0, lr.1)))
  {
    if rs != [] {
      assert PairsOf(l, rs)[1..] == PairsOf(l, rs[1..]);
      JoinRowIsSelection(l, rs[1..], p);
    }
  }

  /** A join's rows are the combinations of the matching pairs of the product, in left-major order. */
  lemma {:induction false} JoinIsSelection(ls: seq<Tuple>, rs: seq<Tuple>, p: (Tuple, Tuple) -> bool)
    ensures JoinRows(ls, rs, p) == CombineAll(Select(Pairs(ls, rs), (lr: (Tuple, Tuple)) => p(lr.0, lr.1)))
  {
    if ls != [] {
      var both := (lr: (Tuple, Tuple)) => p(lr.0, lr.1);
      JoinIsSelection(ls[1..], rs, p);
      JoinRowIsSelection(ls[0], rs, p);
      SelectConcat(PairsOf(ls[0], rs), Pairs(ls[1..], rs), both);
    }
  }

  /** A row that some matching pair makes: the values of the left row, then those of the right one, and no
      transaction. */
  ghost predicate IsJoined(t: Tuple, l: Tuple, r: Tuple) {
    && t.xmin == 0 && t.xmax == 0
    && |t.values| == |l.values| + |r.values|
    && (forall k :: 0 <= k < |l.values| ==> t.values[k] == l.values[k])
    && (forall k :: |l.values| <= k < |t.values| ==> t.values[k] == r.values[k - |l.values|])
  }

  lemma CombineMeans(l: Tuple, r: Tuple, t: Tuple)
    ensures t == Combine(l, r) <==> IsJoined(t, l, r)
  {
    if IsJoined(t, l, r) {
      assert t.values == l.values + r.values;
    }
  }

  lemma {:induction false} PairsCount(ls: seq<Tuple>, rs: seq<Tuple>)
    ensures |Pairs(ls, rs)| == |ls| * |rs|
  {
    if ls != [] {
      PairsCount(ls[1..], rs);
      var m, n := |ls|, |rs|;
      assert m * n == (m - 1) * n + n;
    }
  }

  /** The product is left-major: each left row with all right rows in turn. */
  lemma {:induction false} PairsAreLeftMajor(ls: seq<Tuple>, rs: seq<Tuple>, i: nat, j: nat)
    requires i < |ls| && j < |rs|
    ensures i * |rs| + j < |Pairs(ls, rs)| && Pairs(ls, rs)[i * |rs| + j] == (ls[i], rs[j])
  {
    if i > 0 {
      PairsAreLeftMajor(ls[1..], rs, i - 1, j);
      var n := |rs|;
      assert i * n + j == n + ((i - 1) * n + j);
      hide Pairs;
      PairsUnfold(ls, rs);
    } else {
      PairsUnfold(ls, rs);
    }
  }

  lemma PairsUnfold(ls: seq<Tuple>, rs: seq<Tuple>)
    requires ls != []
    ensures Pairs(ls, rs) == PairsOf(ls[0], rs) + Pairs(ls[1..], rs)
  {
  }

  /** Every row of a join is made, value by value, of the matching pair in its place. */
  lemma JoinRowsMean(ls: seq<Tuple>, rs: seq<Tuple>, p: (Tuple, Tuple) -> bool)
    ensures var both := (lr: (Tuple, Tuple)) => p(lr.0, lr.1);
            var matching := Select(Pairs(ls, rs), both);
            && |JoinRows(ls, rs, p)| == |matching|
            && forall i :: 0 <= i < |matching| ==> IsJoined(JoinRows(ls, rs, p)[i], matching[i].0, matching[i].1)
  {
    var both := (lr: (Tuple, Tuple)) => p(lr.0, lr.1);
    var matching := Select(Pairs(ls, rs), both);
    JoinIsSelection(ls, rs, p);
    hide JoinRows, Select, Pairs, IsJoined, Combine;
    forall i | 0 <= i < |matching|
      ensures IsJoined(JoinRows(ls, rs, p)[i], matching[i].0, matching[i].1)
    {
      CombineMeans(matching[i].0, matching[i].1, JoinRows(ls, rs, p)[i]);
    }
  }

  lemma {:induction false} PairsMembers(ls: seq<Tuple>, rs: seq<Tuple>)
    ensures forall l, r :: (l, r) in Pairs(ls, rs) <==> l in ls && r in rs
  {
    if ls != [] {
      PairsMembers(ls[1..], rs);
      PairsOfMembers(ls[0], rs);
      assert forall l :: l in ls <==> l == ls[0] || l in ls[1..];
    }
  }

  lemma PairsOfMembers(l: Tuple, rs: seq<Tuple>)
    ensures forall l', r :: (l', r) in PairsOf(l, rs) <==> l' == l && r in rs
  {
    forall r | r in rs
      ensures (l, r) in PairsOf(l, rs)
    {
      var i :| 0 <= i < |rs| && rs[i] == r;
      assert PairsOf(l, rs)[i] == (l, r);
    }
  }

  /** The rows of a join are exactly those made of a matching left and right row. */
  lemma JoinRowsMembers(ls: seq<Tuple>, rs: seq<Tuple>, p: (Tuple, Tuple) -> bool, t: Tuple)
    ensures t in JoinRows(ls, rs, p) <==> exists l, r :: l in ls && r in rs && p(l, r) && IsJoined(t, l, r)
  {
    var both := (lr: (Tuple, Tuple)) => p(lr.0, lr.1);
    var matching, rows := Select(Pairs(ls, rs), both), JoinRows(ls, rs, p);
    JoinRowsMean(ls, rs, p);
    SelectMeans(Pairs(ls, rs), both);
    PairsMembers(ls, rs);
    hide JoinRows, Select, Pairs, IsJoined;
    if t in rows {
      var i :| 0 <= i < |rows| && rows[i] == t;
      var (l, r) := matching[i];
      assert (l, r) in matching;
      assert l in ls && r in rs && p(l, r) && IsJoined(t, l, r);
    }
    if l, r :| l in ls && r in rs && p(l, r) && IsJoined(t, l, r) {
      assert both((l, r)) && (l, r) in matching;
      var i :| 0 <= i < |matching| && matching[i] == (l, r);
      CombineMeans(l, r, t);
      CombineMeans(l, r, rows[i]);
      assert rows[i] == t;
    }
  }
}
