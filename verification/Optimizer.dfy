/** Table metadata and the planner's choice between scans and index scans
    (wasdb_catalog/src/catalog.rs, wasdb_query/src/optimizer.rs). */
module Optimizer {
  import opened Util
  import opened Tuples
  import opened Executors

  // ----- Catalog -----

  datatype Column = Column(name: string, isPrimaryKey: bool)

  /** `indexes` lists the column positions of the table's indexes. */
  datatype TableMeta = TableMeta(columns: seq<Column>, indexes: seq<nat>)

  /** The positions of the primary-key columns, from position `i` on. */
  function KeyColumns(columns: seq<Column>, i: nat): seq<nat>
    decreases |columns| - i
  {
    if i >= |columns| then []
    else (if columns[i].isPrimaryKey then [i] else []) + KeyColumns(columns, i + 1)
  }

  lemma {:induction false} KeyColumnsMeans(columns: seq<Column>, i: nat)
    ensures forall k :: k in KeyColumns(columns, i) <==> i <= k < |columns| && columns[k].isPrimaryKey
    decreases |columns| - i
  {
    if i < |columns| {
      KeyColumnsMeans(columns, i + 1);
    }
  }

  datatype CatalogError = TableExists | TableNotFound | NoIndex

  class Catalog {
    var tables: map<string, TableMeta>

    constructor ()
      ensures tables == map[]
    {
      tables := map[];
    }

    /** Registers a table and an index for each primary-key column, unless the name is taken. */
    method CreateTable(name: string, columns: seq<Column>) returns (r: Result<(), CatalogError>)
      modifies this
      ensures name in old(tables) ==> r == Err(TableExists) && tables == old(tables)
      ensures name !in old(tables) ==>
                r == Ok(()) && tables == old(tables)[name := TableMeta(columns, KeyColumns(columns, 0))]
      ensures (forall n :: n in old(tables) ==> Indexed(old(tables)[n])) ==>
                forall n :: n in tables ==> Indexed(tables[n])
    {
      if name in tables {
        return Err(TableExists);
      }
      var indexes: seq<nat> := [];
      var i := 0;
      while i < |columns|
        invariant i <= |columns|
        invariant indexes + KeyColumns(columns, i) == KeyColumns(columns, 0)
      {
        if columns[i].isPrimaryKey {
          assert KeyColumns(columns, i) == [i] + KeyColumns(columns, i + 1);
          indexes := indexes + [i];
        } else {
          assert KeyColumns(columns, i) == KeyColumns(columns, i + 1);
        }
        i := i + 1;
      }
      assert KeyColumns(columns, i) == [] && indexes + [] == indexes;
      tables := tables[name := TableMeta(columns, indexes)];
      r := Ok(());
    }
  }

  /** The indexes are those of the primary-key columns, as `CreateTable` makes them. */
  ghost predicate Indexed(m: TableMeta) {
    m.indexes == KeyColumns(m.columns, 0)
  }

  ghost predicate UniqueNames(columns: seq<Column>) {
    forall i, j :: 0 <= i < j < |columns| ==> columns[i].name != columns[j].name
  }

  ghost predicate AtMostOneKey(columns: seq<Column>) {
    forall i, j :: 0 <= i < j < |columns| ==> !(columns[i].isPrimaryKey && columns[j].isPrimaryKey)
  }

  // ----- Plans -----

  datatype Plan =
    | SeqScanPlan(table: string)
    | IndexScanPlan(table: string, key: i32)
    | JoinPlan(left: Plan, right: Plan, on: (Tuple, Tuple) -> bool)
    | FilterPlan(child: Plan, keep: Tuple -> bool, indexMatch: Option<(string, i32)>)
  {
    /** The rewrite builds a plan that is no part of the one it replaces, but of size zero. */
    function Size(): nat {
      match this
      case SeqScanPlan(_) => 1
      case IndexScanPlan(_, _) => 0
      case JoinPlan(left, right, _) => left.Size() + right.Size() + 1
      case FilterPlan(child, _, _) => child.Size() + 1
    }
  }

  type Tables = map<string, TableMeta>
  type Data = map<string, seq<Tuple>>

  function Rows(data: Data, table: string): seq<Tuple> {
    if table in data then data[table] else []
  }

  /** Some index of the table is on a column of that name. */
  predicate NamesIndex(m: TableMeta, name: string) {
    exists i :: 0 <= i < |m.indexes| && m.indexes[i] < |m.columns| && m.columns[m.indexes[i]].name == name
  }

  function Optimize(tables: Tables, data: Data, plan: Plan): Result<Tree, CatalogError>
    decreases plan.Size()
  {
    match plan
    case SeqScanPlan(table) =>
      if table !in tables then Err(TableNotFound) else Ok(Scan(Rows(data, table)))
    case IndexScanPlan(table, key) =>
      if table !in tables then Err(TableNotFound)
      else if tables[table].indexes == [] then Err(NoIndex)
      else Ok(Index(Rows(data, table), key, tables[table].indexes[0]))
    case JoinPlan(left, right, on) =>
      var l := Optimize(tables, data, left);
      if l.Err? then l else
      var r := Optimize(tables, data, right);
      if r.Err? then r else Ok(Join(l.value, r.value, on))
    case FilterPlan(child, keep, indexMatch) =>
      if child.SeqScanPlan? && indexMatch.Some? && child.table !in tables then Err(TableNotFound)
      else if child.SeqScanPlan? && indexMatch.Some? && NamesIndex(tables[child.table], indexMatch.value.0) then
        Optimize(tables, data, IndexScanPlan(child.table, indexMatch.value.1))
      else
        var c := Optimize(tables, data, child);
        if c.Err? then c else Ok(Filter(c.value, keep))
  }

  /** The plan compiled as written: every filter over its child. */
  function Direct(tables: Tables, data: Data, plan: Plan): Result<Tree, CatalogError> {
    match plan
    case SeqScanPlan(_) => Optimize(tables, data, plan)
    case IndexScanPlan(_, _) => Optimize(tables, data, plan)
    case JoinPlan(left, right, on) =>
      var l := Direct(tables, data, left);
      if l.Err? then l else
      var r := Direct(tables, data, right);
      if r.Err? then r else Ok(Join(l.value, r.value, on))
    case FilterPlan(child, keep, _) =>
      var c := Direct(tables, data, child);
      if c.Err? then c else Ok(Filter(c.value, keep))
  }

  // ----- Soundness -----

  /** Equally successful, and the same rows in the same order. */
  ghost predicate SameAnswer(a: Result<Tree, CatalogError>, b: Result<Tree, CatalogError>) {
    if a.Ok? then b.Ok? && Denote(a.value) == Denote(b.value) else a == b
  }

  /** A filter's index match says what its predicate says: the named column of the row holds the integer. */
  ghost predicate MatchesSound(tables: Tables, data: Data, plan: Plan) {
    match plan
    case SeqScanPlan(_) => true
    case IndexScanPlan(_, _) => true
    case JoinPlan(left, right, _) => MatchesSound(tables, data, left) && MatchesSound(tables, data, right)
    case FilterPlan(child, keep, indexMatch) =>
      && MatchesSound(tables, data, child)
      && (child.SeqScanPlan? && child.table in tables && indexMatch.Some? ==>
            MatchSound(tables[child.table].columns, Rows(data, child.table), keep, indexMatch.value))
  }

  ghost predicate MatchSound(columns: seq<Column>, rows: seq<Tuple>, keep: Tuple -> bool, match': (string, i32)) {
    forall i, t :: 0 <= i < |columns| && columns[i].name == match'.0 && t in rows ==>
                     keep(t) == HoldsKey(t, match'.1, i)
  }

  ghost predicate CatalogOk(tables: Tables) {
    forall n :: n in tables ==>
      Indexed(tables[n]) && UniqueNames(tables[n].columns) && AtMostOneKey(tables[n].columns)
  }

  /** With a single primary key, the first index is the one the match names. */
  lemma FirstIndexIsNamed(m: TableMeta, name: string)
    requires Indexed(m) && UniqueNames(m.columns) && AtMostOneKey(m.columns) && NamesIndex(m, name)
    ensures m.indexes != [] && m.indexes[0] < |m.columns| && m.columns[m.indexes[0]].name == name
  {
    var i :| 0 <= i < |m.indexes| && m.indexes[i] < |m.columns| && m.columns[m.indexes[i]].name == name;
    KeyColumnsMeans(m.columns, 0);
    assert m.indexes[0] in m.indexes && m.indexes[i] in m.indexes;
  }

  /** One rewritten filter: right exactly when, on every row, the predicate agrees with the first index. */
  lemma RewriteIsSoundIff(tables: Tables, data: Data, table: string, keep: Tuple -> bool, name: string, key: i32)
    requires table in tables && NamesIndex(tables[table], name)
    ensures var plan := FilterPlan(SeqScanPlan(table), keep, Some((name, key)));
            SameAnswer(Optimize(tables, data, plan), Direct(tables, data, plan))
            <==> forall t :: t in Rows(data, table) ==> keep(t) == HoldsKey(t, key, tables[table].indexes[0])
  {
    var rows, col := Rows(data, table), tables[table].indexes[0];
    var plan := FilterPlan(SeqScanPlan(table), keep, Some((name, key)));
    assert Optimize(tables, data, plan) == Optimize(tables, data, IndexScanPlan(table, key));
    assert Optimize(tables, data, plan) == Ok(Index(rows, key, col));
    assert Direct(tables, data, plan) == Ok(Filter(Scan(rows), keep));
    SelectAgreesIff(rows, Matches(key, col), keep);
    assert Denote(Index(rows, key, col)) == Select(rows, Matches(key, col));
    assert Denote(Filter(Scan(rows), keep)) == Select(rows, keep);
    assert forall t :: t in rows ==> Matches(key, col)(t) == HoldsKey(t, key, col);
  }

  /** A filter becomes an index scan exactly when it is over a plain scan and its match names an indexed column. */
  lemma IndexIsUsedIff(tables: Tables, data: Data, child: Plan, keep: Tuple -> bool, named: Option<(string, i32)>)
    ensures var r := Optimize(tables, data, FilterPlan(child, keep, named));
            r.Ok? && r.value.Index? <==>
            && child.SeqScanPlan? && named.Some? && child.table in tables
            && exists i :: 0 <= i < |tables[child.table].indexes|
                           && tables[child.table].indexes[i] < |tables[child.table].columns|
                           && tables[child.table].columns[tables[child.table].indexes[i]].name == named.value.0
  {
  }

  /** The optimizer preserves every plan's answer over tables with unique column names and at most one
      primary-key column. */
  lemma {:induction false} OptimizeIsSound(tables: Tables, data: Data, plan: Plan)
    requires CatalogOk(tables) && MatchesSound(tables, data, plan)
    ensures SameAnswer(Optimize(tables, data, plan), Direct(tables, data, plan))
    decreases plan
  {
    match plan
    case SeqScanPlan(_) =>
    case IndexScanPlan(_, _) =>
    case JoinPlan(left, right, on) =>
      OptimizeIsSound(tables, data, left);
      OptimizeIsSound(tables, data, right);
    case FilterPlan(child, keep, indexMatch) =>
      OptimizeIsSound(tables, data, child);
      if child.SeqScanPlan? && indexMatch.Some? && child.table in tables
         && NamesIndex(tables[child.table], indexMatch.value.0) {
        FirstIndexIsNamed(tables[child.table], indexMatch.value.0);
        RewriteIsSoundIff(tables, data, child.table, keep, indexMatch.value.0, indexMatch.value.1);
      }
  }

  // ----- What a plan means -----

  /** The matching pairs of the product, left-major, each as one row. */
  function JoinedPairs(ls: seq<Tuple>, rs: seq<Tuple>, on: (Tuple, Tuple) -> bool): seq<Tuple> {
    var ps := Select(Pairs(ls, rs), (lr: (Tuple, Tuple)) => on(lr.0, lr.1));
    seq(|ps|, i requires 0 <= i < |ps| => Tuple(0, 0, ps[i].0.values + ps[i].1.values))
  }

  /** The rows of a plan, straight from the tables. */
  function Meaning(tables: Tables, data: Data, plan: Plan): Result<seq<Tuple>, CatalogError> {
    match plan
    case SeqScanPlan(table) =>
      if table !in tables then Err(TableNotFound) else Ok(if table in data then data[table] else [])
    case IndexScanPlan(table, key) =>
      if table !in tables then Err(TableNotFound)
      else if |tables[table].indexes| == 0 then Err(NoIndex)
      else
        var col := tables[table].indexes[0];
        Ok(Select(if table in data then data[table] else [],
                  (t: Tuple) => col < |t.values| && t.values[col] == Integer(key)))
    case JoinPlan(left, right, on) =>
      var l := Meaning(tables, data, left);
      if l.Err? then l else
      var r := Meaning(tables, data, right);
      if r.Err? then r else Ok(JoinedPairs(l.value, r.value, on))
    case FilterPlan(child, keep, _) =>
      var c := Meaning(tables, data, child);
      if c.Err? then c else Ok(Select(c.value, keep))
  }

  /** Every table is there, and every index scan finds an index. */
  predicate Answerable(tables: Tables, plan: Plan) {
    match plan
    case SeqScanPlan(table) => table in tables
    case IndexScanPlan(table, _) => table in tables && |tables[table].indexes| > 0
    case JoinPlan(left, right, _) => Answerable(tables, left) && Answerable(tables, right)
    case FilterPlan(child, _, _) => Answerable(tables, child)
  }

  lemma {:induction false} FailsIff(tables: Tables, data: Data, plan: Plan)
    ensures Meaning(tables, data, plan).Ok? <==> Answerable(tables, plan)
  {
    match plan
    case SeqScanPlan(_) =>
    case IndexScanPlan(_, _) =>
    case JoinPlan(left, right, _) =>
      FailsIff(tables, data, left);
      FailsIff(tables, data, right);
    case FilterPlan(child, _, _) => FailsIff(tables, data, child);
  }

  lemma JoinedPairsAreRows(ls: seq<Tuple>, rs: seq<Tuple>, on: (Tuple, Tuple) -> bool)
    ensures JoinRows(ls, rs, on) == JoinedPairs(ls, rs, on)
  {
    JoinIsSelection(ls, rs, on);
    hide JoinRows, Select, Pairs;
  }

  lemma IndexedRows(rows: seq<Tuple>, key: i32, col: nat)
    ensures Denote(Index(rows, key, col)) ==
            Select(rows, (t: Tuple) => col < |t.values| && t.values[col] == Integer(key))
  {
    SelectAgreesIff(rows, Matches(key, col), (t: Tuple) => col < |t.values| && t.values[col] == Integer(key));
    hide Select;
  }

  /** The plan compiled as written denotes its meaning, or fails with the same error. */
  lemma {:induction false} DirectMeans(tables: Tables, data: Data, plan: Plan)
    ensures match Direct(tables, data, plan)
            case Ok(tree) => Meaning(tables, data, plan) == Ok(Denote(tree))
            case Err(e) => Meaning(tables, data, plan) == Err(e)
  {
    hide Select, JoinRows, JoinedPairs;
    match plan
    case SeqScanPlan(_) =>
    case IndexScanPlan(table, key) =>
      if table in tables && tables[table].indexes != [] {
        IndexedRows(Rows(data, table), key, tables[table].indexes[0]);
      }
    case JoinPlan(left, right, on) =>
      DirectMeans(tables, data, left);
      DirectMeans(tables, data, right);
      var l, r := Direct(tables, data, left), Direct(tables, data, right);
      if l.Ok? && r.Ok? {
        JoinedPairsAreRows(Denote(l.value), Denote(r.value), on);
      }
    case FilterPlan(child, _, _) => DirectMeans(tables, data, child);
  }

  /** Planned, built and run, a query yields the rows of its plan compiled as written, in the same order, or fails
      with the same error. */
  method Answer(tables: Tables, data: Data, plan: Plan) returns (r: Result<seq<Tuple>, CatalogError>)
    requires CatalogOk(tables) && MatchesSound(tables, data, plan)
    ensures match Direct(tables, data, plan)
            case Ok(tree) => r == Ok(Denote(tree))
            case Err(e) => r == Err(e)
    ensures r == Meaning(tables, data, plan) && (r.Ok? <==> Answerable(tables, plan))
  {
    OptimizeIsSound(tables, data, plan);
    DirectMeans(tables, data, plan);
    FailsIff(tables, data, plan);
    hide Optimize, Direct, Denote, MatchesSound, CatalogOk, Meaning, Answerable;
    var tree := Optimize(tables, data, plan);
    if tree.Err? {
      return Err(tree.error);
    }
    var executor := Build(tree.value);
    var rows := Run(executor);
    r := Ok(rows);
  }

  /** With two primary-key columns a match on the second is answered from the first. */
  lemma TwoKeysMislead()
    ensures var columns := [Column("a", true), Column("b", true)];
            var tables := map["t" := TableMeta(columns, KeyColumns(columns, 0))];
            var data := map["t" := [Tuple(1, 0, [Integer(1), Integer(2)])]];
            var plan := FilterPlan(SeqScanPlan("t"), (t: Tuple) => HoldsKey(t, 2, 1), Some(("b", 2)));
            CatalogIndexed(tables) && MatchesSound(tables, data, plan)
            && !SameAnswer(Optimize(tables, data, plan), Direct(tables, data, plan))
  {
    var columns := [Column("a", true), Column("b", true)];
    var ks := KeyColumns(columns, 0);
    assert KeyColumns(columns, 2) == [] && KeyColumns(columns, 1) == [1] && ks == [0, 1];
    var tables := map["t" := TableMeta(columns, ks)];
    var row := Tuple(1, 0, [Integer(1), Integer(2)]);
    var data := map["t" := [row]];
    var keep := (t: Tuple) => HoldsKey(t, 2, 1);
    assert tables["t"].columns[tables["t"].indexes[1]].name == "b";
    assert "a" != "b" by {
      assert "a"[0] != "b"[0];
    }
    RewriteIsSoundIff(tables, data, "t", keep, "b", 2);
    assert row in Rows(data, "t") && keep(row) && !HoldsKey(row, 2, 0);
  }

  ghost predicate CatalogIndexed(tables: Tables) {
    forall n :: n in tables ==> Indexed(tables[n]) && UniqueNames(tables[n].columns)
  }
}
