/** What an aggregation pipeline computes from a database. */
module Pipeline {
  import opened Outcomes
  import opened Mongo

  type Rows = seq<Value>
  type Database = map<string, Rows>
  type Vars = map<string, Value>

  /**
   * `Local` stands for every stage that reads nothing but its input rows and the variables
   * (`$project`, `$group`, `$sort`, ...). `Out` and `Merge` are the stages that write.
   */
  datatype Stage =
    | Match(f: Filter)
    | Local(op: (Vars, Rows) -> Rows)
    | Lookup(from: string, join: Option<Join>, vars: map<string, string>, sub: SubPipeline, into: string)
    | UnionName(coll: string)
    | UnionWith(coll: string, inner: SubPipeline)
    | GraphLookup(from: string, graph: Graph, restrict: Option<Filter>, into: string)
    | Facet(branches: seq<Branch>)
    | Out(coll: string)
    | Merge(coll: string)

  datatype Join = Join(localField: string, foreignField: string)

  datatype Graph = Graph(startWith: string, connectFrom: string, connectTo: string, maxDepth: Option<nat>)

  datatype SubPipeline = NoPipeline | Nested(stages: seq<Stage>)

  datatype Branch = Branch(name: string, stages: seq<Stage>)

  function Get(db: Database, coll: string): Rows {
    if coll in db then db[coll] else []
  }

  ghost function Select(rows: Rows, p: Value -> bool): Rows {
    if rows == [] then [] else (if p(rows[0]) then [rows[0]] else []) + Select(rows[1..], p)
  }

  ghost function Keep(rows: Rows, f: Filter): Rows {
    Select(rows, row => Holds(f, row))
  }

  function SetField(row: Value, name: string, v: Value): Value {
    if row.Doc? then Doc(row.fields[name := v]) else row
  }

  /** The `let` variables of a lookup, read from the outer row. */
  ghost function Bind(vars: map<string, string>, row: Value): Vars {
    map x | x in vars && At(row, Segments(vars[x])) != {} :: Pick(At(row, Segments(vars[x])))
  }

  ghost function Pick(s: set<Value>): Value
    requires s != {}
  {
    var x :| x in s; x
  }

  /** Do a local and a foreign field share a value? */
  ghost predicate Joins(join: Option<Join>, row: Value, other: Value) {
    join.Some? ==>
      exists v :: v in Leaves(At(row, Segments(join.value.localField))) &&
                  v in Leaves(At(other, Segments(join.value.foreignField)))
  }

  // ---- graph search ----

  ghost predicate Connects(found: set<Value>, connectTo: string, row: Value) {
    exists v :: v in found && v in Leaves(At(row, Segments(connectTo)))
  }

  ghost predicate Allowed(restrict: Option<Filter>, row: Value) {
    restrict.Some? ==> Holds(restrict.value, row)
  }

  /** A walk through rows that satisfy the restriction, each step connecting to the next. */
  ghost predicate IsWalk(g: Graph, start: set<Value>, rows: Rows, restrict: Option<Filter>, walk: seq<Value>) {
    |walk| > 0 &&
    (g.maxDepth.Some? ==> |walk| <= g.maxDepth.value + 1) &&
    (forall i :: 0 <= i < |walk| ==> walk[i] in rows && Allowed(restrict, walk[i])) &&
    Connects(start, g.connectTo, walk[0]) &&
    (forall i :: 0 < i < |walk| ==> Connects(Leaves(At(walk[i - 1], Segments(g.connectFrom))), g.connectTo, walk[i]))
  }

  ghost predicate Reached(g: Graph, start: set<Value>, rows: Rows, restrict: Option<Filter>, row: Value) {
    exists walk :: IsWalk(g, start, rows, restrict, walk) && walk[|walk| - 1] == row
  }

  ghost function GraphRows(g: Graph, start: set<Value>, rows: Rows, restrict: Option<Filter>): Rows {
    Select(rows, row => Reached(g, start, rows, restrict, row))
  }

  // ---- running a pipeline ----

  ghost function Run(db: Database, vars: Vars, stages: seq<Stage>, rows: Rows): Rows
    decreases stages
  {
    if stages == [] then rows
    else Run(db, vars, stages[1..], RunStage(db, vars, stages[0], rows))
  }

  ghost function RunStage(db: Database, vars: Vars, stage: Stage, rows: Rows): Rows
    decreases stage, 1
  {
    match stage
    case Match(f) => Keep(rows, f)
    case Local(op) => op(vars, rows)
    case Lookup(_, _, _, _, _) => RunLookup(db, vars, stage, rows)
    case UnionName(coll) => rows + Get(db, coll)
    case UnionWith(coll, sub) => rows + RunSub(db, vars, sub, Get(db, coll))
    case GraphLookup(from, g, restrict, into) => RunGraph(db, g, from, restrict, into, rows)
    case Facet(branches) => [Doc(RunFacet(db, vars, branches, rows))]
    case Out(_) => []
    case Merge(_) => []
  }

  ghost function RunSub(db: Database, vars: Vars, sub: SubPipeline, rows: Rows): Rows
    decreases sub
  {
    if sub.NoPipeline? then rows else Run(db, vars, sub.stages, rows)
  }

  ghost function RunLookup(db: Database, vars: Vars, stage: Stage, rows: Rows): Rows
    requires stage.Lookup?
    decreases stage, 0, |rows|
  {
    if rows == [] then []
    else
      var candidates := Select(Get(db, stage.from), other => Joins(stage.join, rows[0], other));
      var joined := RunSub(db, vars + Bind(stage.vars, rows[0]), stage.sub, candidates);
      [SetField(rows[0], stage.into, Arr(joined))] + RunLookup(db, vars, stage, rows[1..])
  }

  ghost function RunGraph(db: Database, g: Graph, from: string, restrict: Option<Filter>, into: string,
                          rows: Rows): Rows
  {
    if rows == [] then []
    else
      var start := Leaves(At(rows[0], Segments(g.startWith)));
      [SetField(rows[0], into, Arr(GraphRows(g, start, Get(db, from), restrict)))] +
      RunGraph(db, g, from, restrict, into, rows[1..])
  }

  ghost function RunFacet(db: Database, vars: Vars, branches: seq<Branch>, rows: Rows): map<string, Value>
    decreases branches
  {
    if branches == [] then map[]
    else
      map[branches[0].name := Arr(Run(db, vars, branches[0].stages, rows))] +
      RunFacet(db, vars, branches[1..], rows)
  }

  // ---- selections commute ----

  lemma {:induction false} SelectSame(rows: Rows, p: Value -> bool, q: Value -> bool)
    requires forall r :: r in rows ==> p(r) == q(r)
    ensures Select(rows, p) == Select(rows, q)
  {
    if rows != [] {
      SelectSame(rows[1..], p, q);
    }
  }

  lemma {:induction false} SelectConcat(a: Rows, b: Rows, p: Value -> bool)
    ensures Select(a + b, p) == Select(a, p) + Select(b, p)
  {
    if a == [] {
      assert a + b == b;
    } else {
      assert (a + b)[1..] == a[1..] + b;
      SelectConcat(a[1..], b, p);
    }
  }

  /** Selecting twice is selecting with both conditions. */
  lemma {:induction false} SelectTwice(rows: Rows, p: Value -> bool, q: Value -> bool)
    ensures Select(Select(rows, p), q) == Select(rows, r => p(r) && q(r))
  {
    if rows != [] {
      SelectTwice(rows[1..], p, q);
      var first := if p(rows[0]) then [rows[0]] else [];
      SelectConcat(first, Select(rows[1..], p), q);
      if first != [] {
        assert first[1..] == [];
      }
    }
  }

  lemma SelectSwap(rows: Rows, p: Value -> bool, q: Value -> bool)
    ensures Select(Select(rows, p), q) == Select(Select(rows, q), p)
  {
    SelectTwice(rows, p, q);
    SelectTwice(rows, q, p);
    SelectSame(rows, r => p(r) && q(r), r => q(r) && p(r));
  }

  lemma {:induction false} SelectIn(rows: Rows, p: Value -> bool)
    ensures forall r :: r in Select(rows, p) <==> r in rows && p(r)
  {
    if rows != [] {
      SelectIn(rows[1..], p);
    }
  }

  lemma {:induction false} SelectAll(rows: Rows, p: Value -> bool)
    requires forall r :: r in rows ==> p(r)
    ensures Select(rows, p) == rows
  {
    if rows != [] {
      SelectAll(rows[1..], p);
    }
  }

  lemma RunMatchFirst(db: Database, vars: Vars, f: Filter, rest: seq<Stage>, rows: Rows)
    ensures Run(db, vars, [Match(f)] + rest, rows) == Run(db, vars, rest, Keep(rows, f))
  {
    assert ([Match(f)] + rest)[1..] == rest;
  }
}
