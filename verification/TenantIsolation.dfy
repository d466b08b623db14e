/** A secured pipeline on the whole database computes what the original computes on the caller's slice. */
module TenantIsolation {
  import opened Outcomes
  import opened Mongo
  import opened Tenancy
  import opened Pipeline
  import opened TenantReads

  // ---- the caller's slice of the database ----

  ghost predicate MayRead(env: Env, coll: string, row: Value) {
    forall m :: m in env.models && m.collection == coll ==> MaySee(env, m, row)
  }

  ghost function VisibleRows(env: Env, coll: string, rows: Rows): Rows {
    Select(rows, row => MayRead(env, coll, row))
  }

  /** The database cut down to the rows the caller may see. */
  ghost function Slice(env: Env, db: Database): Database {
    map coll | coll in db :: VisibleRows(env, coll, db[coll])
  }

  /** Registered collections have a name and one model each. */
  predicate OneModelPerCollection(env: Env) {
    (forall m :: m in env.models ==> m.collection != "") &&
    (forall m, n :: m in env.models && n in env.models && m.collection == n.collection ==> m == n)
  }

  // ---- the pipeline whose result the caller gets ----

  /** Without the caller's own `tenantId` condition, which the injected one replaces. */
  function WithoutTenantKey(restrict: Option<Filter>): Option<Filter> {
    match restrict
    case None => None
    case Some(f) => Some(Filter(f.entries - {TENANT_ID}))
  }

  function Strip(env: Env, stages: seq<Stage>): (r: seq<Stage>)
    decreases stages
  {
    if stages == [] then [] else [StripStage(env, stages[0])] + Strip(env, stages[1..])
  }

  function StripSub(env: Env, sub: SubPipeline): SubPipeline
    decreases sub
  {
    if sub.NoPipeline? then NoPipeline else Nested(Strip(env, sub.stages))
  }

  /** Graph searches over a filtered collection lose their own `tenantId` restriction. */
  function StripStage(env: Env, stage: Stage): Stage
    decreases stage
  {
    match stage
    case Lookup(_, _, _, sub, _) => stage.(sub := StripSub(env, sub))
    case UnionWith(coll, sub) => UnionWith(coll, StripSub(env, sub))
    case GraphLookup(from, _, restrict, _) =>
      if FilterForCollection(env, from).Some? then stage.(restrict := WithoutTenantKey(restrict)) else stage
    case Facet(branches) => Facet(StripBranches(env, branches))
    case _ => stage
  }

  function StripBranches(env: Env, branches: seq<Branch>): seq<Branch>
    decreases branches
  {
    if branches == [] then []
    else [Branch(branches[0].name, Strip(env, branches[0].stages))] + StripBranches(env, branches[1..])
  }

  // ---- the injected filter is the slice ----

  lemma {:induction false} FilterAmongIsModels(env: Env, models: seq<Model>, coll: string)
    ensures (forall m :: m in models ==> m.collection != coll) ==> FilterAmong(env, models, coll).None?
    ensures forall m ::
      m in models && m.collection == coll && (forall n :: n in models && n.collection == coll ==> n == m) ==>
      FilterAmong(env, models, coll) == FilterAmong(env, [m], coll)
  {
    if models != [] && models[0].collection != coll {
      FilterAmongIsModels(env, models[1..], coll);
    } else if models != [] {
      assert models[0] in models;
    }
  }

  /** The filter injected for a collection admits exactly the rows of the slice; without one, the slice has all rows. */
  lemma InjectedFilterIsSlice(env: Env, coll: string, row: Value)
    requires HasTenantContext(env) && OneModelPerCollection(env)
    ensures match FilterForCollection(env, coll)
      case Some(f) => Holds(f, row) == MayRead(env, coll, row)
      case None => MayRead(env, coll, row)
  {
    FilterAmongIsModels(env, env.models, coll);
    if m :| m in env.models && m.collection == coll {
      assert FilterForCollection(env, coll) == FilterAmong(env, [m], coll);
      if m.scoped {
        FilterAdmitsVisible(env, m, row);
      }
    }
  }

  lemma InjectedFilterKeepsSlice(env: Env, db: Database, coll: string)
    requires HasTenantContext(env) && OneModelPerCollection(env)
    ensures Get(Slice(env, db), coll) ==
      match FilterForCollection(env, coll) case Some(f) => Keep(Get(db, coll), f) case None => Get(db, coll)
  {
    var rows := Get(db, coll);
    forall row
      ensures match FilterForCollection(env, coll)
        case Some(f) => Holds(f, row) == MayRead(env, coll, row)
        case None => MayRead(env, coll, row)
    {
      InjectedFilterIsSlice(env, coll, row);
    }
    match FilterForCollection(env, coll)
    case Some(f) => SelectSame(rows, row => MayRead(env, coll, row), row => Holds(f, row));
    case None => SelectAll(rows, row => MayRead(env, coll, row));
  }

  // ---- stage by stage ----

  /** A nested pipeline with the injected filter on all candidates is the nested pipeline on the visible ones. */
  lemma SecuredSub(env: Env, db: Database, vars: Vars, filter: Option<Filter>, sub: SubPipeline, rows: Rows)
    requires forall kept :: sub.Nested? ==>
      Run(db, vars, SecureStages(env, sub.stages), kept) == Run(Slice(env, db), vars, Strip(env, sub.stages), kept)
    ensures RunSub(db, vars, SecureSub(env, filter, sub), rows) ==
      RunSub(Slice(env, db), vars, StripSub(env, sub), if filter.Some? then Keep(rows, filter.value) else rows)
  {
    if filter.Some? {
      var rest := if sub.Nested? then SecureStages(env, sub.stages) else [];
      RunMatchFirst(db, vars, filter.value, rest, rows);
      assert [Match(filter.value)] + [] == [Match(filter.value)];
    }
  }

  lemma {:induction false} InjectedFilterKey(env: Env, models: seq<Model>, coll: string)
    requires FilterAmong(env, models, coll).Some?
    ensures FilterAmong(env, models, coll).value.entries.Keys == {TENANT_ID}
  {
    if models[0].collection != coll {
      InjectedFilterKey(env, models[1..], coll);
    }
  }

  /** The restriction a secured graph search gets. */
  function Secured(restrict: Option<Filter>, f: Filter): Option<Filter> {
    Some(Spread(restrict.GetOr(EVERYTHING), f))
  }

  lemma SecuredAllows(restrict: Option<Filter>, f: Filter, row: Value)
    requires f.entries.Keys == {TENANT_ID}
    ensures Allowed(Secured(restrict, f), row) <==> Allowed(WithoutTenantKey(restrict), row) && Holds(f, row)
  {
    HoldsSpread(restrict.GetOr(EVERYTHING), f, row);
  }

  /** Restricting every step of a walk is walking among the rows that satisfy the restriction. */
  lemma WalkInSlice(g: Graph, start: set<Value>, rows: Rows, f: Filter, restrict: Option<Filter>, walk: seq<Value>)
    requires f.entries.Keys == {TENANT_ID}
    ensures IsWalk(g, start, rows, Secured(restrict, f), walk) <==>
            IsWalk(g, start, Keep(rows, f), WithoutTenantKey(restrict), walk)
  {
    SelectIn(rows, row => Holds(f, row));
    forall i | 0 <= i < |walk|
      ensures Allowed(Secured(restrict, f), walk[i]) <==>
        Allowed(WithoutTenantKey(restrict), walk[i]) && Holds(f, walk[i])
    {
      SecuredAllows(restrict, f, walk[i]);
    }
  }

  lemma ReachedInSlice(g: Graph, start: set<Value>, rows: Rows, f: Filter, restrict: Option<Filter>, row: Value)
    requires f.entries.Keys == {TENANT_ID}
    ensures Reached(g, start, rows, Secured(restrict, f), row) <==>
            Holds(f, row) && Reached(g, start, Keep(rows, f), WithoutTenantKey(restrict), row)
  {
    var before, after := Secured(restrict, f), WithoutTenantKey(restrict);
    if walk :| IsWalk(g, start, rows, before, walk) && walk[|walk| - 1] == row {
      WalkInSlice(g, start, rows, f, restrict, walk);
      SecuredAllows(restrict, f, row);
      assert IsWalk(g, start, Keep(rows, f), after, walk);
    }
    if walk :| IsWalk(g, start, Keep(rows, f), after, walk) && walk[|walk| - 1] == row {
      WalkInSlice(g, start, rows, f, restrict, walk);
      assert IsWalk(g, start, rows, before, walk);
    }
  }

  /** A graph search restricted to the slice is the graph search on the slice. */
  lemma GraphInSlice(g: Graph, start: set<Value>, rows: Rows, f: Filter, restrict: Option<Filter>)
    requires f.entries.Keys == {TENANT_ID}
    ensures GraphRows(g, start, rows, Secured(restrict, f))
      == GraphRows(g, start, Keep(rows, f), WithoutTenantKey(restrict))
  {
    var before, after := Secured(restrict, f), WithoutTenantKey(restrict);
    forall row
      ensures Reached(g, start, rows, before, row) <==> Holds(f, row) && Reached(g, start, Keep(rows, f), after, row)
    {
      ReachedInSlice(g, start, rows, f, restrict, row);
    }
    var admitted, reached := (row: Value) => Holds(f, row),
      (row: Value) => Reached(g, start, Keep(rows, f), after, row);
    SelectTwice(rows, admitted, reached);
    SelectSame(rows, row => Reached(g, start, rows, before, row), row => admitted(row) && reached(row));
  }

  lemma {:induction false} SecuredGraph(db: Database, slice: Database, g: Graph, from: string, f: Filter,
                                        restrict: Option<Filter>, into: string, rows: Rows)
    requires f.entries.Keys == {TENANT_ID} && Get(slice, from) == Keep(Get(db, from), f)
    ensures RunGraph(db, g, from, Secured(restrict, f), into, rows) ==
            RunGraph(slice, g, from, WithoutTenantKey(restrict), into, rows)
  {
    if rows != [] {
      GraphInSlice(g, Leaves(At(rows[0], Segments(g.startWith))), Get(db, from), f, restrict);
      SecuredGraph(db, slice, g, from, f, restrict, into, rows[1..]);
    }
  }

  lemma {:induction false} SameGraph(
      db: Database, slice: Database, g: Graph, from: string, restrict: Option<Filter>, into: string, rows: Rows)
    requires Get(slice, from) == Get(db, from)
    ensures RunGraph(db, g, from, restrict, into, rows) == RunGraph(slice, g, from, restrict, into, rows)
  {
    if rows != [] {
      SameGraph(db, slice, g, from, restrict, into, rows[1..]);
    }
  }

  // ---- whole pipelines ----

  ghost predicate Setting(env: Env) {
    HasTenantContext(env) && OneModelPerCollection(env)
  }

  /** On any input rows, secured stages over the database are stripped stages over the slice. */
  lemma {:induction false} SecuredStages(env: Env, db: Database, vars: Vars, stages: seq<Stage>, rows: Rows)
    requires Setting(env)
    ensures Run(db, vars, SecureStages(env, stages), rows) == Run(Slice(env, db), vars, Strip(env, stages), rows)
    decreases stages
  {
    if stages != [] {
      SecuredStage(env, db, vars, stages[0], rows);
      var next := RunStage(db, vars, SecureStage(env, stages[0]), rows);
      SecuredStages(env, db, vars, stages[1..], next);
      RunCons(db, vars, SecureStage(env, stages[0]), SecureStages(env, stages[1..]), rows);
      RunCons(Slice(env, db), vars, StripStage(env, stages[0]), Strip(env, stages[1..]), rows);
    }
  }

  lemma RunCons(db: Database, vars: Vars, stage: Stage, rest: seq<Stage>, rows: Rows)
    ensures Run(db, vars, [stage] + rest, rows) == Run(db, vars, rest, RunStage(db, vars, stage, rows))
  {
    assert ([stage] + rest)[1..] == rest;
  }

  lemma {:induction false} SecuredSubStages(env: Env, db: Database, vars: Vars, filter: Option<Filter>,
                                            sub: SubPipeline, rows: Rows)
    requires Setting(env)
    ensures RunSub(db, vars, SecureSub(env, filter, sub), rows) ==
      RunSub(Slice(env, db), vars, StripSub(env, sub), if filter.Some? then Keep(rows, filter.value) else rows)
    decreases sub
  {
    forall kept | sub.Nested?
      ensures Run(db, vars, SecureStages(env, sub.stages), kept)
        == Run(Slice(env, db), vars, Strip(env, sub.stages), kept)
    {
      SecuredStages(env, db, vars, sub.stages, kept);
    }
    SecuredSub(env, db, vars, filter, sub, rows);
  }

  lemma {:induction false} SecuredStage(env: Env, db: Database, vars: Vars, stage: Stage, rows: Rows)
    requires Setting(env)
    ensures RunStage(db, vars, SecureStage(env, stage), rows)
      == RunStage(Slice(env, db), vars, StripStage(env, stage), rows)
    decreases stage, 1
  {
    match stage
    case Lookup(_, _, _, _, _) =>
      SecuredLookup(env, db, vars, stage, rows);
    case UnionName(coll) =>
      InjectedFilterKeepsSlice(env, db, coll);
      if f :| FilterForCollection(env, coll) == Some(f) {
        RunMatchFirst(db, vars, f, [], Get(db, coll));
        assert [Match(f)] + [] == [Match(f)];
      }
    case UnionWith(coll, inner) =>
      InjectedFilterKeepsSlice(env, db, coll);
      SecuredSubStages(env, db, vars, FilterForCollection(env, coll), inner, Get(db, coll));
    case GraphLookup(from, g, restrict, into) =>
      InjectedFilterKeepsSlice(env, db, from);
      match FilterForCollection(env, from) {
        case Some(f) =>
          InjectedFilterKey(env, env.models, from);
          SecuredGraph(db, Slice(env, db), g, from, f, restrict, into, rows);
        case None =>
          SameGraph(db, Slice(env, db), g, from, restrict, into, rows);
      }
    case Facet(branches) =>
      SecuredFacet(env, db, vars, branches, rows);
    case _ =>
  }

  lemma {:induction false} SecuredFacet(env: Env, db: Database, vars: Vars, branches: seq<Branch>, rows: Rows)
    requires Setting(env)
    ensures RunFacet(db, vars, SecureBranches(env, branches), rows) ==
            RunFacet(Slice(env, db), vars, StripBranches(env, branches), rows)
    decreases branches
  {
    if branches != [] {
      SecuredStages(env, db, vars, branches[0].stages, rows);
      SecuredFacet(env, db, vars, branches[1..], rows);
    }
  }

  lemma {:induction false} SecuredLookup(env: Env, db: Database, vars: Vars, stage: Stage, rows: Rows)
    requires Setting(env) && stage.Lookup?
    ensures RunLookup(db, vars, SecureStage(env, stage), rows) ==
            RunLookup(Slice(env, db), vars, StripStage(env, stage), rows)
    decreases stage, 0, |rows|
  {
    if rows != [] {
      var filter := FilterForCollection(env, stage.from);
      var joins := (other: Value) => Joins(stage.join, rows[0], other);
      var inner := vars + Bind(stage.vars, rows[0]);
      InjectedFilterKeepsSlice(env, db, stage.from);
      if filter.Some? {
        SelectSwap(Get(db, stage.from), joins, row => Holds(filter.value, row));
      }
      SecuredSubStages(env, db, inner, filter, stage.sub, Select(Get(db, stage.from), joins));
      SecuredLookup(env, db, vars, stage, rows[1..]);
    }
  }

  // ---- the theorems ----

  /** The source model is registered, tenant-scoped and not exempt, so the hook resolves a filter for it. */
  ghost predicate Isolated(env: Env, source: Model) {
    source in env.models && source.scoped && IsGuarded(env, source.name) && OneModelPerCollection(env)
  }

  /**
   * Whatever the pipeline: after the hook it computes from the whole database exactly what the
   * stripped pipeline computes from the caller's slice.
   */
  lemma HookedIsSlice(env: Env, source: Model, db: Database, vars: Vars, stages: seq<Stage>)
    requires Isolated(env, source) && Executed(env, source, stages).Ok?
    ensures Run(db, vars, Executed(env, source, stages).value, Get(db, source.collection)) ==
            Run(Slice(env, db), vars, Strip(env, stages), Get(Slice(env, db), source.collection))
  {
    var f := ResolveTenantFilter(env, source.name).value.value;
    var rows := Get(db, source.collection);
    RunMatchFirst(db, vars, f, SecureStages(env, stages), rows);
    SecuredStages(env, db, vars, stages, Keep(rows, f));
    forall row
      ensures Holds(f, row) == MayRead(env, source.collection, row)
    {
      FilterAdmitsVisible(env, source, row);
    }
    SelectSame(rows, row => MayRead(env, source.collection, row), row => Holds(f, row));
  }

  /** No graph search brings a `tenantId` restriction of its own. */
  ghost predicate NoTenantKey(stages: seq<Stage>)
    decreases stages
  {
    stages == [] || (NoTenantKeyIn(stages[0]) && NoTenantKey(stages[1..]))
  }

  ghost predicate NoTenantKeyIn(stage: Stage)
    decreases stage
  {
    match stage
    case Lookup(_, _, _, Nested(stages), _) => NoTenantKey(stages)
    case UnionWith(_, Nested(stages)) => NoTenantKey(stages)
    case GraphLookup(_, _, Some(f), _) => TENANT_ID !in f.entries
    case Facet(branches) => forall b :: b in branches ==> NoTenantKey(b.stages)
    case _ => true
  }

  lemma {:induction false} StripNothing(env: Env, stages: seq<Stage>)
    requires NoTenantKey(stages)
    ensures Strip(env, stages) == stages
    decreases stages
  {
    if stages != [] {
      StripNothingIn(env, stages[0]);
      StripNothing(env, stages[1..]);
    }
  }

  lemma {:induction false} StripNothingIn(env: Env, stage: Stage)
    requires NoTenantKeyIn(stage)
    ensures StripStage(env, stage) == stage
    decreases stage
  {
    match stage
    case Lookup(_, _, _, sub, _) =>
      if sub.Nested? {
        StripNothing(env, sub.stages);
      }
    case UnionWith(_, inner) =>
      if inner.Nested? {
        StripNothing(env, inner.stages);
      }
    case GraphLookup(_, _, restrict, _) =>
      if restrict.Some? {
        assert restrict.value.entries - {TENANT_ID} == restrict.value.entries;
      }
    case Facet(branches) =>
      StripNothingBranches(env, branches);
    case _ =>
  }

  lemma {:induction false} StripNothingBranches(env: Env, branches: seq<Branch>)
    requires forall b :: b in branches ==> NoTenantKey(b.stages)
    ensures StripBranches(env, branches) == branches
    decreases branches
  {
    if branches != [] {
      StripNothing(env, branches[0].stages);
      StripNothingBranches(env, branches[1..]);
    }
  }

  /** The hooked pipeline on the whole database is the caller's own pipeline on the caller's slice. */
  lemma HookedIsOriginalOnSlice(env: Env, source: Model, db: Database, vars: Vars, stages: seq<Stage>)
    requires Isolated(env, source) && Executed(env, source, stages).Ok? && NoTenantKey(stages)
    ensures Run(db, vars, Executed(env, source, stages).value, Get(db, source.collection)) ==
            Run(Slice(env, db), vars, stages, Get(Slice(env, db), source.collection))
  {
    HookedIsSlice(env, source, db, vars, stages);
    StripNothing(env, stages);
  }

  /** Rows outside the slice never influence a result, for any pipeline that gets past the hook. */
  lemma HookedDependsOnSliceOnly(env: Env, source: Model, db: Database, other: Database, vars: Vars, stages: seq<Stage>)
    requires Isolated(env, source) && Executed(env, source, stages).Ok?
    requires Slice(env, db) == Slice(env, other)
    ensures Run(db, vars, Executed(env, source, stages).value, Get(db, source.collection)) ==
            Run(other, vars, Executed(env, source, stages).value, Get(other, source.collection))
  {
    HookedIsSlice(env, source, db, vars, stages);
    HookedIsSlice(env, source, other, vars, stages);
  }

  // ---- where the conditions are needed ----

  /** A row of tenant `t`, and a graph search from its tenant to its tenant. */
  function RowOf(key: string, t: string): Value {
    Doc(map[key := Str(t)])
  }

  function SearchBy(key: string): Graph {
    Graph(key, key, key, None)
  }

  lemma KeyOf(key: string, t: string)
    requires '.' !in key
    ensures Segments(key) == [key] && At(RowOf(key, t), [key]) == {Str(t)} && Leaves({Str(t)}) == {Str(t)}
  {
    SegmentsSimple(key);
    assert [key][1..] == [];
  }

  lemma SearchFinds(key: string, t: string, restrict: Option<Filter>)
    requires '.' !in key
    ensures GraphRows(SearchBy(key), {Str(t)}, [RowOf(key, t)], restrict) ==
      if Allowed(restrict, RowOf(key, t)) then [RowOf(key, t)] else []
  {
    var row := RowOf(key, t);
    KeyOf(key, t);
    if Allowed(restrict, row) {
      assert Connects({Str(t)}, key, row);
      assert IsWalk(SearchBy(key), {Str(t)}, [row], restrict, [row]);
    }
    assert Reached(SearchBy(key), {Str(t)}, [row], restrict, row) == Allowed(restrict, row);
    assert [row][1..] == [];
    assert Select([], r => Reached(SearchBy(key), {Str(t)}, [row], restrict, r)) == [];
  }

  lemma RunSearch(db: Database, key: string, t: string, coll: string, restrict: Option<Filter>, into: string)
    requires '.' !in key && Get(db, coll) == [RowOf(key, t)]
    ensures Run(db, map[], [GraphLookup(coll, SearchBy(key), restrict, into)], [RowOf(key, t)]) ==
      [SetField(RowOf(key, t), into, Arr(if Allowed(restrict, RowOf(key, t)) then [RowOf(key, t)] else []))]
  {
    var row, stage := RowOf(key, t), GraphLookup(coll, SearchBy(key), restrict, into);
    KeyOf(key, t);
    SearchFinds(key, t, restrict);
    RunOneStage(db, stage, [row]);
    RunGraphOnce(db, SearchBy(key), coll, restrict, into, row);
  }

  lemma RunOneStage(db: Database, stage: Stage, rows: Rows)
    ensures Run(db, map[], [stage], rows) == RunStage(db, map[], stage, rows)
  {
    assert [stage][1..] == [];
    assert Run(db, map[], [], RunStage(db, map[], stage, rows)) == RunStage(db, map[], stage, rows);
  }

  lemma RunGraphOnce(db: Database, g: Graph, from: string, restrict: Option<Filter>, into: string, row: Value)
    ensures RunGraph(db, g, from, restrict, into, [row]) ==
      [SetField(row, into, Arr(GraphRows(g, Leaves(At(row, Segments(g.startWith))), Get(db, from), restrict)))]
  {
    assert [row][1..] == [] && RunGraph(db, g, from, restrict, into, []) == [];
  }

  lemma OwnFilterIsAdded(env: Env, source: Model, t: string)
    requires Isolated(env, source) && env.context.value.tenantId == Some(t) && t != ""
    ensures FilterForCollection(env, source.collection).Some?
  {
    FilterAmongIsModels(env, env.models, source.collection);
    assert TENANT_ID in ResolveTenantFilter(env, source.name).value.value.entries;
  }

  lemma OwnRowIsVisible(env: Env, source: Model, t: string)
    requires Isolated(env, source) && env.context.value.tenantId == Some(t) && t != ""
    ensures var coll := source.collection;
      FilterForCollection(env, coll).Some? &&
      Get(Slice(env, map[coll := [RowOf(TENANT_ID, t)]]), coll) == [RowOf(TENANT_ID, t)]
  {
    var coll, row := source.collection, RowOf(TENANT_ID, t);
    KeyOf(TENANT_ID, t);
    assert MaySee(env, source, row);
    SelectAll([row], r => MayRead(env, coll, r));
    OwnFilterIsAdded(env, source, t);
  }

  /**
   * `NoTenantKey` is needed: a caller of tenant `t` who restricts a graph search to tenant `u` finds
   * nothing on its slice, but the hooked search has its restriction replaced and finds a row.
   */
  lemma OwnRestrictionIsReplaced(env: Env, source: Model, t: string, u: string, into: string)
    requires Isolated(env, source) && env.context.value.tenantId == Some(t) && t != "" && u != t
    ensures var coll := source.collection;
      var db := map[coll := [RowOf(TENANT_ID, t)]];
      var stages := [GraphLookup(coll, SearchBy(TENANT_ID), Some(Field(TENANT_ID, Eq(Str(u)))), into)];
      Executed(env, source, stages).Ok? &&
      Run(db, map[], Executed(env, source, stages).value, Get(db, coll)) !=
      Run(Slice(env, db), map[], stages, Get(Slice(env, db), coll))
  {
    var coll, own := source.collection, Some(Field(TENANT_ID, Eq(Str(u))));
    var db := map[coll := [RowOf(TENANT_ID, t)]];
    OwnRowIsVisible(env, source, t);
    OneSearchHooked(env, source, db, own, into);
    OwnRestrictionFails(t, u);
    SearchesDiffer(Slice(env, db), TENANT_ID, t, coll, WithoutTenantKey(own), own, into);
  }

  lemma OneSearchHooked(env: Env, source: Model, db: Database, own: Option<Filter>, into: string)
    requires Isolated(env, source) && FilterForCollection(env, source.collection).Some?
    requires env.context.value.tenantId.Some? && env.context.value.tenantId.value != ""
    ensures var coll := source.collection;
      var open := GraphLookup(coll, SearchBy(TENANT_ID), WithoutTenantKey(own), into);
      var hooked := Executed(env, source, [GraphLookup(coll, SearchBy(TENANT_ID), own, into)]);
      hooked.Ok? &&
      Run(db, map[], hooked.value, Get(db, coll)) == Run(Slice(env, db), map[], [open], Get(Slice(env, db), coll))
  {
    HookedIsSlice(env, source, db, map[], [GraphLookup(source.collection, SearchBy(TENANT_ID), own, into)]);
  }

  lemma OwnRestrictionFails(t: string, u: string)
    requires t != u
    ensures var own := Some(Field(TENANT_ID, Eq(Str(u))));
      !Allowed(own, RowOf(TENANT_ID, t)) && Allowed(WithoutTenantKey(own), RowOf(TENANT_ID, t))
  {
    var row, own := RowOf(TENANT_ID, t), Field(TENANT_ID, Eq(Str(u)));
    KeyOf(TENANT_ID, t);
    FieldHolds(TENANT_ID, Eq(Str(u)), row);
    assert Matches(Eq(Str(u)), {Str(t)}) == Equals(Str(u), {Str(t)});
    assert Filter(own.entries - {TENANT_ID}) == EVERYTHING && Holds(EVERYTHING, row);
  }

  lemma SearchesDiffer(slice: Database, key: string, t: string, coll: string,
                       open: Option<Filter>, closed: Option<Filter>, into: string)
    requires '.' !in key && Get(slice, coll) == [RowOf(key, t)]
    requires Allowed(open, RowOf(key, t)) && !Allowed(closed, RowOf(key, t))
    ensures Run(slice, map[], [GraphLookup(coll, SearchBy(key), open, into)], Get(slice, coll)) !=
            Run(slice, map[], [GraphLookup(coll, SearchBy(key), closed, into)], Get(slice, coll))
  {
    RunSearch(slice, key, t, coll, open, into);
    RunSearch(slice, key, t, coll, closed, into);
    FieldsDiffer(RowOf(key, t), into, Arr([RowOf(key, t)]), Arr([]));
  }

  lemma FieldsDiffer(row: Value, into: string, a: Value, b: Value)
    requires row.Doc? && a != b
    ensures [SetField(row, into, a)] != [SetField(row, into, b)]
  {
    assert SetField(row, into, a).fields[into] != SetField(row, into, b).fields[into];
    assert [SetField(row, into, a)][0] != [SetField(row, into, b)][0];
  }

  /**
   * `Isolated` is needed: the pipelines of an exempt source model, and of one without tenants, stay
   * as they are, so any row of any collection can be joined, whoever may see it.
   */
  lemma ExemptSourceReadsAll(env: Env, source: Model, db: Database, coll: string, row: Value)
    requires (!source.scoped || !IsGuarded(env, source.name)) && row in Get(db, coll)
    ensures Executed(env, source, [UnionName(coll)]) == Ok([UnionName(coll)])
    ensures row in Run(db, map[], [UnionName(coll)], Get(db, source.collection))
  {
    assert [UnionName(coll)][1..] == [];
  }
}
