/**
 * The aggregate hook of the tenant plugin: it puts the tenant filter in front of a pipeline and
 * into every nested stage that reads another collection.
 */
module TenantReads {
  import opened Outcomes
  import opened Mongo
  import opened Tenancy
  import opened Pipeline

  // ---- the rewrite ----

  /** The filter for a joined collection: the first model of that collection decides. */
  function FilterForCollection(env: Env, coll: string): Option<Filter>
  {
    if coll == "" then None else FilterAmong(env, env.models, coll)
  }

  function FilterAmong(env: Env, models: seq<Model>, coll: string): Option<Filter>
  {
    if models == [] then None
    else if models[0].collection != coll then FilterAmong(env, models[1..], coll)
    else if !models[0].scoped then None
    else match ResolveTenantFilter(env, models[0].name)
      case Ok(Some(f)) => if f.entries == map[] then None else Some(f)
      case _ => None
  }

  function SecureStages(env: Env, stages: seq<Stage>): (r: seq<Stage>)
    ensures |r| == |stages|
    decreases stages
  {
    if stages == [] then [] else [SecureStage(env, stages[0])] + SecureStages(env, stages[1..])
  }

  function SecureSub(env: Env, filter: Option<Filter>, sub: SubPipeline): SubPipeline
    decreases sub
  {
    match (filter, sub)
    case (None, NoPipeline) => NoPipeline
    case (None, Nested(stages)) => Nested(SecureStages(env, stages))
    case (Some(f), NoPipeline) => Nested([Match(f)])
    case (Some(f), Nested(stages)) => Nested([Match(f)] + SecureStages(env, stages))
  }

  function SecureStage(env: Env, stage: Stage): Stage
    decreases stage
  {
    match stage
    case Lookup(from, _, _, sub, _) => stage.(sub := SecureSub(env, FilterForCollection(env, from), sub))
    case UnionName(coll) =>
      (match FilterForCollection(env, coll)
       case Some(f) => UnionWith(coll, Nested([Match(f)]))
       case None => stage)
    case UnionWith(coll, sub) => UnionWith(coll, SecureSub(env, FilterForCollection(env, coll), sub))
    case GraphLookup(from, _, restrict, _) =>
      (match FilterForCollection(env, from)
       case Some(f) => stage.(restrict := Some(Spread(restrict.GetOr(EVERYTHING), f)))
       case None => stage)
    case Facet(branches) => Facet(SecureBranches(env, branches))
    case _ => stage
  }

  function SecureBranches(env: Env, branches: seq<Branch>): (r: seq<Branch>)
    ensures |r| == |branches|
    decreases branches
  {
    if branches == [] then []
    else [Branch(branches[0].name, SecureStages(env, branches[0].stages))] + SecureBranches(env, branches[1..])
  }

  predicate IsWrite(stage: Stage) {
    stage.Out? || stage.Merge?
  }

  /** The pipeline after the hook, or an error. */
  function Hooked(env: Env, modelName: string, stages: seq<Stage>): Result<seq<Stage>> {
    match ResolveTenantFilter(env, modelName)
    case Err => Err
    case Ok(None) => Ok(stages)
    case Ok(Some(f)) =>
      if exists i :: 0 <= i < |stages| && IsWrite(stages[i]) then Err
      else Ok([Match(f)] + SecureStages(env, stages))
  }

  /** The pipeline that is executed: models without a `tenantId` path never get the hook. */
  function Executed(env: Env, source: Model, stages: seq<Stage>): Result<seq<Stage>> {
    if source.scoped then Hooked(env, source.name, stages) else Ok(stages)
  }

  /**
   * An aggregation is refused exactly where the source model is kept apart by tenant and the request
   * names no tenant, or the pipeline would write to a collection.
   */
  lemma RefusedExactly(env: Env, source: Model, stages: seq<Stage>)
    ensures Executed(env, source, stages).Err? <==>
      source.scoped && IsGuarded(env, source.name) &&
      (!HasTenantContext(env) || exists i :: 0 <= i < |stages| && (stages[i].Out? || stages[i].Merge?))
  {
    if i :| 0 <= i < |stages| && (stages[i].Out? || stages[i].Merge?) {
      assert IsWrite(stages[i]);
    }
    if i :| 0 <= i < |stages| && IsWrite(stages[i]) {
      assert stages[i].Out? || stages[i].Merge?;
    }
  }

  /** The in-place pass over the stages of one pipeline. */
  method SecureCrossCollectionStages(env: Env, pipeline: seq<Stage>) returns (secured: seq<Stage>)
    ensures secured == SecureStages(env, pipeline)
    decreases pipeline
  {
    secured := pipeline;
    for i := 0 to |pipeline|
      invariant |secured| == |pipeline|
      invariant secured[..i] == SecureStages(env, pipeline[..i])
      invariant secured[i..] == pipeline[i..]
    {
      var stage := pipeline[i];
      match stage {
        case Lookup(from, _, _, sub, _) =>
          var secureSub := SecureNested(env, FilterForCollection(env, from), sub);
          stage := stage.(sub := secureSub);
        case UnionName(coll) =>
          var filter := FilterForCollection(env, coll);
          if filter.Some? {
            stage := UnionWith(coll, Nested([Match(filter.value)]));
          }
        case UnionWith(coll, sub) =>
          var secureSub := SecureNested(env, FilterForCollection(env, coll), sub);
          stage := UnionWith(coll, secureSub);
        case GraphLookup(from, _, restrict, _) =>
          var filter := FilterForCollection(env, from);
          if filter.Some? {
            stage := stage.(restrict := Some(Spread(restrict.GetOr(EVERYTHING), filter.value)));
          }
        case Facet(branches) =>
          var secureBranches := SecureFacet(env, branches);
          stage := Facet(secureBranches);
        case _ =>
      }
      SecureStagesConcat(env, pipeline[..i], [pipeline[i]]);
      assert [pipeline[i]][1..] == [];
      assert pipeline[..i + 1] == pipeline[..i] + [pipeline[i]];
      ghost var before := secured;
      secured := secured[i := stage];
      assert secured[i + 1..] == before[i..][1..] && pipeline[i + 1..] == pipeline[i..][1..];
    }
    assert pipeline[..|pipeline|] == pipeline && secured[..|pipeline|] == secured;
  }

  method SecureFacet(env: Env, branches: seq<Branch>) returns (secured: seq<Branch>)
    ensures secured == SecureBranches(env, branches)
    decreases branches
  {
    secured := branches;
    for j := 0 to |branches|
      invariant |secured| == |branches|
      invariant secured[..j] == SecureBranches(env, branches[..j])
      invariant secured[j..] == branches[j..]
    {
      var stages := SecureCrossCollectionStages(env, branches[j].stages);
      SecureBranchesSnoc(env, branches[..j], branches[j]);
      secured := secured[j := Branch(branches[j].name, stages)];
      assert branches[..j + 1] == branches[..j] + [branches[j]];
    }
    assert branches[..|branches|] == branches && secured[..|branches|] == secured;
  }

  method SecureNested(env: Env, filter: Option<Filter>, sub: SubPipeline) returns (r: SubPipeline)
    ensures r == SecureSub(env, filter, sub)
    decreases sub
  {
    r := sub;
    if sub.Nested? {
      var stages := SecureCrossCollectionStages(env, sub.stages);
      r := Nested(stages);
    }
    if filter.Some? {
      r := Nested([Match(filter.value)] + if r.Nested? then r.stages else []);
    }
  }

  /** An aggregation whose pipeline the hook rewrites in place. */
  class Aggregation {
    const modelName: string
    var pipeline: seq<Stage>

    constructor (modelName: string, pipeline: seq<Stage>)
      ensures this.modelName == modelName && this.pipeline == pipeline
    {
      this.modelName := modelName;
      this.pipeline := pipeline;
    }

    method PreAggregate(env: Env) returns (ok: bool)
      modifies this
      ensures match Hooked(env, modelName, old(pipeline))
        case Ok(stages) => ok && pipeline == stages
        case Err => !ok && pipeline == old(pipeline)
    {
      var filter := ResolveTenantFilter(env, modelName);
      if filter.Err? {
        return false;
      }
      if filter.value.None? {
        return true;
      }
      if exists i :: 0 <= i < |pipeline| && IsWrite(pipeline[i]) {
        return false;
      }
      SecurePrepended(env, filter.value.value, pipeline);
      pipeline := [Match(filter.value.value)] + pipeline;
      pipeline := SecureCrossCollectionStages(env, pipeline);
      ok := true;
    }
  }

  lemma {:induction false} SecureStagesConcat(env: Env, a: seq<Stage>, b: seq<Stage>)
    ensures SecureStages(env, a + b) == SecureStages(env, a) + SecureStages(env, b)
  {
    if a == [] {
      assert a + b == b;
    } else {
      assert (a + b)[1..] == a[1..] + b;
      SecureStagesConcat(env, a[1..], b);
    }
  }

  lemma {:induction false} SecureBranchesSnoc(env: Env, a: seq<Branch>, b: Branch)
    ensures SecureBranches(env, a + [b]) ==
      SecureBranches(env, a) + [Branch(b.name, SecureStages(env, b.stages))]
  {
    if a == [] {
      assert a + [b] == [b] && [b][1..] == [];
    } else {
      assert (a + [b])[1..] == a[1..] + [b];
      SecureBranchesSnoc(env, a[1..], b);
    }
  }

  /** The pass leaves a filter it has put in front of a pipeline alone. */
  lemma SecurePrepended(env: Env, f: Filter, stages: seq<Stage>)
    ensures SecureStages(env, [Match(f)] + stages) == [Match(f)] + SecureStages(env, stages)
  {
    assert ([Match(f)] + stages)[1..] == stages;
  }
}
