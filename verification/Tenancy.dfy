/** Who may see which rows: the request context, and the tenant filter it resolves to for a model. */
module Tenancy {
  import opened Outcomes
  import opened Mongo

  /** The request context; `tenantId` and `tenantIds` were validated before they were put here. */
  datatype Context = Context(
    bypassTenantGuard: bool,
    tenantId: Option<string>,
    tenantIds: Option<seq<string>>,
    isAdminBypass: bool)

  /** A registered model; `scoped` says that its schema has a `tenantId` path. */
  datatype Model = Model(name: string, collection: string, scoped: bool)

  datatype Env = Env(
    enabled: bool,
    excludeSchemas: set<string>,
    context: Option<Context>,
    models: seq<Model>)

  const TENANT_ID := "tenantId"

  predicate ShouldBypass(env: Env, modelName: string) {
    || !env.enabled
    || env.context.None?
    || env.context.value.bypassTenantGuard
    || (modelName != "" && modelName in env.excludeSchemas)
  }

  /** A JavaScript string is truthy when it is present and not empty. */
  predicate Truthy(s: Option<string>) {
    s.Some? && s.value != ""
  }

  function StrSeq(ss: seq<string>): seq<Value> {
    seq(|ss|, i requires 0 <= i < |ss| => Str(ss[i]))
  }

  /**
   * `None`: no filter. An empty filter: an administrator without a tenant header.
   * Reading tenant-scoped data without any tenant context is an error.
   */
  function ResolveTenantFilter(env: Env, modelName: string): Result<Option<Filter>> {
    if ShouldBypass(env, modelName) then Ok(None)
    else
      var c := env.context.value;
      if Truthy(c.tenantId) then Ok(Some(Field(TENANT_ID, Eq(Str(c.tenantId.value)))))
      else if c.tenantIds.Some? then Ok(Some(Field(TENANT_ID, In(Arr(StrSeq(c.tenantIds.value))))))
      else if c.isAdminBypass then Ok(Some(EVERYTHING))
      else Err
  }

  /** The tenant a write belongs to: only a tenant header names one. */
  function ResolveSingleTenantId(env: Env, modelName: string): Option<string> {
    if ShouldBypass(env, modelName) then None
    else if Truthy(env.context.value.tenantId) then env.context.value.tenantId
    else None
  }

  // ---- what is promised, stated without the code's tests and filters ----

  /** Multi-tenancy is on, there is a request that does not bypass it, and the model is not exempt. */
  ghost predicate IsGuarded(env: Env, modelName: string) {
    env.enabled && env.context.Some? && !env.context.value.bypassTenantGuard &&
    (modelName == "" || modelName !in env.excludeSchemas)
  }

  /** The context names the tenants it may see, or is the administrator's. */
  ghost predicate HasTenantContext(env: Env) {
    env.context.Some? ==>
      var c := env.context.value;
      (c.tenantId.Some? && c.tenantId.value != "") || c.tenantIds.Some? || c.isAdminBypass
  }

  /** May the caller see this row of this model? */
  ghost predicate MaySee(env: Env, m: Model, row: Value) {
    !m.scoped || !IsGuarded(env, m.name) ||
    var c := env.context.value;
    var tenants := At(row, ["tenantId"]);
    if c.tenantId.Some? && c.tenantId.value != "" then Equals(Str(c.tenantId.value), tenants)
    else if c.tenantIds.Some? then exists t :: t in c.tenantIds.value && Equals(Str(t), tenants)
    else c.isAdminBypass
  }

  lemma FieldHolds(path: string, c: Cond, row: Value)
    requires '.' !in path
    ensures Holds(Field(path, c), row) == Matches(c, At(row, [path]))
  {
    HoldsOne(path, Cond(c), row);
    SegmentsSimple(path);
  }

  /** A list of tenants admits the rows of any of them. */
  lemma ListFilterMeans(ids: seq<string>, row: Value)
    ensures Holds(Field(TENANT_ID, In(Arr(StrSeq(ids)))), row) <==>
      exists t :: t in ids && Equals(Str(t), At(row, [TENANT_ID]))
  {
    var found := At(row, [TENANT_ID]);
    FieldHolds(TENANT_ID, In(Arr(StrSeq(ids))), row);
    forall i | 0 <= i < |ids| ensures ids[i] in ids && StrSeq(ids)[i] in StrSeq(ids) {
    }
  }

  /** The resolved filter admits exactly the rows the caller may see. */
  lemma FilterAdmitsVisible(env: Env, m: Model, row: Value)
    requires m.scoped
    ensures match ResolveTenantFilter(env, m.name)
      case Ok(Some(f)) => Holds(f, row) == MaySee(env, m, row)
      case Ok(None) => MaySee(env, m, row)
      case Err => !MaySee(env, m, row)
  {
    if !ShouldBypass(env, m.name) {
      var c := env.context.value;
      if Truthy(c.tenantId) {
        FieldHolds(TENANT_ID, Eq(Str(c.tenantId.value)), row);
      } else if c.tenantIds.Some? {
        ListFilterMeans(c.tenantIds.value, row);
      }
    }
  }
}
