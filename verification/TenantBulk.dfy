/** Bulk writes after their hook: which rows they can touch. */
module TenantBulk {
  import opened Outcomes
  import opened Mongo
  import opened Tenancy
  import opened TenantWrites
  import opened TenantRuns

  /**
   * One secured operation with the rows the database picks and the id it gives to an insert; an
   * update or replacement that inserts because nothing matches has an `upsert`, the other fields it
   * takes from its filter.
   */
  datatype BulkStep = BulkStep(op: BulkOp, targets: set<Id>, id: Id, upsert: Option<map<string, Value>>)

  ghost predicate Targets(rows: map<Id, Row>, filter: Filter, targets: set<Id>) {
    forall id :: id in targets ==> id in rows && Holds(filter, ToDoc(rows[id]))
  }

  ghost predicate Accepts(rows: map<Id, Row>, step: BulkStep) {
    step.op.UpdateOne? || step.op.UpdateMany? ==> Carries(rows, step.op.update, step.targets)
  }

  ghost predicate Fits(rows: map<Id, Row>, step: BulkStep)
    requires !step.op.InsertOne?
  {
    Targets(rows, step.op.filter, step.targets) && Accepts(rows, step) &&
    (step.upsert.Some? ==> step.id !in rows && forall id :: id in rows ==> !Holds(step.op.filter, ToDoc(rows[id])))
  }

  /** The tenant an upserted row takes from its filter. */
  function SeedTenant(f: Filter): Option<string> {
    if TENANT_ID !in f.entries then None
    else match f.entries[TENANT_ID]
      case Cond(Eq(Str(t))) => Some(t)
      case _ => None
  }

  /** `None` when the step does not fit the store. */
  ghost function Execute(rows: map<Id, Row>, step: BulkStep): Option<map<Id, Row>> {
    if step.op.InsertOne? then if step.id in rows then None else Some(rows[step.id := step.op.document])
    else if !Fits(rows, step) then None
    else
      match step.op
      case UpdateOne(f, u) => Some(Update(rows, f, u, step))
      case UpdateMany(f, u) => Some(Update(rows, f, u, step))
      case ReplaceOne(f, replacement) =>
        var after := map id | id in rows :: if id in step.targets then replacement else rows[id];
        Some(if step.upsert.Some? then after[step.id := replacement] else after)
      case _ => Some(rows - step.targets)
  }

  ghost function Update(rows: map<Id, Row>, f: Filter, u: Update, step: BulkStep): map<Id, Row> {
    var after := map id | id in rows :: if id in step.targets then Updated(rows[id], u) else rows[id];
    if step.upsert.None? then after
    else after[step.id := Updated(Row(Chosen(u.onInsert, SeedTenant(f)), step.upsert.value), u)]
  }

  ghost function ExecuteAll(rows: map<Id, Row>, steps: seq<BulkStep>): Option<map<Id, Row>>
    decreases steps
  {
    if steps == [] then Some(rows)
    else match Execute(rows, steps[0])
      case Some(next) => ExecuteAll(next, steps[1..])
      case None => None
  }

  ghost predicate IsSecured(op: BulkOp, f: Filter, own: Option<string>) {
    exists given: BulkOp :: op == SecureOp(given, f, own)
  }

  /** A secured operation only finds rows that the tenant filter admits, whatever its own filter says. */
  lemma SecuredFindsAdmitted(given: BulkOp, f: Filter, own: Option<string>, row: Row)
    requires !given.InsertOne? && Holds(SecureOp(given, f, own).filter, ToDoc(row))
    ensures Admits(Some(f), row)
  {
    HoldsSpread(given.filter, f, ToDoc(row));
  }

  /** The part of a caller's filter that survives: its own `tenantId` is replaced where there is a restriction. */
  ghost function OwnPart(env: Env, m: Model, f: Filter): Filter {
    if IsGuarded(env, m.name) &&
       ((env.context.value.tenantId.Some? && env.context.value.tenantId.value != "") ||
        env.context.value.tenantIds.Some?)
    then Filter(f.entries - {"tenantId"}) else f
  }

  /**
   * A secured operation other than an insert finds exactly the rows that the caller may see and that
   * satisfy its own filter, apart from a `tenantId` of that filter, which is replaced.
   */
  lemma SecuredFindsExactly(env: Env, m: Model, given: BulkOp, row: Row)
    requires m.scoped && HasTenantContext(env) && !given.InsertOne?
    ensures Holds(Secured(env, m.name, given).filter, ToDoc(row)) <==>
      MaySee(env, m, ToDoc(row)) && Holds(OwnPart(env, m, given.filter), ToDoc(row))
  {
    FilterAdmitsVisible(env, m, ToDoc(row));
    if IsGuarded(env, m.name) {
      var f := ResolveTenantFilter(env, m.name).value.value;
      HoldsSpread(given.filter, f, ToDoc(row));
      assert f.entries.Keys == {} || f.entries.Keys == {"tenantId"};
      assert Filter(given.filter.entries - f.entries.Keys) == OwnPart(env, m, given.filter);
    }
  }

  /**
   * In a whole bulk write a row is changed or removed only if the caller may see it and it satisfies
   * the filter of one of the operations given.
   */
  lemma {:induction false} BulkTouchesOnlyAskedFor(env: Env, m: Model, rows: map<Id, Row>, given: seq<BulkOp>,
                                                   steps: seq<BulkStep>, id: Id)
    requires m.scoped && HasTenantContext(env) && |given| == |steps|
    requires forall i :: 0 <= i < |steps| ==> steps[i].op == Secured(env, m.name, given[i])
    requires ExecuteAll(rows, steps).Some? && id in rows
    requires var after := ExecuteAll(rows, steps).value; id !in after || after[id] != rows[id]
    ensures MaySee(env, m, ToDoc(rows[id]))
    ensures exists k :: 0 <= k < |given| && AsksFor(env, m, given[k], rows[id])
    decreases steps
  {
    if steps != [] {
      var next := Execute(rows, steps[0]).value;
      if id in next && next[id] == rows[id] {
        BulkTouchesOnlyAskedFor(env, m, next, given[1..], steps[1..], id);
        var k :| 0 <= k < |given[1..]| && AsksFor(env, m, given[1..][k], rows[id]);
        assert given[k + 1] == given[1..][k];
      } else {
        assert steps[0].op.InsertOne? <==> given[0].InsertOne?;
        assert !given[0].InsertOne? && id in steps[0].targets;
        SecuredFindsExactly(env, m, given[0], rows[id]);
      }
    }
  }

  ghost predicate AsksFor(env: Env, m: Model, given: BulkOp, row: Row) {
    !given.InsertOne? && Holds(OwnPart(env, m, given.filter), ToDoc(row))
  }

  /** A bulk insert is stored as given, and without a tenant under the caller's. */
  lemma BulkInsertIsStamped(env: Env, model: string, t: string, rows: map<Id, Row>, doc: Row, id: Id)
    requires ActsFor(env, model, t) && id !in rows
    ensures
      var step := BulkStep(Secured(env, model, InsertOne(doc)), {}, id, None);
      Execute(rows, step) ==
        Some(rows[id := if doc.tenant.None? || doc.tenant.value == "" then Row(Some(t), doc.data) else doc])
  {
    assert ResolveTenantFilter(env, model) == Ok(Some(Field(TENANT_ID, Eq(Str(t)))));
    assert ResolveSingleTenantId(env, model) == Some(t);
    var stored := if doc.tenant.None? || doc.tenant.value == "" then Row(Some(t), doc.data) else doc;
    assert Secured(env, model, InsertOne(doc)) == InsertOne(stored);
  }

  /** Rows the filter does not admit are as they were. */
  ghost predicate KeepsForeign(before: map<Id, Row>, after: map<Id, Row>, f: Filter) {
    forall id :: id in before && !Admits(Some(f), before[id]) ==> id in after && after[id] == before[id]
  }

  lemma ExecuteKeepsForeign(rows: map<Id, Row>, step: BulkStep, f: Filter, own: Option<string>)
    requires IsSecured(step.op, f, own) && Execute(rows, step).Some?
    ensures KeepsForeign(rows, Execute(rows, step).value, f)
  {
    var given: BulkOp :| step.op == SecureOp(given, f, own);
    if !given.InsertOne? {
      forall id | id in rows && id in step.targets
        ensures Admits(Some(f), rows[id])
      {
        SecuredFindsAdmitted(given, f, own, rows[id]);
      }
    }
  }

  /** A whole bulk write changes and removes only rows that the tenant filter admits. */
  lemma {:induction false} BulkKeepsForeign(rows: map<Id, Row>, steps: seq<BulkStep>, f: Filter, own: Option<string>)
    requires forall i :: 0 <= i < |steps| ==> IsSecured(steps[i].op, f, own)
    requires ExecuteAll(rows, steps).Some?
    ensures KeepsForeign(rows, ExecuteAll(rows, steps).value, f)
    decreases steps
  {
    if steps != [] {
      ExecuteKeepsForeign(rows, steps[0], f, own);
      BulkKeepsForeign(Execute(rows, steps[0]).value, steps[1..], f, own);
    }
  }

  /** Does the payload name tenant `u` for the rows it is written to? */
  predicate Names(op: BulkOp, row: Row, u: string, inserts: bool) {
    match op
    case UpdateOne(_, update) => UpdateNames(update, row, u, inserts)
    case UpdateMany(_, update) => UpdateNames(update, row, u, inserts)
    case ReplaceOne(_, replacement) => replacement.tenant == Some(u)
    case _ => false
  }

  /** Under one of the operators, or by an unread operator on a row like `row`. */
  predicate UpdateNames(update: Update, row: Row, u: string, inserts: bool) {
    Brings(update.unread, row) == Some(u) ||
    Chosen(update.set_, Chosen(update.flat, if inserts then Chosen(update.onInsert, None) else None)) == Some(u)
  }

  /** Does a row the step writes get tenant `u`? */
  predicate Plants(given: BulkOp, step: BulkStep, rows: map<Id, Row>, t: string, u: string) {
    match given
    case InsertOne(document) => document.tenant == Some(u)
    case _ =>
      (exists id :: id in step.targets && id in rows && Names(given, rows[id], u, false)) ||
      (step.upsert.Some? && Names(given, Row(Some(t), step.upsert.value), u, true))
  }

  ghost predicate SameRowsOf(before: map<Id, Row>, after: map<Id, Row>, u: string) {
    RowsOf(State(after, map[], {}), u) == RowsOf(State(before, map[], {}), u)
  }

  /** What the rows of one tenant are, row by row. */
  lemma SameRowsExactly(before: map<Id, Row>, after: map<Id, Row>, u: string)
    ensures SameRowsOf(before, after, u) <==>
      (forall id :: id in before && before[id].tenant == Some(u) ==> id in after && after[id] == before[id]) &&
      (forall id :: id in after && after[id].tenant == Some(u) ==> id in before && before[id].tenant == Some(u))
  {
    var x, y := RowsOf(State(before, map[], {}), u), RowsOf(State(after, map[], {}), u);
    if x == y {
      forall id | id in before && before[id].tenant == Some(u) ensures id in after && after[id] == before[id] {
        assert id in x && id in y;
      }
      forall id | id in after && after[id].tenant == Some(u) ensures id in before && before[id].tenant == Some(u) {
        assert id in y && id in x;
      }
    }
  }

  /** Secured operations of a tenant find only its own rows. */
  lemma SecuredFindsOwn(env: Env, model: string, t: string, rows: map<Id, Row>, given: BulkOp, step: BulkStep)
    requires ActsFor(env, model, t) && !given.InsertOne?
    requires step.op == Secured(env, model, given) && Execute(rows, step).Some?
    ensures forall id :: id in step.targets ==> rows[id].tenant == Some(t)
    ensures SeedTenant(step.op.filter) == Some(t)
  {
    var f := Field(TENANT_ID, Eq(Str(t)));
    assert ResolveTenantFilter(env, model) == Ok(Some(f));
    forall id | id in step.targets ensures rows[id].tenant == Some(t) {
      SecuredFindsAdmitted(given, f, ResolveSingleTenantId(env, model), rows[id]);
      AddedFilterIsTenant(env, model, t, rows[id]);
    }
  }

  /** The operation as the hook leaves it in the request of one tenant. */
  function Secured(env: Env, model: string, given: BulkOp): BulkOp {
    var filter := ResolveTenantFilter(env, model);
    if filter.Ok? && filter.value.Some? then SecureOp(given, filter.value.value, ResolveSingleTenantId(env, model))
      else given
  }

  /**
   * The hook does not check which tenant a bulk payload names: an operation in the request of tenant
   * `t` leaves another tenant's rows alone exactly when its payload names that tenant for no row
   * that is written.
   */
  lemma BulkPlantsExactly(env: Env, model: string, t: string, rows: map<Id, Row>, given: BulkOp, step: BulkStep,
                          u: string)
    requires ActsFor(env, model, t) && u != t && u != ""
    requires step.op == Secured(env, model, given) && Execute(rows, step).Some?
    ensures SameRowsOf(rows, Execute(rows, step).value, u) <==> !Plants(given, step, rows, t, u)
  {
    assert ResolveTenantFilter(env, model) == Ok(Some(Field(TENANT_ID, Eq(Str(t)))));
    match given
    case InsertOne(_) => InsertPlants(rows, step, u);
    case DeleteOne(_) => DeletePlants(env, model, t, rows, given, step, u);
    case DeleteMany(_) => DeletePlants(env, model, t, rows, given, step, u);
    case _ =>
      SecuredFindsOwn(env, model, t, rows, given, step);
      WritePlants(rows, given, step, t, u);
  }

  lemma InsertPlants(rows: map<Id, Row>, step: BulkStep, u: string)
    requires step.op.InsertOne? && Execute(rows, step).Some?
    ensures SameRowsOf(rows, Execute(rows, step).value, u) <==> step.op.document.tenant != Some(u)
  {
    var after := Execute(rows, step).value;
    SameRowsExactly(rows, after, u);
    assert step.id in after && step.id !in rows;
  }

  lemma DeletePlants(env: Env, model: string, t: string, rows: map<Id, Row>, given: BulkOp, step: BulkStep, u: string)
    requires ActsFor(env, model, t) && u != t && (given.DeleteOne? || given.DeleteMany?)
    requires step.op == Secured(env, model, given) && Execute(rows, step).Some?
    ensures SameRowsOf(rows, Execute(rows, step).value, u)
  {
    SecuredFindsOwn(env, model, t, rows, given, step);
    SameRowsExactly(rows, rows - step.targets, u);
  }

  lemma WritePlants(rows: map<Id, Row>, given: BulkOp, step: BulkStep, t: string, u: string)
    requires (given.UpdateOne? || given.UpdateMany? || given.ReplaceOne?) && SameButFilter(given, step.op)
    requires Execute(rows, step).Some? && u != t
    requires (forall id :: id in step.targets ==> rows[id].tenant == Some(t)) && SeedTenant(step.op.filter) == Some(t)
    ensures SameRowsOf(rows, Execute(rows, step).value, u) <==> !Plants(given, step, rows, t, u)
  {
    var after := Execute(rows, step).value;
    SameRowsExactly(rows, after, u);
    forall id | id in rows ensures WrittenAs(rows, given, step, t, u, id) {
      RowWritten(rows, given, step, t, u, id);
    }
    if step.upsert.Some? {
      UpsertWritten(rows, given, step, t, u);
    }
    if id :| id in step.targets && id in rows && Names(given, rows[id], u, false) {
      assert WrittenAs(rows, given, step, t, u, id);
    }
    assert after.Keys <= rows.Keys + if step.upsert.Some? then {step.id} else {};
  }

  /** The hook changes nothing but the filter. */
  predicate SameButFilter(given: BulkOp, op: BulkOp)
    requires !given.InsertOne?
  {
    !op.InsertOne? && op == given.(filter := op.filter)
  }

  /** What a write does to the row under `id`. */
  ghost predicate WrittenAs(rows: map<Id, Row>, given: BulkOp, step: BulkStep, t: string, u: string, id: Id)
    requires id in rows && Execute(rows, step).Some?
  {
    var after := Execute(rows, step).value;
    id in after &&
    if id in step.targets then
      rows[id].tenant == Some(t) && (after[id].tenant == Some(u) <==> Names(given, rows[id], u, false))
    else after[id] == rows[id]
  }

  lemma RowWritten(rows: map<Id, Row>, given: BulkOp, step: BulkStep, t: string, u: string, id: Id)
    requires (given.UpdateOne? || given.UpdateMany? || given.ReplaceOne?) && SameButFilter(given, step.op)
    requires Execute(rows, step).Some? && u != t
    requires (id in step.targets ==> rows[id].tenant == Some(t)) && id in rows
    ensures WrittenAs(rows, given, step, t, u, id)
  {
  }

  lemma UpsertWritten(rows: map<Id, Row>, given: BulkOp, step: BulkStep, t: string, u: string)
    requires (given.UpdateOne? || given.UpdateMany? || given.ReplaceOne?) && SameButFilter(given, step.op)
    requires Execute(rows, step).Some? && u != t
    requires step.upsert.Some? && SeedTenant(step.op.filter) == Some(t)
    ensures step.id !in rows && step.id in Execute(rows, step).value
    ensures Execute(rows, step).value[step.id].tenant == Some(u) <==>
      Names(given, Row(Some(t), step.upsert.value), u, true)
  {
  }

  /** A bulk insert, which is not checked either, plants a row exactly if its document names the tenant. */
  lemma BulkInsertPlantsExactly(env: Env, model: string, t: string, rows: map<Id, Row>, doc: Row, id: Id, u: string)
    requires ActsFor(env, model, t) && u != t && u != "" && id !in rows
    ensures
      var step := BulkStep(Secured(env, model, InsertOne(doc)), {}, id, None);
      SameRowsOf(rows, Execute(rows, step).value, u) <==> doc.tenant != Some(u)
  {
    var step := BulkStep(Secured(env, model, InsertOne(doc)), {}, id, None);
    BulkPlantsExactly(env, model, t, rows, InsertOne(doc), step, u);
  }
}
