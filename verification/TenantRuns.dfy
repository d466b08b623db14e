/** Runs of tenant-scoped writes: what one tenant does never changes another tenant's rows. */
module TenantRuns {
  import opened Outcomes
  import opened Strings
  import opened Mongo
  import opened Tenancy
  import opened TenantWrites

  // ---- one write on the store ----

  /**
   * `targets` are the rows the database picks among the matching ones, `upsert` the id of the row
   * it inserts when nothing matches; `seed` are the fields an upsert takes from the caller's filter.
   */
  datatype Op =
    | UpdateRows(filter: Filter, update: Update, targets: set<Id>, upsert: Option<Id>, seed: map<string, Value>)
    | ReplaceRows(filter: Filter, replacement: Row, targets: set<Id>, upsert: Option<Id>)
    | DeleteRows(filter: Filter, targets: set<Id>)
    | InsertMany(docs: seq<Row>, ids: seq<Id>)
    | SaveNew(doc: Row, id: Id)
    | Load(filter: Filter, id: Id, handle: Handle)
    | Edit(handle: Handle, tenant: Given, data: map<string, Value>)
    | SaveLoaded(handle: Handle)

  ghost predicate Admits(filter: Option<Filter>, row: Row) {
    filter.Some? ==> Holds(filter.value, ToDoc(row))
  }

  ghost function Matching(rows: map<Id, Row>, filter: Filter, tenant: Option<Filter>): set<Id> {
    set id | id in rows && Holds(filter, ToDoc(rows[id])) && Admits(tenant, rows[id])
  }

  function Chosen(g: Given, otherwise: Option<string>): Option<string> {
    if g.Given? then g.tenant else otherwise
  }

  /** The tenant an unread operator brings to a row, if any. */
  function Brings(u: Unread, row: Row): Option<string> {
    match u
    case Nothing => None
    case Min(v) => if row.tenant.Some? && !StringLess(v, row.tenant.value) then None else Some(v)
    case Max(v) => if row.tenant.Some? && !StringLess(row.tenant.value, v) then None else Some(v)
    case Rename(from) => if from in row.data && row.data[from].Str? then Some(row.data[from].s) else None
  }

  /** The row after the unread operator. A renamed null leaves no tenant. */
  function Moved(u: Unread, row: Row): Row {
    var brought := Brings(u, row);
    if u.Rename? && u.from in row.data then Row(brought, row.data - {u.from})
    else row.(tenant := if brought.Some? then brought else row.tenant)
  }

  /** The database refuses an update in which an unread operator and another one meet. */
  predicate Clashes(u: Update) {
    u.unread != Nothing &&
    (u.flat != Absent || u.set_ != Absent || u.onInsert != Absent || (u.unread.Rename? && u.unread.from in u.data))
  }

  /** What is renamed to `tenantId` is a text or null. */
  predicate Movable(u: Unread, row: Row) {
    u.Rename? && u.from in row.data ==> row.data[u.from].Str? || row.data[u.from] == Null
  }

  function Updated(row: Row, u: Update): Row {
    var moved := Moved(u.unread, row);
    Row(Chosen(u.set_, Chosen(u.flat, moved.tenant)), moved.data + u.data)
  }

  /** The tenant an upserted row takes from the added filter. */
  function SeedTenant(env: Env, model: string): Option<string> {
    ResolveSingleTenantId(env, model)
  }

  ghost predicate Picks(rows: map<Id, Row>, matching: set<Id>, targets: set<Id>, upsert: Option<Id>) {
    targets <= matching && (upsert.Some? ==> matching == {} && upsert.value !in rows)
  }

  /** The database accepts the update, and it makes tenants of texts and nulls only. */
  ghost predicate Carries(rows: map<Id, Row>, u: Update, targets: set<Id>) {
    !Clashes(u) && forall id :: id in targets && id in rows ==> Movable(u.unread, rows[id])
  }

  /** One operation after its hook; `Err` when the hook refuses it or the database cannot do it. */
  ghost function Apply(env: Env, model: string, st: State, op: Op): Result<State> {
    match op
    case UpdateRows(filter, u, targets, upsert, seed) =>
      var tenant :- PreQuery(env, model, [u.flat, u.set_, u.onInsert]);
      if !Picks(st.rows, Matching(st.rows, filter, tenant), targets, upsert) || !Carries(st.rows, u, targets) then Err
      else
        var rows := map id | id in st.rows :: if id in targets then Updated(st.rows[id], u) else st.rows[id];
        var added := Updated(Row(Chosen(u.onInsert, SeedTenant(env, model)), seed), u);
        Ok(if upsert.Some? then Inserted(st.(rows := rows), upsert.value, added) else st.(rows := rows))
    case ReplaceRows(filter, replacement, targets, upsert) =>
      var tenant :- PreQuery(env, model, [Given(replacement.tenant)]);
      if !Picks(st.rows, Matching(st.rows, filter, tenant), targets, upsert) then Err
      else
        var rows := map id | id in st.rows :: if id in targets then replacement else st.rows[id];
        Ok(if upsert.Some? then Inserted(st.(rows := rows), upsert.value, replacement) else st.(rows := rows))
    case DeleteRows(filter, targets) =>
      var tenant :- PreQuery(env, model, []);
      if !(targets <= Matching(st.rows, filter, tenant)) then Err
      else Ok(st.(rows := st.rows - targets))
    case InsertMany(docs, ids) =>
      var stamped :- StampAll(env, model, docs);
      if |ids| != |docs| then Err else InsertAll(st, stamped, ids)
    case SaveNew(doc, id) =>
      var tenant :- Stamp(env, model, doc.tenant, true);
      if id in st.rows then Err else Ok(Inserted(st, id, doc.(tenant := tenant)))
    case Load(filter, id, handle) =>
      var tenant :- PreQuery(env, model, []);
      if id !in Matching(st.rows, filter, tenant) then Err
      else
        var row := st.rows[id];
        Ok(st.(docs := st.docs[handle := Loaded(Caller(env), id, row.tenant, false, map[])]))
    case Edit(handle, tenant, data) =>
      if handle !in st.docs then Err
      else
        var d := st.docs[handle];
        var edited := d.(tenant := Chosen(tenant, d.tenant), tenantModified := d.tenantModified || tenant.Given?,
                         data := d.data + data);
        Ok(st.(docs := st.docs[handle := edited]))
    case SaveLoaded(handle) =>
      if handle !in st.docs then Err
      else
        var d := st.docs[handle];
        var tenant :- Stamp(env, model, d.tenant, false);
        if d.id !in st.rows then Err else Ok(st.(rows := st.rows[d.id := Saved(st.rows[d.id], d)]))
  }

  function Inserted(st: State, id: Id, row: Row): State {
    st.(rows := st.rows[id := row], used := st.used + {id})
  }

  function InsertAll(st: State, rows: seq<Row>, ids: seq<Id>): Result<State>
    requires |rows| == |ids|
    decreases rows
  {
    if rows == [] then Ok(st)
    else if ids[0] in st.rows then Err
    else InsertAll(Inserted(st, ids[0], rows[0]), rows[1..], ids[1..])
  }

  /** A save of a loaded document writes its modified fields to the row with its id, whoever owns that row. */
  function Saved(row: Row, d: Loaded): Row {
    Row(if d.tenantModified then d.tenant else row.tenant, row.data + d.data)
  }

  /** The tenant of the request, for the books only. */
  function Caller(env: Env): string {
    if env.context.Some? then env.context.value.tenantId.GetOr("") else ""
  }

  // ---- one tenant's step ----

  /** The request of one validated tenant, with the plugin in force. */
  ghost predicate ActsFor(env: Env, model: string, t: string) {
    t != "" && IsGuarded(env, model) && env.context.value.tenantId == Some(t)
  }

  ghost function RowsOf(st: State, u: string): map<Id, Row> {
    map id | id in st.rows && st.rows[id].tenant == Some(u) :: st.rows[id]
  }

  /** The row belongs to `t` or to nobody. */
  predicate OwnOrFree(row: Row, t: string) {
    row.tenant == None || row.tenant == Some(t)
  }

  lemma TenantEquals(row: Row, t: string)
    ensures Equals(Str(t), At(ToDoc(row), [TENANT_ID])) <==> row.tenant == Some(t)
  {
    var found := At(ToDoc(row), [TENANT_ID]);
    match row.tenant
    case Some(own) =>
      assert ToDoc(row).fields[TENANT_ID] == Str(own);
      assert found == At(Str(own), [TENANT_ID][1..]) == {Str(own)};
      assert Leaves(found) == found;
    case None =>
      assert TENANT_ID !in ToDoc(row).fields;
      assert found == {};
  }

  lemma AddedFilterIsTenant(env: Env, model: string, t: string, row: Row)
    requires ActsFor(env, model, t)
    ensures ResolveTenantFilter(env, model).Ok? && ResolveTenantFilter(env, model).value.Some?
    ensures Admits(ResolveTenantFilter(env, model).value, row) <==> row.tenant == Some(t)
  {
    assert ResolveTenantFilter(env, model) == Ok(Some(Field(TENANT_ID, Eq(Str(t)))));
    FieldHolds(TENANT_ID, Eq(Str(t)), ToDoc(row));
    TenantEquals(row, t);
  }

  /** Every row the step changes or removes was `t`'s own or nobody's, and every row it leaves there is too. */
  ghost predicate TouchesOnly(before: map<Id, Row>, after: map<Id, Row>, t: string) {
    (forall id :: id in before && !(id in after && after[id] == before[id]) ==> OwnOrFree(before[id], t)) &&
    (forall id :: id in after && !(id in before && after[id] == before[id]) ==> OwnOrFree(after[id], t))
  }

  lemma {:induction false} InsertAllTouches(st: State, rows: seq<Row>, ids: seq<Id>, t: string)
    requires |rows| == |ids| && InsertAll(st, rows, ids).Ok?
    requires forall i :: 0 <= i < |rows| ==> OwnOrFree(rows[i], t)
    ensures TouchesOnly(st.rows, InsertAll(st, rows, ids).value.rows, t)
    decreases rows
  {
    if rows != [] {
      InsertAllTouches(Inserted(st, ids[0], rows[0]), rows[1..], ids[1..], t);
    }
  }

  lemma {:induction false} StampedOwn(env: Env, model: string, docs: seq<Row>, t: string)
    requires ActsFor(env, model, t) && StampAll(env, model, docs).Ok?
    ensures forall i :: 0 <= i < |docs| ==> OwnOrFree(StampAll(env, model, docs).value[i], t)
  {
    if docs != [] {
      StampedOwn(env, model, docs[1..], t);
    }
  }

  /** The row a save of a loaded document would overwrite is the caller's own or nobody's. */
  predicate SavesOwnRow(st: State, op: Op, t: string) {
    op.SaveLoaded? && op.handle in st.docs && st.docs[op.handle].id in st.rows ==>
      OwnOrFree(st.rows[st.docs[op.handle].id], t)
  }

  /** An unread operator of an update brings no tenant other than `t` to the rows it is for. */
  predicate StaysHome(st: State, op: Op, t: string) {
    op.UpdateRows? ==>
      (forall id :: id in op.targets && id in st.rows ==> BringsAtMost(op.update.unread, st.rows[id], t)) &&
      (op.upsert.Some? ==> BringsAtMost(op.update.unread, Row(Some(t), op.seed), t))
  }

  predicate BringsAtMost(u: Unread, row: Row, t: string) {
    Brings(u, row) == None || Brings(u, row) == Some(t)
  }

  /** The added filter keeps query operations to the caller's own rows. */
  ghost predicate QueriesOwn(env: Env, model: string, t: string, st: State) {
    ResolveTenantFilter(env, model).Ok? &&
    forall id :: id in st.rows ==>
      (Admits(ResolveTenantFilter(env, model).value, st.rows[id]) <==> st.rows[id].tenant == Some(t))
  }

  lemma UpdateTouchesOwn(env: Env, model: string, t: string, st: State, op: Op)
    requires op.UpdateRows? && ActsFor(env, model, t) && Apply(env, model, st, op).Ok?
    requires QueriesOwn(env, model, t, st) && StaysHome(st, op, t)
    ensures TouchesOnly(st.rows, Apply(env, model, st, op).value.rows, t)
  {
    var given := [op.update.flat, op.update.set_, op.update.onInsert];
    assert MayGive(given[0], t) && MayGive(given[1], t) && MayGive(given[2], t);
  }

  lemma ReplaceTouchesOwn(env: Env, model: string, t: string, st: State, op: Op)
    requires op.ReplaceRows? && ActsFor(env, model, t) && Apply(env, model, st, op).Ok?
    requires QueriesOwn(env, model, t, st)
    ensures TouchesOnly(st.rows, Apply(env, model, st, op).value.rows, t)
  {
    var given := [Given(op.replacement.tenant)];
    assert MayGive(given[0], t);
  }

  lemma StepTouchesOwn(env: Env, model: string, t: string, st: State, op: Op)
    requires ActsFor(env, model, t) && Apply(env, model, st, op).Ok? && SavesOwnRow(st, op, t) && StaysHome(st, op, t)
    ensures TouchesOnly(st.rows, Apply(env, model, st, op).value.rows, t)
  {
    forall id | id in st.rows
      ensures Admits(ResolveTenantFilter(env, model).value, st.rows[id]) <==> st.rows[id].tenant == Some(t)
    {
      AddedFilterIsTenant(env, model, t, st.rows[id]);
    }
    match op
    case UpdateRows(_, _, _, _, _) => UpdateTouchesOwn(env, model, t, st, op);
    case ReplaceRows(_, _, _, _) => ReplaceTouchesOwn(env, model, t, st, op);
    case InsertMany(docs, ids) =>
      StampedOwn(env, model, docs, t);
      InsertAllTouches(st, StampAll(env, model, docs).value, ids, t);
    case _ =>
  }

  lemma TouchedKeepsOthers(st: State, st': State, t: string, u: string)
    requires TouchesOnly(st.rows, st'.rows, t) && u != t
    ensures RowsOf(st', u) == RowsOf(st, u)
  {
  }

  /** One step for tenant `t` leaves the rows of every other tenant exactly as they were. */
  lemma StepKeepsOthers(env: Env, model: string, t: string, st: State, op: Op, u: string)
    requires ActsFor(env, model, t) && Apply(env, model, st, op).Ok? && SavesOwnRow(st, op, t) && StaysHome(st, op, t)
    requires u != t
    ensures RowsOf(Apply(env, model, st, op).value, u) == RowsOf(st, u)
  {
    StepTouchesOwn(env, model, t, st, op);
    TouchedKeepsOthers(st, Apply(env, model, st, op).value, t, u);
  }

  /** For an update, `StaysHome` is exactly what it takes. */
  lemma UpdateKeepsOthersExactly(env: Env, model: string, t: string, st: State, op: Op)
    requires ActsFor(env, model, t) && op.UpdateRows? && Apply(env, model, st, op).Ok?
    ensures (forall u :: u != t ==> RowsOf(Apply(env, model, st, op).value, u) == RowsOf(st, u)) <==>
      StaysHome(st, op, t)
  {
    if StaysHome(st, op, t) {
      forall u | u != t
        ensures RowsOf(Apply(env, model, st, op).value, u) == RowsOf(st, u)
      {
        StepKeepsOthers(env, model, t, st, op, u);
      }
    } else if id :| id in op.targets && id in st.rows && !BringsAtMost(op.update.unread, st.rows[id], t) {
      AddedFilterIsTenant(env, model, t, st.rows[id]);
      RowMoves(env, model, t, st, op, id);
    } else {
      UpsertMoves(env, model, t, st, op);
    }
  }

  lemma RowMoves(env: Env, model: string, t: string, st: State, op: Op, id: Id)
    requires ActsFor(env, model, t) && op.UpdateRows? && Apply(env, model, st, op).Ok?
    requires id in op.targets && id in st.rows && st.rows[id].tenant == Some(t)
    requires !BringsAtMost(op.update.unread, st.rows[id], t)
    ensures exists u :: u != t && RowsOf(Apply(env, model, st, op).value, u) != RowsOf(st, u)
  {
    var st' := Apply(env, model, st, op).value;
    var u := Brings(op.update.unread, st.rows[id]).value;
    assert st'.rows[id] == Updated(st.rows[id], op.update);
    assert id in RowsOf(st', u) && id !in RowsOf(st, u);
  }

  lemma UpsertMoves(env: Env, model: string, t: string, st: State, op: Op)
    requires ActsFor(env, model, t) && op.UpdateRows? && Apply(env, model, st, op).Ok?
    requires op.upsert.Some? && !BringsAtMost(op.update.unread, Row(Some(t), op.seed), t)
    ensures exists u :: u != t && RowsOf(Apply(env, model, st, op).value, u) != RowsOf(st, u)
  {
    var st' := Apply(env, model, st, op).value;
    var id, row := op.upsert.value, Row(Some(t), op.seed);
    var u := Brings(op.update.unread, row).value;
    assert st'.rows[id] == Updated(row, op.update);
    assert id in RowsOf(st', u) && id !in RowsOf(st, u);
  }

  /** For a save, `SavesOwnRow` is exactly what it takes, unless the save writes what is there already. */
  lemma SaveKeepsOthersExactly(env: Env, model: string, t: string, st: State, handle: Handle)
    requires ActsFor(env, model, t) && Apply(env, model, st, SaveLoaded(handle)).Ok?
    requires var d := st.docs[handle]; Saved(st.rows[d.id], d) != st.rows[d.id]
    ensures (forall u :: u != t ==> RowsOf(Apply(env, model, st, SaveLoaded(handle)).value, u) == RowsOf(st, u)) <==>
      SavesOwnRow(st, SaveLoaded(handle), t)
  {
    var st' := Apply(env, model, st, SaveLoaded(handle)).value;
    var id := st.docs[handle].id;
    if SavesOwnRow(st, SaveLoaded(handle), t) {
      forall u | u != t
        ensures RowsOf(st', u) == RowsOf(st, u)
      {
        StepKeepsOthers(env, model, t, st, SaveLoaded(handle), u);
      }
    } else {
      var u := st.rows[id].tenant.value;
      assert id in RowsOf(st, u);
      assert id in RowsOf(st', u) ==> RowsOf(st', u)[id] != RowsOf(st, u)[id];
    }
  }

  // ---- what is refused, and what is written ----

  /** A query operation in the request of one tenant is refused exactly if it names another tenant for a row. */
  lemma RefusedExactly(env: Env, model: string, t: string, given: seq<Given>)
    requires ActsFor(env, model, t)
    ensures PreQuery(env, model, given).Err? <==>
      exists i :: 0 <= i < |given| && given[i].Given? && given[i].tenant.Some? && given[i].tenant.value != t
  {
    if i :| 0 <= i < |given| && given[i].Given? && given[i].tenant.Some? && given[i].tenant.value != t {
      assert !MayGive(given[i], t);
    }
    if i :| 0 <= i < |given| && !MayGive(given[i], t) {
      assert given[i].Given? && given[i].tenant.Some? && given[i].tenant.value != t;
    }
  }

  /** No tenant is named, or `t` is. */
  ghost predicate NoneOrOwn(tenant: Option<string>, t: string) {
    tenant.Some? ==> tenant.value == "" || tenant.value == t
  }

  /** A new document is saved exactly if it names no tenant or the caller's, and then as the caller's. */
  lemma NewIsStampedExactly(env: Env, model: string, t: string, st: State, doc: Row, id: Id)
    requires ActsFor(env, model, t) && id !in st.rows
    ensures Apply(env, model, st, SaveNew(doc, id)).Ok? <==> NoneOrOwn(doc.tenant, t)
    ensures NoneOrOwn(doc.tenant, t) ==>
      Apply(env, model, st, SaveNew(doc, id)).value.rows == st.rows[id := Row(Some(t), doc.data)]
  {
  }

  /** So are several documents, together. */
  lemma {:induction false} InsertsAreStampedExactly(env: Env, model: string, t: string, docs: seq<Row>)
    requires ActsFor(env, model, t)
    ensures StampAll(env, model, docs).Ok? <==>
      forall i :: 0 <= i < |docs| ==> NoneOrOwn(docs[i].tenant, t)
    ensures StampAll(env, model, docs).Ok? ==>
      forall i :: 0 <= i < |docs| ==> StampAll(env, model, docs).value[i] == Row(Some(t), docs[i].data)
  {
    if docs != [] {
      InsertsAreStampedExactly(env, model, t, docs[1..]);
      if NoneOrOwn(docs[0].tenant, t) {
        assert Stamp(env, model, docs[0].tenant, true) == Ok(Some(t));
        assert StampAll(env, model, docs[1..]).Ok? <==> StampAll(env, model, docs).Ok?;
        forall i | 0 < i < |docs| ensures docs[i] == docs[1..][i - 1] {
        }
      }
    }
  }

  /** A stored document is saved exactly if it names no tenant or the caller's. */
  lemma SaveRefusedExactly(env: Env, model: string, t: string, st: State, handle: Handle)
    requires ActsFor(env, model, t) && handle in st.docs && st.docs[handle].id in st.rows
    ensures Apply(env, model, st, SaveLoaded(handle)).Ok? <==>
      (st.docs[handle].tenant.Some? ==> st.docs[handle].tenant.value == t)
  {
  }

  // ---- runs ----

  datatype Step = Step(tenant: string, op: Op)

  /** Ids that an operation inserts. */
  function NewIds(op: Op): set<Id> {
    match op
    case UpdateRows(_, _, _, Some(id), _) => {id}
    case ReplaceRows(_, _, _, Some(id)) => {id}
    case InsertMany(_, ids) => set id | id in ids
    case SaveNew(_, id) => {id}
    case _ => {}
  }

  /**
   * Object ids are never handed out twice, a document is edited and saved by the tenant that loaded
   * it, and unread operators bring no foreign tenant.
   */
  predicate Proper(st: State, step: Step) {
    NewIds(step.op) !! st.used && StaysHome(st, step.op, step.tenant) &&
    ((step.op.SaveLoaded? || step.op.Edit?) && step.op.handle in st.docs ==>
      st.docs[step.op.handle].owner == step.tenant)
  }

  function EnvFor(env: Env, t: string): Env
    requires env.context.Some?
  {
    env.(context := Some(env.context.value.(tenantId := Some(t))))
  }

  /** A run of steps, each in the request of its tenant; refused steps change nothing. */
  ghost function Run(env: Env, model: string, st: State, steps: seq<Step>): State
    requires env.context.Some?
    decreases steps
  {
    if steps == [] then st
    else
      var r := Apply(EnvFor(env, steps[0].tenant), model, st, steps[0].op);
      Run(env, model, if r.Ok? then r.value else st, steps[1..])
  }

  ghost predicate ProperRun(env: Env, model: string, st: State, steps: seq<Step>)
    requires env.context.Some?
    decreases steps
  {
    steps == [] ||
    (Proper(st, steps[0]) && steps[0].tenant != "" &&
     var r := Apply(EnvFor(env, steps[0].tenant), model, st, steps[0].op);
     ProperRun(env, model, if r.Ok? then r.value else st, steps[1..]))
  }

  /**
   * Every loaded document's row is its owner's, or nobody's, or gone for good; documents of one row
   * were loaded by one tenant.
   */
  ghost predicate Inv(st: State) {
    st.rows.Keys <= st.used &&
    (forall h :: h in st.docs ==> RowIsOwners(st, st.docs[h])) &&
    (forall g, h :: g in st.docs && h in st.docs && st.docs[g].id == st.docs[h].id ==>
      st.docs[g].owner == st.docs[h].owner)
  }

  predicate RowIsOwners(st: State, d: Loaded) {
    d.id in st.used && (d.id in st.rows ==> OwnOrFree(st.rows[d.id], d.owner))
  }

  lemma {:induction false} InsertAllUses(st: State, rows: seq<Row>, ids: seq<Id>)
    requires |rows| == |ids| && InsertAll(st, rows, ids).Ok?
    ensures var st' := InsertAll(st, rows, ids).value;
      st'.docs == st.docs && st'.used == st.used + (set id | id in ids) &&
      st'.rows.Keys == st.rows.Keys + (set id | id in ids) &&
      (forall id :: id in st.rows ==> st'.rows[id] == st.rows[id])
    decreases rows
  {
    if rows != [] {
      InsertAllUses(Inserted(st, ids[0], rows[0]), rows[1..], ids[1..]);
      assert ids == [ids[0]] + ids[1..];
    }
  }

  /** A step adds only the new ids, and changes documents only by loading and editing. */
  lemma StepShape(env: Env, model: string, st: State, op: Op)
    requires Apply(env, model, st, op).Ok?
    ensures var st' := Apply(env, model, st, op).value;
      st'.used == st.used + NewIds(op) && st'.rows.Keys <= st.rows.Keys + NewIds(op) &&
      (op.Load? || op.Edit? || st'.docs == st.docs)
  {
    if op.InsertMany? {
      InsertAllUses(st, StampAll(env, model, op.docs).value, op.ids);
    }
  }

  /** A loaded document's row can only change hands within its owner's tenant. */
  lemma RowStaysOwners(env: Env, model: string, st: State, step: Step, h: Handle)
    requires Inv(st) && Proper(st, step) && ActsFor(env, model, step.tenant) && Apply(env, model, st, step.op).Ok?
    requires h in st.docs
    ensures RowIsOwners(Apply(env, model, st, step.op).value, st.docs[h])
  {
    var id := st.docs[h].id;
    var st' := Apply(env, model, st, step.op).value;
    StepShape(env, model, st, step.op);
    if id in st.rows {
      AddedFilterIsTenant(env, model, step.tenant, st.rows[id]);
      StepTouchesOwn(env, model, step.tenant, st, step.op);
      if step.op.InsertMany? {
        InsertAllUses(st, StampAll(env, model, step.op.docs).value, step.op.ids);
      }
    }
  }

  lemma InvStep(env: Env, model: string, st: State, step: Step)
    requires Inv(st) && Proper(st, step) && ActsFor(env, model, step.tenant) && Apply(env, model, st, step.op).Ok?
    ensures SavesOwnRow(st, step.op, step.tenant) && Inv(Apply(env, model, st, step.op).value)
  {
    var st' := Apply(env, model, st, step.op).value;
    StepShape(env, model, st, step.op);
    forall h | h in st.docs
      ensures RowIsOwners(st', st.docs[h])
    {
      RowStaysOwners(env, model, st, step, h);
    }
    if step.op.Load? {
      AddedFilterIsTenant(env, model, step.tenant, st.rows[step.op.id]);
    }
  }

  /**
   * Over every run of any tenants, each step leaves the rows of every tenant but its own exactly as
   * they were, tenants that act before or after it included.
   */
  lemma {:induction false} RunKeepsOthers(env: Env, model: string, st: State, steps: seq<Step>, k: nat, u: string)
    requires env.context.Some? && IsGuarded(env, model)
    requires Inv(st) && ProperRun(env, model, st, steps) && k < |steps| && steps[k].tenant != u
    ensures RowsOf(Run(env, model, st, steps[..k + 1]), u) == RowsOf(Run(env, model, st, steps[..k]), u)
    decreases k
  {
    var e := EnvFor(env, steps[0].tenant);
    var r := Apply(e, model, st, steps[0].op);
    var next := if r.Ok? then r.value else st;
    if r.Ok? {
      InvStep(e, model, st, steps[0]);
    }
    if k == 0 {
      assert steps[..1] == [steps[0]] && [steps[0]][1..] == [] && steps[..0] == [];
      if r.Ok? {
        StepKeepsOthers(e, model, steps[0].tenant, st, steps[0].op, u);
      }
    } else {
      assert steps[..k + 1][1..] == steps[1..][..k] && steps[..k][1..] == steps[1..][..k - 1];
      RunKeepsOthers(env, model, next, steps[1..], k - 1, u);
    }
  }

  /** Hence a tenant that takes no step keeps exactly its rows. */
  lemma {:induction false} IdleTenantKeepsRows(env: Env, model: string, st: State, steps: seq<Step>, u: string)
    requires env.context.Some? && IsGuarded(env, model)
    requires Inv(st) && ProperRun(env, model, st, steps)
    requires forall i :: 0 <= i < |steps| ==> steps[i].tenant != u
    ensures RowsOf(Run(env, model, st, steps), u) == RowsOf(st, u)
    decreases steps
  {
    if steps != [] {
      var e := EnvFor(env, steps[0].tenant);
      var r := Apply(e, model, st, steps[0].op);
      if r.Ok? {
        InvStep(e, model, st, steps[0]);
        StepKeepsOthers(e, model, steps[0].tenant, st, steps[0].op, u);
      }
      IdleTenantKeepsRows(env, model, if r.Ok? then r.value else st, steps[1..], u);
    }
  }

  /**
   * Fresh ids are needed: when another tenant inserts under the id of a document that is gone, a
   * save of that document, still in memory, writes to the other tenant's row.
   */
  lemma ReusedIdReachesAnotherTenant(env: Env, model: string, t: string, u: string, name: string, mine: Value,
                                     theirs: Value)
    requires env.context.Some? && IsGuarded(env, model) && t != "" && u != "" && t != u && mine != theirs
    ensures var st := State(map[], map[0 := Loaded(t, 0, Some(t), false, map[name := mine])], {0});
      var theirRow := Row(Some(u), map[name := theirs]);
      var inserted := Run(env, model, st, [Step(u, SaveNew(theirRow, 0))]);
      var saved := Run(env, model, inserted, [Step(t, SaveLoaded(0))]);
      Inv(st) && RowsOf(inserted, u) == map[0 := theirRow] && RowsOf(saved, u) != RowsOf(inserted, u)
  {
    var st := State(map[], map[0 := Loaded(t, 0, Some(t), false, map[name := mine])], {0});
    var theirRow := Row(Some(u), map[name := theirs]);
    var insert, save := Step(u, SaveNew(theirRow, 0)), Step(t, SaveLoaded(0));
    assert [insert][1..] == [] && [save][1..] == [];
    var inserted := Inserted(st, 0, theirRow);
    assert Apply(EnvFor(env, u), model, st, insert.op) == Ok(inserted);
    assert Run(env, model, st, [insert]) == inserted;
    var saved := Apply(EnvFor(env, t), model, inserted, save.op);
    assert saved == Ok(inserted.(rows := inserted.rows[0 := Saved(theirRow, st.docs[0])]));
    assert Run(env, model, inserted, [save]) == saved.value;
    assert saved.value.rows[0].data[name] == mine;
    assert RowsOf(saved.value, u)[0] != RowsOf(inserted, u)[0];
  }
}
