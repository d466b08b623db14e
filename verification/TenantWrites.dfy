/**
 * The write hooks of the tenant plugin, over a collection whose schema types `tenantId` as a string:
 * query updates, replaces and deletes, `save`, `insertMany` and `bulkWrite`.
 */
module TenantWrites {
  import opened Outcomes
  import opened Mongo
  import opened Tenancy

  type Id = nat
  type Handle = nat

  /** A stored row. Its tenant is absent or null (`None`), or a string; `data` is the rest. */
  datatype Row = Row(tenant: Option<string>, data: map<string, Value>)

  /** A `tenantId` key in a payload: not there, or given as null or as a string. */
  datatype Given = Absent | Given(tenant: Option<string>)

  /** An operator on `tenantId` that the hooks do not look at: `$min`, `$max`, or `$rename` of another field. */
  datatype Unread = Nothing | Min(least: string) | Max(greatest: string) | Rename(from: string)

  /**
   * An update: `tenantId` flat, under `$set` and under `$setOnInsert`, or under an unread operator,
   * and other fields to set.
   */
  datatype Update = Update(flat: Given, set_: Given, onInsert: Given, unread: Unread, data: map<string, Value>)

  /** A document in memory: `tenantModified` says that a save will write its tenant. */
  datatype Loaded = Loaded(owner: string, id: Id, tenant: Option<string>, tenantModified: bool,
                           data: map<string, Value>)

  datatype State = State(rows: map<Id, Row>, docs: map<Handle, Loaded>, used: set<Id>)

  /** The row as queries see it. */
  function ToDoc(row: Row): Value {
    Doc(row.data - {TENANT_ID} + if row.tenant.Some? then map[TENANT_ID := Str(row.tenant.value)] else map[])
  }

  // ---- the hooks ----

  /** Null and the caller's own tenant pass; anything else is refused. */
  predicate IsOwnTenant(value: Option<string>, own: string) {
    value.None? || value == Some(own)
  }

  predicate MayGive(g: Given, own: string) {
    g == Absent || IsOwnTenant(g.tenant, own)
  }

  /** The query hook: the filter to add, or a refusal. */
  function PreQuery(env: Env, model: string, candidates: seq<Given>): Result<Option<Filter>> {
    var filter :- ResolveTenantFilter(env, model);
    var single := ResolveSingleTenantId(env, model);
    if single.Some? && exists i :: 0 <= i < |candidates| && !MayGive(candidates[i], single.value) then Err
    else Ok(filter)
  }

  /** Stamp a missing tenant, refuse a foreign one. */
  function Stamp(env: Env, model: string, tenant: Option<string>, isNew: bool): Result<Option<string>> {
    match ResolveSingleTenantId(env, model)
    case None => Ok(tenant)
    case Some(own) =>
      if isNew && !Truthy(tenant) then Ok(Some(own))
      else if IsOwnTenant(tenant, own) then Ok(tenant)
      else Err
  }

  class Document {
    const isNew: bool
    var tenant: Option<string>

    constructor (isNew: bool, tenant: Option<string>)
      ensures this.isNew == isNew && this.tenant == tenant
    {
      this.isNew := isNew;
      this.tenant := tenant;
    }

    method PreSave(env: Env, model: string) returns (ok: bool)
      modifies this
      ensures match Stamp(env, model, old(tenant), isNew)
        case Ok(t) => ok && tenant == t
        case Err => !ok && tenant == old(tenant)
    {
      var own := ResolveSingleTenantId(env, model);
      if own.None? {
        return true;
      }
      if isNew && !Truthy(tenant) {
        tenant := own;
        return true;
      }
      ok := IsOwnTenant(tenant, own.value);
    }
  }

  function StampAll(env: Env, model: string, docs: seq<Row>): (r: Result<seq<Row>>)
    ensures r.Ok? ==> |r.value| == |docs|
  {
    if docs == [] then Ok([])
    else
      var tenant :- Stamp(env, model, docs[0].tenant, true);
      var rest :- StampAll(env, model, docs[1..]);
      Ok([docs[0].(tenant := tenant)] + rest)
  }

  lemma {:induction false} StampAllSnoc(env: Env, model: string, a: seq<Row>, doc: Row)
    ensures StampAll(env, model, a + [doc]) ==
      match (StampAll(env, model, a), Stamp(env, model, doc.tenant, true))
      case (Ok(rows), Ok(t)) => Ok(rows + [doc.(tenant := t)])
      case _ => Err
  {
    if a == [] {
      assert a + [doc] == [doc] + [];
      var last := Stamp(env, model, doc.tenant, true);
      assert last.Ok? ==> [doc.(tenant := last.value)] + [] == [] + [doc.(tenant := last.value)];
    } else {
      assert (a + [doc])[1..] == a[1..] + [doc];
      StampAllSnoc(env, model, a[1..], doc);
      assert [a[0]] + a[1..] == a && [a[0]] + (a[1..] + [doc]) == a + [doc];
      var rest, last := StampAll(env, model, a[1..]), Stamp(env, model, doc.tenant, true);
      var head := Stamp(env, model, a[0].tenant, true);
      if head.Ok? && rest.Ok? && last.Ok? {
        RowsAssoc([a[0].(tenant := head.value)], rest.value, [doc.(tenant := last.value)]);
      }
    }
  }

  lemma RowsAssoc(a: seq<Row>, b: seq<Row>, c: seq<Row>)
    ensures (a + b) + c == a + (b + c)
  {
  }

  lemma {:induction false} StampAllPrefix(env: Env, model: string, a: seq<Row>, b: seq<Row>)
    requires StampAll(env, model, a).Err?
    ensures StampAll(env, model, a + b).Err?
  {
    assert (a + b)[1..] == a[1..] + b;
    if StampAll(env, model, a[1..]).Err? {
      StampAllPrefix(env, model, a[1..], b);
    }
  }

  /** The `insertMany` hook writes the tenant into the documents it was given. */
  method PreInsertMany(env: Env, model: string, docs: array<Row>) returns (ok: bool)
    modifies docs
    ensures match StampAll(env, model, old(docs[..]))
      case Ok(rows) => ok && docs[..] == rows
      case Err => !ok
  {
    var own := ResolveSingleTenantId(env, model);
    ghost var given := docs[..];
    for i := 0 to docs.Length
      invariant forall j :: i <= j < docs.Length ==> docs[j] == given[j]
      invariant StampAll(env, model, given[..i]) == Ok(docs[..i])
    {
      StampAllSnoc(env, model, given[..i], given[i]);
      assert given[..i + 1] == given[..i] + [given[i]];
      assert given[i] == docs[i];
      if own.Some? {
        if !Truthy(docs[i].tenant) {
          docs[i] := docs[i].(tenant := own);
        } else if !IsOwnTenant(docs[i].tenant, own.value) {
          StampAllPrefix(env, model, given[..i + 1], given[i + 1..]);
          assert given == given[..i + 1] + given[i + 1..];
          return false;
        }
      }
      assert docs[..i + 1] == docs[..i] + [docs[i]];
    }
    assert given[..docs.Length] == given && docs[..docs.Length] == docs[..];
    ok := true;
  }

  datatype BulkOp =
    | InsertOne(document: Row)
    | UpdateOne(filter: Filter, update: Update)
    | UpdateMany(filter: Filter, update: Update)
    | ReplaceOne(filter: Filter, replacement: Row)
    | DeleteOne(filter: Filter)
    | DeleteMany(filter: Filter)

  /** Inserts get a missing tenant, all other operations get the tenant filter spread over theirs. */
  function SecureOp(op: BulkOp, filter: Filter, own: Option<string>): BulkOp {
    if op.InsertOne? then
      if own.Some? && !Truthy(op.document.tenant) then InsertOne(op.document.(tenant := own)) else op
    else op.(filter := Spread(op.filter, filter))
  }

  method PreBulkWrite(env: Env, model: string, ops: array<BulkOp>) returns (ok: bool)
    modifies ops
    ensures match ResolveTenantFilter(env, model)
      case Err => !ok && ops[..] == old(ops[..])
      case Ok(None) => ok && ops[..] == old(ops[..])
      case Ok(Some(f)) => ok && forall i :: 0 <= i < ops.Length ==>
        ops[i] == SecureOp(old(ops[i]), f, ResolveSingleTenantId(env, model))
  {
    var filter := ResolveTenantFilter(env, model);
    if filter.Err? {
      return false;
    }
    if filter.value.None? {
      return true;
    }
    var own := ResolveSingleTenantId(env, model);
    for i := 0 to ops.Length
      invariant forall j :: 0 <= j < i ==> ops[j] == SecureOp(old(ops[j]), filter.value.value, own)
      invariant forall j :: i <= j < ops.Length ==> ops[j] == old(ops[j])
    {
      match ops[i] {
        case InsertOne(document) =>
          if own.Some? && !Truthy(document.tenant) {
            ops[i] := InsertOne(document.(tenant := own));
          }
        case UpdateOne(f, update) => ops[i] := UpdateOne(Spread(f, filter.value.value), update);
        case UpdateMany(f, update) => ops[i] := UpdateMany(Spread(f, filter.value.value), update);
        case ReplaceOne(f, replacement) => ops[i] := ReplaceOne(Spread(f, filter.value.value), replacement);
        case DeleteOne(f) => ops[i] := DeleteOne(Spread(f, filter.value.value));
        case DeleteMany(f) => ops[i] := DeleteMany(Spread(f, filter.value.value));
      }
    }
    ok := true;
  }
}
