/** `findFilter`: combining a filter, ids and further conditions, partly inside the caller's own filter object. */
module FindFilter {
  import opened Outcomes
  import opened Mongo
  import FQ = FilterQuery

  datatype Options = Options(op: FQ.Logical, id: Option<Value>, ids: Option<seq<Value>>,
                             conditions: Option<seq<Option<Filter>>>)

  predicate Truthy(v: Value) {
    v != Null && v != Bool(false) && v != Num(0.0) && v != Str("")
  }

  predicate WantsId(o: Options) {
    o.id.Some? && Truthy(o.id.value)
  }

  // ---- the conditions that are combined ----

  /** Does the given filter already hold a list under the operator? */
  predicate HasList(key: string, given: Option<Filter>) {
    given.Some? && key in given.value.entries && given.value.entries[key].Sub?
  }

  function GivenConditions(key: string, given: Option<Filter>): seq<Filter> {
    if given.None? then []
    else if HasList(key, given) then given.value.entries[key].fs
    else [given.value]
  }

  /** The other keys of a given filter that holds a list. */
  function OtherKeys(key: string, given: Option<Filter>): Filter {
    if HasList(key, given) then Filter(given.value.entries - {key}) else EVERYTHING
  }

  function IdConditions(c: FQ.Config, o: Options): Result<seq<Filter>> {
    if !WantsId(o) then Ok([])
    else
      var id :- FQ.GetObjectIds(c, o.id.value);
      Ok([Field("_id", Eq(id))])
  }

  function IdsConditions(c: FQ.Config, o: Options): Result<seq<Filter>> {
    if o.ids.None? then Ok([])
    else
      var ids :- FQ.ToIds(c, o.ids.value);
      Ok([Field("_id", In(Arr(ids)))])
  }

  function Present(conditions: seq<Option<Filter>>): (r: seq<Filter>)
    ensures forall f :: f in r <==> Some(f) in conditions
  {
    if conditions == [] then []
    else (if conditions[0].Some? then [conditions[0].value] else []) + Present(conditions[1..])
  }

  function Parts(c: FQ.Config, o: Options, given: Option<Filter>): Result<seq<Filter>> {
    var id :- IdConditions(c, o);
    var ids :- IdsConditions(c, o);
    Ok(GivenConditions(FQ.Key(o.op), given) + id + ids + Present(o.conditions.GetOr([])))
  }

  /** No condition, a single one, or a list. */
  function Combined(key: string, others: Filter, parts: seq<Filter>): Filter {
    if parts == [] then EVERYTHING
    else if |parts| == 1 then Spread(others, parts[0])
    else Filter(others.entries[key := Sub(parts)])
  }

  /** The caller's filter after an exception. */
  function AfterException(c: FQ.Config, o: Options, given: Filter): Filter {
    var key := FQ.Key(o.op);
    var id := IdConditions(c, o);
    if HasList(key, Some(given)) && WantsId(o) && id.Ok?
      then Filter((given.entries - {key})[key := Sub(given.entries[key].fs + id.value)])
    else given
  }

  // ---- in place ----

  class Query {
    var f: Filter

    constructor (f: Filter)
      ensures this.f == f
    {
      this.f := f;
    }
  }

  /**
   * A given filter that already holds a list under the operator is itself changed and returned,
   * unless nothing is left of it; any other filter stays as it is. An id that cannot be converted
   * is an exception, which may leave the caller's filter with the single id already added.
   */
  method Find(c: FQ.Config, o: Options, given: Query?) returns (r: Query?)
    modifies given
    ensures var was := if given == null then None else Some(old(given.f));
      var key := FQ.Key(o.op);
      match Parts(c, o, was)
      case Err =>
        r == null && (given != null ==> given.f == AfterException(c, o, old(given.f)))
      case Ok(parts) =>
        r != null && r.f == Combined(key, OtherKeys(key, was), parts) &&
        (HasList(key, was) && parts != [] ==> r == given) &&
        (given != null && !(HasList(key, was) && parts != []) ==> r != given && given.f == old(given.f))
  {
    var key := FQ.Key(o.op);
    ghost var was: Option<Filter> := if given == null then None else Some(given.f);
    var query: Query;
    var others: Filter;
    var parts: seq<Filter>;
    if given != null && key in given.f.entries && given.f.entries[key].Sub? {
      query, others, parts := given, Filter(given.f.entries - {key}), given.f.entries[key].fs;
    } else {
      parts := if given == null then [] else [given.f];
      others := EVERYTHING;
      query := new Query(One(key, Sub(parts)));
    }
    ghost var start := parts;
    if WantsId(o) {
      var id := FQ.GetObjectIds(c, o.id.value);
      if id.Err? {
        return null;
      }
      parts := parts + [Field("_id", Eq(id.value))];
      query.f := Filter(others.entries[key := Sub(parts)]);
    }
    ghost var withId := parts;
    assert IdConditions(c, o).Ok? && withId == start + IdConditions(c, o).value;
    if o.ids.Some? {
      var ids := FQ.ToIds(c, o.ids.value);
      if ids.Err? {
        return null;
      }
      parts := parts + [Field("_id", In(Arr(ids.value)))];
      query.f := Filter(others.entries[key := Sub(parts)]);
    }
    ghost var withIds := parts;
    assert IdsConditions(c, o).Ok? && withIds == withId + IdsConditions(c, o).value;
    if o.conditions.Some? {
      parts := parts + Present(o.conditions.value);
    }
    assert parts == withIds + Present(o.conditions.GetOr([]));
    assert Parts(c, o, was) == Ok(parts) by {
      assert start == GivenConditions(key, was);
      Regroup(start, IdConditions(c, o).value, IdsConditions(c, o).value, Present(o.conditions.GetOr([])), parts);
    }
    if parts == [] {
      r := new Query(EVERYTHING);
      assert given != null && query == given ==> given.f == old(given.f);
      return r;
    }
    query.f := Combined(key, others, parts);
    r := query;
  }

  lemma Regroup(a: seq<Filter>, b: seq<Filter>, c: seq<Filter>, d: seq<Filter>, all: seq<Filter>)
    requires all == ((a + b) + c) + d
    ensures all == a + b + c + d
  {
  }

  // ---- meaning ----

  /** All of the conditions, one of them, or none of them. */
  ghost predicate Intended(op: FQ.Logical, parts: seq<Filter>, doc: Value) {
    match op
    case AND => forall p :: p in parts ==> Holds(p, doc)
    case OR => exists p :: p in parts && Holds(p, doc)
    case NOR => !exists p :: p in parts && Holds(p, doc)
  }

  /**
   * Where the result does not mean the conditions together with the further keys of the given
   * filter: no conditions drop those keys, a single condition replaces those it has as well, and
   * under `$nor` a single condition is not negated.
   */
  ghost predicate Misread(op: FQ.Logical, others: Filter, parts: seq<Filter>, doc: Value) {
    if parts == [] then op == FQ.OR || !Holds(others, doc)
    else
      |parts| == 1 &&
      var kept := Filter(others.entries - parts[0].entries.Keys);
      if op == FQ.NOR then Holds(if Holds(parts[0], doc) then kept else others, doc)
      else Holds(parts[0], doc) && Holds(kept, doc) && !Holds(others, doc)
  }

  /** The result means the combination of the conditions, and the further keys, exactly unless it is misread. */
  lemma FindMeansExactly(c: FQ.Config, o: Options, given: Option<Filter>, doc: Value)
    requires Parts(c, o, given).Ok?
    ensures
      var parts, others := Parts(c, o, given).value, OtherKeys(FQ.Key(o.op), given);
      Holds(Combined(FQ.Key(o.op), others, parts), doc) == (Holds(others, doc) && Intended(o.op, parts, doc)) <==>
        !Misread(o.op, others, parts, doc)
  {
    var parts, others := Parts(c, o, given).value, OtherKeys(FQ.Key(o.op), given);
    CombinedMeansExactly(o.op, others, parts, doc);
  }

  /** Hence with several conditions it always does, and without further keys it does except in two cases. */
  lemma FindMeansWithoutOtherKeys(c: FQ.Config, o: Options, given: Option<Filter>, doc: Value)
    requires Parts(c, o, given).Ok? && OtherKeys(FQ.Key(o.op), given) == EVERYTHING
    ensures
      var parts := Parts(c, o, given).value;
      Holds(Combined(FQ.Key(o.op), EVERYTHING, parts), doc) == Intended(o.op, parts, doc) <==>
        !(o.op == FQ.OR && parts == []) && !(o.op == FQ.NOR && |parts| == 1)
  {
    var parts := Parts(c, o, given).value;
    FindMeansExactly(c, o, given, doc);
    assert Holds(EVERYTHING, doc);
    if |parts| == 1 {
      assert Filter(EVERYTHING.entries - parts[0].entries.Keys) == EVERYTHING;
    }
  }

  /** Is the value one that JavaScript takes for a missing one? */
  ghost predicate Missing(v: Option<Value>) {
    v.None? || v.value.Null? || v.value == Bool(false) || v.value == Num(0.0) || v.value == Str("")
  }

  ghost predicate HasId(id: Value, doc: Value) {
    Equals(id, At(doc, ["_id"]))
  }

  /** All conditions of the given list, or the given filter as a whole. */
  ghost predicate AllGiven(given: Option<Filter>, key: string, doc: Value) {
    given.Some? ==>
      if key in given.value.entries && given.value.entries[key].Sub?
        then forall f :: f in given.value.entries[key].fs ==> Holds(f, doc)
      else Holds(given.value, doc)
  }

  ghost predicate SomeGiven(given: Option<Filter>, key: string, doc: Value) {
    given.Some? &&
    if key in given.value.entries && given.value.entries[key].Sub?
      then exists f :: f in given.value.entries[key].fs && Holds(f, doc)
    else Holds(given.value, doc)
  }

  /** Is the `_id` the id, or the list of ids, that the value is converted to? */
  ghost predicate HasTheId(c: FQ.Config, v: Value, doc: Value) {
    FQ.GetObjectIds(c, v).Ok? && HasId(FQ.GetObjectIds(c, v).value, doc)
  }

  /** Is the `_id` an id that one of the values is converted to? */
  ghost predicate HasSomeId(c: FQ.Config, values: seq<Value>, doc: Value) {
    exists v :: v in values && FQ.ToId(c, v).Ok? && HasId(FQ.ToId(c, v).value, doc)
  }

  /** All conditions: those given, the single id, one of the ids, and the further ones. */
  ghost predicate AllAsked(c: FQ.Config, o: Options, given: Option<Filter>, key: string, doc: Value) {
    AllGiven(given, key, doc) &&
    (Missing(o.id) || HasTheId(c, o.id.value, doc)) &&
    (o.ids.Some? ==> HasSomeId(c, o.ids.value, doc)) &&
    (o.conditions.Some? ==> forall f :: Some(f) in o.conditions.value ==> Holds(f, doc))
  }

  /** Some condition: one of those given, the single id, one of the ids, or one of the further ones. */
  ghost predicate SomeAsked(c: FQ.Config, o: Options, given: Option<Filter>, key: string, doc: Value) {
    SomeGiven(given, key, doc) ||
    (!Missing(o.id) && HasTheId(c, o.id.value, doc)) ||
    (o.ids.Some? && HasSomeId(c, o.ids.value, doc)) ||
    (o.conditions.Some? && exists f :: Some(f) in o.conditions.value && Holds(f, doc))
  }

  ghost predicate AllHold(fs: seq<Filter>, doc: Value) {
    forall f :: f in fs ==> Holds(f, doc)
  }

  ghost predicate SomeHolds(fs: seq<Filter>, doc: Value) {
    exists f :: f in fs && Holds(f, doc)
  }

  lemma FieldIdHolds(cond: Cond, doc: Value)
    ensures Holds(Field("_id", cond), doc) == Matches(cond, At(doc, ["_id"]))
  {
    SegmentsSimple("_id");
    HoldsOne("_id", Cond(cond), doc);
  }

  lemma IdPart(c: FQ.Config, o: Options, doc: Value)
    requires IdConditions(c, o).Ok?
    ensures AllHold(IdConditions(c, o).value, doc) <==>
      (!Missing(o.id) ==> HasTheId(c, o.id.value, doc))
    ensures SomeHolds(IdConditions(c, o).value, doc) <==>
      !Missing(o.id) && HasTheId(c, o.id.value, doc)
  {
    if WantsId(o) {
      var part := Field("_id", Eq(FQ.GetObjectIds(c, o.id.value).value));
      assert IdConditions(c, o).value == [part] && part in [part];
      FieldIdHolds(Eq(FQ.GetObjectIds(c, o.id.value).value), doc);
    }
  }

  lemma IdsPart(c: FQ.Config, o: Options, doc: Value)
    requires IdsConditions(c, o).Ok?
    ensures AllHold(IdsConditions(c, o).value, doc) <==>
      (o.ids.Some? ==> HasSomeId(c, o.ids.value, doc))
    ensures SomeHolds(IdsConditions(c, o).value, doc) <==>
      o.ids.Some? && HasSomeId(c, o.ids.value, doc)
  {
    if o.ids.Some? {
      var ids := FQ.ToIds(c, o.ids.value).value;
      var part := Field("_id", In(Arr(ids)));
      assert IdsConditions(c, o).value == [part] && part in [part];
      FieldIdHolds(In(Arr(ids)), doc);
      IdsAmong(c, o.ids.value, doc);
    }
  }

  lemma IdsAmong(c: FQ.Config, values: seq<Value>, doc: Value)
    requires FQ.ToIds(c, values).Ok?
    ensures (exists id :: id in FQ.ToIds(c, values).value && HasId(id, doc)) <==>
      HasSomeId(c, values, doc)
  {
    var ids := FQ.ToIds(c, values).value;
    if id :| id in ids && HasId(id, doc) {
      var i :| 0 <= i < |ids| && ids[i] == id;
      assert values[i] in values && FQ.ToId(c, values[i]) == Ok(id);
    }
    if v, id :| v in values && FQ.ToId(c, v) == Ok(id) && HasId(id, doc) {
      var i :| 0 <= i < |values| && values[i] == v;
      assert ids[i] in ids && ids[i] == id;
    }
  }

  lemma JoinedHold(fs: seq<Filter>, gs: seq<Filter>, doc: Value)
    ensures AllHold(fs + gs, doc) <==> AllHold(fs, doc) && AllHold(gs, doc)
    ensures SomeHolds(fs + gs, doc) <==> SomeHolds(fs, doc) || SomeHolds(gs, doc)
  {
    assert forall f :: f in fs + gs <==> f in fs || f in gs;
  }

  lemma GivenPart(key: string, given: Option<Filter>, doc: Value)
    ensures AllHold(GivenConditions(key, given), doc) <==> AllGiven(given, key, doc)
    ensures SomeHolds(GivenConditions(key, given), doc) <==> SomeGiven(given, key, doc)
  {
    if given.Some? {
      assert given.value in [given.value];
    }
  }

  lemma AllParts(c: FQ.Config, o: Options, given: Option<Filter>, doc: Value)
    requires Parts(c, o, given).Ok?
    ensures AllHold(Parts(c, o, given).value, doc) <==> AllAsked(c, o, given, FQ.Key(o.op), doc)
    ensures SomeHolds(Parts(c, o, given).value, doc) <==> SomeAsked(c, o, given, FQ.Key(o.op), doc)
  {
    var key := FQ.Key(o.op);
    var first, id, ids := GivenConditions(key, given), IdConditions(c, o).value, IdsConditions(c, o).value;
    var others := Present(o.conditions.GetOr([]));
    JoinedHold(first, id, doc);
    JoinedHold(first + id, ids, doc);
    JoinedHold(first + id + ids, others, doc);
    IdPart(c, o, doc);
    IdsPart(c, o, doc);
    GivenPart(key, given, doc);
    OthersPart(o, doc);
  }

  /** The conditions that are combined are those asked for, under all three operators. */
  lemma PartsMean(c: FQ.Config, o: Options, given: Option<Filter>, doc: Value)
    requires Parts(c, o, given).Ok?
    ensures
      var meant := Intended(o.op, Parts(c, o, given).value, doc);
      match o.op
      case AND => meant <==> AllAsked(c, o, given, "$and", doc)
      case OR => meant <==> SomeAsked(c, o, given, "$or", doc)
      case NOR => meant <==> !SomeAsked(c, o, given, "$nor", doc)
  {
    AllParts(c, o, given, doc);
  }

  lemma OthersPart(o: Options, doc: Value)
    ensures AllHold(Present(o.conditions.GetOr([])), doc) <==>
      (o.conditions.Some? ==> forall f :: Some(f) in o.conditions.value ==> Holds(f, doc))
    ensures SomeHolds(Present(o.conditions.GetOr([])), doc) <==>
      o.conditions.Some? && exists f :: Some(f) in o.conditions.value && Holds(f, doc)
  {
  }

  /** Asked for ids alone, the filter finds the documents whose `_id` is one of them; for none, no document. */
  lemma IdsFindExactly(c: FQ.Config, op: FQ.Logical, values: seq<Value>, doc: Value)
    requires op != FQ.NOR && FQ.ToIds(c, values).Ok?
    ensures
      var parts := Parts(c, Options(op, None, Some(values), None), None);
      parts.Ok? &&
      (Holds(Combined(FQ.Key(op), EVERYTHING, parts.value), doc) <==>
        HasSomeId(c, values, doc))
  {
    var o := Options(op, None, Some(values), None);
    var parts := Parts(c, o, None);
    assert IdConditions(c, o) == Ok([]) && IdsConditions(c, o).Ok?;
    assert parts.Ok?;
    PartsMean(c, o, None, doc);
    assert OtherKeys(FQ.Key(op), None) == EVERYTHING;
    FindMeansWithoutOtherKeys(c, o, None, doc);
  }

  lemma CombinedMeansExactly(op: FQ.Logical, others: Filter, parts: seq<Filter>, doc: Value)
    requires FQ.Key(op) !in others.entries
    ensures Holds(Combined(FQ.Key(op), others, parts), doc) == (Holds(others, doc) && Intended(op, parts, doc)) <==>
      !Misread(op, others, parts, doc)
  {
    if parts == [] {
      assert Holds(EVERYTHING, doc);
    } else if |parts| == 1 {
      SingleMeansExactly(op, others, parts[0], doc);
      assert parts == [parts[0]];
    } else {
      ListMeans(op, others, parts, doc);
    }
  }

  lemma SingleMeansExactly(op: FQ.Logical, others: Filter, p: Filter, doc: Value)
    ensures Holds(Spread(others, p), doc) == (Holds(others, doc) && Intended(op, [p], doc)) <==>
      !Misread(op, others, [p], doc)
  {
    assert p in [p] && forall q :: q in [p] ==> q == p;
    HoldsSpread(others, p, doc);
    if Holds(others, doc) {
      WeakerHolds(others, Filter(others.entries - p.entries.Keys), doc);
    }
  }

  lemma ListMeans(op: FQ.Logical, others: Filter, parts: seq<Filter>, doc: Value)
    requires FQ.Key(op) !in others.entries
    ensures Holds(Filter(others.entries[FQ.Key(op) := Sub(parts)]), doc) ==
      (Holds(others, doc) && Intended(op, parts, doc))
  {
    var list := One(FQ.Key(op), Sub(parts));
    assert Filter(others.entries[FQ.Key(op) := Sub(parts)]) == Spread(others, list);
    assert others.entries - list.entries.Keys == others.entries;
    HoldsSpread(others, list, doc);
    HoldsOne(FQ.Key(op), Sub(parts), doc);
  }

  lemma WeakerHolds(f: Filter, g: Filter, doc: Value)
    requires Holds(f, doc) && forall k :: k in g.entries ==> k in f.entries && g.entries[k] == f.entries[k]
    ensures Holds(g, doc)
  {
  }
}
