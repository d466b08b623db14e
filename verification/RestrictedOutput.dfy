/** On output: exactly which properties `checkRestricted` keeps, and that more roles keep more. */
module RestrictedOutput {
  import opened Outcomes
  import opened RestrictedAccess
  import opened RestrictedTree
  import opened RestrictedRules
  import SystemRoles

  /** On output nothing is thrown; whether objects are also checked as a whole is left open. */
  predicate IsOutput(cfg: Config) {
    cfg.processType != Some(Input) && !cfg.throwError
  }

  /** The properties that ownership is read from. */
  predicate IsOwnerKey(key: string) {
    key == "id" || key == "_id" || key == "createdBy"
  }

  /** Where objects are checked as a whole: the class restrictions admit the user. */
  ghost predicate PassesGate(e: Env, proto: Proto, fields: seq<Field>, trust: bool, declared: Option<string>) {
    MayHaveObject(e, ClassOf(proto, declared), Some(OwnerOf(fields)), trust)
  }

  lemma GateIsChecked(e: Env, proto: Proto, fields: seq<Field>, trust: bool, declared: Option<string>)
    requires e.cfg.processType != Some(Input)
    ensures PassesGate(e, proto, fields, trust, declared) <==>
      (e.cfg.checkObjectItself ==>
       Validate(e.cfg, ClassRestrictions(e.schema, MetadataOwner(proto, declared)), CurrentOwner(e.cfg, fields), trust,
                e.user))
  {
    MayHaveObjectExactly(e, ClassOf(proto, declared), Some(OwnerOf(fields)), trust);
  }

  /** An id is a plain value; a creator may also be populated, as an object the user may see. */
  ghost predicate OwnerValueReadable(e: Env, key: string, t: Tree, declared: Option<string>) {
    if key == "createdBy" then t.Object? ==> PassesGate(e, t.proto, t.fields, false, declared) else t.Value?
  }

  /** At every depth the user may read ids and creators without the parent's trust. */
  ghost predicate Readable(e: Env, t: Tree, declared: Option<string>)
    decreases t
  {
    match t
    case Value(_) => true
    case List(items) => forall i :: 0 <= i < |items| ==> Readable(e, items[i], declared)
    case Object(_, proto, fields) =>
      ReadableFields(e, ClassOf(proto, declared), Some(OwnerOf(fields)), fields)
  }

  ghost predicate ReadableFields(e: Env, cls: Option<string>, owner: Option<Owner>, fields: seq<Field>)
    decreases fields
  {
    forall i :: 0 <= i < |fields| ==>
      Readable(e, fields[i].value, DeclaredFor(e.schema, cls, fields[i].key)) &&
      (IsOwnerKey(fields[i].key) ==>
        OwnerValueReadable(e, fields[i].key, fields[i].value, DeclaredFor(e.schema, cls, fields[i].key)) &&
        (Skipped(e.cfg, fields[i].value) || MayHave(e, cls, fields[i].key, owner, false)))
  }

  // ---- ownership does not change on the way ----

  lemma {:induction false} FindConcat(a: seq<Field>, b: seq<Field>, key: string)
    ensures Find(a + b, key) == if Find(a, key).Some? then Find(a, key) else Find(b, key)
  {
    if a == [] {
      assert a + b == b;
    } else {
      assert (a + b)[1..] == a[1..] + b;
      FindConcat(a[1..], b, key);
    }
  }

  /** Two property lists that agree on the ids, and on whom `createdBy` names. */
  predicate SameOwner(a: seq<Field>, b: seq<Field>) {
    Find(a, "id") == Find(b, "id") && Find(a, "_id") == Find(b, "_id") &&
    Find(a, "createdBy").Some? == Find(b, "createdBy").Some? &&
    CreatorOf(Find(a, "createdBy")) == CreatorOf(Find(b, "createdBy"))
  }

  /** The same id, or the same creator. */
  predicate SameOwnerValue(f: Field, g: Field) {
    f.key == g.key && (IsOwnerKey(f.key) ==>
      if f.key == "createdBy" then CreatorOf(Some(f.value)) == CreatorOf(Some(g.value)) else f == g)
  }

  /** Replacing a property by one that says the same about ownership, or removing one that is no owner key. */
  lemma OwnerStays(done: seq<Field>, f: Field, tail: seq<Field>, g: Field)
    requires SameOwnerValue(f, g)
    ensures SameOwner(done + ([f] + tail), (done + [g]) + tail)
    ensures !IsOwnerKey(f.key) ==> SameOwner(done + ([f] + tail), done + tail)
  {
    assert (done + [g]) + tail == done + ([g] + tail);
    FindEach(done, [f] + tail);
    FindEach(done, [g] + tail);
    FindEach(done, tail);
    FindEach([f], tail);
    FindEach([g], tail);
    assert [f][1..] == [] && [g][1..] == [];
  }

  lemma FindEach(a: seq<Field>, b: seq<Field>)
    ensures forall key :: IsOwnerKey(key) ==>
      Find(a + b, key) == if Find(a, key).Some? then Find(a, key) else Find(b, key)
  {
    FindConcat(a, b, "id");
    FindConcat(a, b, "_id");
    FindConcat(a, b, "createdBy");
  }

  // ---- the check with a fixed owner ----

  function Fixed(e: Env, cls: Option<string>, owner: Option<Owner>, fields: seq<Field>,
                 trust: bool): Result<seq<Field>> {
    if fields == [] then Ok([])
    else
      var f := fields[0];
      if Skipped(e.cfg, f.value) then
        var tail :- Fixed(e, cls, owner, fields[1..], trust);
        Ok([f] + tail)
      else if Passes(e, cls, f.key, owner, trust) then
        var trust' := NextTrust(owner, trust, e.user);
        var value :- Check(e, f.value, trust', NestedType(e.schema, cls, f.key));
        var tail :- Fixed(e, cls, owner, fields[1..], trust');
        Ok([Field(f.key, value)] + tail)
      else if e.cfg.throwError then Err
      else Fixed(e, cls, owner, fields[1..], trust)
  }

  lemma PassesWithoutTrust(e: Env, cls: Option<string>, key: string, owner: Option<Owner>, trust: bool)
    requires MayHave(e, cls, key, owner, false)
    ensures Passes(e, cls, key, owner, trust)
  {
    MayHaveExactly(e, cls, key, owner, false);
    ValidateGrows(e.cfg, Merged(e.cfg, e.schema, cls, key), owner, false, trust, e.user, e.user);
  }

  /** While ids and creators stay readable, the owner is that of the original object throughout. */
  lemma {:induction false} OwnerIsFixed(e: Env, cls: Option<string>, owner: Option<Owner>, done: seq<Field>,
                                        rest: seq<Field>, trust: bool)
    requires e.cfg.processType != Some(Input) && owner == Some(OwnerOf(done + rest)) &&
      ReadableFields(e, cls, owner, rest)
    ensures CheckFields(e, cls, done, rest, trust) == Fixed(e, cls, owner, rest, trust)
    decreases rest, 1
  {
    if rest != [] {
      var f, tail := rest[0], rest[1..];
      assert rest == [f] + tail && ReadableFields(e, cls, owner, tail);
      OwnerStays(done, f, tail, f);
      if Skipped(e.cfg, f.value) {
        OwnerIsFixed(e, cls, owner, done + [f], tail, trust);
      } else if Passes(e, cls, f.key, owner, trust) {
        var trust' := NextTrust(owner, trust, e.user);
        var checked := Check(e, f.value, trust', NestedType(e.schema, cls, f.key));
        if checked.Ok? {
          OwnerValueKept(e, cls, owner, f, trust');
          OwnerStays(done, f, tail, Field(f.key, checked.value));
          OwnerIsFixed(e, cls, owner, done + [Field(f.key, checked.value)], tail, trust');
        }
      } else {
        if IsOwnerKey(f.key) {
          PassesWithoutTrust(e, cls, f.key, owner, trust);
        }
        OwnerIsFixed(e, cls, owner, done, tail, trust);
      }
    }
  }

  /** Checking a property does not change what it says about ownership. */
  lemma {:induction false} OwnerValueKept(e: Env, cls: Option<string>, owner: Option<Owner>, f: Field, trust: bool)
    requires e.cfg.processType != Some(Input) && ReadableFields(e, cls, owner, [f])
    requires Check(e, f.value, trust, NestedType(e.schema, cls, f.key)).Ok?
    ensures SameOwnerValue(f, Field(f.key, Check(e, f.value, trust, NestedType(e.schema, cls, f.key)).value))
    decreases f.value, 1
  {
    assert [f][0] == f;
    if f.key == "createdBy" {
      CreatorKept(e, f.value, trust, NestedType(e.schema, cls, f.key));
    }
  }

  /** A readable creator that is checked as a nested value still names the same id. */
  lemma {:induction false} CreatorKept(e: Env, t: Tree, trust: bool, declared: Option<string>)
    requires e.cfg.processType != Some(Input) && Readable(e, t, declared)
    requires t.Object? ==> PassesGate(e, t.proto, t.fields, false, declared)
    requires Check(e, t, trust, declared).Ok?
    ensures CreatorOf(Some(Check(e, t, trust, declared).value)) == CreatorOf(Some(t))
    decreases t, 0
  {
    if t.Object? && !(e.cfg.noteCheckedObjects && t.marked) {
      var cls, owner := MetadataOwner(t.proto, declared), Some(OwnerOf(t.fields));
      var restricted := if e.cfg.checkObjectItself then ClassRestrictions(e.schema, cls) else [];
      GateIsChecked(e, t.proto, t.fields, false, declared);
      ValidateGrows(e.cfg, restricted, owner, false, trust, e.user, e.user);
      assert [] + t.fields == t.fields;
      OwnerIsFixed(e, cls, owner, [], t.fields, trust);
      IdsKept(e, cls, owner, t.fields, trust, "id");
      IdsKept(e, cls, owner, t.fields, trust, "_id");
    }
  }

  lemma {:induction false} IdsKept(e: Env, cls: Option<string>, owner: Option<Owner>, fields: seq<Field>, trust: bool,
                                   key: string)
    requires ReadableFields(e, cls, owner, fields) && (key == "id" || key == "_id")
    requires Fixed(e, cls, owner, fields, trust).Ok?
    ensures Find(Fixed(e, cls, owner, fields, trust).value, key) == Find(fields, key)
    decreases |fields|
  {
    if fields != [] {
      var f, tail := fields[0], fields[1..];
      assert ReadableFields(e, cls, owner, tail);
      if Skipped(e.cfg, f.value) {
        IdsKept(e, cls, owner, tail, trust, key);
        FindFirst(f, Fixed(e, cls, owner, tail, trust).value, key);
      } else if Passes(e, cls, f.key, owner, trust) {
        var trust' := NextTrust(owner, trust, e.user);
        var value := Check(e, f.value, trust', NestedType(e.schema, cls, f.key)).value;
        IdsKept(e, cls, owner, tail, trust', key);
        FindFirst(Field(f.key, value), Fixed(e, cls, owner, tail, trust').value, key);
      } else {
        if IsOwnerKey(f.key) {
          PassesWithoutTrust(e, cls, f.key, owner, trust);
        }
        IdsKept(e, cls, owner, tail, trust, key);
      }
    }
  }

  lemma FindFirst(f: Field, tail: seq<Field>, key: string)
    ensures Find([f] + tail, key) == if f.key == key then Some(f.value) else Find(tail, key)
  {
    assert ([f] + tail)[1..] == tail;
  }

  // ---- exactly the admitted properties are kept ----

  /** Functions and undefined values that the configuration leaves alone. */
  ghost predicate Untouched(cfg: Config, t: Tree) {
    (t == Value(Function) && cfg.ignoreFunctions) || (t == Value(Undefined) && cfg.ignoreUndefined)
  }

  /** Property `i` is admitted: skipped, or its restrictions pass with the trust gained by then. */
  ghost predicate Admitted(e: Env, cls: Option<string>, owner: Option<Owner>, fields: seq<Field>, i: nat, trust: bool)
    requires i < |fields|
    decreases i, 1
  {
    Untouched(e.cfg, fields[i].value) ||
    MayHave(e, cls, fields[i].key, owner, TrustBefore(e, cls, owner, fields, i, trust))
  }

  /** The parent's trust, or once some earlier property has passed, the trust this object gives. */
  ghost predicate TrustBefore(e: Env, cls: Option<string>, owner: Option<Owner>, fields: seq<Field>, i: nat,
                              trust: bool)
    requires i <= |fields|
    decreases i, 0
  {
    if exists j :: 0 <= j < i && !Untouched(e.cfg, fields[j].value) && Admitted(e, cls, owner, fields, j, trust)
    then Vouches(owner, trust, e.user)
    else trust
  }

  /** What an admitted property becomes: nested data is checked with this object's trust. */
  ghost function Kept(e: Env, cls: Option<string>, owner: Option<Owner>, f: Field, trust: bool): Result<Field> {
    if Untouched(e.cfg, f.value) then Ok(f)
    else
      var value :- Check(e, f.value, Vouches(owner, trust, e.user), DeclaredFor(e.schema, cls, f.key));
      Ok(Field(f.key, value))
  }

  /** The admitted properties from `i` on, in order. */
  ghost function AdmittedFrom(e: Env, cls: Option<string>, owner: Option<Owner>, fields: seq<Field>, i: nat,
                        trust: bool): Result<seq<Field>>
    requires i <= |fields|
    decreases |fields| - i
  {
    if i == |fields| then Ok([])
    else if Admitted(e, cls, owner, fields, i, trust) then
      var f :- Kept(e, cls, owner, fields[i], trust);
      var tail :- AdmittedFrom(e, cls, owner, fields, i + 1, trust);
      Ok([f] + tail)
    else AdmittedFrom(e, cls, owner, fields, i + 1, trust)
  }

  lemma {:induction false} FixedKeepsAdmitted(e: Env, cls: Option<string>, owner: Option<Owner>, fields: seq<Field>,
                                              i: nat, trust: bool)
    requires i <= |fields| && !e.cfg.throwError
    ensures Fixed(e, cls, owner, fields[i..], TrustBefore(e, cls, owner, fields, i, trust)) ==
      AdmittedFrom(e, cls, owner, fields, i, trust)
    decreases |fields| - i
  {
    if i < |fields| {
      var now, next := TrustBefore(e, cls, owner, fields, i, trust), TrustBefore(e, cls, owner, fields, i + 1, trust);
      assert fields[i..][1..] == fields[i + 1..];
      MayHaveExactly(e, cls, fields[i].key, owner, now);
      FixedKeepsAdmitted(e, cls, owner, fields, i + 1, trust);
    }
  }

  /** The check of an object with the owner it has at the start. */
  lemma ObjectForm(e: Env, t: Tree, trust: bool, declared: Option<string>)
    requires IsOutput(e.cfg) && t.Object? && Readable(e, t, declared) && !(e.cfg.noteCheckedObjects && t.marked)
    ensures var fixed := Fixed(e, ClassOf(t.proto, declared), Some(OwnerOf(t.fields)), t.fields, trust);
      if PassesGate(e, t.proto, t.fields, trust, declared)
      then fixed.Ok? && Check(e, t, trust, declared) == Ok(t.(fields := fixed.value))
      else Check(e, t, trust, declared) == Ok(Value(Null))
  {
    assert [] + t.fields == t.fields;
    OwnerIsFixed(e, ClassOf(t.proto, declared), Some(OwnerOf(t.fields)), [], t.fields, trust);
    GateIsChecked(e, t.proto, t.fields, trust, declared);
    NeverThrows(e, t, trust, declared);
  }

  /**
   * An object that is refused as a whole becomes null. Otherwise the properties that remain are
   * exactly the admitted ones, in order, with nested data checked under the trust the object gives.
   */
  lemma KeepsExactly(e: Env, t: Tree, trust: bool, declared: Option<string>)
    requires IsOutput(e.cfg) && t.Object? && Readable(e, t, declared) && !(e.cfg.noteCheckedObjects && t.marked)
    ensures var cls := ClassOf(t.proto, declared);
      if PassesGate(e, t.proto, t.fields, trust, declared) then
        var kept := AdmittedFrom(e, cls, Some(OwnerOf(t.fields)), t.fields, 0, trust);
        kept.Ok? && Check(e, t, trust, declared) == Ok(t.(fields := kept.value))
      else
        Check(e, t, trust, declared) == Ok(Value(Null))
  {
    var cls, owner := ClassOf(t.proto, declared), Some(OwnerOf(t.fields));
    ObjectForm(e, t, trust, declared);
    assert t.fields[0..] == t.fields;
    FixedKeepsAdmitted(e, cls, owner, t.fields, 0, trust);
  }

  lemma {:induction false} NeverThrows(e: Env, t: Tree, trust: bool, declared: Option<string>)
    requires !e.cfg.throwError
    ensures Check(e, t, trust, declared).Ok?
    decreases t
  {
    match t
    case Value(_) =>
    case List(items) =>
      if items != [] {
        NeverThrows(e, items[0], trust, declared);
        ItemsNeverThrow(e, items, trust, declared);
      }
    case Object(_, proto, fields) =>
      FieldsNeverThrow(e, MetadataOwner(proto, declared), [], fields, trust);
  }

  lemma {:induction false} ItemsNeverThrow(e: Env, items: seq<Tree>, trust: bool, declared: Option<string>)
    requires !e.cfg.throwError
    ensures CheckItems(e, items, trust, declared).Ok?
    decreases items
  {
    if items != [] {
      NeverThrows(e, items[0], trust, declared);
      ItemsNeverThrow(e, items[1..], trust, declared);
    }
  }

  lemma {:induction false} FieldsNeverThrow(e: Env, cls: Option<string>, done: seq<Field>, rest: seq<Field>,
                                            trust: bool)
    requires !e.cfg.throwError
    ensures CheckFields(e, cls, done, rest, trust).Ok?
    decreases rest
  {
    if rest != [] {
      var f := rest[0];
      var trust' := NextTrust(CurrentOwner(e.cfg, done + rest), trust, e.user);
      var nested := NestedType(e.schema, cls, f.key);
      NeverThrows(e, f.value, trust', nested);
      FieldsNeverThrow(e, cls, done + [f], rest[1..], trust);
      FieldsNeverThrow(e, cls, done + [Field(f.key, Check(e, f.value, trust', nested).value)], rest[1..], trust');
      FieldsNeverThrow(e, cls, done, rest[1..], trust);
    }
  }

  // ---- more roles keep more ----

  /**
   * Everything in `a` is in `b`, in the same place. Only where objects are checked as a whole
   * (`gated`), what is refused shows as null or undefined, and a refused list as an empty one.
   */
  predicate Within(gated: bool, a: Tree, b: Tree)
    decreases b
  {
    (gated && IsNothing(a)) ||
    match (a, b)
    case (Value(x), Value(y)) => x == y
    case (List(xs), List(ys)) =>
      (gated && xs == []) || (|xs| == |ys| && forall i :: 0 <= i < |ys| ==> Within(gated, xs[i], ys[i]))
    case (Object(m, p, xs), Object(n, q, ys)) => m == n && p == q && FieldsWithin(gated, xs, ys)
    case _ => false
  }

  predicate FieldsWithin(gated: bool, xs: seq<Field>, ys: seq<Field>)
    decreases ys
  {
    if ys == [] then xs == []
    else
      FieldsWithin(gated, xs, ys[1..]) ||
      (xs != [] && xs[0].key == ys[0].key && Within(gated, xs[0].value, ys[0].value) &&
       FieldsWithin(gated, xs[1..], ys[1..]))
  }

  lemma {:induction false} WithinSelf(gated: bool, t: Tree)
    ensures Within(gated, t, t)
    decreases t
  {
    match t
    case Value(_) =>
    case List(items) =>
      forall i | 0 <= i < |items|
        ensures Within(gated, items[i], items[i])
      {
        WithinSelf(gated, items[i]);
      }
    case Object(_, _, fields) =>
      FieldsWithinSelf(gated, fields);
  }

  lemma {:induction false} FieldsWithinSelf(gated: bool, fields: seq<Field>)
    ensures FieldsWithin(gated, fields, fields)
    decreases fields
  {
    if fields != [] {
      WithinSelf(gated, fields[0].value);
      FieldsWithinSelf(gated, fields[1..]);
    }
  }

  /** The same check for a user with at least the roles, and at least the trust, keeps a superset. */
  lemma {:induction false} MoreRolesKeepMore(e: Env, stronger: Option<User>, t: Tree, trust: bool, trust': bool,
                                             declared: Option<string>)
    requires IsOutput(e.cfg) && AtMost(e.user, stronger) && (trust ==> trust') && Readable(e, t, declared)
    ensures var a, b := Check(e, t, trust, declared), Check(e.(user := stronger), t, trust', declared);
      a.Ok? && b.Ok? && Within(e.cfg.checkObjectItself, a.value, b.value)
    decreases t, 1
  {
    NeverThrows(e, t, trust, declared);
    NeverThrows(e.(user := stronger), t, trust', declared);
    match t
    case Value(_) =>
    case List(items) =>
      if items != [] {
        ListKeepsMore(e, stronger, items, trust, trust', declared);
      }
    case Object(_, _, _) =>
      if e.cfg.noteCheckedObjects && t.marked {
        WithinSelf(e.cfg.checkObjectItself, t);
      } else {
        ObjectKeepsMore(e, stronger, t, trust, trust', declared);
      }
  }

  lemma {:induction false} ObjectKeepsMore(e: Env, stronger: Option<User>, t: Tree, trust: bool, trust': bool,
                                           declared: Option<string>)
    requires IsOutput(e.cfg) && AtMost(e.user, stronger) && (trust ==> trust') && Readable(e, t, declared)
    requires t.Object? && !(e.cfg.noteCheckedObjects && t.marked)
    ensures var a, b := Check(e, t, trust, declared), Check(e.(user := stronger), t, trust', declared);
      a.Ok? && b.Ok? && Within(e.cfg.checkObjectItself, a.value, b.value)
    decreases t, 0
  {
    var f := e.(user := stronger);
    ObjectForm(e, t, trust, declared);
    ReadableTreeForStronger(e, stronger, t, declared);
    ObjectForm(f, t, trust', declared);
    if PassesGate(e, t.proto, t.fields, trust, declared) {
      GateGrows(e, stronger, t.proto, t.fields, trust, trust', declared);
      FieldsKeepMore(e, stronger, ClassOf(t.proto, declared), Some(OwnerOf(t.fields)), t.fields, trust, trust');
    }
  }

  lemma GateGrows(e: Env, stronger: Option<User>, proto: Proto, fields: seq<Field>, trust: bool, trust': bool,
                  declared: Option<string>)
    requires AtMost(e.user, stronger) && (trust ==> trust') && PassesGate(e, proto, fields, trust, declared)
    ensures PassesGate(e.(user := stronger), proto, fields, trust', declared)
  {
    var cls, owner := ClassOf(proto, declared), Some(OwnerOf(fields));
    MayHaveObjectExactly(e, cls, owner, trust);
    MayHaveObjectExactly(e.(user := stronger), cls, owner, trust');
    if e.cfg.checkObjectItself {
      ValidateGrows(e.cfg, ClassRestrictions(e.schema, cls), owner, trust, trust', e.user, stronger);
    }
  }

  /** Item by item, with the same items undefined. */
  predicate ItemsWithin(gated: bool, xs: seq<Tree>, ys: seq<Tree>) {
    |xs| == |ys| && forall i :: 0 <= i < |xs| ==>
      Within(gated, xs[i], ys[i]) && (xs[i] == Value(Undefined) <==> ys[i] == Value(Undefined))
  }

  lemma {:induction false} ListKeepsMore(e: Env, stronger: Option<User>, items: seq<Tree>, trust: bool, trust': bool,
                                         declared: Option<string>)
    requires IsOutput(e.cfg) && AtMost(e.user, stronger) && (trust ==> trust') && items != []
    requires forall i :: 0 <= i < |items| ==> Readable(e, items[i], declared)
    ensures var a, b := CheckList(e, items, trust, declared), CheckList(e.(user := stronger), items, trust', declared);
      a.Ok? && b.Ok? && Within(e.cfg.checkObjectItself, List(a.value), List(b.value))
    decreases items, 1
  {
    var f := e.(user := stronger);
    ItemsKeepMore(e, stronger, items, trust, trust', declared);
    ListForm(e, items, trust, declared);
    ListForm(f, items, trust', declared);
    CheckedKind(e, items[0], trust, declared);
    DefinedWithin(e.cfg.checkObjectItself, CheckItems(e, items, trust, declared).value,
                  CheckItems(f, items, trust', declared).value);
  }

  /** The array branch, told from what all items check to. */
  lemma ListForm(e: Env, items: seq<Tree>, trust: bool, declared: Option<string>)
    requires IsOutput(e.cfg) && items != [] && CheckItems(e, items, trust, declared).Ok?
    ensures var all := CheckItems(e, items, trust, declared).value;
      all[0] == Check(e, items[0], trust, declared).value && Check(e, items[0], trust, declared).Ok? &&
      CheckList(e, items, trust, declared) == Ok(
        if UsesShortcut(e, items[0], declared) && IsNothing(all[0]) then
          if e.cfg.removeUndefinedFromResultArray then [] else Undefineds(|items|)
        else if e.cfg.removeUndefinedFromResultArray then Defined(all)
        else all)
  {
  }

  /** An object checks to an object or to null, and only what is undefined checks to undefined. */
  lemma CheckedKind(e: Env, t: Tree, trust: bool, declared: Option<string>)
    requires Check(e, t, trust, declared).Ok?
    ensures var r := Check(e, t, trust, declared).value;
      (t.Object? ==> r.Object? || (e.cfg.checkObjectItself && r == Value(Null))) &&
      (r == Value(Undefined) <==> t == Value(Undefined))
  {
  }

  lemma {:induction false} DefinedWithin(gated: bool, xs: seq<Tree>, ys: seq<Tree>)
    requires ItemsWithin(gated, xs, ys)
    ensures ItemsWithin(gated, Defined(xs), Defined(ys))
  {
    if xs != [] {
      assert Within(gated, xs[0], ys[0]);
      DefinedWithin(gated, xs[1..], ys[1..]);
    }
  }

  lemma {:induction false} ItemsKeepMore(e: Env, stronger: Option<User>, items: seq<Tree>, trust: bool, trust': bool,
                                         declared: Option<string>)
    requires IsOutput(e.cfg) && AtMost(e.user, stronger) && (trust ==> trust')
    requires forall i :: 0 <= i < |items| ==> Readable(e, items[i], declared)
    ensures
      var a := CheckItems(e, items, trust, declared);
      var b := CheckItems(e.(user := stronger), items, trust', declared);
      a.Ok? && b.Ok? && ItemsWithin(e.cfg.checkObjectItself, a.value, b.value)
    decreases items, 0
  {
    if items != [] {
      ItemKeepsMore(e, stronger, items[0], trust, trust', declared);
      ItemsKeepMore(e, stronger, items[1..], trust, trust', declared);
      var f := e.(user := stronger);
      var x, y := Check(e, items[0], trust, declared).value, Check(f, items[0], trust', declared).value;
      OneMoreWithin(e.cfg.checkObjectItself, x, CheckItems(e, items[1..], trust, declared).value, y,
                    CheckItems(f, items[1..], trust', declared).value);
    }
  }

  lemma OneMoreWithin(gated: bool, x: Tree, xs: seq<Tree>, y: Tree, ys: seq<Tree>)
    requires ItemsWithin(gated, xs, ys) && Within(gated, x, y) && (x == Value(Undefined) <==> y == Value(Undefined))
    ensures ItemsWithin(gated, [x] + xs, [y] + ys)
  {
  }

  lemma {:induction false} ItemKeepsMore(e: Env, stronger: Option<User>, item: Tree, trust: bool, trust': bool,
                                         declared: Option<string>)
    requires IsOutput(e.cfg) && AtMost(e.user, stronger) && (trust ==> trust') && Readable(e, item, declared)
    ensures var a, b := Check(e, item, trust, declared), Check(e.(user := stronger), item, trust', declared);
      a.Ok? && b.Ok? && Within(e.cfg.checkObjectItself, a.value, b.value) &&
      (a.value == Value(Undefined) <==> b.value == Value(Undefined))
    decreases item, 2
  {
    MoreRolesKeepMore(e, stronger, item, trust, trust', declared);
    CheckedKind(e, item, trust, declared);
    CheckedKind(e.(user := stronger), item, trust', declared);
  }

  lemma {:induction false} ReadableForStronger(e: Env, stronger: Option<User>, cls: Option<string>,
                                               owner: Option<Owner>, fields: seq<Field>)
    requires AtMost(e.user, stronger) && ReadableFields(e, cls, owner, fields)
    ensures ReadableFields(e.(user := stronger), cls, owner, fields)
    decreases fields, 1
  {
    forall i | 0 <= i < |fields|
      ensures Readable(e.(user := stronger), fields[i].value, DeclaredFor(e.schema, cls, fields[i].key))
      ensures MayHave(e, cls, fields[i].key, owner, false) ==>
        MayHave(e.(user := stronger), cls, fields[i].key, owner, false)
      ensures IsOwnerKey(fields[i].key) ==>
        OwnerValueReadable(e.(user := stronger), fields[i].key, fields[i].value,
                           DeclaredFor(e.schema, cls, fields[i].key))
    {
      if fields[i].key == "createdBy" && fields[i].value.Object? {
        var v := fields[i].value;
        GateGrows(e, stronger, v.proto, v.fields, false, false, DeclaredFor(e.schema, cls, fields[i].key));
      }
      ReadableTreeForStronger(e, stronger, fields[i].value, DeclaredFor(e.schema, cls, fields[i].key));
      if MayHave(e, cls, fields[i].key, owner, false) {
        MayHaveExactly(e, cls, fields[i].key, owner, false);
        MayHaveExactly(e.(user := stronger), cls, fields[i].key, owner, false);
        ValidateGrows(e.cfg, Merged(e.cfg, e.schema, cls, fields[i].key), owner, false, false, e.user, stronger);
      }
    }
  }

  lemma {:induction false} ReadableTreeForStronger(e: Env, stronger: Option<User>, t: Tree, declared: Option<string>)
    requires AtMost(e.user, stronger) && Readable(e, t, declared)
    ensures Readable(e.(user := stronger), t, declared)
    decreases t, 0
  {
    match t
    case Value(_) =>
    case List(items) =>
      forall i | 0 <= i < |items|
        ensures Readable(e.(user := stronger), items[i], declared)
      {
        ReadableTreeForStronger(e, stronger, items[i], declared);
      }
    case Object(_, proto, fields) =>
      ReadableForStronger(e, stronger, MetadataOwner(proto, declared), Some(OwnerOf(fields)), fields);
  }

  lemma {:induction false} FieldsKeepMore(e: Env, stronger: Option<User>, cls: Option<string>, owner: Option<Owner>,
                                          fields: seq<Field>, trust: bool, trust': bool)
    requires IsOutput(e.cfg) && AtMost(e.user, stronger) && owner.Some? && TrustGrows(owner, trust, trust')
    requires ReadableFields(e, cls, owner, fields)
    requires Fixed(e, cls, owner, fields, trust).Ok? && Fixed(e.(user := stronger), cls, owner, fields, trust').Ok?
    ensures FieldsWithin(e.cfg.checkObjectItself, Fixed(e, cls, owner, fields, trust).value,
                         Fixed(e.(user := stronger), cls, owner, fields, trust').value)
    decreases fields
  {
    if fields != [] {
      var f := fields[0];
      assert ReadableFields(e, cls, owner, fields[1..]);
      if Skipped(e.cfg, f.value) {
        WithinSelf(e.cfg.checkObjectItself, f.value);
        FieldsKeepMore(e, stronger, cls, owner, fields[1..], trust, trust');
      } else {
        var next, next' := NextTrust(owner, trust, e.user), NextTrust(owner, trust', stronger);
        if Passes(e, cls, f.key, owner, trust) {
          ValidateGrows(e.cfg, Merged(e.cfg, e.schema, cls, f.key), owner, trust, trust', e.user, stronger);
          MoreRolesKeepMore(e, stronger, f.value, next, next', NestedType(e.schema, cls, f.key));
          FieldsKeepMore(e, stronger, cls, owner, fields[1..], next, next');
        } else {
          var later := if Passes(e.(user := stronger), cls, f.key, owner, trust') then next' else trust';
          FieldsKeepMore(e, stronger, cls, owner, fields[1..], trust, later);
        }
      }
    }
  }

  // ---- where the conditions are needed ----

  lemma ValidateOneRole(cfg: Config, role: string, owner: Option<Owner>, trust: bool, user: Option<User>)
    requires role != S_NO_ONE
    ensures Validate(cfg, [Role(role)], owner, trust, user) == RolesPass(cfg, [role], owner, trust, user)
  {
    assert [Role(role)][1..] == [];
    assert CollectRoles(cfg, [Role(role)]) == [role];
  }

  /** A class whose `createdBy` needs a role and whose `note` is for its creator. */
  function GuardedCreator(role: string): Schema {
    Schema(map[], map[("Doc", "createdBy") := [Role(role)], ("Doc", "note") := [Role(S_CREATOR)]], map[])
  }

  lemma CreatorGuard(e: Env, role: string, owner: Option<Owner>, trust: bool)
    requires e.schema == GuardedCreator(role) && e.cfg.scope == RoleScope({}, map[], None)
    requires e.user.Some? && e.user.value.roles <= {role} && !SystemRoles.IsSystemRole(role)
    ensures Passes(e, Some("Doc"), "createdBy", owner, trust) == (role in e.user.value.roles)
    ensures Passes(e, Some("Doc"), "note", owner, trust) == OwnerPasses(e.cfg, owner, trust, e.user)
  {
    RoleGuardsCreator(e, role, owner, trust);
    OwnerGuardsNote(e, role, owner, trust);
  }

  lemma RoleGuardsCreator(e: Env, role: string, owner: Option<Owner>, trust: bool)
    requires e.schema == GuardedCreator(role) && e.cfg.scope == RoleScope({}, map[], None)
    requires e.user.Some? && e.user.value.roles <= {role} && !SystemRoles.IsSystemRole(role)
    ensures Passes(e, Some("Doc"), "createdBy", owner, trust) == (role in e.user.value.roles)
  {
    assert SystemRoles.IsSystemRole(S_CREATOR) && SystemRoles.IsSystemRole(S_EVERYONE) &&
      SystemRoles.IsSystemRole(S_USER) && SystemRoles.IsSystemRole(S_SELF) && SystemRoles.IsSystemRole(S_VERIFIED) &&
      SystemRoles.IsSystemRole(S_NO_ONE);
    ValidateOneRole(e.cfg, role, owner, trust, e.user);
    assert Merged(e.cfg, e.schema, Some("Doc"), "createdBy") == [Role(role)];
  }

  lemma OwnerGuardsNote(e: Env, role: string, owner: Option<Owner>, trust: bool)
    requires e.schema == GuardedCreator(role) && e.cfg.scope == RoleScope({}, map[], None)
    requires e.user.Some? && e.user.value.roles <= {role} && !SystemRoles.IsSystemRole(role)
    ensures Passes(e, Some("Doc"), "note", owner, trust) == OwnerPasses(e.cfg, owner, trust, e.user)
  {
    assert SystemRoles.IsSystemRole(S_CREATOR) && S_CREATOR !in e.user.value.roles;
    ValidateOneRole(e.cfg, S_CREATOR, owner, trust, e.user);
    assert Select(e.cfg.scope, [S_CREATOR], true) == [] && Select(e.cfg.scope, [S_CREATOR], false) == [];
    assert Merged(e.cfg, e.schema, Some("Doc"), "note") == [Role(S_CREATOR)];
  }

  /**
   * `Readable` is needed: `createdBy` is removed for the weaker user, so the object counts as the
   * parent's and `note` is kept; the stronger user sees who created it and loses `note`.
   */
  lemma HiddenCreatorKeepsMore(e: Env, strong: User, role: string, other: string)
    requires IsOutput(e.cfg) && e.cfg.allowCreatorOfParent && e.cfg.scope == RoleScope({}, map[], None)
    requires e.schema == GuardedCreator(role) && !SystemRoles.IsSystemRole(role)
    requires e.user.Some? && e.user.value.roles == {} && strong == e.user.value.(roles := {role})
    requires other != "" && other != strong.id && strong.id != "" && strong.id != ANONYMOUS
    ensures var creator, note := Field("createdBy", Value(Text(other))), Field("note", Value(Text("n")));
      CheckFields(e, Some("Doc"), [], [creator, note], true) == Ok([note]) &&
      CheckFields(e.(user := Some(strong)), Some("Doc"), [], [creator, note], true) == Ok([creator])
  {
    var creator, note := Field("createdBy", Value(Text(other))), Field("note", Value(Text("n")));
    var both := [creator, note];
    var f := e.(user := Some(strong));
    var hidden := Some(Owner(Some(ANONYMOUS), false, None));
    var shown := Some(Owner(Some(ANONYMOUS), true, Some(other)));
    assert [] + both == both && both[1..] == [note] && [note][1..] == [] && [] + [note] == [note];
    assert [creator] + [note] == both;
    CreatorsOf(creator, note, other);
    CreatorGuard(e, role, shown, true);
    CreatorGuard(e, role, hidden, true);
    CreatorGuard(f, role, shown, true);
    CreatorGuard(f, role, shown, false);
    assert CheckFields(e, Some("Doc"), [], both, true) == Ok([note]) by {
      NoteAlone(e, note);
    }
    CreatorAlone(f, creator, note);
  }

  lemma CreatorAlone(f: Env, creator: Field, note: Field)
    requires IsOutput(f.cfg) && creator.value.Value? && creator.value.leaf.Text? && note.value == Value(Text("n"))
    requires var owner := CurrentOwner(f.cfg, [creator, note]);
      Passes(f, Some("Doc"), creator.key, owner, true) && !NextTrust(owner, true, f.user) &&
      !Passes(f, Some("Doc"), note.key, owner, false)
    ensures CheckFields(f, Some("Doc"), [], [creator, note], true) == Ok([creator])
  {
    var both := [creator, note];
    assert [] + both == both && both[1..] == [note] && [note][1..] == [];
    assert [] + [creator] + [note] == both && [] + [creator] == [creator];
    assert Field(creator.key, creator.value) == creator;
    assert CheckFields(f, Some("Doc"), [creator], [], false) == Ok([]);
    assert CheckFields(f, Some("Doc"), [creator], [note], false) == Ok([]);
    assert [creator] + [] == [creator];
  }

  lemma CreatorsOf(creator: Field, note: Field, other: string)
    requires creator == Field("createdBy", Value(Text(other))) && note.key == "note" && other != ""
    ensures OwnerOf([note]) == Owner(Some(ANONYMOUS), false, None)
    ensures OwnerOf([creator, note]) == Owner(Some(ANONYMOUS), true, Some(other))
  {
    assert |"note"| == 4 && |"id"| == 2 && |"_id"| == 3 && |"createdBy"| == 9;
    FindInTwo(creator, note, "id");
    FindInTwo(creator, note, "_id");
    FindInTwo(creator, note, "createdBy");
  }

  lemma FindInTwo(a: Field, b: Field, key: string)
    ensures Find([b], key) == if b.key == key then Some(b.value) else None
    ensures Find([a, b], key) == if a.key == key then Some(a.value) else Find([b], key)
  {
    assert [a, b][1..] == [b] && [b][1..] == [];
    assert Find([], key) == None;
  }

  lemma NoteAlone(e: Env, note: Field)
    requires note.value == Value(Text("n")) && [] + [note] == [note]
    requires Passes(e, Some("Doc"), note.key, CurrentOwner(e.cfg, [note]), true)
    ensures CheckFields(e, Some("Doc"), [], [note], true) == Ok([note])
  {
    assert [note][1..] == [];
    var trust := NextTrust(CurrentOwner(e.cfg, [note]), true, e.user);
    assert CheckFields(e, Some("Doc"), [] + [note], [], trust) == Ok([]);
    assert [note] + [] == [note];
  }
}
