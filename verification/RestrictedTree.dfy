/**
 * What `checkRestricted` makes of tree-shaped data, and what that keeps: which properties remain,
 * that more roles never remove one, that with `throwError` nothing is removed, and that on input
 * the data's own ownership claims do not count.
 */
module RestrictedTree {
  import opened Outcomes
  import opened RestrictedAccess

  datatype Proto = ObjectProto | NoProto | Class(name: string)

  datatype Leaf = Undefined | Null | Function | Text(s: string)

  /** `marked`: the framework has noted the object as already checked. */
  datatype Tree =
    | Value(leaf: Leaf)
    | List(items: seq<Tree>)
    | Object(marked: bool, proto: Proto, fields: seq<Field>)

  datatype Field = Field(key: string, value: Tree)

  /** Decorator metadata: class restrictions, property restrictions, declared property types. */
  datatype Schema = Schema(
    classes: map<string, seq<Restriction>>,
    fields: map<(string, string), seq<Restriction>>,
    nested: map<(string, string), string>)

  // ---- metadata ----

  function ClassRestrictions(s: Schema, cls: Option<string>): seq<Restriction> {
    if cls.Some? && cls.value in s.classes then s.classes[cls.value] else []
  }

  function FieldRestrictions(s: Schema, cls: Option<string>, key: string): seq<Restriction> {
    if cls.Some? && (cls.value, key) in s.fields then s.fields[(cls.value, key)] else []
  }

  function NestedType(s: Schema, cls: Option<string>, key: string): Option<string> {
    if cls.Some? && (cls.value, key) in s.nested then Some(s.nested[(cls.value, key)]) else None
  }

  /** The class whose metadata applies: the object's own, or the declared one for plain objects. */
  function MetadataOwner(proto: Proto, declared: Option<string>): Option<string> {
    if proto.Class? then Some(proto.name) else declared
  }

  function Merged(cfg: Config, s: Schema, cls: Option<string>, key: string): seq<Restriction> {
    var own := ClassRestrictions(s, cls);
    if cfg.mergeRoles && own != [] then own + FieldRestrictions(s, cls, key) else FieldRestrictions(s, cls, key)
  }

  // ---- ownership ----

  function Find(fields: seq<Field>, key: string): Option<Tree> {
    if fields == [] then None
    else if fields[0].key == key then Some(fields[0].value)
    else Find(fields[1..], key)
  }

  function LeafId(t: Option<Tree>): Option<string> {
    match t
    case Some(Value(Text(s))) => if s == "" then None else Some(s)
    case _ => None
  }

  predicate Falsy(t: Option<Tree>) {
    t.None? || (t.value.Value? && (t.value.leaf.Undefined? || t.value.leaf.Null? || t.value.leaf == Text("")))
  }

  /** The text of an object's id; an id that is no text has none. */
  function IdOf(fields: seq<Field>): Option<string> {
    if !Falsy(Find(fields, "id")) then LeafId(Find(fields, "id"))
    else if !Falsy(Find(fields, "_id")) then LeafId(Find(fields, "_id"))
    else Some(ANONYMOUS)
  }

  /** The id in `createdBy`: of a populated creator its own id. */
  function CreatorOf(creator: Option<Tree>): Option<string> {
    if creator.Some? && creator.value.Object? then IdOf(creator.value.fields) else LeafId(creator)
  }

  function OwnerOf(fields: seq<Field>): Owner {
    var creator := Find(fields, "createdBy");
    Owner(IdOf(fields), creator.Some?, CreatorOf(creator))
  }

  /** A user without an id is taken for the owner of exactly the objects without an id, or with an id of that text. */
  lemma AnonymousOwnsExactly(fields: seq<Field>, user: User)
    requires user.id == ""
    ensures
      var first := if Falsy(Find(fields, "id")) then Find(fields, "_id") else Find(fields, "id");
      SameId(OwnerOf(fields).id, Some(user)) <==> Falsy(first) || first == Some(Value(Text(ANONYMOUS)))
  {
  }

  /** On input ownership comes from the stored object, otherwise from the data. */
  function CurrentOwner(cfg: Config, fields: seq<Field>): Option<Owner> {
    if cfg.processType == Some(Input) then
      if cfg.dbObject.Some? then Some(cfg.dbObject.value.owner) else None
    else Some(OwnerOf(fields))
  }

  /** `isCreatorOfParent` after a property that passed. */
  predicate NextTrust(owner: Option<Owner>, trust: bool, user: Option<User>) {
    if owner.None? then trust
    else
      SameId(owner.value.id, user) ||
      if owner.value.hasCreatedBy then SameId(owner.value.createdBy, user) else trust
  }

  // ---- the check ----

  /** What a check runs with besides the data. */
  datatype Env = Env(cfg: Config, schema: Schema, user: Option<User>)

  predicate Skipped(cfg: Config, t: Tree) {
    t.Value? && ((t.leaf.Function? && cfg.ignoreFunctions) || (t.leaf.Undefined? && cfg.ignoreUndefined))
  }

  predicate Passes(e: Env, cls: Option<string>, key: string, owner: Option<Owner>, trust: bool) {
    Validate(e.cfg, Merged(e.cfg, e.schema, cls, key), owner, trust, e.user)
  }

  function Check(e: Env, t: Tree, trust: bool, declared: Option<string>): Result<Tree>
    decreases t
  {
    match t
    case Value(_) => Ok(t)
    case List(items) =>
      if items == [] then Ok(t)
      else
        var r :- CheckList(e, items, trust, declared);
        Ok(List(r))
    case Object(marked, proto, fields) =>
      var cls := MetadataOwner(proto, declared);
      if e.cfg.noteCheckedObjects && marked then Ok(t)
      else if e.cfg.checkObjectItself &&
              !Validate(e.cfg, ClassRestrictions(e.schema, cls), CurrentOwner(e.cfg, fields), trust, e.user) then
        if e.cfg.throwError then Err else Ok(Value(Null))
      else
        var kept :- CheckFields(e, cls, [], fields, trust);
        Ok(Object(marked, proto, kept))
  }

  /** The properties `rest`, after those in `done` have been dealt with. */
  function CheckFields(e: Env, cls: Option<string>, done: seq<Field>, rest: seq<Field>, trust: bool): Result<seq<Field>>
    decreases rest
  {
    if rest == [] then Ok([])
    else
      var f := rest[0];
      var owner := CurrentOwner(e.cfg, done + rest);
      if Skipped(e.cfg, f.value) then
        var tail :- CheckFields(e, cls, done + [f], rest[1..], trust);
        Ok([f] + tail)
      else if Passes(e, cls, f.key, owner, trust) then
        var trust' := NextTrust(owner, trust, e.user);
        var value :- Check(e, f.value, trust', NestedType(e.schema, cls, f.key));
        var tail :- CheckFields(e, cls, done + [Field(f.key, value)], rest[1..], trust');
        Ok([Field(f.key, value)] + tail)
      else if e.cfg.throwError then Err
      else CheckFields(e, cls, done, rest[1..], trust)
  }

  /** Do the class restrictions depend on who owns the single item? */
  predicate MentionsOwnership(item: Restriction) {
    match item
    case Role(r) => r == S_CREATOR || r == S_SELF
    case RoleList(rs) => S_CREATOR in rs || S_SELF in rs
    case Spec(rs, _, _) => S_CREATOR in rs || S_SELF in rs
  }

  function SampleOwner(proto: Proto, declared: Option<string>): Option<string> {
    match proto
    case Class(name) => Some(name)
    case NoProto => None
    case ObjectProto => declared
  }

  predicate ShortcutFor(e: Env, proto: Proto, declared: Option<string>) {
    var restrictions := ClassRestrictions(e.schema, SampleOwner(proto, declared));
    restrictions != [] && forall i :: 0 <= i < |restrictions| ==> !MentionsOwnership(restrictions[i])
  }

  /** Typed arrays whose class restrictions do not depend on the item: the first item decides for all. */
  predicate UsesShortcut(e: Env, sample: Tree, declared: Option<string>) {
    sample.Object? && ShortcutFor(e, sample.proto, declared)
  }

  predicate IsNothing(t: Tree) {
    t == Value(Undefined) || t == Value(Null)
  }

  function CheckList(e: Env, items: seq<Tree>, trust: bool, declared: Option<string>): Result<seq<Tree>>
    requires items != []
    decreases items, 1
  {
    var sample :- Check(e, items[0], trust, declared);
    if UsesShortcut(e, items[0], declared) && IsNothing(sample) then
      if e.cfg.throwError then Ok(items)
      else Ok(if e.cfg.removeUndefinedFromResultArray then [] else Undefineds(|items|))
    else
      var checked :- CheckItems(e, items, trust, declared);
      Ok(if !e.cfg.throwError && e.cfg.removeUndefinedFromResultArray then Defined(checked) else checked)
  }

  function CheckItems(e: Env, items: seq<Tree>, trust: bool, declared: Option<string>): (r: Result<seq<Tree>>)
    ensures r.Ok? ==> |r.value| == |items|
    decreases items, 0
  {
    if items == [] then Ok([])
    else
      var first :- Check(e, items[0], trust, declared);
      var others :- CheckItems(e, items[1..], trust, declared);
      Ok([first] + others)
  }

  function Undefineds(n: nat): seq<Tree> {
    seq(n, _ => Value(Undefined))
  }

  function Defined(items: seq<Tree>): seq<Tree> {
    if items == [] then []
    else (if items[0] == Value(Undefined) then [] else [items[0]]) + Defined(items[1..])
  }

  // ---- with throwError: all or nothing ----

  /** A check that may throw either throws or gives the data back unchanged. */
  lemma {:induction false} ThrowRemovesNothing(e: Env, t: Tree, trust: bool, declared: Option<string>)
    requires e.cfg.throwError && Check(e, t, trust, declared).Ok?
    ensures Check(e, t, trust, declared).value == t
    decreases t
  {
    match t
    case Value(_) =>
    case List(items) =>
      if items != [] {
        ThrowRemovesNoItem(e, items, trust, declared);
      }
    case Object(_, proto, fields) =>
      if !(e.cfg.noteCheckedObjects && t.marked) {
        ThrowRemovesNoField(e, MetadataOwner(proto, declared), [], fields, trust);
      }
  }

  lemma {:induction false} ThrowRemovesNoItem(e: Env, items: seq<Tree>, trust: bool, declared: Option<string>)
    requires e.cfg.throwError && items != [] && CheckList(e, items, trust, declared).Ok?
    ensures CheckList(e, items, trust, declared).value == items
    decreases items, 1
  {
    ThrowRemovesNothing(e, items[0], trust, declared);
    if CheckItems(e, items, trust, declared).Ok? {
      ThrowKeepsItems(e, items, trust, declared);
    }
  }

  lemma {:induction false} ThrowKeepsItems(e: Env, items: seq<Tree>, trust: bool, declared: Option<string>)
    requires e.cfg.throwError && CheckItems(e, items, trust, declared).Ok?
    ensures CheckItems(e, items, trust, declared).value == items
    decreases items, 0
  {
    if items != [] {
      ThrowRemovesNothing(e, items[0], trust, declared);
      ThrowKeepsItems(e, items[1..], trust, declared);
    }
  }

  lemma {:induction false} ThrowRemovesNoField(e: Env, cls: Option<string>, done: seq<Field>, rest: seq<Field>,
                                               trust: bool)
    requires e.cfg.throwError && CheckFields(e, cls, done, rest, trust).Ok?
    ensures CheckFields(e, cls, done, rest, trust).value == rest
    decreases rest
  {
    if rest != [] {
      var f := rest[0];
      var owner := CurrentOwner(e.cfg, done + rest);
      if Skipped(e.cfg, f.value) {
        ThrowRemovesNoField(e, cls, done + [f], rest[1..], trust);
      } else {
        var trust' := NextTrust(owner, trust, e.user);
        ThrowRemovesNothing(e, f.value, trust', NestedType(e.schema, cls, f.key));
        ThrowRemovesNoField(e, cls, done + [Field(f.key, f.value)], rest[1..], trust');
      }
    }
  }

  // ---- on input, ownership claims in the data do not count ----

  /** The same structure, keys and classes; scalar values may differ as long as the same ones are skipped. */
  predicate SameShape(a: Tree, b: Tree)
    decreases a
  {
    match (a, b)
    case (Value(x), Value(y)) => (x.Undefined? <==> y.Undefined?) && (x.Function? <==> y.Function?)
    case (List(xs), List(ys)) => |xs| == |ys| && forall i :: 0 <= i < |xs| ==> SameShape(xs[i], ys[i])
    case (Object(m, p, xs), Object(n, q, ys)) => m == n && p == q && SameFields(xs, ys)
    case _ => false
  }

  predicate SameFields(xs: seq<Field>, ys: seq<Field>)
    decreases xs
  {
    |xs| == |ys| && forall i :: 0 <= i < |xs| ==> xs[i].key == ys[i].key && SameShape(xs[i].value, ys[i].value)
  }

  predicate SameOutcome(a: Result<Tree>, b: Result<Tree>) {
    match (a, b)
    case (Ok(x), Ok(y)) => SameShape(x, y)
    case (Err, Err) => true
    case _ => false
  }

  /**
   * On input, what is kept or refused depends on the structure of the data only: no `id` or
   * `createdBy` in it, at any depth, changes a decision.
   */
  lemma {:induction false} InputClaimsDoNotCount(e: Env, a: Tree, b: Tree, trust: bool, declared: Option<string>)
    requires e.cfg.processType == Some(Input) && SameShape(a, b)
    ensures SameOutcome(Check(e, a, trust, declared), Check(e, b, trust, declared))
    decreases a
  {
    match a
    case Value(_) =>
    case List(items) =>
      if items != [] {
        InputListClaims(e, items, b.items, trust, declared);
      }
    case Object(_, proto, fields) =>
      InputFieldClaims(e, MetadataOwner(proto, declared), [], [], fields, b.fields, trust);
  }

  predicate SameItems(xs: seq<Tree>, ys: seq<Tree>) {
    |xs| == |ys| && forall i :: 0 <= i < |xs| ==> SameShape(xs[i], ys[i])
  }

  predicate SameItemOutcome(a: Result<seq<Tree>>, b: Result<seq<Tree>>) {
    match (a, b)
    case (Ok(x), Ok(y)) => SameItems(x, y)
    case (Err, Err) => true
    case _ => false
  }

  lemma {:induction false} InputListClaims(e: Env, xs: seq<Tree>, ys: seq<Tree>, trust: bool, declared: Option<string>)
    requires e.cfg.processType == Some(Input) && xs != [] && SameItems(xs, ys)
    ensures SameItemOutcome(CheckList(e, xs, trust, declared), CheckList(e, ys, trust, declared))
    decreases xs, 1
  {
    var first, first' := Check(e, xs[0], trust, declared), Check(e, ys[0], trust, declared);
    assert SameOutcome(first, first') by {
      InputClaimsDoNotCount(e, xs[0], ys[0], trust, declared);
    }
    if first.Ok? {
      SampleAgrees(e, xs[0], ys[0], trust, declared);
      InputItemClaims(e, xs, ys, trust, declared);
      ListsAgree(e, xs, ys, trust, declared);
    }
  }

  lemma ListsAgree(e: Env, xs: seq<Tree>, ys: seq<Tree>, trust: bool, declared: Option<string>)
    requires xs != [] && SameItems(xs, ys)
    requires
      var first, first' := Check(e, xs[0], trust, declared), Check(e, ys[0], trust, declared);
      var uses := UsesShortcut(e, xs[0], declared);
      first.Ok? && first'.Ok? && uses == UsesShortcut(e, ys[0], declared) &&
      (uses ==> IsNothing(first.value) == IsNothing(first'.value))
    requires SameItemOutcome(CheckItems(e, xs, trust, declared), CheckItems(e, ys, trust, declared))
    ensures SameItemOutcome(CheckList(e, xs, trust, declared), CheckList(e, ys, trust, declared))
  {
    var x, y := CheckItems(e, xs, trust, declared), CheckItems(e, ys, trust, declared);
    if x.Ok? {
      SameDefined(x.value, y.value);
    }
  }

  lemma SampleAgrees(e: Env, a: Tree, b: Tree, trust: bool, declared: Option<string>)
    requires SameShape(a, b) && SameOutcome(Check(e, a, trust, declared), Check(e, b, trust, declared))
    requires Check(e, a, trust, declared).Ok?
    ensures UsesShortcut(e, a, declared) == UsesShortcut(e, b, declared)
    ensures UsesShortcut(e, a, declared) ==>
      IsNothing(Check(e, a, trust, declared).value) == IsNothing(Check(e, b, trust, declared).value)
  {
    if a.Object? {
      CheckedObject(e, a, trust, declared);
      CheckedObject(e, b, trust, declared);
    }
  }

  /** An object checks to an object or to null. */
  lemma CheckedObject(e: Env, t: Tree, trust: bool, declared: Option<string>)
    requires t.Object? && Check(e, t, trust, declared).Ok?
    ensures var r := Check(e, t, trust, declared).value; r.Object? || r == Value(Null)
  {
  }

  lemma {:induction false} SameDefined(xs: seq<Tree>, ys: seq<Tree>)
    requires SameItems(xs, ys)
    ensures SameItems(Defined(xs), Defined(ys))
  {
    if xs != [] {
      var x, y, xs', ys' := xs[0], ys[0], Defined(xs[1..]), Defined(ys[1..]);
      assert SameShape(x, y);
      SameDefined(xs[1..], ys[1..]);
      if x == Value(Undefined) {
        assert Defined(xs) == [] + xs' == xs' && Defined(ys) == [] + ys' == ys';
      } else {
        assert Defined(xs) == [x] + xs' && Defined(ys) == [y] + ys';
      }
    }
  }

  lemma {:induction false} InputItemClaims(e: Env, xs: seq<Tree>, ys: seq<Tree>, trust: bool, declared: Option<string>)
    requires e.cfg.processType == Some(Input) && SameItems(xs, ys)
    ensures SameItemOutcome(CheckItems(e, xs, trust, declared), CheckItems(e, ys, trust, declared))
    decreases xs, 0
  {
    if xs != [] {
      InputClaimsDoNotCount(e, xs[0], ys[0], trust, declared);
      InputItemClaims(e, xs[1..], ys[1..], trust, declared);
    }
  }

  predicate SameFieldOutcome(a: Result<seq<Field>>, b: Result<seq<Field>>) {
    match (a, b)
    case (Ok(x), Ok(y)) => SameFields(x, y)
    case (Err, Err) => true
    case _ => false
  }

  lemma SameFieldsCons(f: Field, g: Field, xs: Result<seq<Field>>, ys: Result<seq<Field>>)
    requires f.key == g.key && SameShape(f.value, g.value) && SameFieldOutcome(xs, ys)
    ensures xs.Ok? ==> SameFields([f] + xs.value, [g] + ys.value)
  {
  }

  lemma {:induction false} InputFieldClaims(e: Env, cls: Option<string>, doneX: seq<Field>, doneY: seq<Field>,
                                            xs: seq<Field>, ys: seq<Field>, trust: bool)
    requires e.cfg.processType == Some(Input) && SameFields(xs, ys)
    ensures SameFieldOutcome(CheckFields(e, cls, doneX, xs, trust), CheckFields(e, cls, doneY, ys, trust))
    decreases xs
  {
    if xs != [] {
      var f, g, xs', ys' := xs[0], ys[0], xs[1..], ys[1..];
      var owner := CurrentOwner(e.cfg, doneX + xs);
      assert owner == CurrentOwner(e.cfg, doneY + ys);
      assert SameFields(xs', ys');
      if Skipped(e.cfg, f.value) {
        InputFieldClaims(e, cls, doneX + [f], doneY + [g], xs', ys', trust);
        SameFieldsCons(f, g, CheckFields(e, cls, doneX + [f], xs', trust),
                       CheckFields(e, cls, doneY + [g], ys', trust));
      } else if Passes(e, cls, f.key, owner, trust) {
        var trust' := NextTrust(owner, trust, e.user);
        var nested := NestedType(e.schema, cls, f.key);
        InputClaimsDoNotCount(e, f.value, g.value, trust', nested);
        var x, y := Check(e, f.value, trust', nested), Check(e, g.value, trust', nested);
        if x.Ok? {
          var f', g' := Field(f.key, x.value), Field(g.key, y.value);
          InputFieldClaims(e, cls, doneX + [f'], doneY + [g'], xs', ys', trust');
          SameFieldsCons(f', g', CheckFields(e, cls, doneX + [f'], xs', trust'),
                         CheckFields(e, cls, doneY + [g'], ys', trust'));
        }
      } else {
        InputFieldClaims(e, cls, doneX, doneY, xs', ys', trust);
      }
    }
  }
}
