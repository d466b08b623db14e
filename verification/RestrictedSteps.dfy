/** How the check in place relates to `RestrictedTree.Check`, one array item or property at a time. */
module RestrictedSteps {
  import opened Outcomes
  import opened RestrictedAccess
  import opened RestrictedTree
  import opened RestrictedHeap
  import opened RestrictedRules
  import J = JsHeap

  /** A value, and optionally the tree it is known to hold, none of it processed yet. */
  ghost predicate Pre(h: Cells, next: Ref, start: set<Ref>, processed: set<Ref>, v: Val, t: Option<Tree>) {
    Sound(h, next, start, processed) && Points(start, v) &&
    (t.Some? ==> Rep(h, v, t.value) && Unshared(h, v, t.value) && Foot(h, v, t.value) !! processed)
  }

  /** Only the tree's own objects are processed, and the result holds what `spec` says. */
  ghost predicate Refines(before: Cells, after: Cells, processed: set<Ref>, processed': set<Ref>, foot: set<Ref>,
                          r: Result<Val>, spec: Result<Tree>) {
    processed' - processed <= foot &&
    match spec
    case Err => r.Err?
    case Ok(t) => r.Ok? && Rep(after, r.value, t) && Foot(after, r.value, t) <= foot + (after.Keys - before.Keys)
  }

  ghost predicate Post(e: Env, before: Cells, after: Cells, next: Ref, start: set<Ref>, processed: set<Ref>,
                       processed': set<Ref>, r: Result<Val>) {
    Sound(after, next, start, processed') && Frame(before, after, processed, processed') &&
    (r.Ok? ==> Points(after.Keys, r.value)) && (e.cfg.throwError ==> KeysKept(before, after))
  }

  function Prepend<T>(a: seq<T>, r: Result<seq<T>>): Result<seq<T>> {
    match r case Ok(b) => Ok(a + b) case Err => Err
  }

  predicate IsNothingVal(v: Val) {
    v == Scalar(Undefined) || v == Scalar(Null)
  }

  function DefinedVals(vals: seq<Val>): (r: seq<Val>)
    ensures forall v :: v in r ==> v in vals
  {
    if vals == [] then []
    else (if vals[0] == Scalar(Undefined) then [] else [vals[0]]) + DefinedVals(vals[1..])
  }

  // ---- what a check visits ----

  /** The references in an object or array. */
  function CellRefs(c: Cell): set<Ref> {
    match c
    case Arr(items) => set v | v in items && v.At? :: v.ref
    case Obj(_, _, props) => set p | p in props && p.val.At? :: p.val.ref
  }

  function Edges(h: Cells): J.Graph {
    map r | r in h :: CellRefs(h[r])
  }

  /** The edges of the objects that are not processed yet. */
  ghost function Open(h: Cells, start: set<Ref>, processed: set<Ref>): J.Graph {
    map r | r in start - processed && r in h :: CellRefs(h[r])
  }

  /** Only objects that `v` reaches through unprocessed ones have been processed. */
  ghost predicate Spreads(h: Cells, start: set<Ref>, processed: set<Ref>, v: Val, processed': set<Ref>) {
    forall r :: r in processed' - processed ==> v.At? && J.Reaches(Open(h, start, processed), v.ref, r)
  }

  /** The check of one more value of the object `self`. */
  lemma SpreadsStep(before: Cells, h: Cells, start: set<Ref>, self: Ref, child: Val, p: set<Ref>, p': set<Ref>,
                    p'': set<Ref>)
    requires Frame(before, h, p, p') && start <= before.Keys && self in start && self !in p
    requires child.At? ==> child.ref in CellRefs(before[self])
    requires Spreads(before, start, p, At(self), p') && Spreads(h, start, p', child, p'')
    ensures Spreads(before, start, p, At(self), p'')
  {
    var g, g' := Open(h, start, p'), Open(before, start, p);
    forall r | r in p'' - p ensures J.Reaches(g', self, r) {
      if r !in p' {
        assert r in p'' - p';
        J.ReachesMore(g, g', child.ref, r);
        J.ReachesStep(g', self, child.ref, r);
      }
    }
  }

  lemma SpreadsSelf(h: Cells, start: set<Ref>, p: set<Ref>, self: Ref)
    ensures Spreads(h, start, p, At(self), p + {self})
  {
    J.ReachesSelf(Open(h, start, p), self);
  }

  // ---- what no object keeps ----

  /** On input whose the stored object is; otherwise an owner whose id, if any, is one of the object's own. */
  ghost predicate OwnerFrom(cfg: Config, props: seq<Prop>, owner: Option<Owner>) {
    if cfg.processType == Some(Input) then
      owner == if cfg.dbObject.Some? then Some(cfg.dbObject.value.owner) else None
    else
      owner.Some? && owner.value.id.Some? ==>
        owner.value.id.value == "[object Object]" || HasText(props, "id", owner.value.id.value) ||
        HasText(props, "_id", owner.value.id.value)
  }

  ghost predicate HasText(props: seq<Prop>, key: string, s: string) {
    Prop(key, Scalar(Text(s))) in props
  }

  /** With such an owner, and some trust, the rules let the user have the property. */
  ghost predicate Attainable(e: Env, cls: Option<string>, orig: seq<Prop>, key: string) {
    exists owner, trust :: OwnerFrom(e.cfg, orig, owner) && MayHave(e, cls, key, owner, trust)
  }

  ghost predicate SameText(v: Val, w: Val) {
    w.Scalar? && w.leaf.Text? ==> w == v
  }

  /** Every property is attainable, or has a value that is left alone; texts were there before. */
  ghost predicate Fine(e: Env, cls: Option<string>, orig: seq<Prop>, props: seq<Prop>) {
    forall i :: 0 <= i < |props| ==> FineProp(e, cls, orig, props[i])
  }

  ghost predicate FineProp(e: Env, cls: Option<string>, orig: seq<Prop>, p: Prop) {
    ((p.val == Scalar(Function) && e.cfg.ignoreFunctions) || (p.val == Scalar(Undefined) && e.cfg.ignoreUndefined) ||
     Attainable(e, cls, orig, p.key)) &&
    (p.val.Scalar? && p.val.leaf.Text? ==> p in orig)
  }

  /** No owner and no trust lead to a refusal of the object as a whole. */
  ghost predicate NeverRefused(e: Env, cls: Option<string>) {
    forall owner, trust :: MayHaveObject(e, cls, owner, trust)
  }

  /** An instance of a class keeps no property that is not attainable. */
  ghost predicate Purged(e: Env, orig: Cell, c: Cell) {
    c.Obj? && c.proto.Class? && NeverRefused(e, Some(c.proto.name)) ==>
      orig.Obj? && Fine(e, Some(c.proto.name), orig.props, c.props)
  }

  ghost predicate PurgedAll(e: Env, before: Cells, h: Cells, s: set<Ref>) {
    forall r :: r in s && r in h && r in before ==> Purged(e, before[r], h[r])
  }

  lemma PurgedGrows(e: Env, before: Cells, h: Cells, h': Cells, p0: set<Ref>, p: set<Ref>, p': set<Ref>)
    requires Frame(before, h, p0, p) && Frame(h, h', p, p') && p <= h.Keys
    requires PurgedAll(e, before, h, p - p0) && PurgedAll(e, h, h', p' - p)
    ensures PurgedAll(e, before, h', p' - p0)
  {
    forall r | r in p' - p0 && r in h' && r in before ensures Purged(e, before[r], h'[r]) {
      if r in p {
        assert h'[r] == h[r];
      } else {
        assert h[r] == before[r];
      }
    }
  }

  lemma PurgedWrite(e: Env, before: Cells, h: Cells, self: Ref, c: Cell, p: set<Ref>, p': set<Ref>)
    requires PurgedAll(e, before, h, p' - p) && self in p
    ensures PurgedAll(e, before, h[self := c], p' - p)
  {
  }

  lemma PurgedSelf(e: Env, before: Cells, h: Cells, self: Ref, declared: Option<string>, p: set<Ref>, p': set<Ref>)
    requires self in h && self in before && h[self].Obj? && before[self].Obj? && PurgedAll(e, before, h, p' - p)
    requires Fine(e, MetadataOwner(h[self].proto, declared), before[self].props, h[self].props)
    ensures PurgedAll(e, before, h, p' - (p - {self}))
  {
  }

  lemma FineSnoc(e: Env, cls: Option<string>, orig: seq<Prop>, props: seq<Prop>, p: Prop)
    requires Fine(e, cls, orig, props) && FineProp(e, cls, orig, p)
    ensures Fine(e, cls, orig, props + [p])
  {
  }

  lemma {:induction false} FoundProp(props: seq<Prop>, key: string)
    requires FindProp(props, key).Some?
    ensures Prop(key, FindProp(props, key).value) in props
  {
    if props[0].key != key {
      FoundProp(props[1..], key);
    }
  }

  /** The owner that is read during the key loop. */
  lemma OwnerIsFrom(e: Env, h: Cells, cls: Option<string>, orig: seq<Prop>, done: seq<Prop>, i: nat)
    requires Fine(e, cls, orig, done) && i <= |orig|
    ensures OwnerFrom(e.cfg, orig, HeapOwner(e.cfg, h, done + orig[i..]))
  {
    var now := done + orig[i..];
    forall p | p in now && p.val.Scalar? && p.val.leaf.Text? ensures p in orig {
    }
    if FindProp(now, "id").Some? {
      FoundProp(now, "id");
    }
    if FindProp(now, "_id").Some? {
      FoundProp(now, "_id");
    }
  }

  /** A property the code lets through is attainable. */
  lemma AllowedIsAttainable(e: Env, h: Cells, cls: Option<string>, orig: seq<Prop>, done: seq<Prop>, i: nat,
                            key: string, trust: bool)
    requires Fine(e, cls, orig, done) && i <= |orig|
    requires Passes(e, cls, key, HeapOwner(e.cfg, h, done + orig[i..]), trust)
    ensures Attainable(e, cls, orig, key)
  {
    OwnerIsFrom(e, h, cls, orig, done, i);
    MayHaveExactly(e, cls, key, HeapOwner(e.cfg, h, done + orig[i..]), trust);
  }

  lemma RefusedIsRefused(e: Env, cls: Option<string>, owner: Option<Owner>, trust: bool)
    requires e.cfg.checkObjectItself && !Validate(e.cfg, ClassRestrictions(e.schema, cls), owner, trust, e.user)
    ensures !NeverRefused(e, cls)
  {
    MayHaveObjectExactly(e, cls, owner, trust);
  }

  /** What is restricted to no one is never the user's. */
  lemma NobodyAttains(e: Env, cls: Option<string>, orig: seq<Prop>, key: string)
    requires exists item :: item in OfProperty(e.schema, cls, key) && Names(e.cfg, item, "s_no_one")
    ensures !Attainable(e, cls, orig, key)
  {
    var item :| item in OfProperty(e.schema, cls, key) && Names(e.cfg, item, "s_no_one");
    assert item in (if e.cfg.mergeRoles then OfClass(e.schema, cls) else []) + OfProperty(e.schema, cls, key);
  }

  /** What is for the object itself alone is kept only if one of the object's own ids is the user's. */
  lemma OnlySelfAttains(e: Env, cls: Option<string>, orig: seq<Prop>, key: string)
    requires e.cfg.processType != Some(Input) && e.user.Some? && e.user.value.id != "" &&
      "s_self" !in e.user.value.roles
    requires e.user.value.id != "[object Object]" && !e.cfg.mergeRoles
    requires OfProperty(e.schema, cls, key) == [Role("s_self")] && Attainable(e, cls, orig, key)
    ensures HasText(orig, "id", e.user.value.id) || HasText(orig, "_id", e.user.value.id)
  {
    var owner, trust :| OwnerFrom(e.cfg, orig, owner) && MayHave(e, cls, key, owner, trust);
    assert [] + [Role("s_self")] == [Role("s_self")];
    OneRole(e.cfg, "s_self", owner, trust, e.user);
    SelfGrants(e.cfg, owner, trust, e.user);
  }

  // ---- composing steps ----

  /** What holds between the steps of one array or object. */
  ghost predicate Going(e: Env, before: Cells, h: Cells, next: Ref, start: set<Ref>, p: set<Ref>, p': set<Ref>) {
    Sound(h, next, start, p') && Frame(before, h, p, p') && (e.cfg.throwError ==> KeysKept(before, h))
  }

  lemma GoingOn(e: Env, a: Cells, b: Cells, c: Cells, next: Ref, next': Ref, start: set<Ref>, p: set<Ref>, p': set<Ref>,
                p'': set<Ref>, r: Result<Val>)
    requires Going(e, a, b, next, start, p, p') && Post(e, b, c, next', start, p', p'', r)
    ensures Going(e, a, c, next', start, p, p'')
  {
    FrameTrans(a, b, c, p, p', p'');
  }

  lemma FrameTrans(a: Cells, b: Cells, c: Cells, p: set<Ref>, p': set<Ref>, p'': set<Ref>)
    requires Frame(a, b, p, p') && Frame(b, c, p', p'')
    ensures Frame(a, c, p, p'')
  {
  }

  lemma SetSelf(h: Cells, next: Ref, start: set<Ref>, processed: set<Ref>, self: Ref, c: Cell)
    requires Sound(h, next, start, processed) && self in processed && CellPoints(h.Keys, c)
    ensures Sound(h[self := c], next, start, processed)
  {
  }

  lemma AddCell(h: Cells, next: Ref, start: set<Ref>, processed: set<Ref>, c: Cell)
    requires Sound(h, next, start, processed) && CellPoints(h.Keys, c)
    ensures Sound(h[next := c], next + 1, start, processed)
  {
  }

  /** Nothing is written outside the newly processed part `c` and the object `self` itself. */
  ghost predicate Local(h: Cells, h': Cells, self: Ref, p: set<Ref>, p': set<Ref>, c: set<Ref>) {
    p <= p' && p' - p <= c && h.Keys <= h'.Keys &&
    forall r :: r in h && r !in c && r != self ==> h'[r] == h[r]
  }

  /** The footprints still fit after one part `c` of `foot` has been worked on. */
  lemma FootStep(before: set<Ref>, h: set<Ref>, h': set<Ref>, foot: set<Ref>, rest: set<Ref>, rest': set<Ref>,
                 c: set<Ref>, done: set<Ref>, done': set<Ref>, f: set<Ref>, p: set<Ref>, p': set<Ref>, p'': set<Ref>)
    requires before <= h <= h' && rest <= foot && rest == c + rest' && c !! rest'
    requires rest !! p' && p' <= p'' && p'' - p' <= c && p' - p <= foot - rest
    requires done <= (foot - rest) + (h - before) && f <= c + (h' - h) && done' == done + f
    ensures rest' <= foot && rest' !! p'' && p'' - p <= foot - rest'
    ensures done' <= (foot - rest') + (h' - before)
  {
    forall r | r in p'' - p ensures r in foot - rest' {
      assert r in p' - p || r in p'' - p';
    }
  }

  lemma Within(self: Ref, p: set<Ref>, p': set<Ref>, p'': set<Ref>, foot: set<Ref>)
    requires p' - p <= foot && p'' - p' <= foot
    ensures p'' - p <= foot && p'' - (p - {self}) <= {self} + foot
  {
    forall r | r in p'' - (p - {self}) ensures r in {self} + foot && (r != self || r !in p ==> r in foot) {
      assert r == self || r in p' - p || r in p'' - p';
    }
  }

  // ---- arrays ----

  /** The items before `i` have become `done`, those from `i` on are as they were. */
  ghost predicate ItemsAt(before: Cells, h: Cells, items: seq<Val>, ts: seq<Tree>, i: nat, vals: seq<Val>,
                          done: seq<Tree>, p: set<Ref>, p': set<Ref>, foot: set<Ref>)
  {
    |items| == |ts| && i <= |items| && before.Keys <= h.Keys &&
    RepItems(h, vals, done) && RepItems(h, items[i..], ts[i..]) && UnsharedItems(h, items[i..], ts[i..]) &&
    var rest := FootItems(h, items[i..], ts[i..]);
    rest <= foot <= before.Keys && rest !! p' && p' - p <= foot - rest &&
    FootItems(h, vals, done) <= (foot - rest) + (h.Keys - before.Keys)
  }

  lemma ItemsStep(before: Cells, h: Cells, h': Cells, self: Ref, items: seq<Val>, ts: seq<Tree>, i: nat, vals: seq<Val>,
                  done: seq<Tree>, p: set<Ref>, p': set<Ref>, p'': set<Ref>, foot: set<Ref>, v: Val, t: Tree)
    requires ItemsAt(before, h, items, ts, i, vals, done, p, p', foot) && i < |items| && self in before && self !in foot
    requires Local(h, h', self, p', p'', Foot(h, items[i], ts[i]))
    requires Rep(h', v, t) && Foot(h', v, t) <= Foot(h, items[i], ts[i]) + (h'.Keys - h.Keys)
    ensures ItemsAt(before, h', items, ts, i + 1, vals + [v], done + [t], p, p'', foot)
  {
    var c := Foot(h, items[i], ts[i]);
    assert items[i..][1..] == items[i + 1..] && ts[i..][1..] == ts[i + 1..];
    RepItemsStay(h, h', vals, done);
    RepItemsStay(h, h', items[i + 1..], ts[i + 1..]);
    RepItemsSnoc(h', vals, done, v, t);
    var rest, rest' := FootItems(h, items[i..], ts[i..]), FootItems(h, items[i + 1..], ts[i + 1..]);
    assert rest == c + rest';
    FootStep(before.Keys, h.Keys, h'.Keys, foot, rest, rest', c, FootItems(h, vals, done),
             FootItems(h', vals + [v], done + [t]), Foot(h', v, t), p, p', p'');
  }

  lemma ItemsStart(h: Cells, items: seq<Val>, ts: seq<Tree>, p: set<Ref>)
    requires RepItems(h, items, ts) && UnsharedItems(h, items, ts) && FootItems(h, items, ts) !! p
    ensures FootItems(h, items, ts) <= h.Keys
    ensures ItemsAt(h, h, items, ts, 0, [], [], p, p, FootItems(h, items, ts))
  {
    assert items[0..] == items && ts[0..] == ts;
    FootItemsIn(h, items, ts);
  }

  lemma {:induction false} FootIn(h: Cells, v: Val, t: Tree)
    requires Rep(h, v, t)
    ensures Foot(h, v, t) <= h.Keys
    decreases t
  {
    match t
    case Value(_) =>
    case List(items) => FootItemsIn(h, h[v.ref].items, items);
    case Object(_, _, fields) => FootFieldsIn(h, h[v.ref].props, fields);
  }

  lemma {:induction false} FootItemsIn(h: Cells, vals: seq<Val>, items: seq<Tree>)
    requires RepItems(h, vals, items)
    ensures FootItems(h, vals, items) <= h.Keys
    decreases items
  {
    if items != [] {
      FootIn(h, vals[0], items[0]);
      FootItemsIn(h, vals[1..], items[1..]);
    }
  }

  lemma {:induction false} FootFieldsIn(h: Cells, props: seq<Prop>, fields: seq<Field>)
    requires RepFields(h, props, fields)
    ensures FootFields(h, props, fields) <= h.Keys
    decreases fields
  {
    if fields != [] {
      FootIn(h, props[0].val, fields[0].value);
      FootFieldsIn(h, props[1..], fields[1..]);
    }
  }

  /** The specification, with the items before `i` already answered. */
  ghost predicate ItemsSpec(e: Env, ts: seq<Tree>, i: nat, done: seq<Tree>, trust: bool, declared: Option<string>) {
    i <= |ts| && CheckItems(e, ts, trust, declared) == Prepend(done, CheckItems(e, ts[i..], trust, declared))
  }

  lemma ItemsSpecStep(e: Env, ts: seq<Tree>, i: nat, done: seq<Tree>, trust: bool, declared: Option<string>)
    requires ItemsSpec(e, ts, i, done, trust, declared) && i < |ts|
    ensures match Check(e, ts[i], trust, declared)
      case Err => CheckItems(e, ts, trust, declared).Err?
      case Ok(t) => ItemsSpec(e, ts, i + 1, done + [t], trust, declared)
  {
    assert ts[i..][1..] == ts[i + 1..];
    var first := Check(e, ts[i], trust, declared);
    var tail := CheckItems(e, ts[i + 1..], trust, declared);
    if first.Ok? && tail.Ok? {
      assert done + ([first.value] + tail.value) == (done + [first.value]) + tail.value;
    }
  }

  /** The first item does not settle the whole array. */
  ghost predicate NoExit(e: Env, ts: seq<Tree>, trust: bool, declared: Option<string>) {
    ts != [] && var sample := Check(e, ts[0], trust, declared);
    sample.Ok? && !(UsesShortcut(e, ts[0], declared) && IsNothing(sample.value))
  }

  lemma ListSpec(e: Env, ts: seq<Tree>, trust: bool, declared: Option<string>)
    requires NoExit(e, ts, trust, declared)
    ensures Check(e, List(ts), trust, declared) ==
      match CheckItems(e, ts, trust, declared)
      case Err => Err
      case Ok(done) => Ok(List(if !e.cfg.throwError && e.cfg.removeUndefinedFromResultArray then Defined(done)
                               else done))
  {
  }

  lemma ListFails(e: Env, ts: seq<Tree>, trust: bool, declared: Option<string>)
    requires ts != [] && Check(e, ts[0], trust, declared).Err?
    ensures Check(e, List(ts), trust, declared).Err?
  {
    var r := CheckList(e, ts, trust, declared);
    assert r.Err?;
  }

  lemma ListSettles(e: Env, ts: seq<Tree>, trust: bool, declared: Option<string>)
    requires ts != [] && Check(e, ts[0], trust, declared).Ok? && UsesShortcut(e, ts[0], declared)
    requires IsNothing(Check(e, ts[0], trust, declared).value) && !e.cfg.throwError
    ensures Check(e, List(ts), trust, declared) ==
      Ok(List(if e.cfg.removeUndefinedFromResultArray then [] else Undefineds(|ts|)))
  {
    var r := CheckList(e, ts, trust, declared);
    assert r.Ok?;
  }

  lemma {:induction false} RepUndefineds(h: Cells, n: nat)
    ensures RepItems(h, seq(n, _ => Scalar(Undefined)), Undefineds(n)) &&
      FootItems(h, seq(n, _ => Scalar(Undefined)), Undefineds(n)) == {}
  {
    var vals, ts := seq(n, _ => Scalar(Undefined)), Undefineds(n);
    if n > 0 {
      RepUndefineds(h, n - 1);
      assert vals[1..] == seq(n - 1, _ => Scalar(Undefined)) && ts[1..] == Undefineds(n - 1);
    }
  }

  lemma {:induction false} DefinedAgrees(h: Cells, vals: seq<Val>, ts: seq<Tree>)
    requires RepItems(h, vals, ts)
    ensures RepItems(h, DefinedVals(vals), Defined(ts))
    ensures FootItems(h, DefinedVals(vals), Defined(ts)) <= FootItems(h, vals, ts)
  {
    if ts != [] {
      DefinedAgrees(h, vals[1..], ts[1..]);
      var v, t := DefinedVals(vals[1..]), Defined(ts[1..]);
      assert (vals[0] == Scalar(Undefined)) == (ts[0] == Value(Undefined));
      if ts[0] == Value(Undefined) {
        assert [] + v == v && [] + t == t;
      } else {
        assert ([vals[0]] + v)[1..] == v && ([ts[0]] + t)[1..] == t;
      }
    }
  }

  /** Where a walk over an array that holds `ts` stands. */
  ghost predicate Walk(e: Env, before: Cells, h: Cells, items: seq<Val>, ts: seq<Tree>, i: nat, vals: seq<Val>,
                       done: seq<Tree>, trust: bool, declared: Option<string>, p: set<Ref>, p': set<Ref>,
                       foot: set<Ref>)
  {
    ItemsAt(before, h, items, ts, i, vals, done, p, p', foot) && ItemsSpec(e, ts, i, done, trust, declared) &&
    (i > 0 ==> NoExit(e, ts, trust, declared))
  }

  lemma WalkStart(e: Env, h: Cells, items: seq<Val>, ts: seq<Tree>, trust: bool, declared: Option<string>, p: set<Ref>)
    requires RepItems(h, items, ts) && UnsharedItems(h, items, ts) && FootItems(h, items, ts) !! p
    ensures Walk(e, h, h, items, ts, 0, [], [], trust, declared, p, p, FootItems(h, items, ts))
  {
    ItemsStart(h, items, ts, p);
    var all := CheckItems(e, ts, trust, declared);
    assert all.Ok? ==> [] + all.value == all.value;
    assert ts[0..] == ts;
  }

  /** One item: an exception ends the walk, a first item that is nothing may settle the array, otherwise it goes on. */
  lemma WalkStep(e: Env, before: Cells, h: Cells, h': Cells, self: Ref, items: seq<Val>, ts: seq<Tree>, i: nat,
                 vals: seq<Val>, done: seq<Tree>, trust: bool, declared: Option<string>, p: set<Ref>, p': set<Ref>,
                 p'': set<Ref>, foot: set<Ref>, item: Result<Val>)
    requires Walk(e, before, h, items, ts, i, vals, done, trust, declared, p, p', foot) && i < |items| && self in p &&
      self in before && self !in foot
    requires Frame(h, h', p', p'')
    requires Refines(h, h', p', p'', Foot(h, items[i], ts[i]), item, Check(e, ts[i], trust, declared))
    ensures item.Err? ==> Refines(before, h', p - {self}, p'', {self} + foot, Err, Check(e, List(ts), trust, declared))
    ensures item.Ok? ==>
      Check(e, ts[i], trust, declared).Ok? &&
      var t := Check(e, ts[i], trust, declared).value;
      IsNothingVal(item.value) == IsNothing(t) && p'' - p <= foot &&
      ((i == 0 ==> !(UsesShortcut(e, ts[0], declared) && IsNothing(t))) ==>
        Walk(e, before, h', items, ts, i + 1, vals + [item.value], done + [t], trust, declared, p, p'', foot))
  {
    ItemsSpecStep(e, ts, i, done, trust, declared);
    Within(self, p, p', p'', foot);
    if item.Ok? {
      ItemsStep(before, h, h', self, items, ts, i, vals, done, p, p', p'', foot, item.value,
                Check(e, ts[i], trust, declared).value);
    } else if i > 0 {
      ListSpec(e, ts, trust, declared);
    } else {
      ListFails(e, ts, trust, declared);
    }
  }

  /** A new array that holds `ts`. */
  lemma NewList(before: Cells, h: Cells, next: Ref, start: set<Ref>, p: set<Ref>, vals: seq<Val>, ts: seq<Tree>,
                foot: set<Ref>)
    requires Sound(h, next, start, p) && before.Keys <= h.Keys && RepItems(h, vals, ts)
    requires FootItems(h, vals, ts) <= foot + (h.Keys - before.Keys)
    ensures
      var h' := h[next := Arr(vals)];
      Rep(h', At(next), List(ts)) && Foot(h', At(next), List(ts)) <= foot + (h'.Keys - before.Keys)
  {
    var h' := h[next := Arr(vals)];
    assert SameOn(h, h', FootItems(h, vals, ts));
    RepItemsStay(h, h', vals, ts);
  }

  /** All items are done: the new array holds what the specification says. */
  lemma WalkEnd(e: Env, before: Cells, h: Cells, next: Ref, start: set<Ref>, self: Ref, items: seq<Val>, ts: seq<Tree>,
                vals: seq<Val>, done: seq<Tree>, trust: bool, declared: Option<string>, p: set<Ref>, p': set<Ref>,
                foot: set<Ref>)
    requires Walk(e, before, h, items, ts, |items|, vals, done, trust, declared, p, p', foot) && items != []
    requires Sound(h, next, start, p') && self in p
    ensures
      var vals' := if !e.cfg.throwError && e.cfg.removeUndefinedFromResultArray then DefinedVals(vals) else vals;
      Refines(before, h[next := Arr(vals')], p - {self}, p', {self} + foot, Ok(At(next)),
              Check(e, List(ts), trust, declared))
  {
    ListSpec(e, ts, trust, declared);
    Within(self, p, p', p', foot);
    assert ts[|items|..] == [] && done + [] == done;
    if !e.cfg.throwError && e.cfg.removeUndefinedFromResultArray {
      DefinedAgrees(h, vals, done);
      NewList(before, h, next, start, p', DefinedVals(vals), Defined(done), {self} + foot);
    } else {
      NewList(before, h, next, start, p', vals, done, {self} + foot);
    }
  }

  /** The first item settles the array, which only happens where nothing is thrown. */
  lemma ArraySettled(e: Env, before: Cells, h: Cells, next: Ref, start: set<Ref>, self: Ref, ts: seq<Tree>,
                trust: bool, declared: Option<string>, p: set<Ref>, p': set<Ref>, foot: set<Ref>)
    requires ts != [] && Check(e, ts[0], trust, declared).Ok? && UsesShortcut(e, ts[0], declared)
    requires IsNothing(Check(e, ts[0], trust, declared).value)
    requires Sound(h, next, start, p') && before.Keys <= h.Keys && self in p && p' - p <= foot
    ensures !e.cfg.throwError
    ensures
      var vals := if e.cfg.removeUndefinedFromResultArray then [] else seq(|ts|, _ => Scalar(Undefined));
      Refines(before, h[next := Arr(vals)], p - {self}, p', {self} + foot, Ok(At(next)),
              Check(e, List(ts), trust, declared))
  {
    Within(self, p, p', p', foot);
    if e.cfg.throwError {
      ThrowRemovesNothing(e, ts[0], trust, declared);
    }
    ListSettles(e, ts, trust, declared);
    if e.cfg.removeUndefinedFromResultArray {
      NewList(before, h, next, start, p', [], [], {self} + foot);
    } else {
      RepUndefineds(h, |ts|);
      NewList(before, h, next, start, p', seq(|ts|, _ => Scalar(Undefined)), Undefineds(|ts|), {self} + foot);
    }
  }

  /** What the specification sees at item `i` is what the heap shows. */
  lemma WalkSees(e: Env, before: Cells, h: Cells, items: seq<Val>, ts: seq<Tree>, i: nat, vals: seq<Val>,
                 done: seq<Tree>, trust: bool, declared: Option<string>, p: set<Ref>, p': set<Ref>, foot: set<Ref>)
    requires Walk(e, before, h, items, ts, i, vals, done, trust, declared, p, p', foot) && i < |items|
    ensures Rep(h, items[i], ts[i]) && Unshared(h, items[i], ts[i]) && Foot(h, items[i], ts[i]) !! p'
  {
  }

  /** The array `self` after some items, with the results so far. */
  ghost predicate Array(e: Env, before: Cells, h: Cells, next: Ref, start: set<Ref>, self: Ref, items: seq<Val>,
                        p: set<Ref>, p': set<Ref>, vals: seq<Val>)
  {
    self in p && p <= start <= before.Keys && before[self] == Arr(items) && CellPoints(start, before[self]) &&
    Going(e, before, h, next, start, p, p') && Spreads(before, start, p - {self}, At(self), p') &&
    forall v :: v in vals ==> Points(h.Keys, v)
  }

  lemma ArrayStart(e: Env, h: Cells, next: Ref, start: set<Ref>, self: Ref, items: seq<Val>, p: set<Ref>)
    requires Sound(h, next, start, p) && self in p && h[self] == Arr(items) && CellPoints(start, h[self])
    ensures Array(e, h, h, next, start, self, items, p, p, [])
  {
    SpreadsSelf(h, start, p - {self}, self);
    assert p - {self} + {self} == p;
  }

  lemma ArrayStep(e: Env, before: Cells, h: Cells, h': Cells, next: Ref, next': Ref, start: set<Ref>, self: Ref,
                  items: seq<Val>, p: set<Ref>, p': set<Ref>, p'': set<Ref>, vals: seq<Val>, i: nat, r: Result<Val>)
    requires Array(e, before, h, next, start, self, items, p, p', vals) && i < |items|
    requires Post(e, h, h', next', start, p', p'', r) && Spreads(h, start, p', items[i], p'')
    ensures Array(e, before, h', next', start, self, items, p, p'', vals + if r.Ok? then [r.value] else [])
  {
    SpreadsStep(before, h, start, self, items[i], p - {self}, p', p'');
    GoingOn(e, before, h, h', next, next', start, p, p', p'', r);
  }

  // ---- objects ----

  ghost predicate FieldsAt(before: Cells, h: Cells, props: seq<Prop>, fs: seq<Field>, i: nat, doneP: seq<Prop>,
                           doneF: seq<Field>, p: set<Ref>, p': set<Ref>, foot: set<Ref>)
  {
    |props| == |fs| && i <= |props| && before.Keys <= h.Keys &&
    RepFields(h, doneP, doneF) && RepFields(h, props[i..], fs[i..]) && UnsharedFields(h, props[i..], fs[i..]) &&
    var rest := FootFields(h, props[i..], fs[i..]);
    rest <= foot <= before.Keys && rest !! p' && p' - p <= foot - rest &&
    FootFields(h, doneP, doneF) <= (foot - rest) + (h.Keys - before.Keys)
  }

  lemma FieldsStart(h: Cells, props: seq<Prop>, fs: seq<Field>, p: set<Ref>)
    requires RepFields(h, props, fs) && UnsharedFields(h, props, fs) && FootFields(h, props, fs) !! p
    ensures FootFields(h, props, fs) <= h.Keys
    ensures FieldsAt(h, h, props, fs, 0, [], [], p, p, FootFields(h, props, fs))
  {
    assert props[0..] == props && fs[0..] == fs;
    FootFieldsIn(h, props, fs);
  }

  lemma FieldsStep(before: Cells, h: Cells, h': Cells, self: Ref, props: seq<Prop>, fs: seq<Field>, i: nat,
                   doneP: seq<Prop>, doneF: seq<Field>, p: set<Ref>, p': set<Ref>, p'': set<Ref>, foot: set<Ref>,
                   prop: Prop, f: Field)
    requires FieldsAt(before, h, props, fs, i, doneP, doneF, p, p', foot) && i < |props| && self in before &&
      self !in foot
    requires Local(h, h', self, p', p'', Foot(h, props[i].val, fs[i].value))
    requires prop.key == f.key && Rep(h', prop.val, f.value)
    requires Foot(h', prop.val, f.value) <= Foot(h, props[i].val, fs[i].value) + (h'.Keys - h.Keys)
    ensures FieldsAt(before, h', props, fs, i + 1, doneP + [prop], doneF + [f], p, p'', foot)
  {
    var c := Foot(h, props[i].val, fs[i].value);
    assert props[i..][1..] == props[i + 1..] && fs[i..][1..] == fs[i + 1..];
    RepFieldsStay(h, h', doneP, doneF);
    RepFieldsStay(h, h', props[i + 1..], fs[i + 1..]);
    RepFieldsSnoc(h', doneP, doneF, prop, f);
    var rest, rest' := FootFields(h, props[i..], fs[i..]), FootFields(h, props[i + 1..], fs[i + 1..]);
    assert rest == c + rest';
    FootStep(before.Keys, h.Keys, h'.Keys, foot, rest, rest', c, FootFields(h, doneP, doneF),
             FootFields(h', doneP + [prop], doneF + [f]), Foot(h', prop.val, f.value), p, p', p'');
  }

  lemma FieldsDrop(before: Cells, h: Cells, h': Cells, self: Ref, props: seq<Prop>, fs: seq<Field>, i: nat,
                   doneP: seq<Prop>, doneF: seq<Field>, p: set<Ref>, p': set<Ref>, foot: set<Ref>)
    requires FieldsAt(before, h, props, fs, i, doneP, doneF, p, p', foot) && i < |props| && self in before &&
      self !in foot
    requires Local(h, h', self, p', p', {})
    ensures FieldsAt(before, h', props, fs, i + 1, doneP, doneF, p, p', foot)
  {
    assert props[i..][1..] == props[i + 1..] && fs[i..][1..] == fs[i + 1..];
    RepFieldsStay(h, h', doneP, doneF);
    RepFieldsStay(h, h', props[i + 1..], fs[i + 1..]);
  }

  ghost predicate FieldsSpec(e: Env, cls: Option<string>, fs: seq<Field>, i: nat, doneF: seq<Field>, trust0: bool,
                             trust: bool) {
    i <= |fs| && CheckFields(e, cls, [], fs, trust0) == Prepend(doneF, CheckFields(e, cls, doneF, fs[i..], trust))
  }

  /** One property of the specification: kept, refused with an exception, or dropped. */
  lemma FieldsSpecStep(e: Env, cls: Option<string>, fs: seq<Field>, i: nat, doneF: seq<Field>, trust0: bool,
                       trust: bool)
    requires FieldsSpec(e, cls, fs, i, doneF, trust0, trust) && i < |fs|
    ensures
      var f := fs[i];
      var owner := CurrentOwner(e.cfg, doneF + fs[i..]);
      var trust' := NextTrust(owner, trust, e.user);
      if Skipped(e.cfg, f.value) then FieldsSpec(e, cls, fs, i + 1, doneF + [f], trust0, trust)
      else if Passes(e, cls, f.key, owner, trust) then
        match Check(e, f.value, trust', NestedType(e.schema, cls, f.key))
        case Err => CheckFields(e, cls, [], fs, trust0).Err?
        case Ok(t) => FieldsSpec(e, cls, fs, i + 1, doneF + [Field(f.key, t)], trust0, trust')
      else if e.cfg.throwError then CheckFields(e, cls, [], fs, trust0).Err?
      else FieldsSpec(e, cls, fs, i + 1, doneF, trust0, trust)
  {
    assert fs[i..][1..] == fs[i + 1..];
    var f := fs[i];
    var owner := CurrentOwner(e.cfg, doneF + fs[i..]);
    var trust' := NextTrust(owner, trust, e.user);
    if Skipped(e.cfg, f.value) {
      PrependOne(doneF, f, CheckFields(e, cls, doneF + [f], fs[i + 1..], trust));
    } else if Passes(e, cls, f.key, owner, trust) {
      var checked := Check(e, f.value, trust', NestedType(e.schema, cls, f.key));
      if checked.Ok? {
        var g := Field(f.key, checked.value);
        PrependOne(doneF, g, CheckFields(e, cls, doneF + [g], fs[i + 1..], trust'));
      }
    }
  }

  lemma PrependOne<T>(a: seq<T>, x: T, r: Result<seq<T>>)
    ensures Prepend(a + [x], r) == Prepend(a, Prepend([x], r))
  {
    if r.Ok? {
      assert (a + [x]) + r.value == a + ([x] + r.value);
    }
  }

  lemma OwnerNow(cfg: Config, before: Cells, h: Cells, props: seq<Prop>, fs: seq<Field>, i: nat, doneP: seq<Prop>,
                 doneF: seq<Field>, p: set<Ref>, p': set<Ref>, foot: set<Ref>)
    requires FieldsAt(before, h, props, fs, i, doneP, doneF, p, p', foot)
    ensures HeapOwner(cfg, h, doneP + props[i..]) == CurrentOwner(cfg, doneF + fs[i..])
  {
    RepFieldsConcat(h, doneP, doneF, props[i..], fs[i..]);
    OwnerAgrees(cfg, h, doneP + props[i..], doneF + fs[i..]);
  }

  /** The specification of an object that is neither noted as checked nor refused as a whole. */
  lemma ObjectSpec(e: Env, marked: bool, proto: Proto, fs: seq<Field>, trust: bool, declared: Option<string>)
    requires !(e.cfg.noteCheckedObjects && marked)
    ensures
      var cls := MetadataOwner(proto, declared);
      Check(e, Object(marked, proto, fs), trust, declared) ==
      if e.cfg.checkObjectItself &&
         !Validate(e.cfg, ClassRestrictions(e.schema, cls), CurrentOwner(e.cfg, fs), trust, e.user) then
        if e.cfg.throwError then Err else Ok(Value(Null))
      else
        match CheckFields(e, cls, [], fs, trust)
        case Err => Err
        case Ok(kept) => Ok(Object(marked, proto, kept))
  {
  }

  /** Where a walk over the properties of an object that holds `fs` stands. */
  ghost predicate Visit(e: Env, before: Cells, h: Cells, cls: Option<string>, props: seq<Prop>, fs: seq<Field>, i: nat,
                        doneP: seq<Prop>, doneF: seq<Field>, trust0: bool, trust: bool, p: set<Ref>, p': set<Ref>,
                        foot: set<Ref>)
  {
    FieldsAt(before, h, props, fs, i, doneP, doneF, p, p', foot) && FieldsSpec(e, cls, fs, i, doneF, trust0, trust)
  }

  lemma VisitStart(e: Env, h: Cells, cls: Option<string>, props: seq<Prop>, fs: seq<Field>, trust: bool, p: set<Ref>)
    requires RepFields(h, props, fs) && UnsharedFields(h, props, fs) && FootFields(h, props, fs) !! p
    ensures Visit(e, h, h, cls, props, fs, 0, [], [], trust, trust, p, p, FootFields(h, props, fs))
  {
    FieldsStart(h, props, fs, p);
    var all := CheckFields(e, cls, [], fs, trust);
    assert all.Ok? ==> [] + all.value == all.value;
    assert fs[0..] == fs;
  }

  predicate SkippedVal(cfg: Config, v: Val) {
    v.Scalar? && ((v.leaf.Function? && cfg.ignoreFunctions) || (v.leaf.Undefined? && cfg.ignoreUndefined))
  }

  /** What the specification sees at property `i` is what the heap shows. */
  lemma VisitSees(e: Env, before: Cells, h: Cells, cls: Option<string>, props: seq<Prop>, fs: seq<Field>, i: nat,
                  doneP: seq<Prop>, doneF: seq<Field>, trust0: bool, trust: bool, p: set<Ref>, p': set<Ref>,
                  foot: set<Ref>)
    requires Visit(e, before, h, cls, props, fs, i, doneP, doneF, trust0, trust, p, p', foot) && i < |props|
    ensures HeapOwner(e.cfg, h, doneP + props[i..]) == CurrentOwner(e.cfg, doneF + fs[i..])
    ensures props[i].key == fs[i].key && Rep(h, props[i].val, fs[i].value) && Unshared(h, props[i].val, fs[i].value)
    ensures Foot(h, props[i].val, fs[i].value) !! p' && Foot(h, props[i].val, fs[i].value) <= foot
    ensures SkippedVal(e.cfg, props[i].val) == Skipped(e.cfg, fs[i].value)
  {
    OwnerNow(e.cfg, before, h, props, fs, i, doneP, doneF, p, p', foot);
  }

  lemma VisitSkip(e: Env, before: Cells, h: Cells, self: Ref, cls: Option<string>, props: seq<Prop>, fs: seq<Field>,
                  i: nat, doneP: seq<Prop>, doneF: seq<Field>, trust0: bool, trust: bool, p: set<Ref>, p': set<Ref>,
                  foot: set<Ref>)
    requires Visit(e, before, h, cls, props, fs, i, doneP, doneF, trust0, trust, p, p', foot) && i < |props| &&
      self in before && self !in foot
    requires Skipped(e.cfg, fs[i].value)
    ensures Visit(e, before, h, cls, props, fs, i + 1, doneP + [props[i]], doneF + [fs[i]], trust0, trust, p, p', foot)
  {
    VisitSees(e, before, h, cls, props, fs, i, doneP, doneF, trust0, trust, p, p', foot);
    FieldsSpecStep(e, cls, fs, i, doneF, trust0, trust);
    FieldsStep(before, h, h, self, props, fs, i, doneP, doneF, p, p', p', foot, props[i], fs[i]);
  }

  /** A property the user may not have: an exception, or it goes. */
  lemma VisitDrop(e: Env, before: Cells, h: Cells, h': Cells, self: Ref, cls: Option<string>, props: seq<Prop>,
                  fs: seq<Field>, i: nat, doneP: seq<Prop>, doneF: seq<Field>, trust0: bool, trust: bool, p: set<Ref>,
                  p': set<Ref>, foot: set<Ref>)
    requires Visit(e, before, h, cls, props, fs, i, doneP, doneF, trust0, trust, p, p', foot) && i < |props| &&
      self in before && self !in foot
    requires !Skipped(e.cfg, fs[i].value) && !Passes(e, cls, fs[i].key, CurrentOwner(e.cfg, doneF + fs[i..]), trust)
    requires Local(h, h', self, p', p', {})
    ensures e.cfg.throwError ==> CheckFields(e, cls, [], fs, trust0).Err?
    ensures !e.cfg.throwError ==> Visit(e, before, h', cls, props, fs, i + 1, doneP, doneF, trust0, trust, p, p', foot)
  {
    FieldsSpecStep(e, cls, fs, i, doneF, trust0, trust);
    FieldsDrop(before, h, h', self, props, fs, i, doneP, doneF, p, p', foot);
  }

  lemma VisitThrow(e: Env, before: Cells, h: Cells, cls: Option<string>, props: seq<Prop>, fs: seq<Field>, i: nat,
                   doneP: seq<Prop>, doneF: seq<Field>, trust0: bool, trust: bool, self: Ref, p: set<Ref>, p': set<Ref>,
                   foot: set<Ref>)
    requires Visit(e, before, h, cls, props, fs, i, doneP, doneF, trust0, trust, p, p', foot) && i < |props| &&
      e.cfg.throwError
    requires !Skipped(e.cfg, fs[i].value) && !Passes(e, cls, fs[i].key, CurrentOwner(e.cfg, doneF + fs[i..]), trust)
    ensures CheckFields(e, cls, [], fs, trust0).Err? && p' - (p - {self}) <= {self} + foot
  {
    FieldsSpecStep(e, cls, fs, i, doneF, trust0, trust);
    Within(self, p, p', p', foot);
  }

  /** A property the user may have: its value is checked, and written back to the object `self`. */
  lemma VisitPass(e: Env, before: Cells, h: Cells, h': Cells, self: Ref, c: Cell, cls: Option<string>, props: seq<Prop>,
                  fs: seq<Field>, i: nat, doneP: seq<Prop>, doneF: seq<Field>, trust0: bool, trust: bool, p: set<Ref>,
                  p': set<Ref>, p'': set<Ref>, foot: set<Ref>, item: Result<Val>)
    requires Visit(e, before, h, cls, props, fs, i, doneP, doneF, trust0, trust, p, p', foot) && i < |props| &&
      self in before && self !in foot
    requires !Skipped(e.cfg, fs[i].value) && Passes(e, cls, fs[i].key, CurrentOwner(e.cfg, doneF + fs[i..]), trust)
    requires Frame(h, h', p', p'') && self in p
    requires
      var trust' := NextTrust(CurrentOwner(e.cfg, doneF + fs[i..]), trust, e.user);
      Refines(h, h', p', p'', Foot(h, props[i].val, fs[i].value), item,
              Check(e, fs[i].value, trust', NestedType(e.schema, cls, fs[i].key)))
    ensures
      var trust' := NextTrust(CurrentOwner(e.cfg, doneF + fs[i..]), trust, e.user);
      var spec := Check(e, fs[i].value, trust', NestedType(e.schema, cls, fs[i].key));
      match item
      case Err => CheckFields(e, cls, [], fs, trust0).Err? && p'' - (p - {self}) <= {self} + foot
      case Ok(v) =>
        spec.Ok? &&
        Visit(e, before, h'[self := c], cls, props, fs, i + 1, doneP + [Prop(props[i].key, v)],
              doneF + [Field(props[i].key, spec.value)],
              trust0, trust', p, p'', foot)
  {
    var trust' := NextTrust(CurrentOwner(e.cfg, doneF + fs[i..]), trust, e.user);
    var spec := Check(e, fs[i].value, trust', NestedType(e.schema, cls, fs[i].key));
    VisitSees(e, before, h, cls, props, fs, i, doneP, doneF, trust0, trust, p, p', foot);
    FieldsSpecStep(e, cls, fs, i, doneF, trust0, trust);
    Within(self, p, p', p'', foot);
    if item.Ok? {
      RepStays(h', h'[self := c], item.value, spec.value);
      FieldsStep(before, h, h'[self := c], self, props, fs, i, doneP, doneF, p, p', p'', foot,
                 Prop(props[i].key, item.value), Field(props[i].key, spec.value));
    }
  }

  lemma VisitEnd(e: Env, before: Cells, h: Cells, self: Ref, cls: Option<string>, props: seq<Prop>, fs: seq<Field>,
                 doneP: seq<Prop>, doneF: seq<Field>, trust0: bool, trust: bool, p: set<Ref>, p': set<Ref>,
                 foot: set<Ref>)
    requires Visit(e, before, h, cls, props, fs, |props|, doneP, doneF, trust0, trust, p, p', foot) && self in p
    requires self in h && h[self].Obj? && h[self].props == doneP
    ensures CheckFields(e, cls, [], fs, trust0) == Ok(doneF) && p' - (p - {self}) <= {self} + foot
    ensures
      var t := Object(h[self].marked, h[self].proto, doneF);
      Rep(h, At(self), t) && Foot(h, At(self), t) <= {self} + foot + (h.Keys - before.Keys)
  {
    assert fs[|props|..] == [] && doneF + [] == doneF;
    Within(self, p, p', p', foot);
  }

  // ---- writing to the object itself ----

  ghost predicate GoingFrom(e: Env, before: Cells, h: Cells, next: Ref, start: set<Ref>, self: Ref, p: set<Ref>,
                            p': set<Ref>) {
    Going(e, before, h, next, start, p - {self}, p') && Spreads(before, start, p - {self}, At(self), p')
  }

  /** The object `self` before property `i`: those before it are dealt with and replaced by `done`. */
  ghost predicate Loop(e: Env, before: Cells, h: Cells, next: Ref, start: set<Ref>, self: Ref, p: set<Ref>,
                       p': set<Ref>, i: nat, done: seq<Prop>) {
    self in before && before[self].Obj? && i <= |before[self].props| && self in p && p <= p' && self in h &&
    CellPoints(start, before[self]) &&
    h[self] == before[self].(props := done + before[self].props[i..]) &&
    GoingFrom(e, before, h, next, start, self, p, p')
  }

  lemma LoopStart(e: Env, h: Cells, next: Ref, start: set<Ref>, self: Ref, p: set<Ref>)
    requires Sound(h, next, start, p) && self in p && h[self].Obj? && CellPoints(start, h[self])
    ensures Loop(e, h, h, next, start, self, p, p, 0, [])
    ensures PurgedAll(e, h, h, p - p) && start <= h.Keys
  {
    SpreadsSelf(h, start, p - {self}, self);
    assert [] + h[self].props[0..] == h[self].props && p - {self} + {self} == p;
  }

  lemma LoopEnd(e: Env, before: Cells, h: Cells, next: Ref, start: set<Ref>, self: Ref, p: set<Ref>, p': set<Ref>,
                done: seq<Prop>)
    requires self in before && before[self].Obj?
    requires Loop(e, before, h, next, start, self, p, p', |before[self].props|, done)
    ensures h[self] == before[self].(props := done) && GoingFrom(e, before, h, next, start, self, p, p')
  {
    assert done + before[self].props[|before[self].props|..] == done;
  }

  lemma PurgedInLoop(e: Env, before: Cells, h: Cells, h': Cells, next: Ref, start: set<Ref>, self: Ref, p: set<Ref>,
                     p': set<Ref>, p'': set<Ref>, i: nat, done: seq<Prop>)
    requires Loop(e, before, h, next, start, self, p, p', i, done) && Frame(h, h', p', p'')
    requires PurgedAll(e, before, h, p' - p) && PurgedAll(e, h, h', p'' - p')
    ensures PurgedAll(e, before, h', p'' - p)
  {
    forall r | r in p'' - p && r in h' && r in before ensures Purged(e, before[r], h'[r]) {
      if r in p' {
        assert h'[r] == h[r];
      } else {
        assert h[r] == before[r];
      }
    }
  }

  /** Moving on to the next property with `done'` in place of what was done and the property itself. */
  lemma LoopWrite(e: Env, before: Cells, h: Cells, next: Ref, start: set<Ref>, self: Ref, p: set<Ref>, p': set<Ref>,
                  i: nat, done: seq<Prop>, done': seq<Prop>)
    requires Loop(e, before, h, next, start, self, p, p', i, done) && i < |before[self].props|
    requires
      || (exists v :: Points(h.Keys, v) && done' == done + [Prop(before[self].props[i].key, v)])
      || (!e.cfg.throwError && done' == done)
    ensures
      var c := before[self].(props := done' + before[self].props[i + 1..]);
      Loop(e, before, h[self := c], next, start, self, p, p', i + 1, done')
  {
    var props := before[self].props;
    var c := before[self].(props := done' + props[i + 1..]);
    assert props[i..] == [props[i]] + props[i + 1..];
    if done' == done {
      DropPoints(h.Keys, done, props[i], props[i + 1..]);
    } else {
      var v :| Points(h.Keys, v) && done' == done + [Prop(props[i].key, v)];
      SwapPoints(h.Keys, done, props[i], v, props[i + 1..]);
    }
    WriteSelf(e, before, h, next, start, self, p, p', c);
  }

  predicate PropsPoint(s: set<Ref>, props: seq<Prop>) {
    forall i :: 0 <= i < |props| ==> Points(s, props[i].val)
  }

  lemma DropPoints(s: set<Ref>, a: seq<Prop>, p: Prop, b: seq<Prop>)
    requires PropsPoint(s, a + ([p] + b))
    ensures PropsPoint(s, a + b)
  {
    forall k | 0 <= k < |a + b| ensures Points(s, (a + b)[k].val) {
      assert (a + b)[k] == (a + ([p] + b))[if k < |a| then k else k + 1];
    }
  }

  lemma SwapPoints(s: set<Ref>, a: seq<Prop>, p: Prop, v: Val, b: seq<Prop>)
    requires PropsPoint(s, a + ([p] + b)) && Points(s, v)
    ensures
      var swapped := a + [Prop(p.key, v)] + b;
      PropsPoint(s, swapped) && Keys(swapped) == Keys(a + ([p] + b))
  {
    var swapped := a + [Prop(p.key, v)] + b;
    forall k | 0 <= k < |swapped| ensures Points(s, swapped[k].val) {
      assert k != |a| ==> swapped[k] == (a + ([p] + b))[k];
    }
  }

  /** Writing to the object that is being checked. */
  lemma WriteSelf(e: Env, before: Cells, h: Cells, next: Ref, start: set<Ref>, self: Ref, p: set<Ref>, p': set<Ref>,
                  c: Cell)
    requires GoingFrom(e, before, h, next, start, self, p, p') && self in p && self in p' && self in h && self in before
    requires h[self].Obj? && c.Obj? && before[self].Obj? && PropsPoint(h.Keys, c.props)
    requires e.cfg.throwError ==> Keys(c.props) == Keys(h[self].props)
    ensures GoingFrom(e, before, h[self := c], next, start, self, p, p')
  {
    SetSelf(h, next, start, p', self, c);
  }

  lemma LoopCall(e: Env, before: Cells, h: Cells, h': Cells, next: Ref, next': Ref, start: set<Ref>, self: Ref,
                 p: set<Ref>, p': set<Ref>, p'': set<Ref>, i: nat, done: seq<Prop>, r: Result<Val>)
    requires Loop(e, before, h, next, start, self, p, p', i, done) && Post(e, h, h', next', start, p', p'', r)
    requires i < |before[self].props| && start <= before.Keys && Spreads(h, start, p', before[self].props[i].val, p'')
    ensures Loop(e, before, h', next', start, self, p, p'', i, done)
  {
    SpreadsStep(before, h, start, self, before[self].props[i].val, p - {self}, p', p'');
    GoingOn(e, before, h, h', next, next', start, p - {self}, p', p'', r);
  }
}
