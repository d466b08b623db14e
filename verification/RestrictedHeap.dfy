/** `checkRestricted` on JavaScript objects, shared and cyclic ones included, working in place. */
module RestrictedHeap {
  import opened Outcomes
  import opened RestrictedAccess
  import opened RestrictedTree

  type Ref = nat

  datatype Val = Scalar(leaf: Leaf) | At(ref: Ref)

  datatype Prop = Prop(key: string, val: Val)

  datatype Cell = Arr(items: seq<Val>) | Obj(marked: bool, proto: Proto, props: seq<Prop>)

  type Cells = map<Ref, Cell>

  // ---- well-formed heaps ----

  predicate Points(s: set<Ref>, v: Val) {
    v.At? ==> v.ref in s
  }

  ghost predicate CellPoints(s: set<Ref>, c: Cell) {
    match c
    case Arr(items) => forall i :: 0 <= i < |items| ==> Points(s, items[i])
    case Obj(_, _, props) => forall i :: 0 <= i < |props| ==> Points(s, props[i].val)
  }

  /** All references lead somewhere; objects not yet processed lead to objects that were there at the start. */
  ghost predicate Sound(h: Cells, next: Ref, start: set<Ref>, processed: set<Ref>) {
    processed <= start <= h.Keys && (forall r :: r in h ==> r < next && CellPoints(h.Keys, h[r])) &&
    forall r :: r in start && r !in processed ==> CellPoints(start, h[r])
  }

  function Keys(props: seq<Prop>): (r: seq<string>)
    ensures |r| == |props| && forall i :: 0 <= i < |props| ==> r[i] == props[i].key
  {
    seq(|props|, i requires 0 <= i < |props| => props[i].key)
  }

  /** No property has appeared or gone. */
  ghost predicate KeysKept(before: Cells, after: Cells) {
    before.Keys <= after.Keys && forall r :: r in before ==>
      (before[r].Obj? ==> after[r].Obj? && Keys(after[r].props) == Keys(before[r].props)) &&
      (before[r].Arr? ==> after[r] == before[r])
  }

  /** Nothing but newly processed and new objects differs. */
  ghost predicate Frame(before: Cells, after: Cells, processed: set<Ref>, processed': set<Ref>) {
    processed <= processed' && before.Keys <= after.Keys &&
    forall r :: r in before && !(r in processed' && r !in processed) ==> after[r] == before[r]
  }

  // ---- ownership ----

  function FindProp(props: seq<Prop>, key: string): Option<Val> {
    if props == [] then None
    else if props[0].key == key then Some(props[0].val)
    else FindProp(props[1..], key)
  }

  function ValId(v: Option<Val>): Option<string> {
    match v
    case Some(Scalar(Text(s))) => if s == "" then None else Some(s)
    case _ => None
  }

  predicate FalsyVal(v: Option<Val>) {
    v.None? || (v.value.Scalar? && (v.value.leaf.Undefined? || v.value.leaf.Null? || v.value.leaf == Text("")))
  }

  function PropsId(props: seq<Prop>): Option<string> {
    if !FalsyVal(FindProp(props, "id")) then ValId(FindProp(props, "id"))
    else if !FalsyVal(FindProp(props, "_id")) then ValId(FindProp(props, "_id"))
    else Some(ANONYMOUS)
  }

  function HeapOwner(cfg: Config, h: Cells, props: seq<Prop>): Option<Owner> {
    if cfg.processType == Some(Input) then
      if cfg.dbObject.Some? then Some(cfg.dbObject.value.owner) else None
    else
      var creator := FindProp(props, "createdBy");
      Some(Owner(PropsId(props), creator.Some?,
        if creator.Some? && creator.value.At? && creator.value.ref in h && h[creator.value.ref].Obj?
        then PropsId(h[creator.value.ref].props)
        else ValId(creator)))
  }

  // ---- a heap that holds a tree ----

  ghost predicate Rep(h: Cells, v: Val, t: Tree)
    decreases t
  {
    match t
    case Value(leaf) => v == Scalar(leaf)
    case List(items) => v.At? && v.ref in h && h[v.ref].Arr? && RepItems(h, h[v.ref].items, items)
    case Object(marked, proto, fields) =>
      v.At? && v.ref in h && h[v.ref].Obj? && h[v.ref].marked == marked && h[v.ref].proto == proto &&
      RepFields(h, h[v.ref].props, fields)
  }

  ghost predicate RepItems(h: Cells, vals: seq<Val>, items: seq<Tree>)
    decreases items
  {
    |vals| == |items| && (items != [] ==> Rep(h, vals[0], items[0]) && RepItems(h, vals[1..], items[1..]))
  }

  ghost predicate RepFields(h: Cells, props: seq<Prop>, fields: seq<Field>)
    decreases fields
  {
    |props| == |fields| &&
    (fields != [] ==>
      props[0].key == fields[0].key && Rep(h, props[0].val, fields[0].value) && RepFields(h, props[1..], fields[1..]))
  }

  /** The objects that make up the tree. */
  ghost function Foot(h: Cells, v: Val, t: Tree): set<Ref>
    requires Rep(h, v, t)
    decreases t
  {
    match t
    case Value(_) => {}
    case List(items) => {v.ref} + FootItems(h, h[v.ref].items, items)
    case Object(_, _, fields) => {v.ref} + FootFields(h, h[v.ref].props, fields)
  }

  ghost function FootItems(h: Cells, vals: seq<Val>, items: seq<Tree>): set<Ref>
    requires RepItems(h, vals, items)
    decreases items
  {
    if items == [] then {} else Foot(h, vals[0], items[0]) + FootItems(h, vals[1..], items[1..])
  }

  ghost function FootFields(h: Cells, props: seq<Prop>, fields: seq<Field>): set<Ref>
    requires RepFields(h, props, fields)
    decreases fields
  {
    if fields == [] then {} else Foot(h, props[0].val, fields[0].value) + FootFields(h, props[1..], fields[1..])
  }

  /** No object occurs twice in the tree. */
  ghost predicate Unshared(h: Cells, v: Val, t: Tree)
    requires Rep(h, v, t)
    decreases t
  {
    match t
    case Value(_) => true
    case List(items) => v.ref !in FootItems(h, h[v.ref].items, items) && UnsharedItems(h, h[v.ref].items, items)
    case Object(_, _, fields) =>
      v.ref !in FootFields(h, h[v.ref].props, fields) && UnsharedFields(h, h[v.ref].props, fields)
  }

  ghost predicate UnsharedItems(h: Cells, vals: seq<Val>, items: seq<Tree>)
    requires RepItems(h, vals, items)
    decreases items
  {
    items != [] ==>
      Unshared(h, vals[0], items[0]) && UnsharedItems(h, vals[1..], items[1..]) &&
      Foot(h, vals[0], items[0]) !! FootItems(h, vals[1..], items[1..])
  }

  ghost predicate UnsharedFields(h: Cells, props: seq<Prop>, fields: seq<Field>)
    requires RepFields(h, props, fields)
    decreases fields
  {
    fields != [] ==>
      Unshared(h, props[0].val, fields[0].value) && UnsharedFields(h, props[1..], fields[1..]) &&
      Foot(h, props[0].val, fields[0].value) !! FootFields(h, props[1..], fields[1..])
  }

  // ---- changes elsewhere do not matter ----

  ghost predicate SameOn(a: Cells, b: Cells, s: set<Ref>) {
    forall r :: r in s && r in a ==> r in b && b[r] == a[r]
  }

  lemma {:induction false} RepStays(a: Cells, b: Cells, v: Val, t: Tree)
    requires Rep(a, v, t) && SameOn(a, b, Foot(a, v, t))
    ensures Rep(b, v, t) && Foot(b, v, t) == Foot(a, v, t) && (Unshared(a, v, t) ==> Unshared(b, v, t))
    decreases t
  {
    match t
    case Value(_) =>
    case List(items) => RepItemsStay(a, b, a[v.ref].items, items);
    case Object(_, _, fields) => RepFieldsStay(a, b, a[v.ref].props, fields);
  }

  lemma {:induction false} RepItemsStay(a: Cells, b: Cells, vals: seq<Val>, items: seq<Tree>)
    requires RepItems(a, vals, items) && SameOn(a, b, FootItems(a, vals, items))
    ensures RepItems(b, vals, items) && FootItems(b, vals, items) == FootItems(a, vals, items)
    ensures UnsharedItems(a, vals, items) ==> UnsharedItems(b, vals, items)
    decreases items
  {
    if items != [] {
      RepStays(a, b, vals[0], items[0]);
      RepItemsStay(a, b, vals[1..], items[1..]);
    }
  }

  lemma {:induction false} RepFieldsStay(a: Cells, b: Cells, props: seq<Prop>, fields: seq<Field>)
    requires RepFields(a, props, fields) && SameOn(a, b, FootFields(a, props, fields))
    ensures RepFields(b, props, fields) && FootFields(b, props, fields) == FootFields(a, props, fields)
    ensures UnsharedFields(a, props, fields) ==> UnsharedFields(b, props, fields)
    decreases fields
  {
    if fields != [] {
      RepStays(a, b, props[0].val, fields[0].value);
      RepFieldsStay(a, b, props[1..], fields[1..]);
    }
  }

  lemma {:induction false} RepItemsSnoc(h: Cells, vals: seq<Val>, items: seq<Tree>, v: Val, t: Tree)
    requires RepItems(h, vals, items) && Rep(h, v, t)
    ensures RepItems(h, vals + [v], items + [t]) &&
      FootItems(h, vals + [v], items + [t]) == FootItems(h, vals, items) + Foot(h, v, t)
  {
    if items == [] {
      assert items + [t] == [t] && vals + [v] == [v] && [t][1..] == [] && [v][1..] == [];
    } else {
      assert (items + [t])[1..] == items[1..] + [t] && (vals + [v])[1..] == vals[1..] + [v];
      RepItemsSnoc(h, vals[1..], items[1..], v, t);
    }
  }

  lemma {:induction false} RepFieldsSnoc(h: Cells, props: seq<Prop>, fields: seq<Field>, p: Prop, f: Field)
    requires RepFields(h, props, fields) && p.key == f.key && Rep(h, p.val, f.value)
    ensures RepFields(h, props + [p], fields + [f])
    ensures FootFields(h, props + [p], fields + [f]) == FootFields(h, props, fields) + Foot(h, p.val, f.value)
  {
    if fields == [] {
      assert fields + [f] == [f] && props + [p] == [p] && [f][1..] == [] && [p][1..] == [];
    } else {
      assert (fields + [f])[1..] == fields[1..] + [f] && (props + [p])[1..] == props[1..] + [p];
      RepFieldsSnoc(h, props[1..], fields[1..], p, f);
    }
  }

  lemma {:induction false} RepFieldsConcat(h: Cells, p: seq<Prop>, f: seq<Field>, q: seq<Prop>, g: seq<Field>)
    requires RepFields(h, p, f) && RepFields(h, q, g)
    ensures RepFields(h, p + q, f + g)
    decreases f
  {
    if f == [] {
      assert f + g == g && p + q == q;
    } else {
      assert (f + g)[1..] == f[1..] + g && (p + q)[1..] == p[1..] + q;
      RepFieldsConcat(h, p[1..], f[1..], q, g);
    }
  }

  // ---- ownership agrees ----

  lemma {:induction false} FindAgrees(h: Cells, props: seq<Prop>, fields: seq<Field>, key: string)
    requires RepFields(h, props, fields)
    ensures Find(fields, key).Some? == FindProp(props, key).Some?
    ensures Find(fields, key).Some? ==> Rep(h, FindProp(props, key).value, Find(fields, key).value)
  {
    if fields != [] && fields[0].key != key {
      FindAgrees(h, props[1..], fields[1..], key);
    }
  }

  lemma IdAgrees(h: Cells, props: seq<Prop>, fields: seq<Field>)
    requires RepFields(h, props, fields)
    ensures PropsId(props) == IdOf(fields)
  {
    FindAgrees(h, props, fields, "id");
    FindAgrees(h, props, fields, "_id");
  }

  lemma OwnerAgrees(cfg: Config, h: Cells, props: seq<Prop>, fields: seq<Field>)
    requires RepFields(h, props, fields)
    ensures HeapOwner(cfg, h, props) == CurrentOwner(cfg, fields)
  {
    IdAgrees(h, props, fields);
    FindAgrees(h, props, fields, "createdBy");
    var creator := Find(fields, "createdBy");
    if creator.Some? && creator.value.Object? {
      IdAgrees(h, h[FindProp(props, "createdBy").value.ref].props, creator.value.fields);
    }
  }
}
