/** The `roles` part of database updates, and what it makes of the stored roles. */
module RoleUpdates {
  import opened Outcomes
  import opened Strings

  type Roles = seq<string>

  /** The operand of an array operator: a bare value or a list modifier. */
  datatype Operand = Bare(role: string) | Each(roles: Roles)

  /**
   * An operator on `roles` that no hook looks at: `$min`, `$max`, or `$rename` of another field;
   * `held` says on which documents that field is, and what it holds there.
   */
  datatype Unread = Nothing | Min(least: Roles) | Max(greatest: Roles) | Rename(held: map<nat, Roles>)

  /** What an update or a replacement says about `roles`. */
  datatype Update = Update(
    flat: Option<Roles>,
    setTo: Option<Roles>,
    onInsert: Option<Roles>,
    push: Option<Operand>,
    addToSet: Option<Operand>,
    pull: Option<Operand>,
    unread: Unread)

  datatype BulkOp =
    | InsertOne(id: nat, document: Option<Roles>)
    | UpdateOne(target: Option<nat>, upsert: Option<nat>, update: Update)
    | UpdateMany(targets: set<nat>, upsert: Option<nat>, update: Update)
    | ReplaceOne(target: Option<nat>, upsert: Option<nat>, replacement: Option<Roles>)
    | DeleteMany(targets: set<nat>)

  function Values(o: Option<Operand>): Roles {
    match o
    case None => []
    case Some(Bare(r)) => [r]
    case Some(Each(rs)) => rs
  }

  function RolesOf(o: Option<Roles>): Roles {
    o.GetOr([])
  }

  function AddMissing(roles: Roles, more: Roles): (r: Roles)
    ensures forall x :: x in r <==> x in roles || x in more
    decreases |more|
  {
    if more == [] then roles
    else AddMissing(if more[0] in roles then roles else roles + [more[0]], more[1..])
  }

  function Without(roles: Roles, gone: Roles): (r: Roles)
    ensures forall x :: x in r <==> x in roles && x !in gone
  {
    if roles == [] then []
    else (if roles[0] in gone then [] else [roles[0]]) + Without(roles[1..], gone)
  }

  predicate ListLess(a: Roles, b: Roles) {
    b != [] && (a == [] || StringLess(a[0], b[0]) || (a[0] == b[0] && ListLess(a[1..], b[1..])))
  }

  /** What the unread operator leaves in place of the current roles, if there are any. */
  function Moved(u: Unread, id: nat, current: Option<Roles>): Option<Roles> {
    match u
    case Nothing => current
    case Min(v) => if current.Some? && !ListLess(v, current.value) then current else Some(v)
    case Max(v) => if current.Some? && !ListLess(current.value, v) then current else Some(v)
    case Rename(held) => if id in held then Some(held[id]) else current
  }

  /** Does the unread operator bring the role to document `id`? */
  predicate Gives(u: Unread, id: nat, current: Option<Roles>, role: string) {
    match u
    case Nothing => false
    case Min(v) => role in v && (current.Some? ==> ListLess(v, current.value))
    case Max(v) => role in v && (current.Some? ==> ListLess(current.value, v))
    case Rename(held) => id in held && role in held[id]
  }

  /** The roles the unread operator can bring. */
  function Named(u: Unread): set<string> {
    match u
    case Nothing => {}
    case Min(v) => set r | r in v
    case Max(v) => set r | r in v
    case Rename(held) => set id, r | id in held && r in held[id] :: r
  }

  lemma GivesExactly(u: Unread, id: nat, current: Option<Roles>, role: string)
    ensures role !in RolesOf(current) ==> (role in RolesOf(Moved(u, id, current)) <==> Gives(u, id, current, role))
    ensures Gives(u, id, current, role) ==> role in Named(u)
  {
  }

  /** The operators one after the other. (The database refuses updates in which two of them meet.) */
  function Applied(u: Update, id: nat, current: Option<Roles>): Roles {
    var start := u.setTo.GetOr(u.flat.GetOr(RolesOf(Moved(u.unread, id, current))));
    Without(AddMissing(start + Values(u.push), Values(u.addToSet)), Values(u.pull))
  }

  lemma AppliedHas(u: Update, id: nat, current: Option<Roles>, role: string)
    ensures role in Applied(u, id, current) <==>
      (role in u.setTo.GetOr(u.flat.GetOr(RolesOf(Moved(u.unread, id, current)))) ||
       role in Values(u.push) || role in Values(u.addToSet)) &&
      role !in Values(u.pull)
  {
  }

  /** The database refuses an update in which an unread operator and another one meet. */
  predicate Clashes(u: Update) {
    u.unread != Nothing &&
    (u.flat.Some? || u.setTo.Some? || u.onInsert.Some? || u.push.Some? || u.addToSet.Some? || u.pull.Some?)
  }

  /** Every role that the operators the hooks look at can put somewhere. */
  predicate WritesOpenly(u: Update, role: string) {
    role in RolesOf(u.flat) || role in RolesOf(u.setTo) || role in RolesOf(u.onInsert) ||
    role in Values(u.push) || role in Values(u.addToSet)
  }

  /** Every role the update can put somewhere. */
  predicate Writes(u: Update, role: string) {
    WritesOpenly(u, role) || role in Named(u.unread)
  }

  function Replacement(roles: Option<Roles>): Update {
    Update(roles, None, None, None, None, None, Nothing)
  }

  // ---- a collection ----

  /** The `roles` of every stored document. */
  type Store = map<nat, Roles>

  /** An upsert inserts only where nothing matched, and only under an id that is free. */
  function Insert(s: Store, id: Option<nat>, roles: Roles): Store {
    if id.Some? && id.value !in s then s[id.value := roles] else s
  }

  function UpdateIn(s: Store, targets: set<nat>, upsert: Option<nat>, u: Update): Store {
    if Clashes(u) then s
    else if exists id :: id in targets && id in s
    then map id | id in s :: if id in targets then Applied(u, id, Some(s[id])) else s[id]
    else if upsert.Some? then Insert(s, upsert, Applied(u, upsert.value, u.onInsert))
    else s
  }

  predicate On(s: Store, id: nat, role: string) {
    id in s && role in s[id]
  }

  /** Where a role that is not on the document yet comes from. */
  lemma UpdateBrings(s: Store, targets: set<nat>, upsert: Option<nat>, u: Update, id: nat, role: string)
    requires !On(s, id, role)
    ensures On(UpdateIn(s, targets, upsert, u), id, role) <==>
      !Clashes(u) &&
      if exists t :: t in targets && t in s then id in s && id in targets && role in Applied(u, id, Some(s[id]))
      else upsert == Some(id) && id !in s && role in Applied(u, id, u.onInsert)
  {
  }

  function ReplaceIn(s: Store, target: Option<nat>, upsert: Option<nat>, roles: Option<Roles>): Store {
    if target.Some? && target.value in s then s[target.value := RolesOf(roles)] else Insert(s, upsert, RolesOf(roles))
  }

  function Targets(target: Option<nat>): set<nat> {
    if target.Some? then {target.value} else {}
  }

  function Perform(s: Store, op: BulkOp): Store {
    match op
    case InsertOne(id, document) => Insert(s, Some(id), RolesOf(document))
    case UpdateOne(target, upsert, u) => UpdateIn(s, Targets(target), upsert, u)
    case UpdateMany(targets, upsert, u) => UpdateIn(s, targets, upsert, u)
    case ReplaceOne(target, upsert, replacement) => ReplaceIn(s, target, upsert, replacement)
    case DeleteMany(targets) => s - targets
  }

  function PerformAll(s: Store, ops: seq<BulkOp>): Store
    decreases |ops|
  {
    if ops == [] then s else PerformAll(Perform(s, ops[0]), ops[1..])
  }
}
