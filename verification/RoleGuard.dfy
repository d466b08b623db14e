/** The hooks that keep users without authority from giving roles away, and what they achieve over whole runs. */
module RoleGuard {
  import opened Outcomes
  import opened RoleUpdates

  const ADMIN := "admin"

  /** Who is writing. `allowedRoles` is the configured list of roles that may assign roles. */
  datatype Context = Context(userRoles: Option<set<string>>, bypass: bool, allowedRoles: set<string>)

  /** `isRoleChangeAllowed`. */
  predicate Allowed(c: Context) {
    c.userRoles.None? || c.bypass || ADMIN in c.userRoles.value || c.userRoles.value * c.allowedRoles != {}
  }

  /** Lists and modifiers are truthy even when empty; among bare values the empty string is not. */
  predicate Truthy(o: Option<Operand>) {
    o.Some? && o.value != Bare("")
  }

  predicate HasRolesInUpdate(u: Update) {
    u.flat.Some? || u.setTo.Some? || Truthy(u.push) || Truthy(u.addToSet) || Truthy(u.pull)
  }

  function Kept(o: Option<Operand>): Option<Operand> {
    if Truthy(o) then None else o
  }

  function Stripped(u: Update): Update {
    u.(flat := None, setTo := None, push := Kept(u.push), addToSet := Kept(u.addToSet), pull := Kept(u.pull))
  }

  /** What `handleUpdateRoleGuard` leaves of an update. */
  function Guarded(c: Context, u: Update): Update {
    if !HasRolesInUpdate(u) || Allowed(c) then u else Stripped(u)
  }

  function GuardedRow(row: Option<Roles>): Option<Roles> {
    if row.Some? then Some([]) else None
  }

  predicate HasRows(rows: seq<Option<Roles>>) {
    exists i :: 0 <= i < |rows| && RolesOf(rows[i]) != []
  }

  function GuardedRows(c: Context, rows: seq<Option<Roles>>): seq<Option<Roles>> {
    if !HasRows(rows) || Allowed(c) then rows else seq(|rows|, i requires 0 <= i < |rows| => GuardedRow(rows[i]))
  }

  predicate ChangesRoles(op: BulkOp) {
    match op
    case InsertOne(_, document) => RolesOf(document) != []
    case UpdateOne(_, _, u) => HasRolesInUpdate(u)
    case UpdateMany(_, _, u) => HasRolesInUpdate(u)
    case ReplaceOne(_, _, replacement) => RolesOf(replacement) != []
    case DeleteMany(_) => false
  }

  function GuardedOp(c: Context, op: BulkOp): BulkOp {
    match op
    case InsertOne(id, document) => InsertOne(id, GuardedRow(document))
    case UpdateOne(target, upsert, u) => UpdateOne(target, upsert, Guarded(c, u))
    case UpdateMany(targets, upsert, u) => UpdateMany(targets, upsert, Guarded(c, u))
    case ReplaceOne(target, upsert, _) => ReplaceOne(target, upsert, None)
    case DeleteMany(_) => op
  }

  predicate AnyChangesRoles(ops: seq<BulkOp>) {
    exists i :: 0 <= i < |ops| && ChangesRoles(ops[i])
  }

  function GuardedOps(c: Context, ops: seq<BulkOp>): seq<BulkOp> {
    if !AnyChangesRoles(ops) || Allowed(c) then ops else seq(|ops|, i requires 0 <= i < |ops| => GuardedOp(c, ops[i]))
  }

  // ---- the hooks ----

  class Query {
    var update: Update

    /** Deletes what names roles from the update object, key by key. */
    method HandleUpdateRoleGuard(c: Context)
      modifies this`update
      ensures update == Guarded(c, old(update))
    {
      if !HasRolesInUpdate(update) || Allowed(c) {
        return;
      }
      update := update.(flat := None);
      if update.setTo.Some? {
        update := update.(setTo := None);
      }
      if Truthy(update.push) {
        update := update.(push := None);
      }
      if Truthy(update.addToSet) {
        update := update.(addToSet := None);
      }
      if Truthy(update.pull) {
        update := update.(pull := None);
      }
    }
  }

  datatype Doc = Doc(id: nat, roles: Roles, modified: bool, isNew: bool)

  /** A new document loses its roles; a stored one keeps those it has in the database. */
  function Presaved(c: Context, d: Doc): Doc {
    if !d.modified || Allowed(c) then d
    else if d.isNew then d.(roles := [])
    else d.(modified := false)
  }

  class Document {
    const id: nat
    var roles: Roles
    var modified: bool
    var isNew: bool

    function Contents(): Doc
      reads this
    {
      Doc(id, roles, modified, isNew)
    }

    method PreSave(c: Context)
      modifies this`roles, this`modified
      ensures Contents() == Presaved(c, old(Contents()))
    {
      if !modified {
        return;
      }
      if Allowed(c) {
        return;
      }
      if isNew {
        roles := [];
      } else {
        modified := false;
      }
    }
  }

  method PreInsertMany(c: Context, docs: array<Option<Roles>>)
    modifies docs
    ensures docs[..] == GuardedRows(c, old(docs[..]))
  {
    if !HasRows(docs[..]) || Allowed(c) {
      return;
    }
    for i := 0 to docs.Length
      invariant forall k :: 0 <= k < i ==> docs[k] == GuardedRow(old(docs[k]))
      invariant forall k :: i <= k < docs.Length ==> docs[k] == old(docs[k])
    {
      if docs[i].Some? {
        docs[i] := Some([]);
      }
    }
  }

  method PreBulkWrite(c: Context, ops: array<BulkOp>)
    modifies ops
    ensures ops[..] == GuardedOps(c, old(ops[..]))
  {
    if !AnyChangesRoles(ops[..]) || Allowed(c) {
      return;
    }
    for i := 0 to ops.Length
      invariant forall k :: 0 <= k < i ==> ops[k] == GuardedOp(c, old(ops[k]))
      invariant forall k :: i <= k < ops.Length ==> ops[k] == old(ops[k])
    {
      match ops[i]
      case InsertOne(id, document) =>
        if document.Some? {
          ops[i] := InsertOne(id, Some([]));
        }
      case UpdateOne(target, upsert, u) =>
        var query := new Query;
        query.update := u;
        query.HandleUpdateRoleGuard(c);
        ops[i] := UpdateOne(target, upsert, query.update);
      case UpdateMany(targets, upsert, u) =>
        var query := new Query;
        query.update := u;
        query.HandleUpdateRoleGuard(c);
        ops[i] := UpdateMany(targets, upsert, query.update);
      case ReplaceOne(target, upsert, replacement) =>
        if replacement.Some? {
          ops[i] := ReplaceOne(target, upsert, None);
        }
      case DeleteMany(_) =>
    }
  }

  // ---- who has authority ----

  /** A logged-in user without bypass who is no administrator and has none of the configured roles. */
  ghost predicate Powerless(c: Context) {
    c.userRoles.Some? && !c.bypass && "admin" !in c.userRoles.value &&
    forall r :: r in c.userRoles.value ==> r !in c.allowedRoles
  }

  lemma AllowedExactly(c: Context)
    ensures Allowed(c) <==> !Powerless(c)
  {
    if c.userRoles.Some? {
      var shared := c.userRoles.value * c.allowedRoles;
      if r :| r in c.userRoles.value && r in c.allowedRoles {
        assert r in shared;
      }
      if shared != {} {
        var r :| r in shared;
        assert r in c.userRoles.value && r in c.allowedRoles;
      }
    }
  }

  // ---- what a guarded write can still do ----

  /**
   * Without authority, an update can write what `$setOnInsert` names, the empty string as a bare
   * value, and what an operator brings that the hook does not look at.
   */
  lemma GuardedWritesExactly(c: Context, u: Update, role: string)
    requires Powerless(c)
    ensures Writes(Guarded(c, u), role) <==>
      role in RolesOf(u.onInsert) || role in Named(u.unread) ||
      (role == "" && (u.push == Some(Bare("")) || u.addToSet == Some(Bare(""))))
  {
  }

  /**
   * A role that is not the empty string appears on a document exactly where an operator brings it
   * that the hook does not look at, or an upsert creates the document with it.
   */
  lemma UpdateAddsExactly(c: Context, s: Store, targets: set<nat>, upsert: Option<nat>, u: Update, id: nat,
                          role: string)
    requires Powerless(c) && role != "" && !On(s, id, role)
    ensures On(UpdateIn(s, targets, upsert, Guarded(c, u)), id, role) <==>
      !Clashes(Guarded(c, u)) &&
      if exists t :: t in targets && t in s then id in s && id in targets && Gives(u.unread, id, Some(s[id]), role)
      else upsert == Some(id) && id !in s && (Gives(u.unread, id, None, role) || role in RolesOf(u.onInsert))
  {
    UpdateBrings(s, targets, upsert, Guarded(c, u), id, role);
    if !Clashes(Guarded(c, u)) {
      if id in s {
        GivesExactly(u.unread, id, Some(s[id]), role);
        GuardedApplied(c, u, id, Some(s[id]), role);
      }
      GivesExactly(u.unread, id, None, role);
      GuardedApplied(c, u, id, u.onInsert, role);
    }
  }

  /** What a guarded update makes of the current roles. */
  lemma GuardedApplied(c: Context, u: Update, id: nat, current: Option<Roles>, role: string)
    requires Powerless(c) && role != ""
    ensures role in Applied(Guarded(c, u), id, current) <==> role in RolesOf(Moved(u.unread, id, current))
  {
    var g := Guarded(c, u);
    AppliedHas(g, id, current, role);
    assert g.flat == g.setTo == None && g.unread == u.unread;
    assert role !in Values(g.push) && role !in Values(g.addToSet) && role !in Values(g.pull);
  }

  /** The empty string gets onto a stored document exactly as a bare value of `$push` or `$addToSet`. */
  lemma EmptyRoleAppearsExactly(c: Context, s: Store, targets: set<nat>, upsert: Option<nat>, u: Update, id: nat)
    requires Powerless(c) && id in s && id in targets && "" !in s[id]
    ensures "" in UpdateIn(s, targets, upsert, Guarded(c, u))[id] <==>
      !Clashes(Guarded(c, u)) &&
      (u.push == Some(Bare("")) || u.addToSet == Some(Bare("")) || Gives(u.unread, id, Some(s[id]), "")) &&
      u.pull != Some(Bare(""))
  {
    var g := Guarded(c, u);
    GivesExactly(u.unread, id, Some(s[id]), "");
    assert !Clashes(g) ==> UpdateIn(s, targets, upsert, g)[id] == Applied(g, id, Some(s[id]));
  }

  // ---- runs ----

  datatype State = State(stored: Store, docs: map<nat, Doc>)

  datatype Step =
    | Hydrate(doc: nat, id: nat)
    | Create(doc: nat, id: nat, roles: Roles)
    | Edit(doc: nat, roles: Roles)
    | Save(doc: nat)
    | UpdateAll(update: Update, targets: set<nat>, upsert: Option<nat>)
    | Replace(target: Option<nat>, upsert: Option<nat>, replacement: Option<Roles>)
    | InsertMany(ids: seq<nat>, rows: seq<Option<Roles>>)
    | BulkWrite(ops: seq<BulkOp>)

  function Saved(s: Store, d: Doc): Store {
    if d.isNew then Insert(s, Some(d.id), d.roles)
    else if d.modified && d.id in s then s[d.id := d.roles]
    else s
  }

  function InsertAll(s: Store, ids: seq<nat>, rows: seq<Option<Roles>>): Store
    decreases |ids|
  {
    if ids == [] || rows == [] then s else InsertAll(Insert(s, Some(ids[0]), RolesOf(rows[0])), ids[1..], rows[1..])
  }

  function Next(c: Context, s: State, step: Step): State {
    match step
    case Hydrate(doc, id) =>
      if id in s.stored then s.(docs := s.docs[doc := Doc(id, s.stored[id], false, false)]) else s
    case Create(doc, id, roles) => s.(docs := s.docs[doc := Doc(id, roles, true, true)])
    case Edit(doc, roles) =>
      if doc in s.docs then s.(docs := s.docs[doc := s.docs[doc].(roles := roles, modified := true)]) else s
    case Save(doc) =>
      if doc !in s.docs then s
      else
        var d := Presaved(c, s.docs[doc]);
        State(Saved(s.stored, d), s.docs[doc := d.(isNew := false, modified := false)])
    case UpdateAll(u, targets, upsert) => s.(stored := UpdateIn(s.stored, targets, upsert, Guarded(c, u)))
    case Replace(target, upsert, roles) =>
      s.(stored := ReplaceIn(s.stored, target, upsert, Guarded(c, Replacement(roles)).flat))
    case InsertMany(ids, rows) => s.(stored := InsertAll(s.stored, ids, GuardedRows(c, rows)))
    case BulkWrite(ops) => s.(stored := PerformAll(s.stored, GuardedOps(c, ops)))
  }

  function Run(s: State, steps: seq<(Context, Step)>): State
    decreases |steps|
  {
    if steps == [] then s else Run(Next(steps[0].0, s, steps[0].1), steps[1..])
  }

  predicate OpPlants(op: BulkOp, role: string) {
    (op.UpdateOne? || op.UpdateMany?) && UpdatePlants(op.update, op.upsert, role)
  }

  predicate UpdatePlants(u: Update, upsert: Option<nat>, role: string) {
    (upsert.Some? && role in RolesOf(u.onInsert)) || role in Named(u.unread)
  }

  /** Does an update of the step bring the role by an operator the hook leaves alone? */
  predicate Plants(step: Step, role: string) {
    match step
    case UpdateAll(u, _, upsert) => UpdatePlants(u, upsert, role)
    case BulkWrite(ops) => exists i :: 0 <= i < |ops| && OpPlants(ops[i], role)
    case _ => false
  }

  /** The role is on no document it was not on before. */
  ghost predicate NoneGainsRole(s: Store, s': Store, role: string) {
    forall id :: On(s', id, role) ==> On(s, id, role)
  }

  /** No document hydrated or created holds unsaved roles past a new document's first save. */
  ghost predicate NewIsModified(s: State) {
    forall d :: d in s.docs && s.docs[d].isNew ==> s.docs[d].modified
  }

  lemma {:induction false} InsertsAddNone(s: Store, ids: seq<nat>, rows: seq<Option<Roles>>, role: string)
    requires forall i :: 0 <= i < |rows| ==> role !in RolesOf(rows[i])
    ensures NoneGainsRole(s, InsertAll(s, ids, rows), role)
    decreases |ids|
  {
    if ids != [] && rows != [] {
      assert role !in RolesOf(rows[0]);
      InsertsAddNone(Insert(s, Some(ids[0]), RolesOf(rows[0])), ids[1..], rows[1..], role);
    }
  }

  lemma UpdateAddsNone(c: Context, s: Store, targets: set<nat>, upsert: Option<nat>, u: Update, role: string)
    requires Powerless(c) && role != "" && !UpdatePlants(u, upsert, role)
    ensures NoneGainsRole(s, UpdateIn(s, targets, upsert, Guarded(c, u)), role)
  {
    forall id | !On(s, id, role) ensures !On(UpdateIn(s, targets, upsert, Guarded(c, u)), id, role) {
      UpdateAddsExactly(c, s, targets, upsert, u, id, role);
      GivesExactly(u.unread, id, None, role);
      if id in s {
        GivesExactly(u.unread, id, Some(s[id]), role);
      }
    }
  }

  lemma OpAddsNone(c: Context, s: Store, op: BulkOp, role: string)
    requires Powerless(c) && role != "" && !OpPlants(op, role)
    ensures NoneGainsRole(s, Perform(s, GuardedOp(c, op)), role)
    ensures !ChangesRoles(op) ==> NoneGainsRole(s, Perform(s, op), role)
  {
    match op
    case UpdateOne(target, upsert, u) => UpdateAddsNone(c, s, Targets(target), upsert, u, role);
    case UpdateMany(targets, upsert, u) => UpdateAddsNone(c, s, targets, upsert, u, role);
    case _ =>
  }

  lemma {:induction false} OpsAddNone(c: Context, s: Store, ops: seq<BulkOp>, done: seq<BulkOp>, role: string)
    requires Powerless(c) && role != "" && |done| == |ops|
    requires forall i :: 0 <= i < |ops| ==>
      !OpPlants(ops[i], role) &&
      (done[i] == GuardedOp(c, ops[i]) || (done[i] == ops[i] && !ChangesRoles(ops[i])))
    ensures NoneGainsRole(s, PerformAll(s, done), role)
    decreases |ops|
  {
    if ops != [] {
      OpAddsNone(c, s, ops[0], role);
      OpsAddNone(c, Perform(s, done[0]), ops[1..], done[1..], role);
    }
  }

  lemma StepKeepsNew(c: Context, s: State, step: Step)
    requires NewIsModified(s)
    ensures NewIsModified(Next(c, s, step))
  {
  }

  /** One step without authority makes no role appear on any stored document. */
  lemma StepAddsNoRole(c: Context, s: State, step: Step, role: string)
    requires Powerless(c) && role != "" && !Plants(step, role) && NewIsModified(s)
    ensures NoneGainsRole(s.stored, Next(c, s, step).stored, role) && NewIsModified(Next(c, s, step))
  {
    match step
    case UpdateAll(u, targets, upsert) => UpdateAddsNone(c, s.stored, targets, upsert, u, role);
    case InsertMany(ids, rows) =>
      var guarded := GuardedRows(c, rows);
      forall i | 0 <= i < |guarded| ensures role !in RolesOf(guarded[i]) {
        assert !HasRows(rows) ==> RolesOf(rows[i]) == [];
      }
      InsertsAddNone(s.stored, ids, guarded, role);
    case BulkWrite(ops) => OpsAddNone(c, s.stored, ops, GuardedOps(c, ops), role);
    case _ =>
  }

  /**
   * Over every run of guarded writes by anybody, with whatever hydrated documents are around: no
   * step of a user without authority makes a role appear on any stored document.
   */
  lemma {:induction false} RunAddsNoRole(s: State, steps: seq<(Context, Step)>, k: nat, role: string)
    requires NewIsModified(s) && role != "" && k < |steps|
    requires Powerless(steps[k].0) && !Plants(steps[k].1, role)
    ensures NoneGainsRole(Run(s, steps[..k]).stored, Run(s, steps[..k + 1]).stored, role)
    decreases k
  {
    var next := Next(steps[0].0, s, steps[0].1);
    StepKeepsNew(steps[0].0, s, steps[0].1);
    if k == 0 {
      assert steps[..k + 1] == [steps[0]] && steps[..k] == [] && [steps[0]][1..] == [];
      assert Run(s, [steps[0]]) == Run(next, []) == next;
      StepAddsNoRole(steps[0].0, s, steps[0].1, role);
    } else {
      assert steps[..k + 1][1..] == steps[1..][..k] && steps[..k][1..] == steps[1..][..k - 1];
      RunAddsNoRole(next, steps[1..], k - 1, role);
    }
  }

  /** Hence in a run without any authority a document ends with no role that it did not start with. */
  lemma {:induction false} PowerlessRunAddsNoRole(s: State, steps: seq<(Context, Step)>, role: string)
    requires NewIsModified(s) && role != ""
    requires forall i :: 0 <= i < |steps| ==> Powerless(steps[i].0) && !Plants(steps[i].1, role)
    ensures NoneGainsRole(s.stored, Run(s, steps).stored, role)
    decreases |steps|
  {
    if steps != [] {
      StepAddsNoRole(steps[0].0, s, steps[0].1, role);
      PowerlessRunAddsNoRole(Next(steps[0].0, s, steps[0].1), steps[1..], role);
    }
  }

  /** Whoever has authority writes what was given, whatever the write is. */
  lemma AuthorityCarriesOut(c: Context, s: State, step: Step)
    requires
      c.userRoles.None? || c.bypass || "admin" in c.userRoles.value ||
      exists r :: r in c.userRoles.value && r in c.allowedRoles
    ensures match step
      case UpdateAll(u, targets, upsert) => Next(c, s, step).stored == UpdateIn(s.stored, targets, upsert, u)
      case Replace(target, upsert, roles) => Next(c, s, step).stored == ReplaceIn(s.stored, target, upsert, roles)
      case InsertMany(ids, rows) => Next(c, s, step).stored == InsertAll(s.stored, ids, rows)
      case BulkWrite(ops) => Next(c, s, step).stored == PerformAll(s.stored, ops)
      case Save(doc) => doc in s.docs ==> Next(c, s, step).stored == Saved(s.stored, s.docs[doc])
      case _ => Next(c, s, step).stored == s.stored
  {
    AllowedExactly(c);
  }

  /**
   * An update without authority leaves the roles of stored documents exactly as they are, additions,
   * removals and replacements alike, unless it has an operator the hook does not look at or a bare
   * empty string.
   */
  lemma GuardedUpdateKeepsStored(c: Context, s: Store, targets: set<nat>, upsert: Option<nat>, u: Update, id: nat)
    requires Powerless(c) && id in s && u.unread == Nothing
    requires Some(Bare("")) !in {u.push, u.addToSet, u.pull}
    ensures UpdateIn(s, targets, upsert, Guarded(c, u))[id] == s[id]
  {
    AllowedExactly(c);
    var g := Guarded(c, u);
    assert g.flat == g.setTo == None && g.push == g.addToSet == g.pull == None;
    NothingApplied(g, id, s[id]);
  }

  lemma {:induction false} WithoutNothing(roles: Roles)
    ensures Without(roles, []) == roles
  {
    if roles != [] {
      WithoutNothing(roles[1..]);
    }
  }

  lemma NothingApplied(u: Update, id: nat, roles: Roles)
    requires u.flat == u.setTo == None && u.push == u.addToSet == u.pull == None && u.unread == Nothing
    ensures Applied(u, id, Some(roles)) == roles
  {
    assert roles + [] == roles;
    WithoutNothing(roles);
  }

  /** Saving a stored document without authority leaves its roles in the database exactly as they are. */
  lemma SaveKeepsStoredRoles(c: Context, s: State, doc: nat)
    requires Powerless(c) && doc in s.docs && !s.docs[doc].isNew
    ensures Next(c, s, Save(doc)).stored == s.stored
  {
  }
}
