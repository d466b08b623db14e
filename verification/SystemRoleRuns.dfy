/** Interleavings of hydrated documents, two-phase updates and bulk operations: no new system role is ever stored. */
module SystemRoleRuns {
  import opened Outcomes
  import opened RoleUpdates
  import opened SystemRoles

  /** What an update will write once its hook has let it through. */
  datatype Pending = Pending(update: Update, replacing: bool)

  datatype State = State(stored: Store, docs: map<nat, Doc>, pending: map<nat, Pending>)

  /**
   * `Begin` is the hook of a query update or replacement: it reads the roles of the document `seen`,
   * if it reads at all and the read does not fail. `Finish` is the write, on whatever document the
   * filter matches by then.
   */
  datatype Step =
    | Hydrate(doc: nat, id: nat)
    | Create(doc: nat, id: nat, roles: Roles)
    | Edit(doc: nat, roles: Roles)
    | Save(doc: nat)
    | Begin(op: nat, update: Update, replacing: bool, seen: Option<nat>)
    | Finish(op: nat, target: Option<nat>, upsert: Option<nat>)
    | UpdateAll(update: Update, targets: set<nat>, upsert: Option<nat>)
    | InsertMany(ids: seq<nat>, rows: seq<Roles>)
    | BulkWrite(ops: seq<BulkOp>)

  function Baseline(s: State, u: Update, seen: Option<nat>): Roles {
    if Suspicious(u) && seen.Some? && seen.value in s.stored then s.stored[seen.value] else []
  }

  function InsertAll(s: Store, ids: seq<nat>, rows: seq<Roles>): Store
    decreases |ids|
  {
    if ids == [] || rows == [] then s else InsertAll(Insert(s, Some(ids[0]), rows[0]), ids[1..], rows[1..])
  }

  function Saved(s: Store, d: Doc): Store {
    if d.isNew then Insert(s, Some(d.id), d.roles)
    else if d.modified && d.id in s then s[d.id := d.roles]
    else s
  }

  /** A refused operation leaves everything as it is. */
  function Next(s: State, step: Step): State {
    match step
    case Hydrate(doc, id) =>
      if id in s.stored then s.(docs := s.docs[doc := Doc(id, s.stored[id], false, false, Some(s.stored[id]))]) else s
    case Create(doc, id, roles) => s.(docs := s.docs[doc := Doc(id, roles, true, true, None)])
    case Edit(doc, roles) =>
      if doc in s.docs then s.(docs := s.docs[doc := s.docs[doc].(roles := roles, modified := true)]) else s
    case Save(doc) =>
      if doc in s.docs && SaveAllowed(s.docs[doc]) then
        s.(stored := Saved(s.stored, s.docs[doc]),
           docs := s.docs[doc := s.docs[doc].(isNew := false, modified := false)])
      else s
    case Begin(op, u, replacing, seen) =>
      if UpdateAllowed(u, Baseline(s, u, seen)) then s.(pending := s.pending[op := Pending(u, replacing)]) else s
    case Finish(op, target, upsert) =>
      if op !in s.pending then s
      else
        var p := s.pending[op];
        s.(stored := if p.replacing then ReplaceIn(s.stored, target, upsert, p.update.flat)
                     else UpdateIn(s.stored, Targets(target), upsert, p.update),
           pending := s.pending - {op})
    case UpdateAll(u, targets, upsert) =>
      if UpdateAllowed(u, []) then s.(stored := UpdateIn(s.stored, targets, upsert, u)) else s
    case InsertMany(ids, rows) =>
      if forall i :: 0 <= i < |rows| ==> NoneIntroduced(rows[i], [])
      then s.(stored := InsertAll(s.stored, ids, rows)) else s
    case BulkWrite(ops) =>
      if forall i :: 0 <= i < |ops| ==> BulkOpAllowed(ops[i]) then s.(stored := PerformAll(s.stored, ops)) else s
  }

  function Run(s: State, steps: seq<Step>): State
    decreases |steps|
  {
    if steps == [] then s else Run(Next(s, steps[0]), steps[1..])
  }

  /** The roles that operators without a check bring. */
  function BroughtByOp(op: BulkOp): set<string> {
    if op.UpdateOne? || op.UpdateMany? then Named(op.update.unread) else {}
  }

  function Brought(step: Step): set<string> {
    match step
    case Begin(_, u, _, _) => Named(u.unread)
    case UpdateAll(u, _, _) => Named(u.unread)
    case BulkWrite(ops) => set i, r | 0 <= i < |ops| && r in BroughtByOp(ops[i]) :: r
    case _ => {}
  }

  function BroughtBy(steps: seq<Step>): set<string> {
    set i, r | 0 <= i < |steps| && r in Brought(steps[i]) :: r
  }

  function Removal(role: string): Update {
    Update(None, None, None, None, None, Some(Bare(role)), Nothing)
  }

  // ---- the invariant ----

  /** Is `role` stored on some document? */
  predicate StoredSomewhere(s: Store, role: string) {
    exists id :: id in s && role in s[id]
  }

  /** The system roles among `roles` are all stored in `first`, or brought by an unread operator. */
  ghost predicate Known(first: Store, brought: set<string>, roles: Roles) {
    forall r :: r in roles && LooksLikeSystemRole(r) ==> StoredSomewhere(first, r) || r in brought
  }

  ghost predicate KnownStore(first: Store, brought: set<string>, s: Store) {
    forall id :: id in s ==> Known(first, brought, s[id])
  }

  ghost predicate KnownUpdate(first: Store, brought: set<string>, u: Update) {
    forall r :: Writes(u, r) && LooksLikeSystemRole(r) ==> StoredSomewhere(first, r) || r in brought
  }

  /** Stored roles, captured baselines and pending updates hold no system role from elsewhere. */
  ghost predicate Inv(first: Store, brought: set<string>, s: State) {
    KnownStore(first, brought, s.stored) &&
    (forall d :: d in s.docs ==> Known(first, brought, RolesOf(s.docs[d].originalRoles))) &&
    (forall op :: op in s.pending ==> KnownUpdate(first, brought, s.pending[op].update))
  }

  lemma AllowedIsKnown(first: Store, brought: set<string>, u: Update, baseline: Roles)
    requires UpdateAllowed(u, baseline) && Known(first, brought, baseline) && Named(u.unread) <= brought
    ensures KnownUpdate(first, brought, u)
  {
    UpdateCheckIsExact(u, baseline);
  }

  lemma UpdateKeepsKnown(first: Store, brought: set<string>, s: Store, targets: set<nat>, upsert: Option<nat>,
                         u: Update)
    requires KnownStore(first, brought, s) && KnownUpdate(first, brought, u)
    ensures KnownStore(first, brought, UpdateIn(s, targets, upsert, u))
  {
    forall id | id in s ensures Known(first, brought, Applied(u, id, Some(s[id]))) {
      AppliedIsKnown(first, brought, u, id, Some(s[id]));
    }
    assert forall r :: r in RolesOf(u.onInsert) ==> Writes(u, r);
    if upsert.Some? {
      AppliedIsKnown(first, brought, u, upsert.value, u.onInsert);
    }
  }

  lemma AppliedIsKnown(first: Store, brought: set<string>, u: Update, id: nat, current: Option<Roles>)
    requires Known(first, brought, RolesOf(current)) && KnownUpdate(first, brought, u)
    ensures Known(first, brought, Applied(u, id, current))
  {
    var moved := RolesOf(Moved(u.unread, id, current));
    var start := u.setTo.GetOr(u.flat.GetOr(moved));
    forall r | r in Applied(u, id, current) && LooksLikeSystemRole(r)
      ensures StoredSomewhere(first, r) || r in brought
    {
      GivesExactly(u.unread, id, current, r);
      assert r in start || r in Values(u.push) || r in Values(u.addToSet);
      assert r in moved || Writes(u, r);
    }
  }

  lemma ReplaceKeepsKnown(first: Store, brought: set<string>, s: Store, target: Option<nat>, upsert: Option<nat>,
                          u: Update)
    requires KnownStore(first, brought, s) && KnownUpdate(first, brought, u)
    ensures KnownStore(first, brought, ReplaceIn(s, target, upsert, u.flat))
  {
    assert forall r :: r in RolesOf(u.flat) ==> Writes(u, r);
  }

  lemma {:induction false} InsertsKeepKnown(first: Store, brought: set<string>, s: Store, ids: seq<nat>,
                                            rows: seq<Roles>)
    requires KnownStore(first, brought, s) && forall i :: 0 <= i < |rows| ==> NoneIntroduced(rows[i], [])
    ensures KnownStore(first, brought, InsertAll(s, ids, rows))
    decreases |ids|
  {
    if ids != [] && rows != [] {
      assert NoneIntroduced(rows[0], []);
      InsertsKeepKnown(first, brought, Insert(s, Some(ids[0]), rows[0]), ids[1..], rows[1..]);
    }
  }

  lemma PerformKeepsKnown(first: Store, brought: set<string>, s: Store, op: BulkOp)
    requires KnownStore(first, brought, s) && BulkOpAllowed(op) && BroughtByOp(op) <= brought
    ensures KnownStore(first, brought, Perform(s, op))
  {
    match op
    case UpdateOne(target, upsert, u) =>
      AllowedIsKnown(first, brought, u, []);
      UpdateKeepsKnown(first, brought, s, Targets(target), upsert, u);
    case UpdateMany(targets, upsert, u) =>
      AllowedIsKnown(first, brought, u, []);
      UpdateKeepsKnown(first, brought, s, targets, upsert, u);
    case _ =>
  }

  lemma {:induction false} BulkKeepsKnown(first: Store, brought: set<string>, s: Store, ops: seq<BulkOp>)
    requires KnownStore(first, brought, s)
    requires forall i :: 0 <= i < |ops| ==> BulkOpAllowed(ops[i]) && BroughtByOp(ops[i]) <= brought
    ensures KnownStore(first, brought, PerformAll(s, ops))
    decreases |ops|
  {
    if ops != [] {
      PerformKeepsKnown(first, brought, s, ops[0]);
      BulkKeepsKnown(first, brought, Perform(s, ops[0]), ops[1..]);
    }
  }

  lemma SaveKeepsKnown(first: Store, brought: set<string>, s: Store, d: Doc)
    requires KnownStore(first, brought, s) && Known(first, brought, RolesOf(d.originalRoles)) && SaveAllowed(d) &&
      (d.isNew ==> d.modified)
    ensures KnownStore(first, brought, Saved(s, d))
  {
  }

  /** A new document counts as modified until it is saved. */
  ghost predicate NewIsModified(s: State) {
    forall d :: d in s.docs && s.docs[d].isNew ==> s.docs[d].modified
  }

  lemma SaveStepKeepsInv(first: Store, brought: set<string>, s: State, doc: nat)
    requires Inv(first, brought, s) && NewIsModified(s)
    ensures Inv(first, brought, Next(s, Save(doc))) && NewIsModified(Next(s, Save(doc)))
  {
    if doc in s.docs && SaveAllowed(s.docs[doc]) {
      SaveKeepsKnown(first, brought, s.stored, s.docs[doc]);
    }
  }

  lemma BeginKeepsInv(first: Store, brought: set<string>, s: State, op: nat, u: Update, replacing: bool,
                      seen: Option<nat>)
    requires Inv(first, brought, s) && Named(u.unread) <= brought
    ensures Inv(first, brought, Next(s, Begin(op, u, replacing, seen)))
  {
    if UpdateAllowed(u, Baseline(s, u, seen)) {
      AllowedIsKnown(first, brought, u, Baseline(s, u, seen));
    }
  }

  lemma FinishKeepsInv(first: Store, brought: set<string>, s: State, op: nat, target: Option<nat>, upsert: Option<nat>)
    requires Inv(first, brought, s)
    ensures Inv(first, brought, Next(s, Finish(op, target, upsert)))
  {
    if op in s.pending {
      UpdateKeepsKnown(first, brought, s.stored, Targets(target), upsert, s.pending[op].update);
      ReplaceKeepsKnown(first, brought, s.stored, target, upsert, s.pending[op].update);
    }
  }

  lemma StoreKeepsInv(first: Store, brought: set<string>, s: State, step: Step)
    requires Inv(first, brought, s) && Brought(step) <= brought
    requires step.UpdateAll? || step.InsertMany? || step.BulkWrite?
    ensures Inv(first, brought, Next(s, step))
  {
    match step
    case UpdateAll(u, targets, upsert) =>
      if UpdateAllowed(u, []) {
        AllowedIsKnown(first, brought, u, []);
        UpdateKeepsKnown(first, brought, s.stored, targets, upsert, u);
      }
    case InsertMany(ids, rows) =>
      if forall i :: 0 <= i < |rows| ==> NoneIntroduced(rows[i], []) {
        InsertsKeepKnown(first, brought, s.stored, ids, rows);
      }
    case BulkWrite(ops) =>
      if forall i :: 0 <= i < |ops| ==> BulkOpAllowed(ops[i]) {
        BulkKeepsKnown(first, brought, s.stored, ops);
      }
  }

  lemma StepKeepsInv(first: Store, brought: set<string>, s: State, step: Step)
    requires Inv(first, brought, s) && NewIsModified(s) && Brought(step) <= brought
    ensures Inv(first, brought, Next(s, step)) && NewIsModified(Next(s, step))
  {
    match step
    case Save(doc) => SaveStepKeepsInv(first, brought, s, doc);
    case Begin(op, u, replacing, seen) => BeginKeepsInv(first, brought, s, op, u, replacing, seen);
    case Finish(op, target, upsert) => FinishKeepsInv(first, brought, s, op, target, upsert);
    case Hydrate(_, _) =>
    case Create(_, _, _) =>
    case Edit(_, _) =>
    case _ => StoreKeepsInv(first, brought, s, step);
  }

  lemma {:induction false} RunKeepsInv(first: Store, brought: set<string>, s: State, steps: seq<Step>)
    requires Inv(first, brought, s) && NewIsModified(s)
    requires forall i :: 0 <= i < |steps| ==> Brought(steps[i]) <= brought
    ensures Inv(first, brought, Run(s, steps))
    decreases |steps|
  {
    if steps != [] {
      StepKeepsInv(first, brought, s, steps[0]);
      RunKeepsInv(first, brought, Next(s, steps[0]), steps[1..]);
    }
  }

  /**
   * However the steps interleave, every system role stored at the end was stored at the start, or
   * an update of the run brings it by an operator that the hooks do not look at.
   */
  lemma NoSystemRoleAppears(first: Store, steps: seq<Step>, role: string)
    requires LooksLikeSystemRole(role) && StoredSomewhere(Run(State(first, map[], map[]), steps).stored, role)
    ensures StoredSomewhere(first, role) || role in BroughtBy(steps)
  {
    var brought := BroughtBy(steps);
    forall id | id in first ensures Known(first, brought, first[id]) {
    }
    forall i | 0 <= i < |steps| ensures Brought(steps[i]) <= brought {
      assert forall r :: r in Brought(steps[i]) ==> r in brought;
    }
    RunKeepsInv(first, brought, State(first, map[], map[]), steps);
  }

  /**
   * The exception is a real one: an update that passes the check brings a system role to a document
   * exactly if it writes that document and its unread operator gives it the role.
   */
  lemma UpdateBringsExactly(s: Store, targets: set<nat>, upsert: Option<nat>, u: Update, id: nat, role: string)
    requires UpdateAllowed(u, []) && LooksLikeSystemRole(role) && !On(s, id, role)
    ensures On(UpdateIn(s, targets, upsert, u), id, role) <==>
      !Clashes(u) &&
      if exists t :: t in targets && t in s then id in s && id in targets && Gives(u.unread, id, Some(s[id]), role)
      else upsert == Some(id) && id !in s && Gives(u.unread, id, None, role)
  {
    UpdateBrings(s, targets, upsert, u, id, role);
    UpdateCheckIsExact(u, []);
    assert !WritesOpenly(u, role);
    if !Clashes(u) {
      if id in s {
        OpenlyAllowed(u, id, Some(s[id]), role);
      }
      OpenlyAllowed(u, id, u.onInsert, role);
    }
  }

  lemma OpenlyAllowed(u: Update, id: nat, current: Option<Roles>, role: string)
    requires !WritesOpenly(u, role) && !Clashes(u) && role !in RolesOf(current)
    ensures role in Applied(u, id, current) <==> Gives(u.unread, id, current, role)
  {
    AppliedHas(u, id, current, role);
    GivesExactly(u.unread, id, current, role);
  }

  // ---- what stays possible ----

  /** Documents that already hold system roles can still be written back as they are. */
  lemma WritingBackIsAllowed(s: State, doc: nat, id: nat, u: Update)
    requires id in s.stored && u.flat == Some(s.stored[id]) && u == Replacement(u.flat)
    ensures SaveAllowed(Next(Next(s, Hydrate(doc, id)), Edit(doc, s.stored[id])).docs[doc])
    ensures UpdateAllowed(u, Baseline(s, u, Some(id)))
  {
    UpdateCheckIsExact(u, []);
    UpdateCheckIsExact(u, s.stored[id]);
  }

  /** Removing a system role is never refused. */
  lemma CleaningUpIsAllowed(role: string, id: nat, s: Store)
    requires id in s
    ensures
      var u := Removal(role);
      UpdateAllowed(u, []) && role !in UpdateIn(s, {id}, None, u)[id]
  {
  }

  /**
   * The bound is the start of the run, not the moment before: a document hydrated before a clean-up
   * puts the removed role back when it is saved afterwards.
   */
  lemma StaleSaveRestores(role: string)
    requires LooksLikeSystemRole(role)
    ensures
      var s0 := State(map[1 := [role]], map[], map[]);
      var cleaned := Run(s0, [Hydrate(7, 1), UpdateAll(Removal(role), {1},
                                                       None)]);
      !StoredSomewhere(cleaned.stored, role) &&
      StoredSomewhere(Run(cleaned, [Edit(7, [role]), Save(7)]).stored, role)
  {
    var u := Removal(role);
    var s0 := State(map[1 := [role]], map[], map[]);
    var s1 := Next(s0, Hydrate(7, 1));
    var cleaned := Next(s1, UpdateAll(u, {1}, None));
    assert 1 in s1.stored;
    assert [Hydrate(7, 1), UpdateAll(u, {1}, None)][1..] == [UpdateAll(u, {1}, None)];
    assert Run(s0, [Hydrate(7, 1), UpdateAll(u, {1}, None)]) == Run(s1, [UpdateAll(u, {1}, None)]);
    assert Run(s1, [UpdateAll(u, {1}, None)]) == cleaned;
    assert role !in Applied(u, 1, Some([role]));
    var s3 := Next(cleaned, Edit(7, [role]));
    var s4 := Next(s3, Save(7));
    assert [Edit(7, [role]), Save(7)][1..] == [Save(7)];
    assert Run(cleaned, [Edit(7, [role]), Save(7)]) == Run(s3, [Save(7)]) == s4;
    assert SaveAllowed(s3.docs[7]);
    assert 1 in s4.stored && role in s4.stored[1];
  }
}
