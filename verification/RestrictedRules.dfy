/**
 * The rules behind `@Restricted`, stated role by role and without the code's tests: what a role
 * grants, when a list of restrictions lets a user through, and which restrictions a property has.
 */
module RestrictedRules {
  import opened Outcomes
  import opened RestrictedAccess
  import opened RestrictedTree
  import SystemRoles

  // ---- what one role grants ----

  /** The id is the user's own. Who has no id is compared by the text of every object without an id. */
  ghost predicate IsUsers(id: Option<string>, user: Option<User>) {
    user.Some? && id.Some? && id.value != "" &&
    id.value == if user.value.id == "" then "[object Object]" else user.value.id
  }

  /** Roles that are neither system roles nor global: by level where they have one, otherwise exactly. */
  ghost predicate ReachesRole(scope: RoleScope, role: string, user: User) {
    var available :=
      if scope.tenantRole.Some? && scope.tenantRole.value != "" then {scope.tenantRole.value} else user.roles;
    if role in scope.hierarchy
    then exists a :: a in available && a in scope.hierarchy && scope.hierarchy[a] >= scope.hierarchy[role]
    else role in available
  }

  ghost predicate Grants(cfg: Config, role: string, owner: Option<Owner>, trust: bool, user: Option<User>) {
    role == "s_everyone" ||
    (role == "s_user" && user.Some? && user.value.id != "") ||
    (role == "s_verified" && user.Some? && user.value.verified) ||
    (role == "s_self" && owner.Some? && IsUsers(owner.value.id, user)) ||
    (role == "s_creator" && owner.Some? &&
     if owner.value.hasCreatedBy then IsUsers(owner.value.createdBy, user) else cfg.allowCreatorOfParent && trust) ||
    (user.Some? && role in user.value.roles) ||
    (user.Some? && user.value.id != "" && !(|role| >= 2 && role[0] == 's' && role[1] == '_') &&
     role != "admin" && role !in cfg.scope.globalRoles && ReachesRole(cfg.scope, role, user.value))
  }

  // ---- what a list of restrictions means ----

  /** The entry is for this kind of processing. */
  ghost predicate InForce(cfg: Config, processType: Option<ProcessType>) {
    cfg.processType.None? || processType.None? || cfg.processType == processType
  }

  ghost predicate Names(cfg: Config, item: Restriction, role: string) {
    match item
    case Role(r) => role == r
    case RoleList(rs) => role in rs
    case Spec(rs, _, processType) => InForce(cfg, processType) && role in rs
  }

  ghost predicate NamesMembers(cfg: Config, item: Restriction) {
    item.Spec? && InForce(cfg, item.processType) && item.memberOf != []
  }

  /** The user is listed under one of the entry's properties of the stored object. */
  ghost predicate ListsUser(cfg: Config, item: Restriction, user: Option<User>) {
    NamesMembers(cfg, item) && user.Some? && cfg.dbObject.Some? &&
    exists p :: p in item.memberOf && p in cfg.dbObject.value.members &&
      (if user.value.id == "" then "[object Object]" else user.value.id) in cfg.dbObject.value.members[p]
  }

  ghost predicate Entitled(cfg: Config, restricted: seq<Restriction>, owner: Option<Owner>, trust: bool,
                           user: Option<User>) {
    (forall item :: item in restricted ==> !Names(cfg, item, "s_no_one")) &&
    ((exists item, role :: item in restricted && Names(cfg, item, role) && Grants(cfg, role, owner, trust, user)) ||
     (exists item :: item in restricted && ListsUser(cfg, item, user)) ||
     (forall item :: item in restricted ==> !NamesMembers(cfg, item) && forall role :: !Names(cfg, item, role)))
  }

  // ---- the restrictions of a property ----

  ghost function OfClass(s: Schema, cls: Option<string>): seq<Restriction> {
    if cls.Some? && cls.value in s.classes then s.classes[cls.value] else []
  }

  ghost function OfProperty(s: Schema, cls: Option<string>, key: string): seq<Restriction> {
    if cls.Some? && (cls.value, key) in s.fields then s.fields[(cls.value, key)] else []
  }

  /** May the user have the property? With `mergeRoles` the restrictions of the class count as well. */
  ghost predicate MayHave(e: Env, cls: Option<string>, key: string, owner: Option<Owner>, trust: bool) {
    Entitled(e.cfg, (if e.cfg.mergeRoles then OfClass(e.schema, cls) else []) + OfProperty(e.schema, cls, key),
             owner, trust, e.user)
  }

  /** May the user have the object, where objects are checked as a whole? */
  ghost predicate MayHaveObject(e: Env, cls: Option<string>, owner: Option<Owner>, trust: bool) {
    e.cfg.checkObjectItself ==> Entitled(e.cfg, OfClass(e.schema, cls), owner, trust, e.user)
  }

  /** Does an object with this owner vouch for the user in what it contains? */
  ghost predicate Vouches(owner: Option<Owner>, trust: bool, user: Option<User>) {
    if owner.None? then trust
    else
      IsUsers(owner.value.id, user) ||
      if owner.value.hasCreatedBy then IsUsers(owner.value.createdBy, user) else trust
  }

  /** The class whose restrictions apply to an object: its own, or the declared one for plain objects. */
  ghost function ClassOf(proto: Proto, declared: Option<string>): Option<string> {
    match proto
    case Class(name) => Some(name)
    case _ => declared
  }

  /** The class declared for a property. */
  ghost function DeclaredFor(s: Schema, cls: Option<string>, key: string): Option<string> {
    if cls.Some? && (cls.value, key) in s.nested then Some(s.nested[(cls.value, key)]) else None
  }

  // ---- the code follows the rules ----

  lemma {:induction false} CollectsExactly(cfg: Config, restricted: seq<Restriction>, role: string)
    ensures role in CollectRoles(cfg, restricted) <==>
      exists item :: item in restricted && Names(cfg, item, role)
  {
    if restricted != [] {
      CollectsExactly(cfg, restricted[1..], role);
      assert restricted == [restricted[0]] + restricted[1..];
      assert role in RolesOf(cfg, restricted[0]) <==> Names(cfg, restricted[0], role);
    }
  }

  lemma SameIdExactly(id: Option<string>, user: Option<User>)
    ensures SameId(id, user) <==> IsUsers(id, user)
  {
  }

  lemma FieldAccessExactly(scope: RoleScope, roles: seq<string>, user: User)
    ensures CheckFieldRoleAccess(scope, roles, user) <==>
      exists role :: role in roles && !SystemRoles.IsSystemRole(role) &&
        if IsGlobal(scope, role) then role in user.roles else ReachesRole(scope, role, user)
  {
    var other := Select(scope, roles, false);
    forall role | role in roles && !SystemRoles.IsSystemRole(role)
      ensures role in Select(scope, roles, IsGlobal(scope, role))
    {
    }
    if r :| r in Select(scope, roles, true) && r in user.roles {
      assert r in roles && IsGlobal(scope, r);
    }
    if other != [] && CheckRoleAccess(scope, other, user.roles) {
      var available :=
        if scope.tenantRole.Some? && scope.tenantRole.value != "" then {scope.tenantRole.value} else user.roles;
      var r :| r in other && ReachesRole(scope, r, user);
    }
  }

  lemma RolesPassExactly(cfg: Config, roles: seq<string>, owner: Option<Owner>, trust: bool, user: Option<User>)
    requires roles != []
    ensures RolesPass(cfg, roles, owner, trust, user) <==>
      exists role :: role in roles && Grants(cfg, role, owner, trust, user)
  {
    if user.Some? {
      FieldAccessExactly(cfg.scope, roles, user.value);
    }
  }

  lemma EntitledExactly(cfg: Config, restricted: seq<Restriction>, owner: Option<Owner>, trust: bool,
                        user: Option<User>)
    ensures Validate(cfg, restricted, owner, trust, user) <==> Entitled(cfg, restricted, owner, trust, user)
  {
    var roles := CollectRoles(cfg, restricted);
    forall role ensures role in roles <==> exists item :: item in restricted && Names(cfg, item, role) {
      CollectsExactly(cfg, restricted, role);
    }
    if roles != [] {
      RolesPassExactly(cfg, roles, owner, trust, user);
      assert roles[0] in roles;
      if role :| role in roles && Grants(cfg, role, owner, trust, user) {
        var item :| item in restricted && Names(cfg, item, role);
      }
    }
    forall item, role | item in restricted && Names(cfg, item, role) ensures role in roles {
      CollectsExactly(cfg, restricted, role);
    }
    GroupsExactly(cfg, restricted, user);
  }

  lemma GroupsExactly(cfg: Config, restricted: seq<Restriction>, user: Option<User>)
    ensures (forall i :: 0 <= i < |restricted| ==> !IsGroup(cfg, restricted[i])) <==>
      forall item :: item in restricted ==> !NamesMembers(cfg, item)
    ensures IsMember(cfg, restricted, user) <==> exists item :: item in restricted && ListsUser(cfg, item, user)
  {
    forall item ensures IsGroup(cfg, item) <==> NamesMembers(cfg, item) {
    }
    if item :| item in restricted && ListsUser(cfg, item, user) {
      var i :| 0 <= i < |restricted| && restricted[i] == item;
      assert IsGroup(cfg, restricted[i]);
    }
    if IsMember(cfg, restricted, user) {
      var i, p :| 0 <= i < |restricted| && IsGroup(cfg, restricted[i]) && p in restricted[i].memberOf &&
        p in cfg.dbObject.value.members && IdText(user.value) in cfg.dbObject.value.members[p];
      assert ListsUser(cfg, restricted[i], user);
    }
  }

  lemma MayHaveExactly(e: Env, cls: Option<string>, key: string, owner: Option<Owner>, trust: bool)
    ensures Passes(e, cls, key, owner, trust) <==> MayHave(e, cls, key, owner, trust)
  {
    EntitledExactly(e.cfg, Merged(e.cfg, e.schema, cls, key), owner, trust, e.user);
    var field := OfProperty(e.schema, cls, key);
    assert [] + field == field;
  }

  lemma MayHaveObjectExactly(e: Env, cls: Option<string>, owner: Option<Owner>, trust: bool)
    ensures MayHaveObject(e, cls, owner, trust) <==>
      (e.cfg.checkObjectItself ==> Validate(e.cfg, ClassRestrictions(e.schema, cls), owner, trust, e.user))
  {
    EntitledExactly(e.cfg, ClassRestrictions(e.schema, cls), owner, trust, e.user);
  }

  lemma VouchesExactly(owner: Option<Owner>, trust: bool, user: Option<User>)
    ensures NextTrust(owner, trust, user) <==> Vouches(owner, trust, user)
  {
  }

  /** A single role. */
  lemma OneRole(cfg: Config, role: string, owner: Option<Owner>, trust: bool, user: Option<User>)
    ensures Entitled(cfg, [Role(role)], owner, trust, user) <==>
      role != "s_no_one" && Grants(cfg, role, owner, trust, user)
  {
    var item := Role(role);
    assert item in [item] && forall x :: x in [item] ==> x == item;
    assert Names(cfg, item, role);
  }

  lemma SelfGrants(cfg: Config, owner: Option<Owner>, trust: bool, user: Option<User>)
    ensures Grants(cfg, "s_self", owner, trust, user) <==>
      (owner.Some? && IsUsers(owner.value.id, user)) || (user.Some? && "s_self" in user.value.roles)
  {
  }

  /** All of the above for one check. */
  lemma Rules(e: Env)
    ensures forall cls, key, owner, trust :: Passes(e, cls, key, owner, trust) <==> MayHave(e, cls, key, owner, trust)
    ensures forall cls, owner, trust :: MayHaveObject(e, cls, owner, trust) <==>
      (e.cfg.checkObjectItself ==> Validate(e.cfg, ClassRestrictions(e.schema, cls), owner, trust, e.user))
    ensures forall owner, trust :: NextTrust(owner, trust, e.user) <==> Vouches(owner, trust, e.user)
  {
    forall cls, key, owner, trust
      ensures Passes(e, cls, key, owner, trust) <==> MayHave(e, cls, key, owner, trust)
    {
      MayHaveExactly(e, cls, key, owner, trust);
    }
    forall cls, owner, trust
      ensures MayHaveObject(e, cls, owner, trust) <==>
        (e.cfg.checkObjectItself ==> Validate(e.cfg, ClassRestrictions(e.schema, cls), owner, trust, e.user))
    {
      MayHaveObjectExactly(e, cls, owner, trust);
    }
  }
}
