/** When a user passes a list of `@Restricted` entries. */
module RestrictedAccess {
  import opened Outcomes
  import SystemRoles

  datatype ProcessType = Input | Output

  /** One entry of a restriction: a role, a list of roles, or an object with roles or memberships. */
  datatype Restriction =
    | Role(role: string)
    | RoleList(roles: seq<string>)
    | Spec(specRoles: seq<string>, memberOf: seq<string>, processType: Option<ProcessType>)

  /** A user without an id has the empty id. */
  datatype User = User(id: string, roles: set<string>, verified: bool)

  /** How roles resolve: which are global, the role hierarchy, the tenant role of the request. */
  datatype RoleScope = RoleScope(globalRoles: set<string>, hierarchy: map<string, int>, tenantRole: Option<string>)

  /** What ownership is decided from: the text of the id, and a `createdBy` that may be missing. */
  datatype Owner = Owner(id: Option<string>, hasCreatedBy: bool, createdBy: Option<string>)

  /** The stored object: its ownership, and the ids its properties list for memberships. */
  datatype DbObject = DbObject(owner: Owner, members: map<string, seq<string>>)

  datatype Config = Config(
    allowCreatorOfParent: bool,
    checkObjectItself: bool,
    dbObject: Option<DbObject>,
    ignoreFunctions: bool,
    ignoreUndefined: bool,
    mergeRoles: bool,
    noteCheckedObjects: bool,
    processType: Option<ProcessType>,
    removeUndefinedFromResultArray: bool,
    throwError: bool,
    scope: RoleScope)

  const ADMIN := "admin"
  const S_CREATOR := "s_creator"
  const S_EVERYONE := "s_everyone"
  const S_NO_ONE := "s_no_one"
  const S_SELF := "s_self"
  const S_USER := "s_user"
  const S_VERIFIED := "s_verified"

  // ---- roles ----

  predicate Applies(cfg: Config, item: Restriction) {
    item.Spec? && cfg.processType.Some? && item.processType.Some? ==> cfg.processType == item.processType
  }

  /** The roles an entry contributes for the current process. */
  function RolesOf(cfg: Config, item: Restriction): seq<string> {
    match item
    case Role(r) => [r]
    case RoleList(rs) => rs
    case Spec(rs, _, _) => if Applies(cfg, item) then rs else []
  }

  function CollectRoles(cfg: Config, restricted: seq<Restriction>): seq<string> {
    if restricted == [] then [] else RolesOf(cfg, restricted[0]) + CollectRoles(cfg, restricted[1..])
  }

  predicate HasRole(user: User, roles: seq<string>) {
    user.roles != {} && (roles == [] || exists r :: r in roles && r in user.roles)
  }

  /** Hierarchy roles by level, other roles exactly; the tenant role of the request stands in for the user's. */
  predicate CheckRoleAccess(scope: RoleScope, required: seq<string>, roles: set<string>) {
    var available := if scope.tenantRole.Some? && scope.tenantRole.value != "" then {scope.tenantRole.value} else roles;
    available != {} &&
    (required == [] ||
     (exists r, a :: r in required && r in scope.hierarchy && a in available && a in scope.hierarchy &&
                     scope.hierarchy[a] >= scope.hierarchy[r]) ||
     (exists r :: r in required && r !in scope.hierarchy && r in available))
  }

  predicate IsGlobal(scope: RoleScope, role: string) {
    role in scope.globalRoles || role == ADMIN
  }

  function Select(scope: RoleScope, roles: seq<string>, global: bool): (r: seq<string>)
    ensures forall x :: x in r <==> x in roles && !SystemRoles.IsSystemRole(x) && IsGlobal(scope, x) == global
  {
    if roles == [] then []
    else
      (if !SystemRoles.IsSystemRole(roles[0]) && IsGlobal(scope, roles[0]) == global then [roles[0]] else []) +
      Select(scope, roles[1..], global)
  }

  /** Global roles are answered by the user, the others by the tenant role or the user. */
  predicate CheckFieldRoleAccess(scope: RoleScope, roles: seq<string>, user: User) {
    (exists r :: r in Select(scope, roles, true) && r in user.roles) ||
    (Select(scope, roles, false) != [] && CheckRoleAccess(scope, Select(scope, roles, false), user.roles))
  }

  /** The text of every object without an id. */
  const ANONYMOUS := "[object Object]"

  /** What ids are compared by. */
  function IdText(user: User): string {
    if user.id == "" then ANONYMOUS else user.id
  }

  /** `equalIds`. */
  predicate SameId(id: Option<string>, user: Option<User>) {
    id.Some? && user.Some? && id.value == IdText(user.value) && id.value != ""
  }

  predicate OwnerPasses(cfg: Config, owner: Option<Owner>, creatorOfParent: bool, user: Option<User>) {
    owner.Some? &&
    if owner.value.hasCreatedBy then SameId(owner.value.createdBy, user)
    else cfg.allowCreatorOfParent && creatorOfParent
  }

  predicate RolesPass(cfg: Config, roles: seq<string>, owner: Option<Owner>, creatorOfParent: bool,
                      user: Option<User>) {
    || S_EVERYONE in roles
    || (user.Some? && HasRole(user.value, roles))
    || (user.Some? && user.value.id != "" && S_USER in roles)
    || (S_SELF in roles && owner.Some? && SameId(owner.value.id, user))
    || (S_CREATOR in roles && OwnerPasses(cfg, owner, creatorOfParent, user))
    || (S_VERIFIED in roles && user.Some? && user.value.verified)
    || (user.Some? && user.value.id != "" && CheckFieldRoleAccess(cfg.scope, roles, user.value))
  }

  // ---- memberships ----

  predicate IsGroup(cfg: Config, item: Restriction) {
    item.Spec? && item.memberOf != [] && Applies(cfg, item)
  }

  predicate IsMember(cfg: Config, restricted: seq<Restriction>, user: Option<User>) {
    user.Some? && cfg.dbObject.Some? &&
    exists i, p :: 0 <= i < |restricted| && IsGroup(cfg, restricted[i]) && p in restricted[i].memberOf &&
      p in cfg.dbObject.value.members && IdText(user.value) in cfg.dbObject.value.members[p]
  }

  /** `validateRestricted`. `S_NO_ONE` shuts everybody out; otherwise one matching role or membership is enough. */
  predicate Validate(cfg: Config, restricted: seq<Restriction>, owner: Option<Owner>, creatorOfParent: bool,
                     user: Option<User>) {
    var roles := CollectRoles(cfg, restricted);
    restricted == [] ||
    (S_NO_ONE !in roles &&
     ((roles != [] && RolesPass(cfg, roles, owner, creatorOfParent, user)) ||
      IsMember(cfg, restricted, user) ||
      (roles == [] && forall i :: 0 <= i < |restricted| ==> !IsGroup(cfg, restricted[i]))))
  }

  // ---- monotonicity ----

  /** The same person with at least the roles. */
  predicate AtMost(a: Option<User>, b: Option<User>) {
    a.Some? ==>
    b.Some? && a.value.id == b.value.id && a.value.roles <= b.value.roles &&
    (a.value.verified ==> b.value.verified)
  }

  /** The parent's trust only counts where there is no `createdBy`. */
  predicate TrustGrows(owner: Option<Owner>, trust: bool, trust': bool) {
    (trust ==> trust') || (owner.Some? && owner.value.hasCreatedBy)
  }

  lemma RolesPassGrows(cfg: Config, roles: seq<string>, owner: Option<Owner>, trust: bool, trust': bool,
                       a: Option<User>, b: Option<User>)
    requires AtMost(a, b) && TrustGrows(owner, trust, trust')
    requires RolesPass(cfg, roles, owner, trust, a)
    ensures RolesPass(cfg, roles, owner, trust', b)
  {
    if a.Some? {
      assert HasRole(a.value, roles) ==> HasRole(b.value, roles) by {
        if HasRole(a.value, roles) && roles != [] {
          var r :| r in roles && r in a.value.roles;
          assert r in b.value.roles;
        }
      }
      assert CheckFieldRoleAccess(cfg.scope, roles, a.value) ==> CheckFieldRoleAccess(cfg.scope, roles, b.value);
    }
  }

  /** More roles and more trust from the parent never take a permission away. */
  lemma ValidateGrows(cfg: Config, restricted: seq<Restriction>, owner: Option<Owner>, trust: bool, trust': bool,
                      a: Option<User>, b: Option<User>)
    requires AtMost(a, b) && TrustGrows(owner, trust, trust')
    requires Validate(cfg, restricted, owner, trust, a)
    ensures Validate(cfg, restricted, owner, trust', b)
  {
    var roles := CollectRoles(cfg, restricted);
    if RolesPass(cfg, roles, owner, trust, a) {
      RolesPassGrows(cfg, roles, owner, trust, trust', a, b);
    }
    assert IsMember(cfg, restricted, a) ==> IsMember(cfg, restricted, b);
  }
}
