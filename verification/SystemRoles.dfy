/**
 * The rule that system roles (`s_*`) are never stored: the predicates behind it, the hooks that
 * enforce it, and what they achieve over whole runs.
 */
module SystemRoles {
  import opened Outcomes
  import opened RoleUpdates
  import opened Strings

  // ---- what looks like a system role ----

  /** The exact rule of the run-time checks. */
  predicate IsSystemRole(role: string) {
    |role| >= 2 && role[0] == 's' && role[1] == '_'
  }

  /**
   * The stricter rule for values that are to be stored. (Only letters A to Z have a lower case that
   * begins with `s` or `_`.)
   */
  predicate LooksLikeSystemRole(role: string) {
    IsSystemRole(Fold(Trim(role)))
  }

  function Normalized(role: string): string {
    Fold(Trim(role))
  }

  /** The validator pattern: not any amount of white space followed by the prefix in any case. */
  ghost predicate PatternAccepts(role: string) {
    !exists k :: 0 <= k <= |role| && PrefixAt(role, k)
  }

  ghost predicate PrefixAt(role: string, k: nat) {
    k + 2 <= |role| && (forall i :: 0 <= i < k ==> IsSpace(role[i])) &&
    (role[k] == 's' || role[k] == 'S') && role[k + 1] == '_'
  }

  lemma {:induction false} TrimEndKeepsPrefix(s: string)
    requires s == "" || !IsSpace(s[0])
    ensures IsSystemRole(Fold(TrimEnd(s))) == IsSystemRole(Fold(s))
  {
    if s != "" && IsSpace(s[|s| - 1]) {
      TrimEndKeepsPrefix(s[..|s| - 1]);
      assert |s| >= 2;
      if |s| == 2 {
        assert !IsSystemRole(Fold(s));
      }
    }
  }

  lemma {:induction false} TrimStartFindsPrefix(s: string)
    ensures IsSystemRole(Fold(TrimStart(s))) <==> exists k: nat :: PrefixAt(s, k)
    ensures TrimStart(s) == "" || !IsSpace(TrimStart(s)[0])
  {
    if s != "" && IsSpace(s[0]) {
      TrimStartFindsPrefix(s[1..]);
      if k: nat :| PrefixAt(s[1..], k) {
        assert PrefixAt(s, k + 1);
      }
      if k: nat :| PrefixAt(s, k) {
        assert k > 0;
        assert PrefixAt(s[1..], k - 1);
      }
    } else if IsSystemRole(Fold(s)) {
      assert Fold(s)[1] == FoldChar(s[1]);
      assert PrefixAt(s, 0);
    } else if k: nat :| PrefixAt(s, k) {
      assert false;
    }
  }

  /** The validator pattern refuses exactly what the storage rule refuses. */
  lemma PatternMirrorsRule(role: string)
    ensures PatternAccepts(role) == !LooksLikeSystemRole(role)
  {
    TrimStartFindsPrefix(role);
    TrimEndKeepsPrefix(TrimStart(role));
  }

  /** Trimmed text in lower case is not trimmed any further. */
  lemma TrimmedStays(s: string)
    requires s == "" || (!IsSpace(s[0]) && !IsSpace(s[|s| - 1]))
    ensures Trim(Fold(s)) == Fold(s) && Fold(Fold(s)) == Fold(s)
  {
    assert s != "" ==> IsSpace(Fold(s)[0]) == IsSpace(s[0]) && IsSpace(Fold(s)[|s| - 1]) == IsSpace(s[|s| - 1]);
  }

  lemma {:induction false} TrimmedEnds(s: string)
    requires s == "" || !IsSpace(s[0])
    ensures var r := TrimEnd(s); r == "" || (!IsSpace(r[0]) && !IsSpace(r[|r| - 1]))
  {
    if s != "" && IsSpace(s[|s| - 1]) {
      TrimmedEnds(s[..|s| - 1]);
    }
  }

  /**
   * The storage rule covers the run-time rule, and spellings that are the same after trimming and
   * lower-casing are refused alike.
   */
  lemma StorageRuleIsStricter(role: string)
    ensures IsSystemRole(role) ==> LooksLikeSystemRole(role)
    ensures LooksLikeSystemRole(Normalized(role)) == LooksLikeSystemRole(role)
  {
    PatternMirrorsRule(role);
    TrimStartFindsPrefix(role);
    TrimmedEnds(TrimStart(role));
    TrimmedStays(Trim(role));
    if IsSystemRole(role) {
      assert PrefixAt(role, 0);
    }
  }

  // ---- the checks ----

  /** `assertNoSystemRoles`: every system role among `roles` was already stored. */
  predicate NoneIntroduced(roles: Roles, alreadyStored: Roles) {
    forall r :: r in roles && LooksLikeSystemRole(r) ==> r in alreadyStored
  }

  /** `assertUpdateHasNoSystemRoles`. */
  predicate UpdateAllowed(u: Update, alreadyStored: Roles) {
    NoneIntroduced(RolesOf(u.flat), alreadyStored) && NoneIntroduced(RolesOf(u.setTo), alreadyStored) &&
    NoneIntroduced(RolesOf(u.onInsert), alreadyStored) &&
    NoneIntroduced(Values(u.push), alreadyStored) && NoneIntroduced(Values(u.addToSet), alreadyStored)
  }

  function CollectRoleValues(u: Update): Roles {
    RolesOf(u.flat) + RolesOf(u.setTo) + RolesOf(u.onInsert) + Values(u.push) + Values(u.addToSet)
  }

  /** Does the payload carry a system role, so that the stored roles have to be read? */
  predicate Suspicious(u: Update) {
    exists r :: r in CollectRoleValues(u) && LooksLikeSystemRole(r)
  }

  /**
   * An update passes exactly when every system role under the operators it looks at was stored
   * before; where the read is skipped, it would pass against any stored roles.
   */
  lemma UpdateCheckIsExact(u: Update, alreadyStored: Roles)
    ensures UpdateAllowed(u, alreadyStored) <==>
      forall r :: WritesOpenly(u, r) && LooksLikeSystemRole(r) ==> r in alreadyStored
    ensures !Suspicious(u) <==> UpdateAllowed(u, [])
  {
  }

  predicate BulkOpAllowed(op: BulkOp) {
    match op
    case InsertOne(_, document) => NoneIntroduced(RolesOf(document), [])
    case UpdateOne(_, _, u) => UpdateAllowed(u, [])
    case UpdateMany(_, _, u) => UpdateAllowed(u, [])
    case ReplaceOne(_, _, replacement) => NoneIntroduced(RolesOf(replacement), [])
    case DeleteMany(_) => true
  }

  /** The roles an operation puts into the database by the operators the hooks look at. */
  ghost predicate Carries(op: BulkOp, r: string) {
    match op
    case InsertOne(_, document) => document.Some? && r in document.value
    case UpdateOne(_, _, u) => WritesOpenly(u, r)
    case UpdateMany(_, _, u) => WritesOpenly(u, r)
    case ReplaceOne(_, _, replacement) => replacement.Some? && r in replacement.value
    case DeleteMany(_) => false
  }

  /** An operation of a bulk write passes exactly if it carries no role that the validator pattern refuses. */
  lemma BulkCheckIsExact(op: BulkOp)
    ensures BulkOpAllowed(op) <==> forall r :: Carries(op, r) ==> PatternAccepts(r)
  {
    forall r {
      PatternMirrorsRule(r);
    }
  }

  // ---- the hooks ----

  /** A hydrated or new document; `originalRoles` is captured on hydration and never refreshed. */
  datatype Doc = Doc(id: nat, roles: Roles, modified: bool, isNew: bool, originalRoles: Option<Roles>)

  predicate SaveAllowed(d: Doc) {
    d.modified ==> NoneIntroduced(d.roles, if d.isNew then [] else RolesOf(d.originalRoles))
  }

  /** A save passes exactly if the roles are untouched, or those the pattern refuses were loaded with the document. */
  lemma SaveCheckIsExact(d: Doc)
    ensures SaveAllowed(d) <==>
      !d.modified ||
      forall r :: r in d.roles && !PatternAccepts(r) ==>
        !d.isNew && d.originalRoles.Some? && r in d.originalRoles.value
  {
    forall r {
      PatternMirrorsRule(r);
    }
  }

  method AssertNoSystemRoles(roles: Roles, alreadyStored: Roles) returns (ok: bool)
    ensures ok == NoneIntroduced(roles, alreadyStored)
  {
    var introduced: Roles := [];
    for i := 0 to |roles|
      invariant introduced == [] <==> NoneIntroduced(roles[..i], alreadyStored)
    {
      assert roles[..i + 1] == roles[..i] + [roles[i]];
      if LooksLikeSystemRole(roles[i]) && roles[i] !in alreadyStored {
        introduced := introduced + [roles[i]];
      }
    }
    assert roles[..|roles|] == roles;
    ok := introduced == [];
  }

  class Document {
    var roles: Roles
    var modified: bool
    var isNew: bool
    var originalRoles: Option<Roles>

    function Contents(id: nat): Doc
      reads this
    {
      Doc(id, roles, modified, isNew, originalRoles)
    }

    /** Hydration from the database, with the hook that captures the stored roles. */
    method Hydrate(stored: Roles)
      modifies this
      ensures forall id :: Contents(id) == Doc(id, stored, false, false, Some(stored))
    {
      roles, modified, isNew := stored, false, false;
      PostInit();
    }

    method PostInit()
      modifies this`originalRoles
      ensures originalRoles == Some(roles)
    {
      originalRoles := Some(roles);
    }

    method PreSave(id: nat) returns (ok: bool)
      ensures ok == SaveAllowed(Contents(id))
    {
      if !modified {
        return true;
      }
      ok := AssertNoSystemRoles(roles, if isNew then [] else RolesOf(originalRoles));
    }
  }

  method PreInsertMany(docs: seq<Roles>) returns (ok: bool)
    ensures ok <==> forall i :: 0 <= i < |docs| ==> NoneIntroduced(docs[i], [])
  {
    for i := 0 to |docs|
      invariant forall k :: 0 <= k < i ==> NoneIntroduced(docs[k], [])
    {
      var fine := AssertNoSystemRoles(docs[i], []);
      if !fine {
        return false;
      }
    }
    ok := true;
  }

  /** Every operation of a bulk write is checked before the first one is carried out. */
  method PreBulkWrite(ops: seq<BulkOp>) returns (ok: bool)
    ensures ok <==> forall i :: 0 <= i < |ops| ==> BulkOpAllowed(ops[i])
  {
    for i := 0 to |ops|
      invariant forall k :: 0 <= k < i ==> BulkOpAllowed(ops[k])
    {
      if !BulkOpAllowed(ops[i]) {
        return false;
      }
    }
    ok := true;
  }
}
