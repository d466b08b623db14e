/** What a user gets on output, rule by rule: for each kind of restriction, when a property is kept. */
module RestrictedResult {
  import opened Outcomes
  import opened RestrictedAccess
  import opened RestrictedTree
  import opened RestrictedRules
  import opened RestrictedOutput

  // ---- which keys remain ----

  ghost predicate HasKey(fields: seq<Field>, key: string) {
    exists i :: 0 <= i < |fields| && fields[i].key == key
  }

  ghost predicate UniqueKeys(fields: seq<Field>) {
    forall i, j :: 0 <= i < j < |fields| ==> fields[i].key != fields[j].key
  }

  /** The output check of an object that is not noted as checked already and not refused as a whole. */
  ghost predicate IsShown(e: Env, t: Tree, trust: bool, declared: Option<string>) {
    e.cfg.processType != Some(Input) && !e.cfg.throwError && t.Object? && UniqueKeys(t.fields) &&
    !(e.cfg.noteCheckedObjects && t.marked) && Readable(e, t, declared) &&
    MayHaveObject(e, ClassOf(t.proto, declared), Some(OwnerOf(t.fields)), trust)
  }

  /** Is property `i` in the result? */
  ghost predicate Keeps(e: Env, t: Tree, trust: bool, declared: Option<string>, i: nat)
    requires t.Object? && i < |t.fields|
  {
    var r := Check(e, t, trust, declared);
    r.Ok? && r.value.Object? && HasKey(r.value.fields, t.fields[i].key)
  }

  lemma {:induction false} AdmittedKeys(e: Env, cls: Option<string>, owner: Option<Owner>, fields: seq<Field>, i: nat,
                                        trust: bool, k: nat)
    requires i <= |fields| && k < |fields| && UniqueKeys(fields)
    requires AdmittedFrom(e, cls, owner, fields, i, trust).Ok?
    ensures HasKey(AdmittedFrom(e, cls, owner, fields, i, trust).value, fields[k].key) <==>
      i <= k && Admitted(e, cls, owner, fields, k, trust)
    decreases |fields| - i
  {
    if i < |fields| {
      AdmittedKeys(e, cls, owner, fields, i + 1, trust, k);
      if Admitted(e, cls, owner, fields, i, trust) {
        var f := Kept(e, cls, owner, fields[i], trust).value;
        HasKeyCons(f, AdmittedFrom(e, cls, owner, fields, i + 1, trust).value, fields[k].key);
      }
    }
  }

  lemma HasKeyCons(f: Field, rest: seq<Field>, key: string)
    ensures HasKey([f] + rest, key) <==> f.key == key || HasKey(rest, key)
  {
    var all := [f] + rest;
    if f.key == key {
      assert all[0].key == key;
    }
    if i :| 0 <= i < |rest| && rest[i].key == key {
      assert all[i + 1].key == key;
    }
  }

  /** A property with a value is kept exactly if the rules let the user have it. */
  lemma KeptByTheRules(e: Env, t: Tree, trust: bool, declared: Option<string>, i: nat)
    requires IsShown(e, t, trust, declared) && i < |t.fields| && !Untouched(e.cfg, t.fields[i].value)
    ensures
      var cls, owner := ClassOf(t.proto, declared), Some(OwnerOf(t.fields));
      Keeps(e, t, trust, declared, i) <==>
        MayHave(e, cls, t.fields[i].key, owner, TrustBefore(e, cls, owner, t.fields, i, trust))
  {
    var cls, owner := ClassOf(t.proto, declared), Some(OwnerOf(t.fields));
    KeepsExactly(e, t, trust, declared);
    AdmittedKeys(e, cls, owner, t.fields, 0, trust, i);
  }

  // ---- whose an object is ----

  lemma {:induction false} FindAt(fields: seq<Field>, j: nat)
    requires UniqueKeys(fields) && j < |fields|
    ensures Find(fields, fields[j].key) == Some(fields[j].value)
  {
    if j > 0 {
      FindAt(fields[1..], j - 1);
    }
  }

  lemma {:induction false} FindNone(fields: seq<Field>, key: string)
    requires !HasKey(fields, key)
    ensures Find(fields, key) == None
  {
    if fields != [] {
      assert fields[0].key != key;
      forall i | 0 <= i < |fields[1..]| ensures fields[1..][i].key != key {
        assert fields[i + 1].key != key;
      }
      FindNone(fields[1..], key);
    }
  }

  /** The id is the one under `id`. */
  lemma IdIsRead(fields: seq<Field>, j: nat, own: string)
    requires UniqueKeys(fields) && j < |fields| && fields[j] == Field("id", Value(Text(own))) && own != ""
    ensures OwnerOf(fields).id == Some(own)
  {
    FindAt(fields, j);
  }

  /** Without it, the one under `_id`. */
  lemma OtherIdIsRead(fields: seq<Field>, j: nat, own: string)
    requires UniqueKeys(fields) && j < |fields| && fields[j] == Field("_id", Value(Text(own))) && own != ""
    requires !HasKey(fields, "id")
    ensures OwnerOf(fields).id == Some(own)
  {
    FindAt(fields, j);
    FindNone(fields, "id");
  }

  /** The creator is the one named under `createdBy`, or the object there by its id. */
  lemma CreatorIsRead(fields: seq<Field>, j: nat, who: string)
    requires UniqueKeys(fields) && j < |fields| && fields[j].key == "createdBy" && who != ""
    requires
      var v := fields[j].value;
      v == Value(Text(who)) ||
      (v.Object? && UniqueKeys(v.fields) && Field("id", Value(Text(who))) in v.fields)
    ensures OwnerOf(fields).hasCreatedBy && OwnerOf(fields).createdBy == Some(who)
  {
    FindAt(fields, j);
    var v := fields[j].value;
    if v.Object? {
      var k :| 0 <= k < |v.fields| && v.fields[k] == Field("id", Value(Text(who)));
      IdIsRead(v.fields, k, who);
    }
  }

  lemma NoCreatorIsRead(fields: seq<Field>)
    requires !HasKey(fields, "createdBy")
    ensures !OwnerOf(fields).hasCreatedBy
  {
    FindNone(fields, "createdBy");
  }

  // ---- one restriction ----

  /** The restrictions of the property, with those of the class where they count, are this one. */
  ghost predicate OnlyRestriction(e: Env, cls: Option<string>, key: string, item: Restriction) {
    (if e.cfg.mergeRoles then OfClass(e.schema, cls) else []) + OfProperty(e.schema, cls, key) == [item]
  }

  /** What ids are compared with. */
  ghost function UserText(user: User): string {
    if user.id == "" then "[object Object]" else user.id
  }

  /** `S_NO_ONE`: kept for nobody. */
  lemma NoOneIsRefused(e: Env, t: Tree, trust: bool, declared: Option<string>, i: nat)
    requires IsShown(e, t, trust, declared) && i < |t.fields| && !Untouched(e.cfg, t.fields[i].value)
    requires OnlyRestriction(e, ClassOf(t.proto, declared), t.fields[i].key, Role("s_no_one"))
    ensures !Keeps(e, t, trust, declared, i)
  {
    var cls, owner := ClassOf(t.proto, declared), Some(OwnerOf(t.fields));
    KeptByTheRules(e, t, trust, declared, i);
    OneRole(e.cfg, "s_no_one", owner, TrustBefore(e, cls, owner, t.fields, i, trust), e.user);
  }

  /** `S_EVERYONE`: kept for everybody, logged in or not. */
  lemma EveryoneKeeps(e: Env, t: Tree, trust: bool, declared: Option<string>, i: nat)
    requires IsShown(e, t, trust, declared) && i < |t.fields| && !Untouched(e.cfg, t.fields[i].value)
    requires OnlyRestriction(e, ClassOf(t.proto, declared), t.fields[i].key, Role("s_everyone"))
    ensures Keeps(e, t, trust, declared, i)
  {
    var cls, owner := ClassOf(t.proto, declared), Some(OwnerOf(t.fields));
    KeptByTheRules(e, t, trust, declared, i);
    OneRole(e.cfg, "s_everyone", owner, TrustBefore(e, cls, owner, t.fields, i, trust), e.user);
  }

  /** `S_USER`: kept for users with an id. */
  lemma UserKeepsExactly(e: Env, t: Tree, trust: bool, declared: Option<string>, i: nat)
    requires IsShown(e, t, trust, declared) && i < |t.fields| && !Untouched(e.cfg, t.fields[i].value)
    requires OnlyRestriction(e, ClassOf(t.proto, declared), t.fields[i].key, Role("s_user"))
    ensures Keeps(e, t, trust, declared, i) <==>
      e.user.Some? && (e.user.value.id != "" || "s_user" in e.user.value.roles)
  {
    var cls, owner := ClassOf(t.proto, declared), Some(OwnerOf(t.fields));
    KeptByTheRules(e, t, trust, declared, i);
    OneRole(e.cfg, "s_user", owner, TrustBefore(e, cls, owner, t.fields, i, trust), e.user);
  }

  /** `S_VERIFIED`: kept for verified users. */
  lemma VerifiedKeepsExactly(e: Env, t: Tree, trust: bool, declared: Option<string>, i: nat)
    requires IsShown(e, t, trust, declared) && i < |t.fields| && !Untouched(e.cfg, t.fields[i].value)
    requires OnlyRestriction(e, ClassOf(t.proto, declared), t.fields[i].key, Role("s_verified"))
    ensures Keeps(e, t, trust, declared, i) <==>
      e.user.Some? && (e.user.value.verified || "s_verified" in e.user.value.roles)
  {
    var cls, owner := ClassOf(t.proto, declared), Some(OwnerOf(t.fields));
    KeptByTheRules(e, t, trust, declared, i);
    OneRole(e.cfg, "s_verified", owner, TrustBefore(e, cls, owner, t.fields, i, trust), e.user);
  }

  /** `S_SELF`: kept exactly if the object's id is the user's. */
  lemma SelfKeepsExactly(e: Env, t: Tree, trust: bool, declared: Option<string>, i: nat, j: nat, own: string)
    requires IsShown(e, t, trust, declared) && i < |t.fields| && !Untouched(e.cfg, t.fields[i].value)
    requires OnlyRestriction(e, ClassOf(t.proto, declared), t.fields[i].key, Role("s_self"))
    requires j < |t.fields| && t.fields[j] == Field("id", Value(Text(own))) && own != ""
    ensures Keeps(e, t, trust, declared, i) <==>
      e.user.Some? && (own == UserText(e.user.value) || "s_self" in e.user.value.roles)
  {
    var cls, owner := ClassOf(t.proto, declared), Some(OwnerOf(t.fields));
    KeptByTheRules(e, t, trust, declared, i);
    IdIsRead(t.fields, j, own);
    OneRole(e.cfg, "s_self", owner, TrustBefore(e, cls, owner, t.fields, i, trust), e.user);
  }

  /** `S_CREATOR`: kept exactly if the object names the user as its creator. */
  lemma CreatorKeepsExactly(e: Env, t: Tree, trust: bool, declared: Option<string>, i: nat, j: nat, who: string)
    requires IsShown(e, t, trust, declared) && i < |t.fields| && !Untouched(e.cfg, t.fields[i].value)
    requires OnlyRestriction(e, ClassOf(t.proto, declared), t.fields[i].key, Role("s_creator"))
    requires j < |t.fields| && t.fields[j] == Field("createdBy", Value(Text(who))) && who != ""
    ensures Keeps(e, t, trust, declared, i) <==>
      e.user.Some? && (who == UserText(e.user.value) || "s_creator" in e.user.value.roles)
  {
    var cls, owner := ClassOf(t.proto, declared), Some(OwnerOf(t.fields));
    KeptByTheRules(e, t, trust, declared, i);
    CreatorIsRead(t.fields, j, who);
    OneRole(e.cfg, "s_creator", owner, TrustBefore(e, cls, owner, t.fields, i, trust), e.user);
  }

  /** Without `createdBy` the parent's creator counts, where that is allowed. */
  lemma ParentsCreatorKeepsExactly(e: Env, t: Tree, trust: bool, declared: Option<string>, i: nat)
    requires IsShown(e, t, trust, declared) && i < |t.fields| && !Untouched(e.cfg, t.fields[i].value)
    requires OnlyRestriction(e, ClassOf(t.proto, declared), t.fields[i].key, Role("s_creator"))
    requires !HasKey(t.fields, "createdBy") && !IsUsers(OwnerOf(t.fields).id, e.user)
    ensures Keeps(e, t, trust, declared, i) <==>
      (e.cfg.allowCreatorOfParent && trust) || (e.user.Some? && "s_creator" in e.user.value.roles)
  {
    var cls, owner := ClassOf(t.proto, declared), Some(OwnerOf(t.fields));
    KeptByTheRules(e, t, trust, declared, i);
    NoCreatorIsRead(t.fields);
    OneRole(e.cfg, "s_creator", owner, TrustBefore(e, cls, owner, t.fields, i, trust), e.user);
  }

  /** A role of the project: kept for its holders, and by level where it has one. */
  lemma RoleKeepsExactly(e: Env, t: Tree, trust: bool, declared: Option<string>, i: nat, role: string)
    requires IsShown(e, t, trust, declared) && i < |t.fields| && !Untouched(e.cfg, t.fields[i].value)
    requires OnlyRestriction(e, ClassOf(t.proto, declared), t.fields[i].key, Role(role))
    requires role != "" && role[0] != 's' && role != "admin" && role !in e.cfg.scope.globalRoles
    requires e.cfg.scope.tenantRole.None?
    ensures Keeps(e, t, trust, declared, i) <==>
      e.user.Some? &&
      (role in e.user.value.roles ||
       (e.user.value.id != "" && role in e.cfg.scope.hierarchy &&
        exists held :: held in e.user.value.roles && held in e.cfg.scope.hierarchy &&
          e.cfg.scope.hierarchy[held] >= e.cfg.scope.hierarchy[role]))
  {
    var cls, owner := ClassOf(t.proto, declared), Some(OwnerOf(t.fields));
    KeptByTheRules(e, t, trust, declared, i);
    OneRole(e.cfg, role, owner, TrustBefore(e, cls, owner, t.fields, i, trust), e.user);
  }

  /** A membership: kept for those whose id the stored object lists under the property. */
  lemma MembersKeepExactly(e: Env, t: Tree, trust: bool, declared: Option<string>, i: nat, list: string)
    requires IsShown(e, t, trust, declared) && i < |t.fields| && !Untouched(e.cfg, t.fields[i].value)
    requires OnlyRestriction(e, ClassOf(t.proto, declared), t.fields[i].key, Spec([], [list], None))
    ensures Keeps(e, t, trust, declared, i) <==>
      e.user.Some? && e.cfg.dbObject.Some? && list in e.cfg.dbObject.value.members &&
      UserText(e.user.value) in e.cfg.dbObject.value.members[list]
  {
    var item := Spec([], [list], None);
    assert item in [item] && forall x :: x in [item] ==> x == item;
    assert list in item.memberOf && forall p :: p in item.memberOf ==> p == list;
    KeptByTheRules(e, t, trust, declared, i);
  }

  /** A restriction for the other kind of processing does not count. */
  lemma OtherProcessingDoesNotCount(e: Env, t: Tree, trust: bool, declared: Option<string>, i: nat,
                                    roles: seq<string>, lists: seq<string>)
    requires IsShown(e, t, trust, declared) && i < |t.fields| && !Untouched(e.cfg, t.fields[i].value)
    requires e.cfg.processType == Some(Output)
    requires OnlyRestriction(e, ClassOf(t.proto, declared), t.fields[i].key, Spec(roles, lists, Some(Input)))
    ensures Keeps(e, t, trust, declared, i)
  {
    var item := Spec(roles, lists, Some(Input));
    assert forall x :: x in [item] ==> x == item;
    KeptByTheRules(e, t, trust, declared, i);
  }

  /** A property without restrictions is kept. */
  lemma UnrestrictedIsKept(e: Env, t: Tree, trust: bool, declared: Option<string>, i: nat)
    requires IsShown(e, t, trust, declared) && i < |t.fields| && !Untouched(e.cfg, t.fields[i].value)
    requires OfProperty(e.schema, ClassOf(t.proto, declared), t.fields[i].key) == []
    requires e.cfg.mergeRoles ==> OfClass(e.schema, ClassOf(t.proto, declared)) == []
    ensures Keeps(e, t, trust, declared, i)
  {
    KeptByTheRules(e, t, trust, declared, i);
  }

  /** With `mergeRoles` the class opens the property to its roles as well, and restricts what has none. */
  lemma MergedKeepsExactly(e: Env, t: Tree, trust: bool, declared: Option<string>, i: nat, ofClass: string,
                           own: seq<Restriction>)
    requires IsShown(e, t, trust, declared) && i < |t.fields| && !Untouched(e.cfg, t.fields[i].value)
    requires e.cfg.mergeRoles && OfClass(e.schema, ClassOf(t.proto, declared)) == [Role(ofClass)]
    requires own == OfProperty(e.schema, ClassOf(t.proto, declared), t.fields[i].key)
    requires own == [] || exists r :: own == [Role(r)]
    ensures
      var cls, owner := ClassOf(t.proto, declared), Some(OwnerOf(t.fields));
      var now := TrustBefore(e, cls, owner, t.fields, i, trust);
      Keeps(e, t, trust, declared, i) <==>
        ofClass != "s_no_one" && (own != [] ==> own[0].role != "s_no_one") &&
        (Grants(e.cfg, ofClass, owner, now, e.user) ||
         (own != [] && Grants(e.cfg, own[0].role, owner, now, e.user)))
  {
    var all := [Role(ofClass)] + own;
    KeptByTheRules(e, t, trust, declared, i);
    assert all[0] in all && Names(e.cfg, all[0], ofClass);
    if own != [] {
      assert all[1] == own[0] && own[0] in all && Names(e.cfg, own[0], own[0].role);
    }
    assert forall item :: item in all ==> item == all[0] || (own != [] && item == own[0]);
  }

  // ---- input ----

  /** On input the stored object decides whose the data are. */
  ghost function StoredOwner(cfg: Config): Option<Owner> {
    if cfg.dbObject.Some? then Some(cfg.dbObject.value.owner) else None
  }

  lemma {:induction false} InputIsFixed(e: Env, cls: Option<string>, done: seq<Field>, rest: seq<Field>, trust: bool)
    requires e.cfg.processType == Some(Input)
    ensures CheckFields(e, cls, done, rest, trust) == Fixed(e, cls, StoredOwner(e.cfg), rest, trust)
    decreases |rest|
  {
    if rest != [] {
      var f, owner := rest[0], StoredOwner(e.cfg);
      var next := NextTrust(owner, trust, e.user);
      var checked := Check(e, f.value, next, NestedType(e.schema, cls, f.key));
      InputIsFixed(e, cls, done + [f], rest[1..], trust);
      InputIsFixed(e, cls, done, rest[1..], trust);
      if checked.Ok? {
        InputIsFixed(e, cls, done + [Field(f.key, checked.value)], rest[1..], next);
      }
    }
  }

  /** Without `throwError`, of an input object exactly the admitted properties remain; a refused one becomes null. */
  lemma InputKeepsExactly(e: Env, t: Tree, trust: bool, declared: Option<string>)
    requires e.cfg.processType == Some(Input) && !e.cfg.throwError && t.Object?
    requires !(e.cfg.noteCheckedObjects && t.marked)
    ensures
      var cls, owner := ClassOf(t.proto, declared), StoredOwner(e.cfg);
      if MayHaveObject(e, cls, owner, trust) then
        var kept := AdmittedFrom(e, cls, owner, t.fields, 0, trust);
        kept.Ok? && Check(e, t, trust, declared) == Ok(t.(fields := kept.value))
      else
        Check(e, t, trust, declared) == Ok(Value(Null))
  {
    var cls, owner := ClassOf(t.proto, declared), StoredOwner(e.cfg);
    assert t.fields[0..] == t.fields;
    InputIsFixed(e, cls, [], t.fields, trust);
    FixedKeepsAdmitted(e, cls, owner, t.fields, 0, trust);
    MayHaveObjectExactly(e, cls, owner, trust);
    NeverThrows(e, t, trust, declared);
  }

  /** Whatever the input says, a property for `S_SELF` is kept exactly if the stored object is the user. */
  lemma InputSelfKeepsExactly(e: Env, t: Tree, trust: bool, declared: Option<string>, i: nat, own: string)
    requires e.cfg.processType == Some(Input) && !e.cfg.throwError && t.Object? && UniqueKeys(t.fields)
    requires !(e.cfg.noteCheckedObjects && t.marked)
    requires MayHaveObject(e, ClassOf(t.proto, declared), StoredOwner(e.cfg), trust)
    requires i < |t.fields| && !Untouched(e.cfg, t.fields[i].value)
    requires OnlyRestriction(e, ClassOf(t.proto, declared), t.fields[i].key, Role("s_self"))
    requires e.cfg.dbObject.Some? && e.cfg.dbObject.value.owner.id == Some(own) && own != ""
    ensures Keeps(e, t, trust, declared, i) <==>
      e.user.Some? && (own == UserText(e.user.value) || "s_self" in e.user.value.roles)
  {
    var cls, owner := ClassOf(t.proto, declared), StoredOwner(e.cfg);
    InputKeepsExactly(e, t, trust, declared);
    AdmittedKeys(e, cls, owner, t.fields, 0, trust, i);
    OneRole(e.cfg, "s_self", owner, TrustBefore(e, cls, owner, t.fields, i, trust), e.user);
  }

  // ---- input that is refused with an exception ----

  /** Everything in the data is the user's to give. */
  ghost predicate MayGive(e: Env, t: Tree, trust: bool, declared: Option<string>)
    decreases t
  {
    match t
    case Value(_) => true
    case List(items) => forall i :: 0 <= i < |items| ==> MayGive(e, items[i], trust, declared)
    case Object(marked, proto, fields) =>
      (e.cfg.noteCheckedObjects && marked) ||
      (MayHaveObject(e, ClassOf(proto, declared), StoredOwner(e.cfg), trust) &&
       MayGiveFields(e, ClassOf(proto, declared), fields, trust))
  }

  ghost predicate MayGiveFields(e: Env, cls: Option<string>, fields: seq<Field>, trust: bool)
    decreases fields
  {
    if fields == [] then true
    else if Untouched(e.cfg, fields[0].value) then MayGiveFields(e, cls, fields[1..], trust)
    else
      var owner := StoredOwner(e.cfg);
      var next := Vouches(owner, trust, e.user);
      MayHave(e, cls, fields[0].key, owner, trust) &&
      MayGive(e, fields[0].value, next, DeclaredFor(e.schema, cls, fields[0].key)) &&
      MayGiveFields(e, cls, fields[1..], next)
  }

  /** With `throwError` an input passes, unchanged, exactly if everything in it is the user's to give. */
  lemma {:induction false} InputPassesExactly(e: Env, t: Tree, trust: bool, declared: Option<string>)
    requires e.cfg.processType == Some(Input) && e.cfg.throwError
    ensures Check(e, t, trust, declared) == if MayGive(e, t, trust, declared) then Ok(t) else Err
    decreases t, 1
  {
    match t
    case Value(_) =>
    case List(items) =>
      if items != [] {
        InputItemsPass(e, items, trust, declared);
        InputPassesExactly(e, items[0], trust, declared);
      }
    case Object(marked, proto, fields) =>
      var cls := ClassOf(proto, declared);
      MayHaveObjectExactly(e, cls, StoredOwner(e.cfg), trust);
      InputFieldsPass(e, cls, fields, trust);
      InputIsFixed(e, cls, [], fields, trust);
  }

  lemma {:induction false} InputItemsPass(e: Env, items: seq<Tree>, trust: bool, declared: Option<string>)
    requires e.cfg.processType == Some(Input) && e.cfg.throwError
    ensures CheckItems(e, items, trust, declared) ==
      if forall i :: 0 <= i < |items| ==> MayGive(e, items[i], trust, declared) then Ok(items) else Err
    decreases items
  {
    if items != [] {
      InputPassesExactly(e, items[0], trust, declared);
      InputItemsPass(e, items[1..], trust, declared);
      assert items == [items[0]] + items[1..];
      forall i | 0 <= i < |items| ensures items[i] == if i == 0 then items[0] else items[1..][i - 1] {
      }
    }
  }

  lemma {:induction false} InputFieldsPass(e: Env, cls: Option<string>, fields: seq<Field>, trust: bool)
    requires e.cfg.processType == Some(Input) && e.cfg.throwError
    ensures Fixed(e, cls, StoredOwner(e.cfg), fields, trust) ==
      if MayGiveFields(e, cls, fields, trust) then Ok(fields) else Err
    decreases fields
  {
    if fields != [] {
      var f, owner := fields[0], StoredOwner(e.cfg);
      var next := Vouches(owner, trust, e.user);
      assert fields == [f] + fields[1..] && f == Field(f.key, f.value);
      MayHaveExactly(e, cls, f.key, owner, trust);
      InputFieldsPass(e, cls, fields[1..], trust);
      InputFieldsPass(e, cls, fields[1..], next);
      InputPassesExactly(e, f.value, next, DeclaredFor(e.schema, cls, f.key));
    }
  }

  // ---- lists on output ----

  /**
   * The first item settles a list: objects are checked as a whole, it is an object that is refused,
   * and the restrictions of its class do not depend on whose the object is.
   */
  ghost predicate Settles(e: Env, sample: Tree, trust: bool, declared: Option<string>) {
    sample.Object? && !(e.cfg.noteCheckedObjects && sample.marked) &&
    !MayHaveObject(e, ClassOf(sample.proto, declared), Some(OwnerOf(sample.fields)), trust) &&
    var restrictions := if sample.proto.NoProto? then [] else OfClass(e.schema, ClassOf(sample.proto, declared));
    restrictions != [] &&
    forall item :: item in restrictions ==>
      match item
      case Role(r) => r != "s_creator" && r != "s_self"
      case RoleList(rs) => "s_creator" !in rs && "s_self" !in rs
      case Spec(rs, _, _) => "s_creator" !in rs && "s_self" !in rs
  }

  /** On output a list becomes the list of its checked items, unless the first item settles it. */
  lemma ListExactly(e: Env, items: seq<Tree>, trust: bool, declared: Option<string>)
    requires IsOutput(e.cfg) && items != []
    ensures Check(e, List(items), trust, declared).Ok? && CheckItems(e, items, trust, declared).Ok?
    ensures
      var all := if Settles(e, items[0], trust, declared) then Undefineds(|items|)
                 else CheckItems(e, items, trust, declared).value;
      Check(e, List(items), trust, declared).value ==
        List(if e.cfg.removeUndefinedFromResultArray then Defined(all) else all)
  {
    NeverThrows(e, items[0], trust, declared);
    NeverThrows(e, List(items), trust, declared);
    ItemsNeverThrow(e, items, trust, declared);
    ListForm(e, items, trust, declared);
    NoneDefined(|items|);
    SettlesExactly(e, items[0], trust, declared);
  }

  lemma {:induction false} NoneDefined(n: nat)
    ensures Defined(Undefineds(n)) == []
  {
    if n > 0 {
      NoneDefined(n - 1);
      assert Undefineds(n)[1..] == Undefineds(n - 1);
    }
  }

  lemma SettlesExactly(e: Env, sample: Tree, trust: bool, declared: Option<string>)
    requires IsOutput(e.cfg) && Check(e, sample, trust, declared).Ok?
    ensures Settles(e, sample, trust, declared) <==>
      UsesShortcut(e, sample, declared) && IsNothing(Check(e, sample, trust, declared).value)
  {
    if sample.Object? {
      MayHaveObjectExactly(e, ClassOf(sample.proto, declared), Some(OwnerOf(sample.fields)), trust);
      var restrictions := ClassRestrictions(e.schema, SampleOwner(sample.proto, declared));
      assert forall i :: 0 <= i < |restrictions| ==> restrictions[i] in restrictions;
    }
  }
}
