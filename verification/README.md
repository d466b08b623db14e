# Verified models of the nest-server core

This project models the parts of the framework that rewrite queries, walk object graphs and guard
writes, and proves what they promise. Each module follows one component:

- **Queries.** `Mongo` gives filters a meaning: BSON values, dotted paths with arrays, conditions and
  logical operators. `Strings` has white space, case and the order on texts. `Scim*` is the SCIM filter
  compiler, with its printer, precedence and letter case, `FilterQuery`, `FilterIds` and `FindFilter`
  the filter helpers of the API, `GridFs` the content-type rename.
- **Tenants.** `Tenancy` resolves filters, `Pipeline` says what an aggregation computes, `TenantReads`
  and `TenantIsolation` are the aggregate hook, `TenantWrites`, `TenantRuns` and `TenantBulk` the
  write hooks and runs of them.
- **Object graphs.** `JsHeap` makes sharing and cycles explicit. `DeepFreeze`, `RemoveSecrets` and
  `ProcessDeep` are traversals in place. `Restricted*` is `checkRestricted`: `RestrictedRules` has the rules
  written out role by role, `RestrictedAccess` and `RestrictedTree` the code's evaluation and the check on
  trees, `RestrictedOutput` and `RestrictedResult` what remains, `RestrictedHeap`, `RestrictedSteps` and
  `RestrictedCheck` the traversal on objects and the proof that it is the check on trees.
- **Roles.** `RoleUpdates` is the store, `SystemRoles` and `SystemRoleRuns` keep system roles out of
  it, `RoleGuard` keeps users from giving roles away.
- **Input and output.** `UnifiedFields`, `Whitelist`, `WhitelistAgreement` and `WhitelistPaths`
  (undeclared properties), `GraphQlFields` (requested fields), `ContentDisposition` (download names), `Translation`
  (languages).
- **Process.** `Shutdown` is the delayed close with the watchdog, millisecond by millisecond.

Methods and classes follow code that works by changing things; each is tied to a function, and the
lemmas are about that function. Exceptions are `Err` results. Time, the choice of rows by the
database, upsert ids and the decorators' metadata are parameters.

Where the code does not do what one would expect, the project says exactly when it does:
`ComplementExactly`, `FindMeansExactly`, `GermanReadsBackExactly`, `TextReadsBackExactly`,
`RenameAgreesExactly`, `ReadAsStandardExactly`, `EmptyRoleAppearsExactly`, `UpdateAddsExactly`,
`UpdateBringsExactly`, `UpdateKeepsOthersExactly`, `BulkPlantsExactly`, `SaveKeepsOthersExactly`,
`LiteralKeepsSecretExactly`, `ClosesFirstExactly`. The documentation of the role guard says that roles
are stripped from updates; the code leaves `$setOnInsert`, the empty string and operators such as
`$max` alone, and the model follows the code. The SCIM grammar of section 3.4.2.2 of RFC 7644 lets
`and` bind more tightly than `or`; the code and the model do not, and `ScimPrecedence` says what that
makes of a filter.

Run `dafny verify dfyconfig.toml` to check everything.

## Model

| member | source | states |
|---|---|---|
| `Tenancy.FilterAdmitsVisible` | src/core/common/plugins/mongoose-tenant.plugin.ts:399-420 | the resolved filter admits exactly the rows the caller may see, said without the code's own tests, in all five cases of the context; where it throws, nothing is visible |
| `TenantIsolation.HookedIsOriginalOnSlice` | src/core/common/plugins/mongoose-tenant.plugin.ts:212-342 | for every pipeline that passes the hook, with joins nested at any depth and no own `tenantId` restriction in a graph search: the hooked pipeline on the whole database returns exactly what the original returns on the database cut down to the caller's rows |
| `TenantIsolation.HookedIsSlice` | src/core/common/plugins/mongoose-tenant.plugin.ts:212-342 | the same for every pipeline, against the original without its own `tenantId` restrictions |
| `TenantIsolation.HookedDependsOnSliceOnly` | src/core/common/plugins/mongoose-tenant.plugin.ts:212-342 | without the condition on graph searches: two databases with the same slice give the same result |
| `TenantIsolation.OwnRestrictionIsReplaced` | src/core/common/plugins/mongoose-tenant.plugin.ts:294-304 | the condition is needed: a caller's own `tenantId` restriction in `$graphLookup` is overwritten, and the results differ |
| `TenantIsolation.ExemptSourceReadsAll` | src/core/common/plugins/mongoose-tenant.plugin.ts:212-219 | from a source model that is exempt, or has no `tenantId` path and so never gets the hook (lines 72-74), the joins stay unfiltered, so every row of every collection can be read |
| `TenantIsolation.GraphInSlice` | src/core/common/plugins/mongoose-tenant.plugin.ts:294-304 | a graph search restricted at every step finds exactly what a graph search within the slice finds |
| `TenantIsolation.InjectedFilterIsSlice` | src/core/common/plugins/mongoose-tenant.plugin.ts:322-342 | the filter injected for a joined collection selects exactly the slice of that collection |
| `TenantReads.SecureCrossCollectionStages` | src/core/common/plugins/mongoose-tenant.plugin.ts:258-312 | the loop rewrites the stages into the secured stages that the theorems speak about |
| `TenantReads.SecureFacet` | src/core/common/plugins/mongoose-tenant.plugin.ts:306-310 | the same for every branch of `$facet` |
| `TenantReads.SecureNested` | src/core/common/plugins/mongoose-tenant.plugin.ts:268-292 | the same for a nested pipeline, with the filter in front |
| `TenantReads.Aggregation.PreAggregate` | src/core/common/plugins/mongoose-tenant.plugin.ts:212-245 | the hook refuses write stages, and otherwise leaves exactly the hooked pipeline |
| `TenantReads.RefusedExactly` | src/core/common/plugins/mongoose-tenant.plugin.ts:212-245 | an aggregation is refused exactly where the model is kept apart by tenant and the request names no tenant, or the pipeline has `$out` or `$merge` |
| `TenantWrites.Document.PreSave` | src/core/common/plugins/mongoose-tenant.plugin.ts:125-143 | stamps a missing tenant, refuses a foreign one, and changes nothing otherwise |
| `TenantWrites.PreInsertMany` | src/core/common/plugins/mongoose-tenant.plugin.ts:146-159 | stamps or refuses document by document; a refusal leaves the documents before it stamped |
| `TenantWrites.PreBulkWrite` | src/core/common/plugins/mongoose-tenant.plugin.ts:162-188 | every operation becomes its secured form, in place; `SecuredFindsExactly`, `BulkTouchesOnlyAskedFor` and `BulkInsertIsStamped` say what that form does |
| `TenantRuns.StepKeepsOthers` | src/core/common/plugins/mongoose-tenant.plugin.ts:83-143 | one update, replacement, deletion, insertion or save for one tenant leaves every other tenant's set of rows exactly as it was, unless an update brings a foreign tenant by an operator that the hook does not look at |
| `TenantRuns.UpdateKeepsOthersExactly` | src/core/common/plugins/mongoose-tenant.plugin.ts:100-121 | for an update with `$min`, `$max` or `$rename`, which the hook does not look at: it leaves all other tenants' rows alone exactly if that operator brings no foreign tenant to a row that is written |
| `TenantRuns.RunKeepsOthers` | src/core/common/plugins/mongoose-tenant.plugin.ts:83-159 | over every run of such steps by any tenants, in which no update brings a foreign tenant in that way, each step leaves the rows of every tenant but its own exactly as they were, whatever the others do before and after |
| `TenantRuns.IdleTenantKeepsRows` | src/core/common/plugins/mongoose-tenant.plugin.ts:83-159 | hence a tenant that takes no step in a run keeps exactly its rows |
| `TenantRuns.SaveKeepsOthersExactly` | src/core/common/plugins/mongoose-tenant.plugin.ts:125-143 | for a save of a loaded document: exactly if the row with its id is still its own tenant's or nobody's |
| `TenantRuns.ReusedIdReachesAnotherTenant` | src/core/common/plugins/mongoose-tenant.plugin.ts:125-143 | without fresh ids a save of a loaded document writes to another tenant's row |
| `TenantRuns.RefusedExactly` | src/core/common/plugins/mongoose-tenant.plugin.ts:100-121 | an update or replacement in the request of one tenant is refused exactly if it names another tenant for a row |
| `TenantRuns.NewIsStampedExactly` | src/core/common/plugins/mongoose-tenant.plugin.ts:125-143 | a new document is saved exactly if it names no tenant or the caller's, and is stored under the caller's with its data unchanged |
| `TenantRuns.InsertsAreStampedExactly` | src/core/common/plugins/mongoose-tenant.plugin.ts:146-159 | the same for several documents together |
| `TenantRuns.SaveRefusedExactly` | src/core/common/plugins/mongoose-tenant.plugin.ts:125-143 | a loaded document is saved exactly if it names no tenant or the caller's |
| `TenantBulk.SecuredFindsAdmitted` | src/core/common/plugins/mongoose-tenant.plugin.ts:176-186 | a secured bulk operation finds only rows the tenant filter admits, whatever its own filter says |
| `TenantBulk.SecuredFindsExactly` | src/core/common/plugins/mongoose-tenant.plugin.ts:176-186 | a secured operation finds a row exactly if the caller may see it and it satisfies the caller's own filter, whose `tenantId` is replaced |
| `TenantBulk.BulkTouchesOnlyAskedFor` | src/core/common/plugins/mongoose-tenant.plugin.ts:162-188 | every row a whole bulk write changes or removes is one the caller may see, and satisfies the filter of some operation that was given |
| `TenantBulk.BulkInsertIsStamped` | src/core/common/plugins/mongoose-tenant.plugin.ts:171-175 | an inserted document is stored as given, and without a tenant under the caller's |
| `TenantBulk.BulkKeepsForeign` | src/core/common/plugins/mongoose-tenant.plugin.ts:162-188 | a whole bulk write, upserts included, changes and removes only rows the tenant filter admits |
| `TenantBulk.BulkPlantsExactly` | src/core/common/plugins/mongoose-tenant.plugin.ts:162-188 | payloads of bulk writes are not checked: an operation in the request of one tenant leaves another tenant's rows alone exactly if its payload, `$min`, `$max` and `$rename` included, names that tenant for no row that is written |
| `TenantBulk.BulkInsertPlantsExactly` | src/core/common/plugins/mongoose-tenant.plugin.ts:171-175 | the case of a bulk insert: a row of another tenant appears exactly if its document names that tenant |
| `Scim.Tokenize` | src/core/common/helpers/scim.helper.ts:139-163 | the loop over characters and quotes gives the tokens of the specification |
| `Scim.Parser.Expression` | src/core/common/helpers/scim.helper.ts:41-49 | advancing the shared cursor gives the tree and the position of the specification |
| `Scim.Parser.Term` | src/core/common/helpers/scim.helper.ts:52-75 | the same for groups, array filters and conditions |
| `Scim.Parser.ReadCondition` | src/core/common/helpers/scim.helper.ts:78-106 | the same for conditions |
| `Scim.Parse` | src/core/common/helpers/scim.helper.ts:37-109 | tokenizing and parsing terminates on every text and gives the specified tree or error |
| `ScimRoundTrip.PrintedTokens` | src/core/common/helpers/scim.helper.ts:139-163 | the tokens of a printed tree are exactly its words |
| `ScimRoundTrip.ParseWords` | src/core/common/helpers/scim.helper.ts:41-109 | reading the words of a tree puts the parser into its loop with that tree on the left: `and` and `or` bind equally, left to right |
| `ScimRoundTrip.RoundTrip` | src/core/common/helpers/scim.helper.ts:37-163 | printing any tree and then tokenizing and parsing gives back the tree and uses all tokens |
| `ScimRoundTrip.PrintInjective` | src/core/common/helpers/scim.helper.ts:37-163 | two trees with the same text are the same tree |
| `ScimCase.WordsExactly` | src/core/common/helpers/scim.helper.ts:41-80 | each comparator and each connective has exactly one word, in any mixture of upper and lower case |
| `ScimCase.CaseOfWordsDoesNotMatter` | src/core/common/helpers/scim.helper.ts:41-106 | token lists that differ in the case of operator words only are both errors or have the same tree, up to names and texts that are such words themselves |
| `ScimCase.TruthExactly` | src/core/common/helpers/scim.helper.ts:112-135 | unquoted `true` and `false`, in any case, are the only tokens read as truth values |
| `ScimPrecedence.ReadAsStandardExactly` | src/core/common/helpers/scim.helper.ts:41-75 | a text is read as section 3.4.2.2 of RFC 7644 says, where `and` binds more tightly, exactly if no group at any depth has an `and` after an `or` |
| `ScimPrecedence.LeftSelectsFewer` | src/core/common/helpers/scim.helper.ts:41-49 | where the two differ, the tree of the code still selects only documents that the tree of the RFC selects |
| `ScimPrecedence.MissingExactly` | src/core/common/helpers/scim.helper.ts:41-49 | for `a or b and c` the missing documents are exactly those of which `a` holds and `c` does not |
| `ScimQuery.EscapeIsLiteral` | src/core/common/helpers/scim.helper.ts:16-18 | escaped text read as a pattern, with or without an anchor, is exactly the original literal |
| `ScimQuery.FlattenMeans` | src/core/common/helpers/scim.helper.ts:21-34 | flattening a chain keeps its meaning |
| `ScimQuery.TransformMeans` | src/core/common/helpers/scim.helper.ts:166-213 | the query holds of exactly the documents the tree holds of |
| `ScimQuery.TransformFails` | src/core/common/helpers/scim.helper.ts:190-213 | the translation fails exactly if a text operator has a value that is no string |
| `ScimQuery.TransformNormal` | src/core/common/helpers/scim.helper.ts:171-178 | no `$and` directly under `$and`, no `$or` directly under `$or`, at least two operands each |
| `ScimQuery.ScimToMongo` | src/core/common/helpers/scim.helper.ts:6-13 | the three passes together; an empty text selects everything |
| `ScimQuery.PrintedTextMeans` | src/core/common/helpers/scim.helper.ts:6-213 | end to end: the query made of a printed tree selects exactly the documents the tree holds of |
| `DeepFreeze.Heap.DeepFreeze` | src/core/common/helpers/clone.helper.ts:98-110 | succeeds exactly if nothing reachable blocks it: an object frozen before that has properties, an own property that cannot be assigned, or an array buffer view with elements; then exactly the reachable objects are frozen and nothing else has changed |
| `DeepFreeze.Heap.Freeze` | src/core/common/helpers/clone.helper.ts:98-110 | the recursive step on any graph, cycles included: what it has seen, what it has frozen, and why it stopped |
| `RemoveSecrets.Heap.ClearFields` | src/core/common/interceptors/check-security.interceptor.ts:157-161 | the loop over the field names clears exactly the secret properties of one object |
| `RemoveSecrets.Heap.Remove` | src/core/common/interceptors/check-security.interceptor.ts:139-170 | the recursive step clears exactly the objects it newly visits |
| `RemoveSecrets.Heap.RemoveSecrets` | src/core/common/interceptors/check-security.interceptor.ts:138-170 | exactly the object literals that nothing disguises (a function `pipe`, or a defined `$__` or `_bsontype`) and that are reached from the data through such literals and arrays are cleared, nothing else changes; what is reached is said by kinds and keys alone |
| `RemoveSecrets.NoSecretReachable` | src/core/common/interceptors/check-security.interceptor.ts:121-170 | afterwards no such literal that is reached that way, over the items of arrays and over all properties, secret ones included, has a defined secret field |
| `RemoveSecrets.LiteralKeepsSecretExactly` | src/core/common/interceptors/check-security.interceptor.ts:122-170 | an object literal keeps a secret exactly if it has a function `pipe`, or a defined `$__` or `_bsontype`, or is not reached |
| `ProcessDeep.Heap.Func` | src/core/common/helpers/service.helper.ts:264-280 | an ObjectId becomes its string, any other object loses its secret fields |
| `ProcessDeep.Heap.Process` | src/core/common/helpers/input.helper.ts:731-784 | one value during the pass: arrays are replaced by copies, what was met before is returned as it is |
| `ProcessDeep.Heap.ProcessItems` | src/core/common/helpers/input.helper.ts:756-758 | an array is replaced by a new array, item by item |
| `ProcessDeep.Heap.ProcessProperties` | src/core/common/helpers/input.helper.ts:776-778 | properties are assigned in place |
| `ProcessDeep.Heap.ProcessDeep` | src/core/common/helpers/service.helper.ts:258-281 | the whole pass on any graph: it terminates, visits exactly the objects reachable from the input over all values of everything whose kind is not a class named `ObjectId`, class instances included, and relates every object and array afterwards to what it was |
| `ProcessDeep.Heap.ProcessEach` | src/core/common/helpers/input.helper.ts:756-758 | the items of an array one after the other: the new items, and exactly what they reach is visited |
| `ProcessDeep.NoSecretReachable` | src/core/common/helpers/service.helper.ts:258-281 | no object reachable from the result, over all values of everything whose kind is not a class named `ObjectId`, has a defined field that is to be removed, through replaced arrays and arrays met a second time alike; what lies below objects of that class name keeps its secrets |
| `RestrictedAccess.ValidateGrows` | src/core/common/decorators/restricted.decorator.ts:378-495 | more roles of the same person, and more trust from the parent, never take a permission away |
| `RestrictedRules.EntitledExactly` | src/core/common/decorators/restricted.decorator.ts:378-495 | the code's evaluation of a list of restrictions is the rule written out role by role: nobody for `S_NO_ONE`, otherwise one granting role or one membership, or nothing that applies |
| `RestrictedRules.FieldAccessExactly` | src/core/common/decorators/restricted.decorator.ts:163-175 | roles of the project count by level where they have one, and otherwise only by being held |
| `RestrictedTree.AnonymousOwnsExactly` | src/core/common/helpers/id.helper.ts:160-198 | objects without an id are compared by their common text: a user without an id passes as the owner of exactly the objects without an id, or with that text as id |
| `RestrictedTree.ThrowRemovesNothing` | src/core/common/decorators/restricted.decorator.ts:515-568 | with `throwError` a check throws or gives the data back unchanged |
| `RestrictedTree.InputClaimsDoNotCount` | src/core/common/decorators/restricted.decorator.ts:410-442 | on input no `id` or `createdBy` in the data, at any depth, changes a decision |
| `RestrictedOutput.OwnerIsFixed` | src/core/common/decorators/restricted.decorator.ts:431-442 | while ids and creators are readable, ownership is that of the original object throughout the key loop |
| `RestrictedOutput.KeepsExactly` | src/core/common/decorators/restricted.decorator.ts:497-571 | on output an object that is refused as a whole becomes null; of every other object exactly the properties remain, in order, that the rules give the user, with `isCreatorOfParent` threaded from key to key; the rules are those of `RestrictedRules` |
| `RestrictedOutput.NeverThrows` | src/core/common/decorators/restricted.decorator.ts:505-563 | without `throwError` nothing is thrown |
| `RestrictedOutput.MoreRolesKeepMore` | src/core/common/decorators/restricted.decorator.ts:208-572 | a user with more roles keeps a superset, at every depth; with `checkObjectItself`, where the first item of an array can settle the whole array, as well |
| `RestrictedOutput.HiddenCreatorKeepsMore` | src/core/common/decorators/restricted.decorator.ts:438-442 | readable creators are needed: a user who may not see `createdBy` can keep a property that a user with more roles loses |
| `RestrictedResult.NoOneIsRefused` | src/core/common/decorators/restricted.decorator.ts:410-414 | of the result of a check on output: a property for `S_NO_ONE` is kept for nobody |
| `RestrictedResult.EveryoneKeeps` | src/core/common/decorators/restricted.decorator.ts:435 | one for `S_EVERYONE` is kept for everybody, logged in or not |
| `RestrictedResult.UserKeepsExactly` | src/core/common/decorators/restricted.decorator.ts:436-437 | one for `S_USER` alone exactly for users with an id, or with that text among their roles |
| `RestrictedResult.VerifiedKeepsExactly` | src/core/common/decorators/restricted.decorator.ts:436-442 | one for `S_VERIFIED` alone exactly for verified users, or holders of that text |
| `RestrictedResult.SelfKeepsExactly` | src/core/common/decorators/restricted.decorator.ts:436-438 | one for `S_SELF` alone exactly if the object's id is the user's id, or for holders of that text |
| `RestrictedResult.CreatorKeepsExactly` | src/core/common/decorators/restricted.decorator.ts:436-440 | one for `S_CREATOR` alone exactly if `createdBy` names the user, or for holders of that text |
| `RestrictedResult.ParentsCreatorKeepsExactly` | src/core/common/decorators/restricted.decorator.ts:439-441 | the same without `createdBy`: exactly if that is allowed and the parent vouches for the user |
| `RestrictedResult.RoleKeepsExactly` | src/core/common/decorators/restricted.decorator.ts:434-443 | one for a role of the project exactly for its holders, and by level where the role has one |
| `RestrictedResult.MembersKeepExactly` | src/core/common/decorators/restricted.decorator.ts:448-484 | one with `memberOf` exactly for those whose id the stored object lists under that property |
| `RestrictedResult.OtherProcessingDoesNotCount` | src/core/common/decorators/restricted.decorator.ts:388-400 | one whose restriction is for the other kind of processing is kept for everybody |
| `RestrictedResult.MergedKeepsExactly` | src/core/common/decorators/restricted.decorator.ts:526-531 | with `mergeRoles` the role of the class opens the property as well, and `S_NO_ONE` on either closes it |
| `RestrictedResult.ListExactly` | src/core/common/decorators/restricted.decorator.ts:299-375 | a list becomes the list of its checked items, unless objects are checked as a whole, the first item is refused and its class names neither `S_SELF` nor `S_CREATOR` |
| `RestrictedResult.InputKeepsExactly` | src/core/common/decorators/restricted.decorator.ts:497-571 | on input, without `throwError`: exactly the properties remain that the rules give the user under the owner of the stored object |
| `RestrictedResult.InputSelfKeepsExactly` | src/core/common/decorators/restricted.decorator.ts:416-438 | hence a property for `S_SELF` is kept exactly if the stored object's id is the user's, whatever the input says |
| `RestrictedResult.InputPassesExactly` | src/core/common/decorators/restricted.decorator.ts:515-568 | with `throwError` an input passes, unchanged, exactly if the rules give the user everything in it, at every depth |
| `RestrictedHeap.OwnerAgrees` | src/core/common/decorators/restricted.decorator.ts:431-442 | ownership read from objects is ownership read from the data they hold |
| `RestrictedCheck.Heap.CheckArray` | src/core/common/decorators/restricted.decorator.ts:299-375 | the array branch with the first-item shortcut does what the specification says, in a new array |
| `RestrictedCheck.Heap.CheckKey` | src/core/common/decorators/restricted.decorator.ts:515-568 | one turn of the key loop: skipped, kept with its value checked, refused with an exception, or deleted |
| `RestrictedCheck.Heap.CheckObject` | src/core/common/decorators/restricted.decorator.ts:497-571 | the object branch: the object as a whole, then its properties in place |
| `RestrictedCheck.Heap.Check` | src/core/common/decorators/restricted.decorator.ts:253-270 | terminates on every graph; touches only objects it newly processes; on data without sharing it is the specification |
| `RestrictedCheck.Heap.CheckRestricted` | src/core/common/decorators/restricted.decorator.ts:208-572 | a check from the outside on any object graph: only objects reachable from the data are processed and changed; when it returns, no processed instance of a class that is never refused as a whole keeps a property that the user may not have under any owner and trust; with `throwError` no property appears or goes; data without sharing becomes exactly what the specification says |
| `RestrictedSteps.NobodyAttains` | src/core/common/decorators/restricted.decorator.ts:411-414 | what is restricted to `S_NO_ONE`, on the property or with `mergeRoles` on the class, is such a property, for administrators too |
| `RestrictedSteps.OnlySelfAttains` | src/core/common/decorators/restricted.decorator.ts:438 | what is for `S_SELF` alone is such a property unless an own id of the object is the user's, also on shared and cyclic data |
| `SystemRoles.StorageRuleIsStricter` | src/core/common/enums/role.enum.ts:87-107 | the storage rule covers the run-time rule, and texts that are the same after trimming and lower-casing are refused alike |
| `SystemRoles.PatternMirrorsRule` | src/core/common/enums/role.enum.ts:169-178 | the validator pattern accepts exactly what the storage rule does not reject |
| `SystemRoles.UpdateCheckIsExact` | src/core/common/plugins/mongoose-system-role.plugin.ts:154-193 | an update passes exactly if every system role under the operators it looks at was stored before; the stored roles are read exactly if the update would not pass without |
| `SystemRoles.SaveCheckIsExact` | src/core/common/plugins/mongoose-system-role.plugin.ts:43-49 | a save passes exactly if the roles are untouched, or every one the validator pattern refuses was loaded with the document |
| `SystemRoles.BulkCheckIsExact` | src/core/common/plugins/mongoose-system-role.plugin.ts:78-93 | an operation of a bulk write passes exactly if it carries no role that the pattern refuses |
| `SystemRoles.AssertNoSystemRoles` | src/core/common/plugins/mongoose-system-role.plugin.ts:115-126 | refuses exactly if a system role is introduced |
| `SystemRoles.Document.PreSave` | src/core/common/plugins/mongoose-system-role.plugin.ts:43-49 | a new document has an empty baseline, an unmodified one passes |
| `SystemRoles.PreInsertMany` | src/core/common/plugins/mongoose-system-role.plugin.ts:69-76 | passes exactly if no document carries a system role |
| `SystemRoles.PreBulkWrite` | src/core/common/plugins/mongoose-system-role.plugin.ts:78-93 | passes exactly if no operation would write a system role; all are checked before any is carried out |
| `SystemRoleRuns.NoSystemRoleAppears` | src/core/common/plugins/mongoose-system-role.plugin.ts:42-193 | over every interleaving of hydration, stale saves, two-phase updates and replacements, updateMany, insertMany and bulkWrite: a system role stored at the end was stored at the start, or an update brings it by an operator that the hooks do not look at |
| `SystemRoleRuns.UpdateBringsExactly` | src/core/common/plugins/mongoose-system-role.plugin.ts:154-193 | the exception exactly: an update that passes the check brings a system role to a document exactly if it writes that document and its `$min`, `$max` or `$rename` gives it the role |
| `SystemRoleRuns.WritingBackIsAllowed` | src/core/common/plugins/mongoose-system-role.plugin.ts:104-110 | a document that already holds system roles can be written back as it is |
| `SystemRoleRuns.CleaningUpIsAllowed` | src/core/common/plugins/mongoose-system-role.plugin.ts:171-176 | removing a system role is never refused, and removes it |
| `SystemRoleRuns.StaleSaveRestores` | src/core/common/plugins/mongoose-system-role.plugin.ts:43-55 | the bound is the start of the run: a save of a document hydrated before a clean-up puts the role back |
| `RoleGuard.Query.HandleUpdateRoleGuard` | src/core/common/plugins/mongoose-role-guard.plugin.ts:193-224 | the update object afterwards is exactly the guarded update |
| `RoleGuard.Document.PreSave` | src/core/common/plugins/mongoose-role-guard.plugin.ts:54-74 | a new document loses its roles, a stored one is not written |
| `RoleGuard.PreInsertMany` | src/core/common/plugins/mongoose-role-guard.plugin.ts:102-114 | the documents afterwards are exactly the guarded ones |
| `RoleGuard.PreBulkWrite` | src/core/common/plugins/mongoose-role-guard.plugin.ts:117-145 | the operations afterwards are exactly the guarded ones |
| `RoleGuard.AuthorityCarriesOut` | src/core/common/plugins/mongoose-role-guard.plugin.ts:156-181 | without a user, with the bypass, as administrator or with a configured role every write is carried out as given: updates, inserts, saves and bulk writes |
| `RoleGuard.GuardedUpdateKeepsStored` | src/core/common/plugins/mongoose-role-guard.plugin.ts:193-224 | an update of a user with none of these leaves the roles of stored documents exactly as they are, unless it has `$min`, `$max` or `$rename` on them or a bare empty string |
| `RoleGuard.GuardedWritesExactly` | src/core/common/plugins/mongoose-role-guard.plugin.ts:193-224 | without authority an update can write what `$setOnInsert` names, what `$min`, `$max` or `$rename` brings, and the empty string as a bare value |
| `RoleGuard.UpdateAddsExactly` | src/core/common/plugins/mongoose-role-guard.plugin.ts:193-224 | for such a user: a nonempty role appears on a document exactly if `$min`, `$max` or `$rename`, which the hook does not look at, brings it there, or an upsert creates the document with it under `$setOnInsert` |
| `RoleGuard.EmptyRoleAppearsExactly` | src/core/common/plugins/mongoose-role-guard.plugin.ts:198-222 | the empty string appears on a stored document exactly as a bare value of `$push` or `$addToSet`, or by one of those operators |
| `RoleGuard.StepAddsNoRole` | src/core/common/plugins/mongoose-role-guard.plugin.ts:52-146 | one guarded step of a user who is logged in, has no bypass, is no administrator and holds none of the configured roles makes no role appear on any document that its updates do not name under `$setOnInsert`, `$min`, `$max` or `$rename` |
| `RoleGuard.RunAddsNoRole` | src/core/common/plugins/mongoose-role-guard.plugin.ts:52-146 | in every run of guarded steps of any users: such a step of such a user makes no such role appear on any document |
| `RoleGuard.PowerlessRunAddsNoRole` | src/core/common/plugins/mongoose-role-guard.plugin.ts:52-146 | hence over a run of such steps a document holds no such role at the end that it did not hold at the start |
| `RoleGuard.SaveKeepsStoredRoles` | src/core/common/plugins/mongoose-role-guard.plugin.ts:70-73 | saving a stored document without authority leaves all stored roles as they are |
| `FilterQuery.ConditionMeans` | src/core/common/helpers/filter.helper.ts:206-243 | `not` is the complement for each of the nine comparators |
| `FilterQuery.GenerateMeans` | src/core/common/helpers/filter.helper.ts:141-246 | for every filter input the query holds of a document exactly if the input does |
| `FilterQuery.GenerateFails` | src/core/common/helpers/filter.helper.ts:184-241 | the translation fails exactly if a value that is to be converted is no id, or the text of a pattern is no regular expression |
| `FilterQuery.ConversionExactly` | src/core/common/helpers/id.helper.ts:95-102 | which values are converted to an id, and to which: texts of 24 hexadecimal digits in either case, ids, what else stands for one, and lists item by item; which values are taken for ids automatically (src/core/common/helpers/db.helper.ts:97-110) |
| `FilterIds.EqFindsEitherForm` | src/core/common/helpers/filter.helper.ts:189-202 | an automatic equality on an id finds exactly the documents that hold it as a string or as an ObjectId |
| `FilterIds.InFindsEitherForm` | src/core/common/helpers/filter.helper.ts:189-202 | the same for lists of ids |
| `FilterIds.IdFieldIsDocumentId` | src/core/common/helpers/filter.helper.ts:190-193 | a field called `id` is looked up as `_id`, as an ObjectId only |
| `FilterIds.NotIsComplement` | src/core/common/helpers/filter.helper.ts:184-243 | where only one form is looked up, `not` is the complement |
| `FilterIds.ComplementExactly` | src/core/common/helpers/filter.helper.ts:194-243 | for all nine comparators: `not` is the complement on all documents exactly unless the value is looked up in both forms and the comparison can tell the forms apart |
| `FindFilter.Find` | src/core/common/helpers/filter.helper.ts:75-136 | the combination is built in the caller's own filter object if that already holds a list under the operator, and elsewhere otherwise |
| `FindFilter.FindMeansExactly` | src/core/common/helpers/filter.helper.ts:75-136 | for every document the result means the combination of the conditions and the further keys of the given filter, exactly unless there is no condition (which drops those keys), a single one (which replaces those it has as well), or a single one under `$nor` (which is not negated) |
| `FindFilter.PartsMean` | src/core/common/helpers/filter.helper.ts:75-136 | the combined conditions are those asked for, under all three operators: the given filter or its list, the single id unless it is missing, one of the ids, and the further conditions |
| `FindFilter.IdsFindExactly` | src/core/common/helpers/filter.helper.ts:107-113 | asked for ids alone, the result finds exactly the documents whose `_id` is one of them; for none, no document |
| `FindFilter.FindMeansWithoutOtherKeys` | src/core/common/helpers/filter.helper.ts:75-136 | hence without further keys it always does, except for `$or` of nothing and `$nor` of one condition, where it is wrong for every document |
| `GridFs.MapContentTypeKeys` | src/core/common/helpers/gridfs.helper.ts:256-271 | the loop that fills the new object gives the renamed query |
| `GridFs.PathAgrees` | src/core/common/helpers/gridfs.helper.ts:67-72 | a key finds in the normalized file what the renamed key finds in the stored one |
| `GridFs.NormalizedExactly` | src/core/common/helpers/gridfs.helper.ts:67-72 | the content type at the root is that of the metadata, if there is one, and nothing else of the file changes |
| `GridFs.RenameKeepsMeaning` | src/core/common/helpers/gridfs.helper.ts:256-271 | the rewritten query holds of a stored file exactly if the original holds of its normalized form, unless an object names the content type in both ways |
| `GridFs.RenameMeans` | src/core/common/helpers/gridfs.helper.ts:256-271 | every rewritten query holds of a stored file exactly if what is kept of the original holds of its normalized form: of two entries renamed to one key the last |
| `GridFs.RenameAgreesExactly` | src/core/common/helpers/gridfs.helper.ts:263-270 | an object may name the content type in both ways: the rewritten query agrees with the original on a file exactly if the lost condition holds wherever the remaining ones do |
| `GridFs.BothNamesLoseTheFirst` | src/core/common/helpers/gridfs.helper.ts:263-270 | naming it in both ways in one object loses the first condition |
| `GridFs.FindFilesAgrees` | src/core/common/helpers/gridfs.helper.ts:240-246 | searching the stored files and normalizing is searching the normalized files for what is kept of the query, in order |
| `GridFs.SortAgrees` | src/core/common/helpers/gridfs.helper.ts:242-243 | every order decided by the sort keys agrees as well |
| `GridFs.BothNamesSort` | src/core/common/helpers/gridfs.helper.ts:242-243 | a sort object that names the content type in both ways sorts by it at the first place, with the second direction |
| `GraphQlFields.LastDirectiveDecides` | src/core/common/helpers/graphql.helper.ts:242-263 | of several `@skip` or several `@include` the last one decides |
| `GraphQlFields.DirectivesMean` | src/core/common/helpers/graphql.helper.ts:155-162 | on valid documents a selection is taken exactly as sections 3.13.1 and 3.13.2 of the GraphQL specification say |
| `GraphQlFields.FlattenAst` | src/core/common/helpers/graphql.helper.ts:143-194 | the loop over the selections builds the flattened map; it terminates for fragments without cycles |
| `GraphQlFields.FlattenedHasExactly` | src/core/common/helpers/graphql.helper.ts:143-194 | the map has exactly the paths it had before and those selected after expanding fragments; exclusion looks only at fields directly under the start |
| `GraphQlFields.OrderAndRepetitionDoNotMatter` | src/core/common/helpers/graphql.helper.ts:155-194 | neither the order nor the repetition of selections makes a difference |
| `GraphQlFields.RankDoesNotMatter` | src/core/common/helpers/graphql.helper.ts:188-190 | nor does the ranking by which fragments are seen to have no cycles |
| `GraphQlFields.GetFieldsHasExactly` | src/core/common/helpers/graphql.helper.ts:283-303 | several field nodes together: every path that one of them selects |
| `ContentDisposition.ExtValueRoundTrip` | src/core/common/helpers/content-disposition.helper.ts:46-51 | for every name without lone surrogates, decoding the ext-value as in section 3.2.1 of RFC 8187 gives the name back; the decoder accepts only `attr-char` and percent triples of well-formed UTF-8 |
| `ContentDisposition.HeaderHasThreeParts` | src/core/common/helpers/content-disposition.helper.ts:86-90 | a header is made exactly for names without lone surrogates, a missing or empty name being `download`; parsed as in section 4.1 of RFC 6266 it has exactly the type `attachment`, a quoted fallback that is the name unit by unit with underscores for what is not quotable, and the ext-value, which decodes to the name |
| `ContentDisposition.PlainNamesAreLiteral` | src/core/common/helpers/content-disposition.helper.ts:37-41 | the fallback keeps exactly the quotable characters |
| `UnifiedFields.GetUnifiedFieldKeys` | src/core/common/decorators/unified-field.decorator.ts:56-109 | the one-pass walk returns exactly the keys whose nearest explicit setting re-enables them, or that are declared without any |
| `UnifiedFields.KeysExactly` | src/core/common/decorators/unified-field.decorator.ts:56-109 | a key is whitelisted exactly if a class re-enables it and none below excludes it, or some class declares it and none excludes or re-enables it |
| `UnifiedFields.RedeclarationNeverRevives` | src/core/common/decorators/unified-field.decorator.ts:44-55 | declaring a field again never revives an excluded one |
| `UnifiedFields.SubclassDecides` | src/core/common/decorators/unified-field.decorator.ts:73-85 | an explicit setting of the subclass decides |
| `UnifiedFields.SubclassAdds` | src/core/common/decorators/unified-field.decorator.ts:87-89 | a subclass without explicit settings adds exactly what it declares and nobody has settled |
| `Whitelist.FindNestedType` | src/core/common/pipes/map-and-validate.pipe.ts:671-677 | the nearest class with a registered type decides |
| `Whitelist.NestedTypeExactly` | src/core/common/pipes/map-and-validate.pipe.ts:671-677 | the type is the one registered for the first class of the chain that has one |
| `Whitelist.ProcessNonWhitelistedFields` | src/core/common/pipes/map-and-validate.pipe.ts:646-696 | strip mode leaves exactly the stripped object, error mode changes nothing and returns exactly the textual paths |
| `WhitelistAgreement.ReportsExactlyWhatStripDeletes` | src/core/common/pipes/map-and-validate.pipe.ts:646-696 | error mode reports exactly the paths that strip mode deletes |
| `WhitelistAgreement.SurvivorsExactly` | src/core/common/pipes/map-and-validate.pipe.ts:646-696 | a path survives exactly if no reported path is part of it, and plain values that survive are unchanged |
| `WhitelistAgreement.NoErrorsMeansNoChange` | src/core/common/pipes/map-and-validate.pipe.ts:646-696 | nothing is reported exactly if stripping changes nothing |
| `WhitelistAgreement.StripIsIdempotent` | src/core/common/pipes/map-and-validate.pipe.ts:646-696 | after a strip nothing is reported, and stripping again changes nothing |
| `WhitelistPaths.TextsTellPathsApart` | src/core/common/pipes/map-and-validate.pipe.ts:659-690 | two reported texts are the same only for the same path, where keys are not empty and have no dot and no opening bracket |
| `WhitelistPaths.DottedKeyReadsAsPath` | src/core/common/pipes/map-and-validate.pipe.ts:659 | that is needed: a key with a dot reads like a step |
| `Translation.Input.UpdateLanguage` | src/core/common/decorators/translatable.decorator.ts:26-62 | the loop over the fields, with its writes to the input and to `_translations` |
| `Translation.ReadsAtEveryDepth` | src/core/common/helpers/service.helper.ts:347-382 | a path through the translated object leads where the path through the stored one leads that enters, in each object, the translation instead of the field where there is one; through objects and lists at every depth |
| `Translation.TranslationReadsBack` | src/core/common/decorators/translatable.decorator.ts:26-62 | in every language but German: a supplied value reads back, unless it is null or its field is listed twice and the stored field differs from a stored translation; then the stored field is read; default-language values and other languages stay as stored |
| `Translation.TextReadsBackExactly` | src/core/common/decorators/translatable.decorator.ts:31-56 | a supplied text reads back exactly if it is not overwritten in that way by a different stored field |
| `Translation.OtherTranslationsStay` | src/core/common/decorators/translatable.decorator.ts:57-60 | translations of fields that are not supplied stay |
| `Translation.GermanReadsBackExactly` | src/core/common/decorators/translatable.decorator.ts:33-44 | in German, a supplied text reads back exactly if it changes the field or agrees with the stored German translation |
| `Translation.ListedTwiceLosesTheTranslation` | src/core/common/decorators/translatable.decorator.ts:31-56 | such a field: listed twice, it overwrites its own translation |
| `Shutdown.Process.HandleShutdown` | src/core/common/helpers/graceful-shutdown.helper.ts:87-109 | the first signal arms the timer, a second one cancels it and closes |
| `Shutdown.Process.HandleDiagnostics` | src/core/common/helpers/process-diagnostics.helper.ts:260-287 | a signal without another handler is raised again, otherwise a watchdog is armed |
| `Shutdown.Process.Receive` | src/core/common/helpers/graceful-shutdown.helper.ts:111-113 | all handlers of a signal, in the order they were installed |
| `Shutdown.EveryRunShutsDownProperly` | src/core/common/helpers/graceful-shutdown.helper.ts:77-113 | in every timed run: a close by timer comes exactly min(delay, 60000) ms after the first signal, before a second signal and any other close; other closes answer later signals; no shutdown signal is raised again; a forced exit only follows a close, unless the delay reaches the watchdog timeout |
| `Shutdown.OneCloseByTimer` | src/core/common/helpers/graceful-shutdown.helper.ts:100-107 | at most one close happens by timer |
| `Shutdown.NoEarlyClose` | src/core/common/helpers/graceful-shutdown.helper.ts:87-107 | no close precedes the due time unless a second signal arrived |
| `Shutdown.CloseHappens` | src/core/common/helpers/graceful-shutdown.helper.ts:100-107 | a process still alive when the delay is over has closed the application |
| `Shutdown.OtherSignalsEndAtOnce` | src/core/common/helpers/process-diagnostics.helper.ts:260-276 | in every state of every run `SIGHUP` and `SIGQUIT` end the process at once, raised again if the diagnostics are installed, and start no shutdown |
| `Shutdown.LongDelayIsCutOff` | src/core/common/helpers/process-diagnostics.helper.ts:277-286 | with a delay that reaches the timeout a single signal can end in the forced exit without any close |
| `Shutdown.ClosesFirstExactly` | src/core/common/helpers/process-diagnostics.helper.ts:277-286 | in all runs a forced exit only follows a close, exactly unless the diagnostics are installed with a timeout that the delay reaches; by default from 30 seconds on |

## Left out

Shapes the code does not treat, or whose meaning belongs to the database:

- Dotted update paths, operators that only take `tenantId` or roles away (`$unset`, `$pop`, `$pullAll`, `$rename` to another name), and updates that are aggregation pipelines.
- `$min` on a `tenantId` that is null counts as on a missing one; a field renamed to `tenantId` holds a text or null, one renamed to `roles` a list, which is a parameter.
- `tenantId` values that are neither strings nor null (the schema declares a string).
- Scalar `roles` values, roles an upsert takes over from its own filter, and roles that a new document has from a schema default, which do not count as modified.
- A single stage object that occurs twice in a pipeline: pipelines are values, so the second pass over the same object is not seen.
- Numeric array indices in dotted paths, the order of values of different BSON types, numbers as floating point.
- Regular expressions other than literals with anchors; case folding beyond the letters A to Z. `$` is the very end of a text; the server also lets it match before a final newline.
- Filter values that are objects with operator keys, and fields whose names begin with `$`.
- Empty lists under `$and`, `$or` and `$nor`, which the server refuses, have their logical meaning here.
- Lists of filters with falsy entries.

What a contract does not say:

- ProcessDeep.Heap.ProcessDeep: does not say that every ObjectId becomes a string, because an ObjectId met a second time is returned as it is; each first meeting is converted (`ProcessDeep.Heap.Process`).
- RemoveSecrets.Heap.RemoveSecrets: accessors, frozen objects and read-only properties, on which the assignment throws or runs code, are not modelled; the same holds for the traversal of `ProcessDeep`.
- DeepFreeze.Heap.DeepFreeze: accessors with a setter, which run code, are not modelled.
- RestrictedCheck.Heap.CheckRestricted: on shared or cyclic data it states termination, that only reachable objects change, what no class instance keeps, and what `throwError` keeps, not which other properties remain, since that depends on the order of the visit.
- RestrictedOutput.KeepsExactly: covers objects whose `id`, `_id` and `createdBy` are readable (`HiddenCreatorKeepsMore` shows why); an id that is itself an object is not followed, except that `createdBy` may be an object with an id; arrays that carry the already-checked marker are not modelled.
- GraphQlFields.FlattenAst: the nested map is a value that the loop replaces, so the caller's own accumulator object is not seen to change; `processArguments` and fields named like properties of every JavaScript object are left out.
- Whitelist.ProcessNonWhitelistedFields: the object is a value that the loops rebuild, without the deletion in place.
- Translation.TranslationReadsBack: objects are trees, so the visited set is not needed; translations that are strings or lists count as empty, and values are compared by content.
- TenantReads.SecureCrossCollectionStages: nested pipelines are values that the loop replaces in the stage, instead of arrays shared with the caller.
- GridFs.SortAgrees: says that the sort keys agree, not what the server's order on them is.
- FilterQuery.GenerateMeans: what conversion makes of values that are neither strings nor ObjectIds, the text of numbers and objects, and which texts are regular expressions are parameters.
- SystemRoleRuns.NoSystemRoleAppears: roles are strings, so what a cast makes of other values is not modelled.

Not modelled at all:

- NestJS wiring, GraphQL and Swagger registration, streams, mail, configuration and logging.
- `estimatedDocumentCount`, the warning for exempt models, and the order of the server's results.
- `removePropertiesDeep`, `filterMerge`, `addIds`, `removeIds`, `getElementsViaIds`, URL and cookie helpers, pagination: they would only add easy members, or do not compute what their names say.
- The setup without a shutdown delay, which leaves signals to NestJS.
