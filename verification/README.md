# Access manager: permissions, groups, bits

A Dafny model of the parts of the access manager (`go/`) that decide who may do what, with proofs
over every input, every run and every interleaving.

Users hold permissions directly or through groups. A permission carries a 63-bit mask on one
resource; a user's *effective mask* on a resource is the OR of the masks of all permissions held
there. The Postgres store computes it from the source tables at each read. The SQLite store keeps a
table `user_resource_masks` with one row per (domain, user, resource), and every mutator rewrites a
chosen set of its rows in its own transaction. The centre of this project is that this cache is
exact in every reachable state, and that the two stores give the same answers. Around it: the group
forest, the allocation of bits to access types by concurrent requests, masks as titles, search
patterns and paging.

Verify with `dafny verify dfyconfig.toml`.

## How it is modelled

| File | What it holds |
|---|---|
| `Basics.dfy`, `Masks.dfy` | errors and results; 64-bit masks as `bv64` (the sign of a stored value is its top bit), the OR of a row set in any order |
| `Schema.dfy` | tables as maps from primary keys, foreign and unique keys, the SQL statements |
| `GroundTruth.dfy` | what a user may do, from the source tables alone |
| `PermissionCache.dfy` | the cache, its repair, and why each affected set is large enough |
| `GroupForest.dfy` | the bounded walk up the parent chain, ancestors, forests |
| `Transactions.dfy`, `RunTheorems.dfy` | all 23 transactions as changes of the database; invariants over runs |
| `Effects.dfy` | when each transaction succeeds, which error it answers otherwise, which row it leaves |
| `SqliteStore.dfy` | the SQLite store: a class with the tables and the cache as fields, and its loops |
| `Listings.dfy`, `PostgresStore.dfy` | the four authorisation listings, from the cache and from the source tables |
| `Ordering.dfy`, `LikePatterns.dfy` | ORDER BY with the id tie-breaker, pages, LIKE with escapes |
| `AccessBits.dfy`, `TitleCodec.dfy`, `TitleTheorems.dfy`, `TitleTexts.dfy`, `AuthzTheorems.dfy` | bit positions; masks as title lists and back; stand-ins as a reader sees them; the v1 and v2 answers |
| `AccessTypeTable.dfy`, `CreateProtocol.dfy`, `CreateRequest.dfy`, `CreateAnswers.dfy` | the types of a domain and what a load returns of them; concurrent v2 create requests as interleaved store calls; the retry loop of one request; what each answer means |
| `CrowdedDomain.dfy`, `CrowdedRuns.dfy` | a domain with more types than a load returns, and two runs into it |

A transaction method works on its own copy of the state and assigns it back on commit, so an error
leaves the store as it was. The pool has one connection (`go/internal/store/sqlite/db.go:28`), so a
run is a sequence of transactions. Result sets are read one arbitrary row at a time. The schema is
that of `go/migrations/sqlite/` after migration 000005: junction rows have composite keys, deletes
are refused while a row is referenced, cache rows are deleted with their parents. A statement checks
primary and unique keys first and foreign keys second. Ids generated by the server and the points
where other requests run are parameters.

## What does not hold, and exactly when

The lemmas named give the failing cases and the exact conditions. All points but the third can be
brought about through the HTTP API.

- A permission can name a resource of another domain: `permissions.resource_id` is a plain key, unlike
  the keys of the junction tables, and neither `PermissionCreate` nor the handler
  (`go/internal/api/server_permissions.go:36-40`) checks the domain. Its holders then have a mask on
  that resource (`RunTheorems.ForeignResourceReachable`, `RunTheorems.HomeResourcesKept`). In the same
  way a group can be created under a parent of another domain
  (`go/internal/api/server_groups.go:46`, `RunTheorems.SameDomainParentsKept`).
- The walk in `groupSetParentTx` stops after 1,000,000 steps and then lets the update through. With
  at most that many groups in a domain it is complete; one group more and a cycle can be closed
  (`GroupForest.StepLimitMissesCycle`, `GroupForest.SetParentBreaksForestExactly`).
- `GroupCreate` at the store accepts a group that names itself as its parent; no other transaction
  breaks the forest (`RunTheorems.ForestKept`). The handler cannot ask for it, since it generates the id.
- `loadDomainAccessTypes` says that at most 63 rows can exist in a domain
  (`go/internal/api/server_access_types_v2.go:33-34`). The v1 create and the patch store any 63-bit
  value as a bit, so there can be more, and only the first 63 by title are loaded: nothing is cut off
  exactly with at most 63 types, and a type is loaded exactly when fewer than 63 titles precede its own
  (`AccessTypeTable.LoadComplete`, `AccessTypeTable.LoadedIffPreceded`). Of a type that is cut off v1
  allows the bit while v2 does not list the title (`CrowdedRuns.LimitHidesTitle`; which titles can be
  trusted is `AuthzTheorems.CanTrustExactly`), and a mask cannot be written with it by title
  (`AuthzTheorems.UnloadedTitleRefused`).
- `accessTypeCreateV2` concludes from an unchanged bit that the title collided. The bit was a cause
  instead exactly when a type that held it was deleted, or patched to another bit, in between, or is
  cut off by that limit (`CreateRequest.SameBitVerdict`); the title may then have collided too, or not.
  In three races, one of each kind, a request is refused although its title was never taken
  (`CreateRequest.FreedBitMisleads`, `CrowdedRuns.HiddenHolderMisleads`). In the third nothing is freed,
  most positions are free, and any create without a bit and with an unused title is refused in the same way.
- The bits of a domain are single and disjoint only as long as the v1 create and the patch, which do
  not check this, are given single bits (`CreateProtocol.NextSafeExactly`).
- Nothing keeps an access type from being titled like the stand-in of a free bit (`_bit:4`). Such a
  title shows up in v2 answers for a bit it has nothing to do with
  (`TitleTheorems.TitleTrustedExactly`, for any registered type `AuthzTheorems.CanTrustExactly`).
- Search is documented as case-insensitive (`go/internal/store/store.go:169`). SQLite's LIKE ignores
  the case of ASCII letters only, Postgres's of none: they agree on every title exactly for search
  strings without ASCII letters (`LikePatterns.StoresAgreeIffNoLetters`), and neither finds `É` for
  `é` (`LikePatterns.AccentsAreNotFolded`).

## Model

| member | source | states |
|---|---|---|
| Masks.OrAllRemove | go/internal/store/sqlite/store_authz_masks.go:90-98 | the OR over a result set does not depend on which row is read first |
| Masks.OrAllLeast | go/internal/access/mask.go:4-10 | with OrAllUpper: the OR is the least mask above all rows, which pins it down |
| Masks.OrAllUpper | go/internal/access/mask.go:4-10 | every row's bits are in the OR |
| Masks.OrAllHasBit | go/internal/access/mask.go:21-26 | a bit check on the OR succeeds exactly when some row carries the bit |
| Masks.OrAllFits | go/internal/store/sqlite/store_authz_masks.go:112-115 | an OR of non-negative 63-bit values is one, so writing it back cannot overflow |
| Masks.SqlRoundTrip | go/internal/store/sqlite/store.go:66-103 | a mask can be stored exactly when reading it back would give it unchanged; negative values read as 0 |
| Masks.CombineMasks | go/internal/access/mask.go:4-10 | the loop computes the OR of the slice |
| Masks.OrRows | go/internal/store/sqlite/store_authz_masks.go:85-98 | the row loop computes the OR whatever order the rows come in |
| Masks.ScanMasks | go/internal/store/sqlite/store_authz_masks.go:37-55 | the slice has one mask per row and its OR is the OR of the result set |
| GroundTruth.DomainFiltersRedundant | go/internal/store/sqlite/store_authz_masks.go:9-31 | under the composite keys, leaving the domain filters out of the joins selects the same permissions |
| GroundTruth.NonZeroMaskStaysInDomain | go/internal/store/sqlite/store_authz_masks.go:11-13 | a non-zero mask puts user and permission in the triple's domain, so the cache row's keys exist |
| GroundTruth.GroundHasBit | go/internal/api/server_authz.go:208-213 | a bit is allowed exactly when one held permission on the resource carries it |
| GroundTruth.GroundNonZero | go/internal/store/sqlite/store_authz_masks.go:101-107 | the mask is non-zero exactly when a permission with a positive mask is held |
| GroundTruth.GroundFits | go/internal/store/sqlite/store_authz_masks.go:109-112 | the overflow error of the cache write is unreachable, negative stored masks included |
| PermissionCache.RefreshOneMore | go/internal/store/sqlite/store_authz_reconcile.go:62-66 | cache rows may be recomputed one at a time, in any order, some of them twice |
| PermissionCache.ExactUnique | go/internal/store/sqlite/store_authz_masks.go:74-79 | the source tables determine the exact cache |
| PermissionCache.RefreshKeepsExact | go/internal/store/sqlite/store_authz_masks.go:74-79 | if no mask outside a set of rows changed, refreshing the set keeps the cache exact |
| PermissionCache.MemberOutside | go/internal/store/sqlite/store_authz_masks.go:124-145 | a membership can change only the member's rows on resources the group has a positive grant on |
| PermissionCache.UserGrantOutside | go/internal/store/sqlite/store_authz_membership.go:76-98 | a direct grant can change only one row |
| PermissionCache.GroupGrantOutside | go/internal/store/sqlite/store_authz_membership.go:135-165 | a group grant can change only the members' rows on the permission's resource |
| PermissionCache.HolderIdsComplete | go/internal/store/sqlite/store_authz_masks.go:179-206 | the holder query finds exactly the users that hold the permission |
| PermissionCache.PermissionOutside | go/internal/store/sqlite/store_permissions.go:135-154 | a changed mask or resource can change only the holders' rows on the new and the old resource; the old one is needed only if the resource moved |
| PermissionCache.TitlePatchOutside | go/internal/store/sqlite/store_permissions.go:121-134 | a title patch needs no refresh although it stores a negative mask as 0 |
| PermissionCache.UnheldPermissionOutside | go/internal/store/sqlite/store_permissions.go:73-86 | creating a permission, or deleting one the keys let go, changes no mask |
| PermissionCache.HeldTriplesComplete | go/internal/store/sqlite/store_authz_reconcile.go:27-40 | the reconciliation query finds every triple with a mask |
| PermissionCache.RebuildExact | go/internal/store/sqlite/store_authz_reconcile.go:15-69 | the rebuilt cache is exact |
| Transactions.ConsistentKept | go/migrations/sqlite/000003_composite_fk_cross_domain.up.sql:89-150 | no transaction breaks a foreign or unique key |
| Transactions.OutsideUnchanged | go/internal/store/sqlite/store_authz_membership.go:9-212 | for every transaction, no mask outside the rows it recomputes changes, for any stored int64 masks |
| Transactions.OrphansHaveNoMask | go/migrations/sqlite/000004_user_resource_masks.up.sql:13-19 | a delete that the keys let through has no mask to take away, so the cascade is idle |
| Transactions.ExactKept | go/internal/store/sqlite/store_authz_masks.go:74-122 | one transaction keeps the cache exact; reconciliation makes any cache exact |
| Transactions.RunExact | go/internal/store/sqlite/store_authz_membership.go:9-212 | in every state of every run the keys hold and the cache holds exactly the non-zero masks |
| Effects.DomainCreated | go/internal/store/sqlite/store_domains.go:11-14 | goes through exactly for a new id and adds just that domain; otherwise Conflict |
| Effects.UserCreated | go/internal/store/sqlite/store_users.go:11-15 | adds just the user; Conflict exactly for a used id, FKViolation exactly when the keys would not hold with the row |
| Effects.ResourceCreated | go/internal/store/sqlite/store_resources.go:11-15 | adds just the resource; Conflict exactly for a used id, FKViolation exactly when the keys would not hold with the row |
| Effects.GroupCreated | go/internal/store/sqlite/store_groups.go:11-21 | adds just the given group row; Conflict exactly for a used id, FKViolation exactly when the keys would not hold with it |
| Effects.PermissionCreated | go/internal/store/sqlite/store_permissions.go:11-19 | adds just the given row with the given mask; InvalidInput exactly for a mask above 63 bits, then Conflict, then FKViolation |
| Effects.AccessTypeCreated | go/internal/store/sqlite/store_access_types.go:11-19 | adds just the given row; Conflict exactly when its id, or its bit or title in the domain, is taken, FKViolation exactly when only the domain is missing |
| Effects.MemberAdded | go/internal/store/sqlite/store_authz_membership.go:9-33 | adds just the membership; Conflict exactly when it is there, FKViolation exactly when an end is not in the domain |
| Effects.UserGranted | go/internal/store/sqlite/store_authz_membership.go:76-98 | adds just the grant; Conflict exactly when it is there, FKViolation exactly when an end is not in the domain |
| Effects.GroupGranted | go/internal/store/sqlite/store_authz_membership.go:135-165 | adds just the grant; Conflict exactly when it is there, FKViolation exactly when an end is not in the domain |
| Effects.DomainDeleted | go/internal/store/sqlite/store_domains.go:60-73 | takes just the domain away exactly if it exists unreferenced, FKViolation exactly if referenced; a second delete is NotFound |
| Effects.UserDeleted | go/internal/store/sqlite/store_users.go:61-74 | takes just the user away exactly if it is in the domain without memberships and grants, FKViolation exactly with some; a second delete is NotFound |
| Effects.ResourceDeleted | go/internal/store/sqlite/store_resources.go:61-74 | takes just the resource away exactly if it is in the domain and no permission names it, FKViolation exactly if one does; a second delete is NotFound |
| Effects.GroupDeleted | go/internal/store/sqlite/store_groups.go:146-159 | takes just the group away exactly if it is in the domain without members, grants and children other than itself, FKViolation exactly with some; a second delete is NotFound |
| Effects.PermissionDeleted | go/internal/store/sqlite/store_permissions.go:73-86 | takes just the permission away exactly if it is in the domain and nobody is granted it, FKViolation exactly if somebody is; a second delete is NotFound |
| Effects.AccessTypeDeleted | go/internal/store/sqlite/store_access_types.go:69-82 | takes just the type away exactly if it is in the domain; a second delete is NotFound |
| Effects.MemberRemoved | go/internal/store/sqlite/store_authz_membership.go:35-74 | takes just the membership away exactly if it is there in the domain, NotFound otherwise |
| Effects.UserGrantRevoked | go/internal/store/sqlite/store_authz_membership.go:100-133 | takes just the grant away exactly if it is there in the domain, NotFound otherwise |
| Effects.GroupGrantRevoked | go/internal/store/sqlite/store_authz_membership.go:167-212 | takes just the grant away exactly if it is there in the domain, NotFound otherwise |
| Effects.DomainNeeded | go/migrations/sqlite/000002_restrict_foreign_keys.up.sql:26-95 | all keys still hold without a domain exactly when nothing references it |
| Effects.UserNeeded | go/migrations/sqlite/000003_composite_fk_cross_domain.up.sql:123-141 | all keys still hold without a user exactly when nothing references it |
| Effects.ResourceNeeded | go/migrations/sqlite/000003_composite_fk_cross_domain.up.sql:113-121 | all keys still hold without a resource exactly when no permission names it |
| Effects.GroupNeeded | go/migrations/sqlite/000003_composite_fk_cross_domain.up.sql:104-151 | all keys still hold without a group exactly when nothing but itself references it |
| Effects.PermissionNeeded | go/migrations/sqlite/000003_composite_fk_cross_domain.up.sql:133-151 | all keys still hold without a permission exactly when nobody is granted it |
| Effects.PermissionPatchSucceeds | go/internal/store/sqlite/store_permissions.go:88-160 | a non-empty patch succeeds exactly when the permission and the new resource are in the domain and the mask fits; otherwise NotFound or InvalidInput |
| Effects.PermissionPatchStores | go/internal/store/sqlite/store_permissions.go:121-134 | the row then has the asked title, resource and mask, each as before if not asked for (a negative mask as 0); no other row or table differs |
| Effects.PatchedMaskHeld | go/internal/store/sqlite/store_permissions.go:129-154 | every holder then has all bits of the asked mask on the permission's resource |
| Effects.AccessTypePatched | go/internal/store/sqlite/store_access_types.go:84-122 | a non-empty patch of a type of the domain stores the asked title and bit exactly when the bit fits and both stay unique, else InvalidInput or Conflict |
| RunTheorems.ReachableMasks | go/internal/store/sqlite/store_authz_masks.go:57-72 | after any run the cached read equals the OR of the held masks, for every triple |
| RunTheorems.ReconcileRepairs | go/internal/store/sqlite/store_authz_reconcile.go:10-69 | from any drifted cache, reconciliation ends where incremental maintenance is, and changes nothing on an exact one |
| RunTheorems.UndoRestores | go/internal/store/sqlite/store_authz_membership.go:9-212 | each of the six mutators is undone by its opposite: tables and cache as before |
| RunTheorems.GivingOnlyAdds | go/internal/store/sqlite/store_authz_membership.go:9-33 | grants and additions only add bits, for every triple |
| RunTheorems.TakingOnlyRemoves | go/internal/store/sqlite/store_authz_membership.go:35-74 | revocations and removals only remove bits |
| RunTheorems.GivenEndsStay | go/internal/api/integration_test.go:215-321 | after a membership or grant neither of its ends can be deleted, and making it again conflicts |
| RunTheorems.ForestKept | go/internal/store/sqlite/store_groups.go:11-187 | a transaction keeps the parent relation a forest exactly when it does not create a group naming itself |
| RunTheorems.RunForest | go/internal/store/sqlite/store_groups.go:95-187 | over every run within the step limit the parent relation stays a forest |
| RunTheorems.HomeResourcesKept | go/internal/store/sqlite/store_permissions.go:11-19 | permissions stay on resources of their domain exactly when no create names a foreign one |
| RunTheorems.HomeMasksStayInDomain | go/internal/store/sqlite/store_authz_masks.go:11-13 | then a non-zero mask puts the resource in the triple's domain too |
| RunTheorems.ForeignResourceReachable | go/migrations/sqlite/000003_composite_fk_cross_domain.up.sql:113-120 | two transactions give any user a mask on a resource of another domain |
| RunTheorems.SameDomainParentsKept | go/internal/store/sqlite/store_groups.go:11-21 | parents stay in their domain exactly when no create names a foreign one |
| GroupForest.WalkCycle | go/internal/store/sqlite/store_groups.go:110-124 | the walk reports a cycle exactly when it meets the group within its steps, through groups of the domain |
| GroupForest.WalkMissing | go/internal/store/sqlite/store_groups.go:110-124 | the walk reports a missing group exactly when the chain leaves the domain within its steps and before meeting the group |
| Effects.SetParentAnswers | go/internal/store/sqlite/store_groups.go:95-132 | which of success, self-parent, cycle and NotFound is answered, in terms of the ancestors of the new parent |
| Effects.ParentIsSet | go/internal/store/sqlite/store_groups.go:126-131 | a success gives the group exactly the asked parent as its first ancestor, or none, and changes nothing else |
| Effects.ClearingSucceeds | go/internal/store/sqlite/store_groups.go:95-132 | clearing the parent of an existing group always succeeds, alone or in a patch |
| Effects.GroupIsPatched | go/internal/store/sqlite/store_groups.go:161-187 | a success stores the asked title and parent, each as before if not asked for, and changes nothing else |
| Effects.GroupPatchErrors | go/internal/store/sqlite/store_groups.go:161-187 | a patch fails exactly when empty, when the group is missing, or as setting the parent alone would |
| GroupForest.CycleReportedExactly | go/internal/store/sqlite/store_groups.go:95-132 | with no more groups than steps, the error is raised exactly when the group is met through groups of the domain |
| GroupForest.CycleReportedIffAncestor | go/internal/store/sqlite/store_groups.go:95-132 | with parents in their domain: an error exactly for an ancestor-or-self of the new parent, success otherwise |
| GroupForest.RepointForest | go/internal/store/sqlite/store_groups.go:126-131 | an update of one parent keeps a forest exactly when the group is not an ancestor-or-self of the parent |
| GroupForest.SetParentKeepsForest | go/internal/store/sqlite/store_groups.go:95-132 | a successful update keeps the forest when the domain has no more groups than the walk has steps |
| GroupForest.SetParentBreaksForestExactly | go/internal/store/sqlite/store_groups.go:110-124 | without that bound, exactly when a successful update closes a cycle |
| GroupForest.StepLimitMissesCycle | go/internal/store/sqlite/store_groups.go:110-124 | the bound is tight: for every limit, one group more and a cycle is closed |
| GroupForest.InsertGroupForest | go/internal/store/sqlite/store_groups.go:11-21 | a new group joins the forest unless it names itself |
| GroupForest.DeleteGroupForest | go/internal/store/sqlite/store_groups.go:146-159 | deleting a group keeps the forest |
| SqliteStore.Tx.ComputeAndUpsertMask | go/internal/store/sqlite/store_authz_masks.go:80-122 | brings one cache row up to date and never fails |
| SqliteStore.Tx.RecomputeResources | go/internal/store/sqlite/store_authz_membership.go:22-31 | refreshes one user's rows on the listed resources and no other row |
| SqliteStore.Tx.RecomputeUsers | go/internal/store/sqlite/store_authz_membership.go:148-163 | refreshes the listed users' rows on one resource and no other row |
| SqliteStore.Tx.RecomputeHolders | go/internal/store/sqlite/store_permissions.go:140-154 | refreshes the holders' rows on the new resource, and on the old one if it moved |
| SqliteStore.Tx.RecomputeTriples | go/internal/store/sqlite/store_authz_reconcile.go:62-66 | refreshes the collected triples |
| SqliteStore.Tx.GroupSetParent | go/internal/store/sqlite/store_groups.go:95-132 | the loop computes the bounded walk's verdict and updates the row or leaves the tables alone |
| SqliteStore.Store.EffectiveMask | go/internal/store/sqlite/store_authz_masks.go:57-72 | reads the cache; on an exact cache that is the ground truth |
| SqliteStore.Store.PermissionMasksForUserResource | go/internal/store/sqlite/store_authz_masks.go:33-55 | one mask per held permission; their OR is the effective mask |
| SqliteStore.Store.AddUserToGroup | go/internal/store/sqlite/store_authz_membership.go:9-33 | the transaction's effect on tables and cache, or its error and no change |
| SqliteStore.Store.RemoveUserFromGroup | go/internal/store/sqlite/store_authz_membership.go:35-74 | likewise; the affected resources are read before the delete |
| SqliteStore.Store.GrantUserPermission | go/internal/store/sqlite/store_authz_membership.go:76-98 | likewise |
| SqliteStore.Store.RevokeUserPermission | go/internal/store/sqlite/store_authz_membership.go:100-133 | likewise |
| SqliteStore.Store.GrantGroupPermission | go/internal/store/sqlite/store_authz_membership.go:135-165 | likewise |
| SqliteStore.Store.RevokeGroupPermission | go/internal/store/sqlite/store_authz_membership.go:167-212 | likewise |
| SqliteStore.Store.PermissionCreate | go/internal/store/sqlite/store_permissions.go:11-19 | likewise; the cache needs no refresh |
| SqliteStore.Store.PermissionDelete | go/internal/store/sqlite/store_permissions.go:73-86 | likewise |
| SqliteStore.Store.PermissionPatch | go/internal/store/sqlite/store_permissions.go:88-160 | likewise, for every combination of title, resource and mask |
| SqliteStore.Store.ReconcileUserResourceMasks | go/internal/store/sqlite/store_authz_reconcile.go:15-69 | empties the cache and rebuilds it from the collected triples |
| SqliteStore.Store.GroupCreate | go/internal/store/sqlite/store_groups.go:11-21 | the transaction's effect, or its error and no change |
| SqliteStore.Store.GroupSetParent | go/internal/store/sqlite/store_groups.go:134-144 | likewise |
| SqliteStore.Store.GroupPatch | go/internal/store/sqlite/store_groups.go:161-187 | the transaction's effect, or its error and no change: a refused new parent also rolls the new title back; returns the group as it is afterwards |
| SqliteStore.Store.GroupDelete | go/internal/store/sqlite/store_groups.go:146-159 | the transaction's effect, or its error and no change |
| SqliteStore.Store.AccessTypeCreate | go/internal/store/sqlite/store_access_types.go:11-19 | likewise |
| SqliteStore.Store.AccessTypePatch | go/internal/store/sqlite/store_access_types.go:84-122 | the transaction's effect, or its error and no change; returns the type as it is afterwards |
| SqliteStore.Store.AccessTypeDelete | go/internal/store/sqlite/store_access_types.go:69-82 | likewise |
| SqliteStore.Store.DomainCreate | go/internal/store/sqlite/store_domains.go:11-14 | likewise |
| SqliteStore.Store.DomainDelete | go/internal/store/sqlite/store_domains.go:60-73 | likewise, with the cascade into the cache |
| SqliteStore.Store.UserCreate | go/internal/store/sqlite/store_users.go:11-15 | likewise |
| SqliteStore.Store.UserDelete | go/internal/store/sqlite/store_users.go:61-74 | likewise, with the cascade into the cache |
| SqliteStore.Store.ResourceCreate | go/internal/store/sqlite/store_resources.go:11-15 | likewise |
| SqliteStore.Store.ResourceDelete | go/internal/store/sqlite/store_resources.go:61-74 | likewise, with the cascade into the cache |
| SqliteStore.Store.UserAuthzResourcesList | go/internal/store/sqlite/store_authz_user_listing.go:30-92 | rows, order and total of the cache page; on an exact cache those of the ground truth |
| SqliteStore.Store.ResourceAuthzUsersList | go/internal/store/sqlite/store_authz_resource_listing.go:137-199 | likewise, for the users of a resource |
| SqliteStore.Store.GroupAuthzResourcesList | go/internal/store/sqlite/store_authz_group_listing.go:21-115 | the page of resources granted to a group, each with the OR of its positive masks |
| SqliteStore.Store.ResourceAuthzGroupsList | go/internal/store/sqlite/store_authz_resource_listing.go:31-131 | the page of groups granted a resource, each with the OR of its positive masks |
| Listings.ListingsTranspose | go/internal/store/sqlite/store_authz_resource_listing.go:133-199 | a resource is listed for a user with a mask exactly when the user is listed for the resource with it |
| Listings.CachedUserMasksExact | go/internal/store/sqlite/store_authz_user_listing.go:44-91 | on an exact cache the cached rows of a user are the ground truth's |
| Listings.CachedResourceMasksExact | go/internal/store/sqlite/store_authz_resource_listing.go:151-198 | likewise for a resource |
| Listings.RowCount | go/internal/store/sqlite/store_authz_user_listing.go:46-57 | counting cache rows counts distinct resources |
| Listings.EffectiveMaskDecomposes | go/internal/store/sqlite/store_authz_group_listing.go:78-113 | a user's mask is the directly granted masks ORed with what the listings report for the user's groups |
| Listings.GroupListingsTranspose | go/internal/store/sqlite/store_authz_resource_listing.go:31-131 | the two group listings are transposes, and list exactly the non-zero masks |
| Listings.UserPagesComplete | go/internal/store/sqlite/store_authz_user_listing.go:30-92 | calls at offsets 0, L, 2L, ... together return every (resource, mask) of the user, in order and once, as many as each call's total |
| Listings.ResourcePagesComplete | go/internal/store/sqlite/store_authz_resource_listing.go:137-199 | likewise for the users of a resource |
| Listings.GroupPagesComplete | go/internal/store/sqlite/store_authz_group_listing.go:21-115 | likewise for the resources of a group |
| Listings.ResourceGroupPagesComplete | go/internal/store/sqlite/store_authz_resource_listing.go:31-131 | likewise for the groups of a resource |
| Listings.ForeignRowListedOneWay | go/internal/store/sqlite/store_authz_resource_listing.go:137-150 | for a resource listed for a user, its own listing answers exactly when the resource is of that domain |
| Listings.ListingAnswers | go/internal/store/sqlite/store_authz_user_listing.go:30-48 | each of the four listings answers exactly for a user, group or resource of the domain and is NotFound otherwise |
| Listings.GroupHasBit | go/internal/store/sqlite/store_authz_group_listing.go:78-113 | a group is reported a bit exactly when a permission of the domain granted to it carries the bit |
| Listings.OrById | go/internal/store/postgres/store.go:1348-1363 | the loop ORs a batch into a map by id, whatever order the rows come in |
| PostgresStore.Store.EffectiveMask | go/internal/store/postgres/store.go:1385-1391 | the ground truth |
| PostgresStore.Store.UserAuthzResourcesList | go/internal/store/postgres/store.go:942-1026 | the same result as the SQLite call on an exact cache, for every offset and limit |
| PostgresStore.Store.ResourceAuthzUsersList | go/internal/store/postgres/store.go:1254-1346 | likewise |
| PostgresStore.UserBatchComplete | go/internal/store/postgres/store.go:927-940 | the batched query gives every resource of the page its effective mask |
| PostgresStore.ResourceBatchComplete | go/internal/store/postgres/store.go:1310-1338 | the direct and the indirect batch together give every user of the page the effective mask |
| Ordering.OrderBy | go/internal/store/postgres/store.go:966-972 | the ids in ascending order, each once |
| Ordering.AscendingUnique | go/internal/store/sqlite/store.go:138-140 | a strict order leaves one way to list a set of rows |
| Ordering.RowOrderStrict | go/internal/store/sqlite/store.go:141-159 | column then id, in either direction, is a strict order |
| Ordering.RowOrderExactly | go/internal/store/sqlite/store.go:141-159 | different columns decide in the asked direction, equal ones leave it to the ids in the same direction; of two rows exactly one comes first |
| Ordering.LessExactly | go/internal/store/sqlite/store.go:138-140 | text order is dictionary order: a proper prefix first, else the smaller character at the first difference |
| Ordering.ListingDeterministic | go/internal/store/sqlite/store.go:138-159 | two executions return the rows in the same order, so pages from different executions tile |
| Ordering.PagesTile | go/internal/store/store.go:189-203 | pages at offsets 0, L, 2L, ... follow each other without gap or repeat |
| Ordering.PagingComplete | go/internal/store/store.go:189-203 | whatever limit is asked for, paging with the sanitised limit returns the whole list |
| Ordering.Sanitize | go/internal/store/store.go:189-203 | the limit is 1 to 100, 20 if none was asked for, and the offset not negative; valid options are left alone |
| LikePatterns.EscapedPrefix | go/internal/store/sqlite/store.go:105-107 | an escaped string matches itself and nothing else, percent, underscore and backslash included |
| LikePatterns.SearchIsLiteral | go/internal/store/sqlite/store.go:161-175 | LIKE accepts the pattern exactly for titles that contain, start with or end with the search string |
| LikePatterns.AgreeIffSameOn | go/internal/store/store.go:168-170 | two ways of comparing characters give the same results on every title exactly when they treat every character of the search string alike |
| LikePatterns.StoresAgreeIffNoLetters | go/internal/store/sqlite/store.go:161-175 | SQLite's and Postgres's LIKE agree on every title exactly for search strings without ASCII letters |
| LikePatterns.AccentsAreNotFolded | go/internal/store/store.go:168-170 | neither store ignores the case of a letter beyond ASCII |
| AccessBits.SingleHasPosition | go/internal/api/server_access_types_v2.go:62-71 | the bits the request check lets in are exactly the 63 powers 2^0 to 2^62 |
| AccessBits.SharedPosition | go/internal/access/mask.go:21-26 | two masks share a bit exactly when they share a position |
| AccessBits.DifferencePositions | go/internal/access/enum.go:51-57 | removing the covered bits removes exactly their positions |
| TitleCodec.MaskToTitles | go/internal/access/enum.go:36-61 | sorted: the titles of the types sharing a bit, and a stand-in for each position no such type covers |
| TitleTexts.DecimalReads | go/internal/access/enum.go:53-55 | what is written is digits without a leading zero whose value, read digit by digit, is the number |
| TitleTexts.SentinelText | go/internal/access/enum.go:53-55 | the stand-in of a position is the one text `_bit:` and the decimal value of its bit |
| TitleTexts.ListedExactly | go/internal/access/enum.go:36-61 | a text is listed exactly when it is the title of a type sharing a bit, or stands for the value of a bit of the mask that no type has |
| TitleTexts.EveryBitShown | go/internal/access/enum.go:36-61 | every single bit of a mask is shown, by the title of a type that has it or else under its value |
| TitleCodec.TitlesToMask | go/internal/access/enum.go:72-93 | the OR of the titles' bits, or the first unknown title |
| TitleTexts.FirstUnknownRefused | go/internal/access/enum.go:84-91 | a list is refused for its first title without a bit, whatever follows |
| TitleTexts.LookupExactly | go/internal/access/enum.go:77-82 | a title stands for the bit of the last type that has the title and a non-zero bit |
| TitleCodec.AllocateNextBit | go/internal/access/enum.go:100-112 | the allocation from the positions the types take |
| TitleCodec.FirstFreeLowest | go/internal/access/enum.go:105-111 | the position found is the lowest free one; the scan fails only if all 63 are taken |
| TitleTheorems.MaskRoundTrip | go/internal/access/enum.go:36-93 | mask to titles and back gives the mask exactly when the registered bits cover it, and else fails on a stand-in title |
| TitleTheorems.TitlesRoundTrip | go/internal/access/enum.go:36-93 | titles to mask and back gives the same titles, sorted and each once |
| TitleTheorems.TitleListedExactly | go/internal/access/enum.go:36-61 | when a registered title is listed, with no assumption on how titles look |
| TitleTheorems.TitleTrustedExactly | go/internal/access/enum.go:26-30 | the title of a listed type means its bit on every mask exactly when it is not the stand-in of a free bit |
| TitleTheorems.MissingTrustedExactly | go/internal/access/enum.go:36-61 | the title of a type missing from the list means its bit only if the type has no bit and its title is no stand-in, or its title is the stand-in of just its bit |
| TitleTheorems.SentinelInjective | go/internal/access/enum.go:51-57 | no two bits share a stand-in |
| TitleTheorems.TitleListedIffPermissionHeld | go/internal/api/server_authz_v2.go:195-215 | a title is listed exactly when a held permission shares a bit with its type |
| AuthzTheorems.VersionsAgree | go/internal/api/server_authz_v2.go:195-215 | after any run, for every type of the domain: v1 allows its bit exactly when a held permission has it; and v2 lists its title exactly then, if the title can be trusted |
| AuthzTheorems.CanTrustExactly | go/internal/api/server_access_types_v2.go:33-38 | for every registered type, loaded or cut off: v2 lists its title on exactly the masks with its bit if and only if the stated condition on title, bit and load holds |
| AuthzTheorems.UnloadedTitleRefused | go/internal/access/enum.go:72-93 | writing a mask with a title that is cut off fails |
| CrowdedRuns.LimitHidesTitle | go/internal/api/server_authz.go:208-213 | a reachable state with 64 types in which v1 allows a registered type's bit and v2 does not list its title |
| AccessTypeTable.AtMost63 | go/internal/api/server_access_types_v2.go:33-38 | a domain holds at most 63 single-bit types |
| AccessTypeTable.LoadComplete | go/internal/api/server_access_types_v2.go:33-38 | whatever bits are stored, the limit cuts nothing off exactly when the domain has at most 63 types |
| AccessTypeTable.LoadedIffPreceded | go/internal/store/sqlite/store_access_types.go:21-53 | a type is loaded exactly when fewer than 63 titles of the domain precede its own |
| AccessTypeTable.LoadExactly | go/internal/store/sqlite/store_access_types.go:21-53 | what a load returns: those types, negative bits read as 0 |
| AccessTypeTable.LoadedPositionsWithin | go/internal/access/enum.go:100-104 | the allocator sees the positions of the loaded types and no others |
| AccessTypeTable.LoadDomainAccessTypes | go/internal/store/sqlite/store_access_types.go:21-53 | the rows of the domain in title order, cut at the limit |
| AccessTypeTable.AllocationRoomy | go/internal/access/enum.go:95-112 | with at most 63 types of any bits: the lowest position none of them has, or all 63 are taken |
| AccessTypeTable.AllocationExact | go/internal/access/enum.go:95-112 | among single-bit types allocation fails exactly with 63 of them; otherwise it gives the lowest bit none of them has |
| CreateProtocol.RunSound | go/internal/api/server_access_types_v2.go:53-136 | in every interleaving, whatever bits v1 creates and patches store: keys hold, and no request makes more than three inserts, each with a single bit |
| CreateProtocol.NextSafeExactly | go/internal/api/server_access_types.go:23-112 | stored bits stay single through an event exactly when it is no accepted v1 create or patch with another kind of bit |
| CreateProtocol.RunSafe | go/internal/api/server_access_types_v2.go:53-136 | in every interleaving in which v1 creates and patches ask for single bits, stored bits are single, within 2^0 to 2^62 and unique per domain |
| CreateProtocol.StoredBitsDisjoint | go/internal/api/server_access_types_v2.go:68-71 | stored bits of a domain are pairwise disjoint |
| CreateProtocol.RunProgress | go/internal/api/server_access_types_v2.go:86-136 | each own store call uses up one of at most six, nothing else moves a request, an answer is final |
| CreateProtocol.AnsweredAfterSixCalls | go/internal/api/server_access_types_v2.go:86-136 | after six store calls every request is answered |
| CreateProtocol.RunAscends | go/internal/api/server_access_types_v2.go:114-135 | while no type is deleted or patched to a bit and no domain has more types than a load returns: everything below a request's bit stays taken |
| CreateProtocol.RunHeld | go/internal/api/server_access_types_v2.go:91-112 | while no type is deleted or patched to a bit, a bit that was refused for itself stays held |
| CreateProtocol.SameBitMeansTitle | go/internal/api/server_access_types_v2.go:130-135 | in such a state, the same bit again means that the title collided or that the bit's holder is cut off |
| CreateRequest.AccessTypeCreate | go/internal/api/server_access_types_v2.go:40-137 | the retry loop takes the request through the step machine to its answer, whatever the tables are at each call |
| CreateAnswers.BadRequestExactly | go/internal/api/server_access_types_v2.go:55-68 | BadRequest is the answer exactly to an explicit bit that is not one of the 63, whatever the tables |
| CreateAnswers.ExplicitAnswer | go/internal/api/server_access_types_v2.go:91-114 | any of the 63 bits is let in: the first store call answers Created with that bit exactly when the domain exists and has neither bit nor title, Conflict exactly on a clash |
| CreateAnswers.AllocatedMeans | go/internal/api/server_access_types_v2.go:69-83 | the bit allocated is the lowest none of the loaded types has; none exactly when they have all 63 |
| CreateAnswers.StillTries | go/internal/api/server_access_types_v2.go:88-137 | the inserts a request makes, in order; after two refusals and two new bits it makes a third |
| CreateAnswers.AnswerMeans | go/internal/api/server_access_types_v2.go:69-137 | each answer to a request without a bit is given exactly when the tables its calls met are as it says: Created, AllBitsExhausted, Conflict, missing domain |
| CreateAnswers.AnswerInRunMeans | go/internal/api/server_access_types_v2.go:53-137 | the same in every interleaving, from the arrival of the request on |
| CreateAnswers.EventIsTransaction | go/internal/api/server_access_types_v2.go:91-93 | the events of the protocol that write types change them as the store transactions do |
| CreateRequest.RunIsClientRun | go/internal/api/server_access_types_v2.go:86-136 | in any interleaving a request ends where its own store calls take it |
| CreateRequest.AnswerInRun | go/internal/api/server_access_types_v2.go:40-137 | a request that gets its six calls in a run is answered there with what the retry loop returns on them |
| CreateRequest.NothingFreedRun | go/internal/api/server_access_types_v2.go:114-135 | over every run in which no type is deleted or patched to a bit, whatever bits are stored: the same bit again means that the title collided, unless the bit's holder is cut off, for which it takes more than 63 types |
| CreateRequest.RoomyRunClimbs | go/internal/api/server_access_types_v2.go:114-135 | over every such run in which no domain has more than 63 types, or only single bits are stored, the bits one request tries strictly increase |
| CreateRequest.SameBitVerdict | go/internal/api/server_access_types_v2.go:130-135 | over every run, whatever is stored: with the same bit again, the bit was a cause exactly when a type that held it was deleted, patched to another bit or is cut off; if not, the title was |
| CreateRequest.FreedBitMisleads | go/internal/api/server_access_types_v2.go:130-135 | two runs, with a deletion and with a patch, in which a request is refused although its title was never taken and its bit is free |
| CrowdedRuns.HiddenHolderMisleads | go/internal/api/server_access_types_v2.go:130-135 | a run that frees nothing, in which a request is refused although its title was never taken, because the holder of its bit is cut off |
| CreateRequest.CreatedStays | go/internal/api/server_access_types_v2.go:91-104 | who is told Created has its row, with its title and that bit, until somebody deletes or patches it |

## Left out

- HTTP routing, JSON, bearer authentication, CORS, metrics, audit log, configuration: plumbing around the modelled calls. The check that a title is not blank is among it.
- SQL text, placeholders and the classification of driver errors: tables and result sets are maps and sets.
- Driver and I/O errors and cancelled contexts: only the errors the database's contents cause are modelled. A rolled-back transaction changes nothing by construction.
- Migrations: the model starts from the final schema.
- The MySQL store: its algorithms are those of Postgres. Of Postgres, the group listings and the writes: the former are the queries modelled for SQLite, the latter the same statements without a cache.
- Plain gets, lists and title patches of domains, users and resources (so three of the store's transactions are no steps of a run), and the titles of these tables; list filters of permissions and groups.
- Zero and multi-bit access types: v1 creates and patches may store them in the creation protocol (`CreateProtocol.RunSound`), and the loads, the title lists and the same-bit results allow them; `CreateProtocol.RunSafe` and the round trips ask for single bits, `CreateRequest.RoomyRunClimbs` for those or for at most 63 types.
- Concurrent transactions on Postgres and MySQL, and totals that disagree with pages under concurrent writes.
- Inheritance through parent groups: not implemented in the source either.
- Collations beyond code-point order, and case folding beyond ASCII letters.
- TitleTheorems.MaskRoundTrip: for masks below 2^63; the source's own scan ignores the top bit, so a mask with it cannot come back.
- SqliteStore.Tx.GroupSetParent: the refusal of a parent of another domain after it was fetched is not a branch of its own, because the fetch already filters by domain.
- CreateRequest.AccessTypeCreate: the tables each store call meets are given as a list of at least six; AnswerInRun takes them from a run.
