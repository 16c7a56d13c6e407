/** Every transaction of the SQLite store as a change of the whole database, and what holds over
    all sequences of them. The pool has one connection, so a run is a sequence of transactions. */
module Transactions {
  import opened Basics
  import opened Masks
  import opened Schema
  import opened GroundTruth
  import opened PermissionCache
  import opened GroupForest

  datatype Db = Db(t: Tables, cache: Cache)

  datatype Op =
    | DomainCreate(id: Id)
    | DomainDelete(id: Id)
    | UserCreate(domain: Id, id: Id)
    | UserDelete(domain: Id, id: Id)
    | ResourceCreate(domain: Id, id: Id)
    | ResourceDelete(domain: Id, id: Id)
    | GroupCreate(id: Id, group: Group)
    | GroupSetParent(domain: Id, id: Id, parent: Option<Id>)
    | GroupPatch(domain: Id, id: Id, title: Option<string>, updateParent: bool, parent: Option<Id>)
    | GroupDelete(domain: Id, id: Id)
    | AccessTypeCreate(id: Id, accessType: AccessType)
    | AccessTypePatch(domain: Id, id: Id, title: Option<string>, bit: Option<bv64>)
    | AccessTypeDelete(domain: Id, id: Id)
    | PermissionCreate(id: Id, row: Permission)
    | PermissionPatch(domain: Id, id: Id, title: Option<string>, resource: Option<Id>, mask: Option<bv64>)
    | PermissionDelete(domain: Id, id: Id)
    | AddUserToGroup(domain: Id, user: Id, groupId: Id)
    | RemoveUserFromGroup(domain: Id, user: Id, groupId: Id)
    | GrantUserPermission(domain: Id, user: Id, permission: Id)
    | RevokeUserPermission(domain: Id, user: Id, permission: Id)
    | GrantGroupPermission(domain: Id, groupId: Id, permission: Id)
    | RevokeGroupPermission(domain: Id, groupId: Id, permission: Id)
    | Reconcile

  function PatchGroup(t: Tables, d: Id, id: Id, title: Option<string>, updateParent: bool, parent: Option<Id>): Result<Tables> {
    if title.None? && !updateParent then Err(EmptyPatch)
    else if !GroupIn(t, d, id) then Err(NotFound)
    else
      var titled :- if title.Some? then UpdateGroup(t, id, title.value, t.groups[id].parent) else Ok(t);
      if updateParent then SetParent(titled, d, id, parent, MAX_STEPS) else Ok(titled)
  }

  function CreateAccessType(t: Tables, id: Id, a: AccessType): Result<map<Id, AccessType>> {
    var bit :- ToSql(a.bit);
    InsertAccessType(t.accessTypes, t.domains, id, a.(bit := bit))
  }

  function WithAccessTypes(t: Tables, r: Result<map<Id, AccessType>>): Result<Tables> {
    var rows :- r;
    Ok(t.(accessTypes := rows))
  }

  function CreatePermission(t: Tables, id: Id, p: Permission): Result<Tables> {
    var mask :- ToSql(p.mask);
    InsertPermission(t, id, p.(mask := mask))
  }

  /** The checks and the UPDATE of PermissionPatch. */
  function PatchPermission(t: Tables, d: Id, id: Id, title: Option<string>, resource: Option<Id>, mask: Option<bv64>)
    : Result<Tables>
  {
    if title.None? && resource.None? && mask.None? then Err(EmptyPatch)
    else if !PermissionIn(t, d, id) then Err(NotFound)
    else if resource.Some? && !ResourceIn(t, d, resource.value) then Err(NotFound)
    else
      var stored :- ToSql(if mask.Some? then mask.value else FromSql(t.permissions[id].mask));
      UpdatePermission(t, id,
        if title.Some? then title.value else t.permissions[id].title,
        if resource.Some? then resource.value else t.permissions[id].resource,
        stored)
  }

  /** The source tables after the transaction, or the error that rolls it back. */
  function TablesAfter(t: Tables, op: Op): Result<Tables> {
    match op
    case DomainCreate(id) => InsertDomain(t, id)
    case DomainDelete(id) => DeleteDomain(t, id)
    case UserCreate(d, id) => InsertUser(t, d, id)
    case UserDelete(d, id) => DeleteUser(t, d, id)
    case ResourceCreate(d, id) => InsertResource(t, d, id)
    case ResourceDelete(d, id) => DeleteResource(t, d, id)
    case GroupCreate(id, row) => InsertGroup(t, id, row)
    case GroupSetParent(d, id, parent) => SetParent(t, d, id, parent, MAX_STEPS)
    case GroupPatch(d, id, title, updateParent, parent) => PatchGroup(t, d, id, title, updateParent, parent)
    case GroupDelete(d, id) => DeleteGroup(t, d, id)
    case AccessTypeCreate(id, a) => WithAccessTypes(t, CreateAccessType(t, id, a))
    case AccessTypePatch(d, id, title, bit) => WithAccessTypes(t, PatchAccessType(t.accessTypes, d, id, title, bit))
    case AccessTypeDelete(d, id) => WithAccessTypes(t, DeleteAccessType(t.accessTypes, d, id))
    case PermissionCreate(id, p) => CreatePermission(t, id, p)
    case PermissionPatch(d, id, title, resource, mask) => PatchPermission(t, d, id, title, resource, mask)
    case PermissionDelete(d, id) => DeletePermission(t, d, id)
    case AddUserToGroup(d, u, g) => InsertMember(t, d, Membership(u, g))
    case RemoveUserFromGroup(d, u, g) => DeleteMember(t, d, Membership(u, g))
    case GrantUserPermission(d, u, p) => InsertUserGrant(t, d, UserGrant(u, p))
    case RevokeUserPermission(d, u, p) => DeleteUserGrant(t, d, UserGrant(u, p))
    case GrantGroupPermission(d, g, p) => InsertGroupGrant(t, d, GroupGrant(g, p))
    case RevokeGroupPermission(d, g, p) => DeleteGroupGrant(t, d, GroupGrant(g, p))
    case Reconcile => Ok(t)
  }

  /** The cache rows the transaction recomputes. */
  function Touched(t: Tables, op: Op): set<Triple> {
    match op
    case AddUserToGroup(d, u, g) => UserRows(d, u, GroupResourceIds(t, d, g))
    case RemoveUserFromGroup(d, u, g) => UserRows(d, u, GroupResourceIds(t, d, g))
    case GrantUserPermission(d, u, p) => GrantRows(t, d, {u}, p)
    case RevokeUserPermission(d, u, p) => GrantRows(t, d, {u}, p)
    case GrantGroupPermission(d, g, p) => GrantRows(t, d, GroupMemberIds(t, d, g), p)
    case RevokeGroupPermission(d, g, p) => GrantRows(t, d, GroupMemberIds(t, d, g), p)
    case PermissionPatch(d, id, title, resource, mask) =>
      if resource.None? && mask.None? then {}
      else
        GrantRows(t, d, HolderIds(t, d, id), id)
        + (if resource.Some? then ResourceRows(d, HolderIds(t, d, id), resource.value) else {})
    case Reconcile => HeldTriples(t)
    case _ => {}
  }

  function GrantRows(t: Tables, domain: Id, users: set<Id>, permission: Id): set<Triple> {
    if PermissionIn(t, domain, permission) then ResourceRows(domain, users, t.permissions[permission].resource) else {}
  }

  /** Cache rows whose domain, user or resource the transaction deletes (ON DELETE CASCADE). */
  predicate Orphaned(op: Op, k: Triple) {
    match op
    case DomainDelete(id) => k.domain == id
    case UserDelete(d, id) => k.user == id
    case ResourceDelete(d, id) => k.resource == id
    case _ => false
  }

  /** The cache the recomputation starts from. */
  function CacheBefore(cache: Cache, op: Op): Cache {
    if op.Reconcile? then map[]
    else if op.DomainDelete? || op.UserDelete? || op.ResourceDelete? then map k | k in cache && !Orphaned(op, k) :: cache[k]
    else cache
  }

  /** The cache once the tables are t'. */
  ghost function CacheAfter(db: Db, op: Op, t': Tables): Cache {
    Refresh(t', CacheBefore(db.cache, op), Touched(db.t, op))
  }

  /** A whole transaction: Err means rolled back, nothing changed. */
  ghost function Apply(db: Db, op: Op): Result<Db> {
    var t :- TablesAfter(db.t, op);
    Ok(Db(t, CacheAfter(db, op, t)))
  }

  ghost function Step(db: Db, op: Op): Db {
    if Apply(db, op).Ok? then Apply(db, op).value else db
  }

  ghost function Run(db: Db, ops: seq<Op>): Db {
    if ops == [] then db else Step(Run(db, ops[..|ops| - 1]), ops[|ops| - 1])
  }

  lemma PatchGroupKeys(t: Tables, d: Id, id: Id, title: Option<string>, updateParent: bool, parent: Option<Id>)
    requires Consistent(t) && PatchGroup(t, d, id, title, updateParent, parent).Ok?
    ensures Consistent(PatchGroup(t, d, id, title, updateParent, parent).value)
  {
  }

  lemma AccessTypeKeysKept(t: Tables, rows: map<Id, AccessType>)
    requires Consistent(t) && UniqueAccessTypes(rows) && AccessTypeKeys(rows, t.domains)
    ensures Consistent(t.(accessTypes := rows))
  {
  }

  lemma EntityKeysKept(t: Tables, op: Op)
    requires LeavesGrants(op) && Consistent(t) && TablesAfter(t, op).Ok?
    ensures Consistent(TablesAfter(t, op).value)
  {
    match op
    case GroupPatch(d, id, title, updateParent, parent) => PatchGroupKeys(t, d, id, title, updateParent, parent);
    case AccessTypeCreate(id, a) => AccessTypeKeysKept(t, CreateAccessType(t, id, a).value);
    case AccessTypePatch(d, id, title, bit) => AccessTypeKeysKept(t, PatchAccessType(t.accessTypes, d, id, title, bit).value);
    case AccessTypeDelete(d, id) => AccessTypeKeysKept(t, DeleteAccessType(t.accessTypes, d, id).value);
    case _ =>
  }

  lemma GrantKeysKept(t: Tables, op: Op)
    requires !LeavesGrants(op) && Consistent(t) && TablesAfter(t, op).Ok?
    ensures Consistent(TablesAfter(t, op).value)
  {
  }

  /** No transaction breaks a key. */
  lemma ConsistentKept(t: Tables, op: Op)
    requires Consistent(t) && TablesAfter(t, op).Ok?
    ensures Consistent(TablesAfter(t, op).value)
  {
    if LeavesGrants(op) { EntityKeysKept(t, op); } else { GrantKeysKept(t, op); }
  }

  // ---- the cache stays exact ----

  lemma SameGrantTables(t: Tables, t': Tables, k: Triple)
    requires SameGrants(t, t')
    ensures GroundMask(t, k) == GroundMask(t', k)
  {
    assert forall p :: Held(t, k.user, p) <==> Held(t', k.user, p);
    GroundUnchanged(t, t', k);
  }

  lemma RemoveOutside(t: Tables, t': Tables, d: Id, m: Membership, k: Triple)
    requires ForeignKeys(t) && DeleteMember(t, d, m) == Ok(t')
    requires k !in UserRows(d, m.user, GroupResourceIds(t, d, m.group))
    ensures GroundMask(t', k) == GroundMask(t, k)
  {
    MemberUndo(t, d, m);
    MemberOutside(t', t, d, m, k);
  }

  lemma RevokeUserOutside(t: Tables, t': Tables, d: Id, g: UserGrant, k: Triple)
    requires ForeignKeys(t) && DeleteUserGrant(t, d, g) == Ok(t')
    requires k !in GrantRows(t, d, {g.user}, g.permission)
    ensures GroundMask(t', k) == GroundMask(t, k)
  {
    UserGrantUndo(t, d, g);
    RowsOfOne(d, g.user, t.permissions[g.permission].resource);
    UserGrantOutside(t', t, d, g, k);
  }

  lemma RevokeGroupOutside(t: Tables, t': Tables, d: Id, g: GroupGrant, k: Triple)
    requires ForeignKeys(t) && DeleteGroupGrant(t, d, g) == Ok(t')
    requires k !in GrantRows(t, d, GroupMemberIds(t, d, g.group), g.permission)
    ensures GroundMask(t', k) == GroundMask(t, k)
  {
    GroupGrantUndo(t, d, g);
    GroupGrantOutside(t', t, d, g, k);
  }

  lemma AddOutside(t: Tables, t': Tables, d: Id, m: Membership, k: Triple)
    requires ForeignKeys(t) && InsertMember(t, d, m) == Ok(t')
    requires k !in UserRows(d, m.user, GroupResourceIds(t, d, m.group))
    ensures GroundMask(t', k) == GroundMask(t, k)
  {
    assert GroupResourceIds(t', d, m.group) == GroupResourceIds(t, d, m.group);
    MemberOutside(t, t', d, m, k);
  }

  lemma GrantUserOutside(t: Tables, t': Tables, d: Id, g: UserGrant, k: Triple)
    requires ForeignKeys(t) && InsertUserGrant(t, d, g) == Ok(t')
    requires k !in GrantRows(t, d, {g.user}, g.permission)
    ensures GroundMask(t', k) == GroundMask(t, k)
  {
    RowsOfOne(d, g.user, t.permissions[g.permission].resource);
    UserGrantOutside(t, t', d, g, k);
  }

  lemma GrantGroupOutside(t: Tables, t': Tables, d: Id, g: GroupGrant, k: Triple)
    requires ForeignKeys(t) && InsertGroupGrant(t, d, g) == Ok(t')
    requires k !in GrantRows(t, d, GroupMemberIds(t, d, g.group), g.permission)
    ensures GroundMask(t', k) == GroundMask(t, k)
  {
    assert GroupMemberIds(t', d, g.group) == GroupMemberIds(t, d, g.group);
    GroupGrantOutside(t, t', d, g, k);
  }

  lemma PatchOutside(t: Tables, d: Id, id: Id, title: Option<string>, resource: Option<Id>, mask: Option<bv64>, k: Triple)
    requires Consistent(t) && TablesAfter(t, PermissionPatch(d, id, title, resource, mask)).Ok?
    requires k !in Touched(t, PermissionPatch(d, id, title, resource, mask))
    ensures GroundMask(TablesAfter(t, PermissionPatch(d, id, title, resource, mask)).value, k) == GroundMask(t, k)
  {
    var t' := TablesAfter(t, PermissionPatch(d, id, title, resource, mask)).value;
    var row := t'.permissions[id];
    if resource.None? && mask.None? {
      SqlRoundTrip(FromSql(t.permissions[id].mask));
      TitlePatchOutside(t, t', id, row.title, k);
    } else {
      assert HolderIds(t', d, id) == HolderIds(t, d, id);
      PermissionOutside(t, t', d, id, row.title, row.resource, row.mask, k);
    }
  }

  lemma CreatePermissionOutside(t: Tables, id: Id, row: Permission, k: Triple)
    requires Consistent(t) && TablesAfter(t, PermissionCreate(id, row)).Ok?
    ensures GroundMask(TablesAfter(t, PermissionCreate(id, row)).value, k) == GroundMask(t, k)
  {
    UnheldPermissionOutside(t, TablesAfter(t, PermissionCreate(id, row)).value, id, row.(mask := ToSql(row.mask).value), k);
  }

  lemma DeletePermissionOutside(t: Tables, d: Id, id: Id, k: Triple)
    requires Consistent(t) && TablesAfter(t, PermissionDelete(d, id)).Ok?
    ensures GroundMask(TablesAfter(t, PermissionDelete(d, id)).value, k) == GroundMask(t, k)
  {
    var t' := DeletePermission(t, d, id).value;
    assert t.permissions == t'.permissions[id := t.permissions[id]];
    UnheldPermissionOutside(t', t, id, t.permissions[id], k);
  }

  /** The transactions that touch neither permissions nor the junction tables. */
  predicate LeavesGrants(op: Op) {
    || op.DomainCreate? || op.DomainDelete? || op.UserCreate? || op.UserDelete? || op.ResourceCreate? || op.ResourceDelete?
    || op.GroupCreate? || op.GroupSetParent? || op.GroupPatch? || op.GroupDelete?
    || op.AccessTypeCreate? || op.AccessTypePatch? || op.AccessTypeDelete? || op.Reconcile?
  }

  predicate SameGrants(t: Tables, t': Tables) {
    && t'.permissions == t.permissions && t'.members == t.members
    && t'.userGrants == t.userGrants && t'.groupGrants == t.groupGrants
  }

  predicate OnlyGroups(t: Tables, t': Tables) {
    t' == t.(groups := t'.groups)
  }

  lemma GroupPatchOnlyGroups(t: Tables, d: Id, id: Id, title: Option<string>, updateParent: bool, parent: Option<Id>)
    requires TablesAfter(t, GroupPatch(d, id, title, updateParent, parent)).Ok?
    ensures OnlyGroups(t, TablesAfter(t, GroupPatch(d, id, title, updateParent, parent)).value)
  {
  }

  lemma SetParentOnlyGroups(t: Tables, d: Id, id: Id, parent: Option<Id>)
    requires TablesAfter(t, GroupSetParent(d, id, parent)).Ok?
    ensures OnlyGroups(t, TablesAfter(t, GroupSetParent(d, id, parent)).value)
  {
  }

  lemma GrantTablesKept(t: Tables, op: Op)
    requires LeavesGrants(op) && TablesAfter(t, op).Ok?
    ensures SameGrants(t, TablesAfter(t, op).value)
  {
    match op
    case GroupSetParent(d, id, parent) => SetParentOnlyGroups(t, d, id, parent);
    case GroupPatch(d, id, title, updateParent, parent) => GroupPatchOnlyGroups(t, d, id, title, updateParent, parent);
    case _ =>
  }

  /** The affected sets are sound: outside them no effective mask changes, for any stored int64 masks. */
  lemma OutsideUnchanged(t: Tables, op: Op, k: Triple)
    requires Consistent(t) && TablesAfter(t, op).Ok? && k !in Touched(t, op)
    ensures GroundMask(TablesAfter(t, op).value, k) == GroundMask(t, k)
  {
    var t' := TablesAfter(t, op).value;
    if LeavesGrants(op) {
      GrantTablesKept(t, op);
      SameGrantTables(t, t', k);
    } else {
      match op
      case AddUserToGroup(d, u, g) => AddOutside(t, t', d, Membership(u, g), k);
      case RemoveUserFromGroup(d, u, g) => RemoveOutside(t, t', d, Membership(u, g), k);
      case GrantUserPermission(d, u, p) => GrantUserOutside(t, t', d, UserGrant(u, p), k);
      case RevokeUserPermission(d, u, p) => RevokeUserOutside(t, t', d, UserGrant(u, p), k);
      case GrantGroupPermission(d, g, p) => GrantGroupOutside(t, t', d, GroupGrant(g, p), k);
      case RevokeGroupPermission(d, g, p) => RevokeGroupOutside(t, t', d, GroupGrant(g, p), k);
      case PermissionPatch(d, id, title, resource, mask) => PatchOutside(t, d, id, title, resource, mask, k);
      case PermissionCreate(id, row) => CreatePermissionOutside(t, id, row, k);
      case PermissionDelete(d, id) => DeletePermissionOutside(t, d, id, k);
    }
  }

  /** No row of an exact cache is orphaned by a delete the foreign keys let through. */
  lemma OrphansHaveNoMask(t: Tables, op: Op, k: Triple)
    requires Consistent(t) && TablesAfter(t, op).Ok? && Orphaned(op, k)
    ensures GroundMask(t, k) == 0
  {
    var t' := TablesAfter(t, op).value;
    OutsideUnchanged(t, op, k);
    if GroundMask(t, k) != 0 {
      NonZeroMaskStaysInDomain(t', k);
    }
  }

  lemma NothingOrphaned(db: Db, op: Op)
    requires Consistent(db.t) && TablesAfter(db.t, op).Ok? && Exact(db.t, db.cache) && !op.Reconcile?
    ensures CacheBefore(db.cache, op) == db.cache
  {
    forall k | k in db.cache ensures !Orphaned(op, k) {
      CachedNotOrphaned(db, op, k);
    }
    FilterNothing(db.cache, op);
  }

  lemma CachedNotOrphaned(db: Db, op: Op, k: Triple)
    requires Consistent(db.t) && TablesAfter(db.t, op).Ok? && Exact(db.t, db.cache) && k in db.cache
    ensures !Orphaned(op, k)
  {
    assert CacheAt(db.cache, k) == GroundMask(db.t, k);
    if Orphaned(op, k) { OrphansHaveNoMask(db.t, op, k); }
  }

  lemma FilterNothing(cache: Cache, op: Op)
    requires forall k | k in cache :: !Orphaned(op, k)
    requires !op.Reconcile?
    ensures CacheBefore(cache, op) == cache
  {
  }

  lemma RepairedExact(db: Db, op: Op, t': Tables)
    requires Consistent(db.t) && TablesAfter(db.t, op) == Ok(t') && Exact(db.t, db.cache)
    ensures Exact(t', Refresh(t', db.cache, Touched(db.t, op)))
  {
    forall k | k !in Touched(db.t, op) ensures GroundMask(t', k) == GroundMask(db.t, k) {
      OutsideUnchanged(db.t, op, k);
    }
    RefreshKeepsExact(db.t, t', db.cache, Touched(db.t, op));
  }

  lemma CacheAfterExact(db: Db, op: Op, t': Tables)
    requires Consistent(db.t) && TablesAfter(db.t, op) == Ok(t')
    requires Exact(db.t, db.cache) || op.Reconcile?
    ensures Exact(t', CacheAfter(db, op, t'))
  {
    if op.Reconcile? {
      RebuildExact(db.t);
    } else {
      NothingOrphaned(db, op);
      RepairedExact(db, op, t');
    }
  }

  /** One transaction keeps the cache exact; Reconcile makes it exact whatever it was. */
  lemma ExactKept(db: Db, op: Op)
    requires Consistent(db.t) && Apply(db, op).Ok?
    requires Exact(db.t, db.cache) || op.Reconcile?
    ensures Consistent(Apply(db, op).value.t) && Exact(Apply(db, op).value.t, Apply(db, op).value.cache)
  {
    ConsistentKept(db.t, op);
    CacheAfterExact(db, op, TablesAfter(db.t, op).value);
  }

  /** Over every run, from any consistent database with an exact cache (legacy negative masks included). */
  lemma {:induction false} RunExact(db: Db, ops: seq<Op>)
    requires Consistent(db.t) && Exact(db.t, db.cache)
    ensures Consistent(Run(db, ops).t) && Exact(Run(db, ops).t, Run(db, ops).cache)
  {
    if ops != [] {
      var before := Run(db, ops[..|ops| - 1]);
      RunExact(db, ops[..|ops| - 1]);
      if Apply(before, ops[|ops| - 1]).Ok? {
        ExactKept(before, ops[|ops| - 1]);
      }
    }
  }
}
