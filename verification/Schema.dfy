/** The relational schema: tables, foreign keys, and the SQL statements the store issues.

    A table is a map from its primary key, so a key appears at most once. Every statement
    checks PRIMARY KEY / UNIQUE first (Conflict) and foreign keys second (FKViolation). */
module Schema {
  import opened Basics
  import opened Masks

  datatype Group = Group(domain: Id, title: string, parent: Option<Id>)
  datatype AccessType = AccessType(domain: Id, title: string, bit: bv64)
  datatype Permission = Permission(domain: Id, title: string, resource: Id, mask: bv64)

  datatype Membership = Membership(user: Id, group: Id)
  datatype UserGrant = UserGrant(user: Id, permission: Id)
  datatype GroupGrant = GroupGrant(group: Id, permission: Id)

  /** The source tables. users, resources and the three junction tables keep only their domain column. */
  datatype Tables = Tables(
    domains: set<Id>,
    users: map<Id, Id>,
    groups: map<Id, Group>,
    resources: map<Id, Id>,
    accessTypes: map<Id, AccessType>,
    permissions: map<Id, Permission>,
    members: map<Membership, Id>,
    userGrants: map<UserGrant, Id>,
    groupGrants: map<GroupGrant, Id>)

  /** Primary key of user_resource_masks. */
  datatype Triple = Triple(domain: Id, user: Id, resource: Id)

  /** user_resource_masks: the materialised permission cache. */
  type Cache = map<Triple, bv64>

  // ---- foreign keys ----

  predicate UserIn(t: Tables, domain: Id, user: Id) {
    user in t.users && t.users[user] == domain
  }

  predicate GroupIn(t: Tables, domain: Id, group: Id) {
    group in t.groups && t.groups[group].domain == domain
  }

  predicate ResourceIn(t: Tables, domain: Id, resource: Id) {
    resource in t.resources && t.resources[resource] == domain
  }

  predicate PermissionIn(t: Tables, domain: Id, permission: Id) {
    permission in t.permissions && t.permissions[permission].domain == domain
  }

  ghost predicate DomainKeys(rows: map<Id, Id>, domains: set<Id>) {
    forall id | id in rows :: rows[id] in domains
  }

  ghost predicate GroupKeys(groups: map<Id, Group>, domains: set<Id>) {
    && (forall g | g in groups :: groups[g].domain in domains)
    && (forall g {:trigger groups[g]} | g in groups && groups[g].parent.Some? :: groups[g].parent.value in groups)
  }

  ghost predicate AccessTypeKeys(accessTypes: map<Id, AccessType>, domains: set<Id>) {
    forall a | a in accessTypes :: accessTypes[a].domain in domains
  }

  ghost predicate PermissionKeys(permissions: map<Id, Permission>, domains: set<Id>, resources: map<Id, Id>) {
    forall p | p in permissions :: permissions[p].domain in domains && permissions[p].resource in resources
  }

  ghost predicate MemberKeys(members: map<Membership, Id>, users: map<Id, Id>, groups: map<Id, Group>) {
    forall m | m in members ::
      && m.user in users && users[m.user] == members[m]
      && m.group in groups && groups[m.group].domain == members[m]
  }

  ghost predicate UserGrantKeys(grants: map<UserGrant, Id>, users: map<Id, Id>, permissions: map<Id, Permission>) {
    forall k | k in grants ::
      && k.user in users && users[k.user] == grants[k]
      && k.permission in permissions && permissions[k.permission].domain == grants[k]
  }

  ghost predicate GroupGrantKeys(grants: map<GroupGrant, Id>, groups: map<Id, Group>, permissions: map<Id, Permission>) {
    forall k | k in grants ::
      && k.group in groups && groups[k.group].domain == grants[k]
      && k.permission in permissions && permissions[k.permission].domain == grants[k]
  }

  /** Every foreign key holds. Junction rows use composite keys, so both ends lie in the row's
      domain; permissions.resource_id and groups.parent_group_id are plain keys and do not. */
  ghost predicate ForeignKeys(t: Tables) {
    && DomainKeys(t.users, t.domains)
    && DomainKeys(t.resources, t.domains)
    && GroupKeys(t.groups, t.domains)
    && AccessTypeKeys(t.accessTypes, t.domains)
    && PermissionKeys(t.permissions, t.domains, t.resources)
    && MemberKeys(t.members, t.users, t.groups)
    && UserGrantKeys(t.userGrants, t.users, t.permissions)
    && GroupGrantKeys(t.groupGrants, t.groups, t.permissions)
  }

  /** UNIQUE (domain_id, bit) and UNIQUE (domain_id, title) on access_types. */
  ghost predicate UniqueAccessTypes(rows: map<Id, AccessType>) {
    forall a, b | a in rows && b in rows && a != b && rows[a].domain == rows[b].domain ::
      rows[a].bit != rows[b].bit && rows[a].title != rows[b].title
  }

  ghost predicate Consistent(t: Tables) {
    ForeignKeys(t) && UniqueAccessTypes(t.accessTypes)
  }

  const EmptyPatch := InvalidInput("empty patch")

  const EmptyTables := Tables({}, map[], map[], map[], map[], map[], map[], map[], map[])

  // ---- statements ----

  function InsertDomain(t: Tables, id: Id): (r: Result<Tables>)
    ensures Consistent(t) && r.Ok? ==> Consistent(r.value)
  {
    if id in t.domains then Err(Conflict) else Ok(t.(domains := t.domains + {id}))
  }

  function DeleteDomain(t: Tables, id: Id): (r: Result<Tables>)
    ensures Consistent(t) && r.Ok? ==> Consistent(r.value)
  {
    if id !in t.domains then Err(NotFound)
    else if
      || (exists u | u in t.users :: t.users[u] == id)
      || (exists g | g in t.groups :: t.groups[g].domain == id)
      || (exists r | r in t.resources :: t.resources[r] == id)
      || (exists a | a in t.accessTypes :: t.accessTypes[a].domain == id)
      || (exists p | p in t.permissions :: t.permissions[p].domain == id)
      || (exists m | m in t.members :: t.members[m] == id)
      || (exists k | k in t.userGrants :: t.userGrants[k] == id)
      || (exists k | k in t.groupGrants :: t.groupGrants[k] == id)
    then Err(FKViolation)
    else Ok(t.(domains := t.domains - {id}))
  }

  function InsertUser(t: Tables, domain: Id, id: Id): (r: Result<Tables>)
    ensures Consistent(t) && r.Ok? ==> Consistent(r.value)
  {
    if id in t.users then Err(Conflict)
    else if domain !in t.domains then Err(FKViolation)
    else Ok(t.(users := t.users[id := domain]))
  }

  function DeleteUser(t: Tables, domain: Id, id: Id): (r: Result<Tables>)
    ensures Consistent(t) && r.Ok? ==> Consistent(r.value)
  {
    if !UserIn(t, domain, id) then Err(NotFound)
    else if
      || (exists m | m in t.members :: m.user == id)
      || (exists k | k in t.userGrants :: k.user == id)
    then Err(FKViolation)
    else Ok(t.(users := t.users - {id}))
  }

  function InsertResource(t: Tables, domain: Id, id: Id): (r: Result<Tables>)
    ensures Consistent(t) && r.Ok? ==> Consistent(r.value)
  {
    if id in t.resources then Err(Conflict)
    else if domain !in t.domains then Err(FKViolation)
    else Ok(t.(resources := t.resources[id := domain]))
  }

  function DeleteResource(t: Tables, domain: Id, id: Id): (r: Result<Tables>)
    ensures Consistent(t) && r.Ok? ==> Consistent(r.value)
  {
    if !ResourceIn(t, domain, id) then Err(NotFound)
    else if exists p | p in t.permissions :: t.permissions[p].resource == id then Err(FKViolation)
    else Ok(t.(resources := t.resources - {id}))
  }

  /** The parent key is checked after the row is in place, so a row may name itself. */
  function InsertGroup(t: Tables, id: Id, g: Group): (r: Result<Tables>)
    ensures Consistent(t) && r.Ok? ==> Consistent(r.value)
  {
    if id in t.groups then Err(Conflict)
    else if g.domain !in t.domains then Err(FKViolation)
    else if g.parent.Some? && g.parent.value != id && g.parent.value !in t.groups then Err(FKViolation)
    else Ok(t.(groups := t.groups[id := g]))
  }

  lemma ReplaceGroupKeys(t: Tables, id: Id, row: Group)
    requires id in t.groups && row.domain == t.groups[id].domain
    requires row.parent.Some? ==> row.parent.value in t.groups
    ensures Consistent(t) ==> Consistent(t.(groups := t.groups[id := row]))
  {
    var groups := t.groups[id := row];
    assert GroupKeys(t.groups, t.domains) ==> GroupKeys(groups, t.domains);
  }

  function UpdateGroup(t: Tables, id: Id, title: string, parent: Option<Id>): (r: Result<Tables>)
    requires id in t.groups
    ensures Consistent(t) && r.Ok? ==> Consistent(r.value)
  {
    if parent.Some? && parent.value !in t.groups then Err(FKViolation)
    else
      var row := Group(t.groups[id].domain, title, parent);
      ReplaceGroupKeys(t, id, row);
      Ok(t.(groups := t.groups[id := row]))
  }

  /** A row that references only itself does not stand in its own way. */
  function DeleteGroup(t: Tables, domain: Id, id: Id): (r: Result<Tables>)
    ensures Consistent(t) && r.Ok? ==> Consistent(r.value)
  {
    if !GroupIn(t, domain, id) then Err(NotFound)
    else if
      || (exists g | g in t.groups && g != id :: t.groups[g].parent == Some(id))
      || (exists m | m in t.members :: m.group == id)
      || (exists k | k in t.groupGrants :: k.group == id)
    then Err(FKViolation)
    else Ok(t.(groups := t.groups - {id}))
  }

  function InsertAccessType(rows: map<Id, AccessType>, domains: set<Id>, id: Id, a: AccessType)
    : (r: Result<map<Id, AccessType>>)
    ensures UniqueAccessTypes(rows) && r.Ok? ==> UniqueAccessTypes(r.value)
  {
    if id in rows || (exists b | b in rows :: rows[b].domain == a.domain && (rows[b].bit == a.bit || rows[b].title == a.title))
    then Err(Conflict)
    else if a.domain !in domains then Err(FKViolation)
    else Ok(rows[id := a])
  }

  function UpdateAccessType(rows: map<Id, AccessType>, id: Id, a: AccessType): (r: Result<map<Id, AccessType>>)
    requires id in rows && a.domain == rows[id].domain
    ensures UniqueAccessTypes(rows) && r.Ok? ==> UniqueAccessTypes(r.value)
  {
    if exists b | b in rows && b != id :: rows[b].domain == a.domain && (rows[b].bit == a.bit || rows[b].title == a.title)
    then Err(Conflict)
    else Ok(rows[id := a])
  }

  /** AccessTypePatch: a legacy negative bit that is not patched is written back as 0. */
  function PatchAccessType(rows: map<Id, AccessType>, domain: Id, id: Id, title: Option<string>, bit: Option<bv64>)
    : (r: Result<map<Id, AccessType>>)
    ensures UniqueAccessTypes(rows) && r.Ok? ==> UniqueAccessTypes(r.value)
  {
    if title.None? && bit.None? then Err(EmptyPatch)
    else if id !in rows || rows[id].domain != domain then Err(NotFound)
    else
      var stored :- ToSql(if bit.Some? then bit.value else FromSql(rows[id].bit));
      UpdateAccessType(rows, id, AccessType(domain, if title.Some? then title.value else rows[id].title, stored))
  }

  function DeleteAccessType(rows: map<Id, AccessType>, domain: Id, id: Id): (r: Result<map<Id, AccessType>>)
    ensures UniqueAccessTypes(rows) && r.Ok? ==> UniqueAccessTypes(r.value)
  {
    if id in rows && rows[id].domain == domain then Ok(rows - {id}) else Err(NotFound)
  }

  function InsertPermission(t: Tables, id: Id, p: Permission): (r: Result<Tables>)
    ensures Consistent(t) && r.Ok? ==> Consistent(r.value)
  {
    if id in t.permissions then Err(Conflict)
    else if p.domain !in t.domains || p.resource !in t.resources then Err(FKViolation)
    else Ok(t.(permissions := t.permissions[id := p]))
  }

  function UpdatePermission(t: Tables, id: Id, title: string, resource: Id, mask: bv64): (r: Result<Tables>)
    requires id in t.permissions
    ensures Consistent(t) && r.Ok? ==> Consistent(r.value)
  {
    if resource !in t.resources then Err(FKViolation)
    else Ok(t.(permissions := t.permissions[id := Permission(t.permissions[id].domain, title, resource, mask)]))
  }

  function DeletePermission(t: Tables, domain: Id, id: Id): (r: Result<Tables>)
    ensures Consistent(t) && r.Ok? ==> Consistent(r.value)
  {
    if !PermissionIn(t, domain, id) then Err(NotFound)
    else if
      || (exists k | k in t.userGrants :: k.permission == id)
      || (exists k | k in t.groupGrants :: k.permission == id)
    then Err(FKViolation)
    else Ok(t.(permissions := t.permissions - {id}))
  }

  function InsertMember(t: Tables, domain: Id, m: Membership): (r: Result<Tables>)
    ensures Consistent(t) && r.Ok? ==> Consistent(r.value)
  {
    if m in t.members then Err(Conflict)
    else if !UserIn(t, domain, m.user) || !GroupIn(t, domain, m.group) then Err(FKViolation)
    else Ok(t.(members := t.members[m := domain]))
  }

  function DeleteMember(t: Tables, domain: Id, m: Membership): (r: Result<Tables>)
    ensures Consistent(t) && r.Ok? ==> Consistent(r.value)
  {
    if m in t.members && t.members[m] == domain then Ok(t.(members := t.members - {m})) else Err(NotFound)
  }

  function InsertUserGrant(t: Tables, domain: Id, k: UserGrant): (r: Result<Tables>)
    ensures Consistent(t) && r.Ok? ==> Consistent(r.value)
  {
    if k in t.userGrants then Err(Conflict)
    else if !UserIn(t, domain, k.user) || !PermissionIn(t, domain, k.permission) then Err(FKViolation)
    else Ok(t.(userGrants := t.userGrants[k := domain]))
  }

  function DeleteUserGrant(t: Tables, domain: Id, k: UserGrant): (r: Result<Tables>)
    ensures Consistent(t) && r.Ok? ==> Consistent(r.value)
  {
    if k in t.userGrants && t.userGrants[k] == domain then Ok(t.(userGrants := t.userGrants - {k})) else Err(NotFound)
  }

  function InsertGroupGrant(t: Tables, domain: Id, k: GroupGrant): (r: Result<Tables>)
    ensures Consistent(t) && r.Ok? ==> Consistent(r.value)
  {
    if k in t.groupGrants then Err(Conflict)
    else if !GroupIn(t, domain, k.group) || !PermissionIn(t, domain, k.permission) then Err(FKViolation)
    else Ok(t.(groupGrants := t.groupGrants[k := domain]))
  }

  function DeleteGroupGrant(t: Tables, domain: Id, k: GroupGrant): (r: Result<Tables>)
    ensures Consistent(t) && r.Ok? ==> Consistent(r.value)
  {
    if k in t.groupGrants && t.groupGrants[k] == domain then Ok(t.(groupGrants := t.groupGrants - {k})) else Err(NotFound)
  }

  /** INSERT ... ON CONFLICT DO UPDATE on the cache, with the cache's own plain foreign keys. */
  function UpsertCache(t: Tables, cache: Cache, k: Triple, mask: bv64): Result<Cache> {
    if k.domain !in t.domains || k.user !in t.users || k.resource !in t.resources then Err(FKViolation)
    else Ok(cache[k := mask])
  }

  // ---- inserts and deletes of junction rows undo each other ----

  lemma MemberUndo(t: Tables, domain: Id, m: Membership)
    ensures InsertMember(t, domain, m).Ok? ==> DeleteMember(InsertMember(t, domain, m).value, domain, m) == Ok(t)
    ensures MemberKeys(t.members, t.users, t.groups) && DeleteMember(t, domain, m).Ok? ==>
      var t' := DeleteMember(t, domain, m).value;
      t == t'.(members := t'.members[m := domain]) && InsertMember(t', domain, m) == Ok(t)
  {
    if InsertMember(t, domain, m).Ok? { assert t.members[m := domain] - {m} == t.members; }
    if DeleteMember(t, domain, m).Ok? { assert (t.members - {m})[m := domain] == t.members; }
  }

  lemma UserGrantUndo(t: Tables, domain: Id, k: UserGrant)
    ensures InsertUserGrant(t, domain, k).Ok? ==> DeleteUserGrant(InsertUserGrant(t, domain, k).value, domain, k) == Ok(t)
    ensures UserGrantKeys(t.userGrants, t.users, t.permissions) && DeleteUserGrant(t, domain, k).Ok? ==>
      var t' := DeleteUserGrant(t, domain, k).value;
      t == t'.(userGrants := t'.userGrants[k := domain]) && InsertUserGrant(t', domain, k) == Ok(t)
  {
    if InsertUserGrant(t, domain, k).Ok? { assert t.userGrants[k := domain] - {k} == t.userGrants; }
    if DeleteUserGrant(t, domain, k).Ok? { assert (t.userGrants - {k})[k := domain] == t.userGrants; }
  }

  lemma GroupGrantUndo(t: Tables, domain: Id, k: GroupGrant)
    ensures InsertGroupGrant(t, domain, k).Ok? ==> DeleteGroupGrant(InsertGroupGrant(t, domain, k).value, domain, k) == Ok(t)
    ensures GroupGrantKeys(t.groupGrants, t.groups, t.permissions) && DeleteGroupGrant(t, domain, k).Ok? ==>
      var t' := DeleteGroupGrant(t, domain, k).value;
      t == t'.(groupGrants := t'.groupGrants[k := domain]) && InsertGroupGrant(t', domain, k) == Ok(t)
  {
    if InsertGroupGrant(t, domain, k).Ok? { assert t.groupGrants[k := domain] - {k} == t.groupGrants; }
    if DeleteGroupGrant(t, domain, k).Ok? { assert (t.groupGrants - {k})[k := domain] == t.groupGrants; }
  }
}
