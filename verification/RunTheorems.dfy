/** What holds over whole runs of transactions, and what pairs of transactions do to each other. */
module RunTheorems {
  import opened Basics
  import opened Masks
  import opened Schema
  import opened GroundTruth
  import opened PermissionCache
  import opened GroupForest
  import opened Transactions

  // ---- reads of the cache ----

  lemma EmptyExact()
    ensures Consistent(EmptyTables) && Exact(EmptyTables, map[])
  {
    forall k ensures GroundMask(EmptyTables, k) == 0 {
      GroundNonZero(EmptyTables, k);
    }
  }

  /** After any run from the empty database, reading the cache gives every triple its ground-truth mask. */
  lemma ReachableMasks(ops: seq<Op>, k: Triple)
    ensures var db := Run(Db(EmptyTables, map[]), ops);
      FromSql(CacheAt(db.cache, k)) == GroundMask(db.t, k)
  {
    EmptyExact();
    RunExact(Db(EmptyTables, map[]), ops);
    var db := Run(Db(EmptyTables, map[]), ops);
    assert CacheAt(db.cache, k) == GroundMask(db.t, k);
    GroundFits(db.t, k);
  }

  // ---- reconciliation ----

  /** From an arbitrarily drifted cache, Reconcile ends where incremental maintenance would be; run
      on an exact cache (so also a second time) it changes nothing. */
  lemma ReconcileRepairs(t: Tables, drifted: Cache, exact: Cache)
    requires Consistent(t) && Exact(t, exact)
    ensures Apply(Db(t, drifted), Reconcile) == Ok(Db(t, exact))
  {
    ExactKept(Db(t, drifted), Reconcile);
    ExactUnique(t, Apply(Db(t, drifted), Reconcile).value.cache, exact);
  }

  // ---- a grant and its revocation ----

  lemma SameTablesSameDb(a: Db, b: Db)
    requires a.t == b.t && Exact(a.t, a.cache) && Exact(b.t, b.cache)
    ensures a == b
  {
    ExactUnique(a.t, a.cache, b.cache);
  }

  /** If `undo` takes the tables back to where `op` found them, it takes the whole database back. */
  lemma BackToStart(db: Db, op: Op, undo: Op)
    requires Consistent(db.t) && Exact(db.t, db.cache)
    requires TablesAfter(db.t, op).Ok? && TablesAfter(TablesAfter(db.t, op).value, undo) == Ok(db.t)
    ensures Apply(db, op).Ok? && Apply(Apply(db, op).value, undo) == Ok(db)
  {
    var after := Apply(db, op).value;
    ExactKept(db, op);
    ExactKept(after, undo);
    SameTablesSameDb(Apply(after, undo).value, db);
  }

  /** The transaction that takes back what `op` did. */
  function Undo(op: Op): Op
    requires Gives(op) || Takes(op)
  {
    match op
    case AddUserToGroup(d, u, g) => RemoveUserFromGroup(d, u, g)
    case RemoveUserFromGroup(d, u, g) => AddUserToGroup(d, u, g)
    case GrantUserPermission(d, u, p) => RevokeUserPermission(d, u, p)
    case RevokeUserPermission(d, u, p) => GrantUserPermission(d, u, p)
    case GrantGroupPermission(d, g, p) => RevokeGroupPermission(d, g, p)
    case RevokeGroupPermission(d, g, p) => GrantGroupPermission(d, g, p)
  }

  lemma AddUndo(t: Tables, t': Tables, d: Id, u: Id, g: Id)
    requires InsertMember(t, d, Membership(u, g)) == Ok(t')
    ensures TablesAfter(t', RemoveUserFromGroup(d, u, g)) == Ok(t)
  {
    MemberUndo(t, d, Membership(u, g));
  }

  lemma RemoveUndo(t: Tables, t': Tables, d: Id, u: Id, g: Id)
    requires MemberKeys(t.members, t.users, t.groups) && DeleteMember(t, d, Membership(u, g)) == Ok(t')
    ensures TablesAfter(t', AddUserToGroup(d, u, g)) == Ok(t)
  {
    MemberUndo(t, d, Membership(u, g));
  }

  lemma GrantUserUndo(t: Tables, t': Tables, d: Id, u: Id, p: Id)
    requires InsertUserGrant(t, d, UserGrant(u, p)) == Ok(t')
    ensures TablesAfter(t', RevokeUserPermission(d, u, p)) == Ok(t)
  {
    UserGrantUndo(t, d, UserGrant(u, p));
  }

  lemma RevokeUserUndo(t: Tables, t': Tables, d: Id, u: Id, p: Id)
    requires UserGrantKeys(t.userGrants, t.users, t.permissions) && DeleteUserGrant(t, d, UserGrant(u, p)) == Ok(t')
    ensures TablesAfter(t', GrantUserPermission(d, u, p)) == Ok(t)
  {
    UserGrantUndo(t, d, UserGrant(u, p));
  }

  lemma GrantGroupUndo(t: Tables, t': Tables, d: Id, g: Id, p: Id)
    requires InsertGroupGrant(t, d, GroupGrant(g, p)) == Ok(t')
    ensures TablesAfter(t', RevokeGroupPermission(d, g, p)) == Ok(t)
  {
    GroupGrantUndo(t, d, GroupGrant(g, p));
  }

  lemma RevokeGroupUndo(t: Tables, t': Tables, d: Id, g: Id, p: Id)
    requires GroupGrantKeys(t.groupGrants, t.groups, t.permissions) && DeleteGroupGrant(t, d, GroupGrant(g, p)) == Ok(t')
    ensures TablesAfter(t', GrantGroupPermission(d, g, p)) == Ok(t)
  {
    GroupGrantUndo(t, d, GroupGrant(g, p));
  }

  lemma TablesUndo(t: Tables, op: Op)
    requires Gives(op) || Takes(op)
    requires ForeignKeys(t) && TablesAfter(t, op).Ok?
    ensures TablesAfter(TablesAfter(t, op).value, Undo(op)) == Ok(t)
  {
    var t' := TablesAfter(t, op).value;
    match op
    case AddUserToGroup(d, u, g) => AddUndo(t, t', d, u, g);
    case RemoveUserFromGroup(d, u, g) => RemoveUndo(t, t', d, u, g);
    case GrantUserPermission(d, u, p) => GrantUserUndo(t, t', d, u, p);
    case RevokeUserPermission(d, u, p) => RevokeUserUndo(t, t', d, u, p);
    case GrantGroupPermission(d, g, p) => GrantGroupUndo(t, t', d, g, p);
    case RevokeGroupPermission(d, g, p) => RevokeGroupUndo(t, t', d, g, p);
  }

  /** Each of the six mutators, when it succeeds, is undone by its opposite: tables and cache are
      exactly as they were. */
  lemma UndoRestores(db: Db, op: Op)
    requires Gives(op) || Takes(op)
    requires Consistent(db.t) && Exact(db.t, db.cache) && Apply(db, op).Ok?
    ensures Apply(Apply(db, op).value, Undo(op)) == Ok(db)
  {
    TablesUndo(db.t, op);
    BackToStart(db, op, Undo(op));
  }

  predicate Gives(op: Op) {
    op.AddUserToGroup? || op.GrantUserPermission? || op.GrantGroupPermission?
  }

  predicate Takes(op: Op) {
    op.RemoveUserFromGroup? || op.RevokeUserPermission? || op.RevokeGroupPermission?
  }

  /** Grants and additions only add bits, for every triple of the database. */
  lemma GivingOnlyAdds(t: Tables, op: Op, k: Triple)
    requires Gives(op) && TablesAfter(t, op).Ok?
    ensures Within(GroundMask(t, k), GroundMask(TablesAfter(t, op).value, k))
  {
    var t' := TablesAfter(t, op).value;
    match op
    case AddUserToGroup(d, u, g) => MemberAdds(t, t', d, Membership(u, g), k);
    case GrantUserPermission(d, u, p) => UserGrantAdds(t, t', d, UserGrant(u, p), k);
    case GrantGroupPermission(d, g, p) => GroupGrantAdds(t, t', d, GroupGrant(g, p), k);
  }

  /** Revocations and removals only remove bits. */
  lemma TakingOnlyRemoves(t: Tables, op: Op, k: Triple)
    requires Takes(op) && ForeignKeys(t) && TablesAfter(t, op).Ok?
    ensures Within(GroundMask(TablesAfter(t, op).value, k), GroundMask(t, k))
  {
    TablesUndo(t, op);
    GivingOnlyAdds(TablesAfter(t, op).value, Undo(op), k);
  }

  // ---- what a grant rules out ----

  lemma AddedStays(t: Tables, t': Tables, d: Id, u: Id, g: Id)
    requires InsertMember(t, d, Membership(u, g)) == Ok(t')
    ensures DeleteUser(t', d, u) == Err(FKViolation) && DeleteGroup(t', d, g) == Err(FKViolation)
    ensures InsertMember(t', d, Membership(u, g)) == Err(Conflict)
  {
    var m := Membership(u, g);
    assert m in t'.members && m.user == u && m.group == g;
  }

  lemma UserGrantStays(t: Tables, t': Tables, d: Id, u: Id, p: Id)
    requires InsertUserGrant(t, d, UserGrant(u, p)) == Ok(t')
    ensures DeleteUser(t', d, u) == Err(FKViolation) && DeletePermission(t', d, p) == Err(FKViolation)
    ensures InsertUserGrant(t', d, UserGrant(u, p)) == Err(Conflict)
  {
    var k := UserGrant(u, p);
    assert k in t'.userGrants && k.user == u && k.permission == p;
  }

  lemma GroupGrantStays(t: Tables, t': Tables, d: Id, g: Id, p: Id)
    requires InsertGroupGrant(t, d, GroupGrant(g, p)) == Ok(t')
    ensures DeleteGroup(t', d, g) == Err(FKViolation) && DeletePermission(t', d, p) == Err(FKViolation)
    ensures InsertGroupGrant(t', d, GroupGrant(g, p)) == Err(Conflict)
  {
    var k := GroupGrant(g, p);
    assert k in t'.groupGrants && k.group == g && k.permission == p;
  }

  /** The transactions that delete either end of what `op` linked. */
  function EndDeletes(op: Op): set<Op>
    requires Gives(op)
  {
    match op
    case AddUserToGroup(d, u, g) => {UserDelete(d, u), GroupDelete(d, g)}
    case GrantUserPermission(d, u, p) => {UserDelete(d, u), PermissionDelete(d, p)}
    case GrantGroupPermission(d, g, p) => {GroupDelete(d, g), PermissionDelete(d, p)}
  }

  /** After a membership or grant neither of its ends can be deleted, and it cannot be made again. */
  lemma GivenEndsStay(t: Tables, op: Op, delete: Op)
    requires Gives(op) && TablesAfter(t, op).Ok? && delete in EndDeletes(op)
    ensures TablesAfter(TablesAfter(t, op).value, delete) == Err(FKViolation)
    ensures TablesAfter(TablesAfter(t, op).value, op) == Err(Conflict)
  {
    var t' := TablesAfter(t, op).value;
    match op
    case AddUserToGroup(d, u, g) => AddedStays(t, t', d, u, g);
    case GrantUserPermission(d, u, p) => UserGrantStays(t, t', d, u, p);
    case GrantGroupPermission(d, g, p) => GroupGrantStays(t, t', d, g, p);
  }

  // ---- the group forest over runs ----

  ghost predicate WithinStepLimit(t: Tables) {
    forall d :: |DomainGroups(t, d)| <= MAX_STEPS
  }

  predicate NamesItself(op: Op) {
    op.GroupCreate? && op.group.parent == Some(op.id)
  }

  lemma GroupPatchForest(t: Tables, d: Id, id: Id, title: Option<string>, updateParent: bool, parent: Option<Id>)
    requires Forest(t.groups) && WithinStepLimit(t)
    requires TablesAfter(t, GroupPatch(d, id, title, updateParent, parent)).Ok?
    ensures Forest(TablesAfter(t, GroupPatch(d, id, title, updateParent, parent)).value.groups)
  {
    var titled := if title.Some? then UpdateGroup(t, id, title.value, t.groups[id].parent).value else t;
    forall x, n: nat | n > 0 ensures Up(titled.groups, x, n) != Some(x) {
      UpSubmap(titled.groups, t.groups, x, n);
    }
    assert DomainGroups(titled, d) == DomainGroups(t, d);
    if updateParent {
      SetParentKeepsForest(titled, d, id, parent, MAX_STEPS);
    }
  }

  predicate LeavesGroups(op: Op) {
    !op.GroupCreate? && !op.GroupSetParent? && !op.GroupPatch? && !op.GroupDelete?
  }

  lemma GroupsKept(t: Tables, op: Op)
    requires LeavesGroups(op) && TablesAfter(t, op).Ok?
    ensures TablesAfter(t, op).value.groups == t.groups
  {
  }

  /** One transaction keeps the forest, unless it creates a group that names itself as its parent. */
  lemma ForestKept(t: Tables, op: Op)
    requires Consistent(t) && Forest(t.groups) && WithinStepLimit(t)
    requires TablesAfter(t, op).Ok?
    ensures Forest(TablesAfter(t, op).value.groups) <==> !NamesItself(op)
  {
    if LeavesGroups(op) {
      GroupsKept(t, op);
    } else {
      match op
      case GroupCreate(id, g) => InsertGroupForest(t, id, g);
      case GroupSetParent(d, id, parent) => SetParentKeepsForest(t, d, id, parent, MAX_STEPS);
      case GroupPatch(d, id, title, updateParent, parent) => GroupPatchForest(t, d, id, title, updateParent, parent);
      case GroupDelete(d, id) => DeleteGroupForest(t, d, id);
    }
  }

  lemma StepForest(db: Db, op: Op)
    requires Consistent(db.t) && Forest(db.t.groups) && WithinStepLimit(db.t) && !NamesItself(op)
    ensures Consistent(Step(db, op).t) && Forest(Step(db, op).t.groups)
  {
    StepTables(db, op);
    if TablesAfter(db.t, op).Ok? {
      ForestKept(db.t, op);
      ConsistentKept(db.t, op);
    }
  }

  /** Over every run in which no domain ever outgrows the walk and no group names itself. */
  lemma {:induction false} RunForest(db: Db, ops: seq<Op>)
    requires Consistent(db.t) && Forest(db.t.groups)
    requires forall i | 0 <= i < |ops| :: WithinStepLimit(Run(db, ops[..i]).t) && !NamesItself(ops[i])
    ensures Consistent(Run(db, ops).t) && Forest(Run(db, ops).t.groups)
  {
    if ops != [] {
      var n := |ops| - 1;
      var before := Run(db, ops[..n]);
      forall i | 0 <= i < n ensures WithinStepLimit(Run(db, ops[..n][..i]).t) {
        assert ops[..n][..i] == ops[..i];
      }
      RunForest(db, ops[..n]);
      StepForest(before, ops[n]);
    }
  }

  // ---- domains ----

  /** Every permission names a resource of its own domain. The schema does not ask for this. */
  ghost predicate HomeResources(t: Tables) {
    forall p | p in t.permissions :: ResourceIn(t, t.permissions[p].domain, t.permissions[p].resource)
  }

  predicate LeavesResources(op: Op) {
    !op.PermissionCreate? && !op.PermissionPatch? && !op.PermissionDelete? && !op.ResourceCreate? && !op.ResourceDelete?
  }

  lemma ResourcesKept(t: Tables, op: Op)
    requires LeavesResources(op) && TablesAfter(t, op).Ok?
    ensures TablesAfter(t, op).value.permissions == t.permissions && TablesAfter(t, op).value.resources == t.resources
  {
    match op
    case GroupSetParent(d, id, parent) => SetParentOnlyGroups(t, d, id, parent);
    case GroupPatch(d, id, title, updateParent, parent) => GroupPatchOnlyGroups(t, d, id, title, updateParent, parent);
    case _ =>
  }

  lemma InsertPermissionHome(t: Tables, t': Tables, id: Id, row: Permission)
    requires HomeResources(t) && InsertPermission(t, id, row) == Ok(t')
    ensures HomeResources(t') <==> ResourceIn(t, row.domain, row.resource)
  {
    if HomeResources(t') { assert id in t'.permissions; }
  }

  lemma PatchPermissionHome(t: Tables, t': Tables, d: Id, id: Id, title: Option<string>, resource: Option<Id>, mask: Option<bv64>)
    requires HomeResources(t) && PatchPermission(t, d, id, title, resource, mask) == Ok(t')
    ensures HomeResources(t')
  {
  }

  lemma DeletePermissionHome(t: Tables, t': Tables, d: Id, id: Id)
    requires HomeResources(t) && DeletePermission(t, d, id) == Ok(t')
    ensures HomeResources(t')
  {
  }

  lemma InsertResourceHome(t: Tables, t': Tables, d: Id, id: Id)
    requires HomeResources(t) && InsertResource(t, d, id) == Ok(t')
    ensures HomeResources(t')
  {
  }

  lemma DeleteResourceHome(t: Tables, t': Tables, d: Id, id: Id)
    requires HomeResources(t) && DeleteResource(t, d, id) == Ok(t')
    ensures HomeResources(t')
  {
  }

  /** A transaction keeps permissions at home exactly when it is not a PermissionCreate naming a
      resource of another domain. */
  lemma HomeResourcesKept(t: Tables, op: Op)
    requires HomeResources(t) && TablesAfter(t, op).Ok?
    ensures HomeResources(TablesAfter(t, op).value) <==>
            (op.PermissionCreate? ==> ResourceIn(t, op.row.domain, op.row.resource))
  {
    if LeavesResources(op) {
      ResourcesKept(t, op);
    } else {
      var t' := TablesAfter(t, op).value;
      match op
      case PermissionCreate(id, row) => InsertPermissionHome(t, t', id, row.(mask := ToSql(row.mask).value));
      case PermissionPatch(d, id, title, resource, mask) => PatchPermissionHome(t, t', d, id, title, resource, mask);
      case PermissionDelete(d, id) => DeletePermissionHome(t, t', d, id);
      case ResourceCreate(d, id) => InsertResourceHome(t, t', d, id);
      case ResourceDelete(d, id) => DeleteResourceHome(t, t', d, id);
    }
  }

  /** With permissions at home, a non-zero mask puts the resource in the triple's domain too. */
  lemma HomeMasksStayInDomain(t: Tables, k: Triple)
    requires ForeignKeys(t) && HomeResources(t) && GroundMask(t, k) != 0
    ensures UserIn(t, k.domain, k.user) && ResourceIn(t, k.domain, k.resource)
  {
    NonZeroMaskStaysInDomain(t, k);
    GroundNonZero(t, k);
    var p :| Counts(t, k, p);
  }

  lemma CreateForeign(t: Tables, home: Id, r: Id, p: Id, mask: bv64) returns (t': Tables)
    requires home in t.domains && r in t.resources && p !in t.permissions && Positive(mask)
    ensures TablesAfter(t, PermissionCreate(p, Permission(home, "", r, mask))) == Ok(t')
    ensures t' == t.(permissions := t.permissions[p := Permission(home, "", r, mask)])
  {
    FitsWithin(mask);
    WithinFits(mask);
    t' := t.(permissions := t.permissions[p := Permission(home, "", r, mask)]);
  }

  lemma GrantFresh(t: Tables, home: Id, u: Id, p: Id) returns (t': Tables)
    requires UserIn(t, home, u) && PermissionIn(t, home, p) && UserGrant(u, p) !in t.userGrants
    requires Positive(t.permissions[p].mask)
    ensures TablesAfter(t, GrantUserPermission(home, u, p)) == Ok(t')
    ensures t'.resources == t.resources && GroundMask(t', Triple(home, u, t.permissions[p].resource)) != 0
  {
    t' := t.(userGrants := t.userGrants[UserGrant(u, p) := home]);
    var k := Triple(home, u, t.permissions[p].resource);
    assert Counts(t', k, p);
    GroundNonZero(t', k);
  }

  lemma CreateAndGrant(t: Tables, home: Id, u: Id, r: Id, p: Id, mask: bv64) returns (t': Tables)
    requires ForeignKeys(t) && UserIn(t, home, u) && r in t.resources && p !in t.permissions && Positive(mask)
    ensures TablesAfter(t, PermissionCreate(p, Permission(home, "", r, mask))).Ok?
    ensures TablesAfter(TablesAfter(t, PermissionCreate(p, Permission(home, "", r, mask))).value,
                        GrantUserPermission(home, u, p)) == Ok(t')
    ensures t'.resources == t.resources && GroundMask(t', Triple(home, u, r)) != 0
  {
    var created := CreateForeign(t, home, r, p, mask);
    assert UserGrant(u, p) !in t.userGrants;
    t' := GrantFresh(created, home, u, p);
  }

  /** The plain foreign key on permissions.resource_id lets any user be given a mask, in the user's
      own domain, on a resource of another domain. */
  lemma ForeignResourceReachable(db: Db, home: Id, u: Id, r: Id, p: Id, mask: bv64)
    requires ForeignKeys(db.t) && UserIn(db.t, home, u) && p !in db.t.permissions && Positive(mask)
    requires r in db.t.resources && !ResourceIn(db.t, home, r)
    ensures var t := Step(Step(db, PermissionCreate(p, Permission(home, "", r, mask))), GrantUserPermission(home, u, p)).t;
      GroundMask(t, Triple(home, u, r)) != 0 && !ResourceIn(t, home, r)
  {
    var t' := CreateAndGrant(db.t, home, u, r, p, mask);
    StepTables(db, PermissionCreate(p, Permission(home, "", r, mask)));
    StepTables(Step(db, PermissionCreate(p, Permission(home, "", r, mask))), GrantUserPermission(home, u, p));
  }

  lemma StepTables(db: Db, op: Op)
    ensures Step(db, op).t == if TablesAfter(db.t, op).Ok? then TablesAfter(db.t, op).value else db.t
  {
  }

  /** A new group joins the groups of its domain cleanly exactly when its parent is of that domain. */
  lemma InsertGroupSameDomain(t: Tables, id: Id, g: Group)
    requires ForeignKeys(t) && SameDomainParents(t) && InsertGroup(t, id, g).Ok?
    ensures SameDomainParents(InsertGroup(t, id, g).value) <==>
            (g.parent.Some? ==> g.parent.value == id || GroupIn(t, g.domain, g.parent.value))
  {
    var t' := InsertGroup(t, id, g).value;
    assert t'.groups[id] == g;
  }

  lemma SetParentSameDomain(t: Tables, t': Tables, d: Id, id: Id, parent: Option<Id>)
    requires SameDomainParents(t) && SetParent(t, d, id, parent, MAX_STEPS) == Ok(t')
    ensures SameDomainParents(t')
  {
  }

  lemma GroupPatchSameDomain(t: Tables, t': Tables, d: Id, id: Id, title: Option<string>, updateParent: bool, parent: Option<Id>)
    requires SameDomainParents(t) && PatchGroup(t, d, id, title, updateParent, parent) == Ok(t')
    ensures SameDomainParents(t')
  {
  }

  lemma DeleteGroupSameDomain(t: Tables, t': Tables, d: Id, id: Id)
    requires SameDomainParents(t) && DeleteGroup(t, d, id) == Ok(t')
    ensures SameDomainParents(t')
  {
  }

  /** A transaction keeps parents in their domain exactly when it is not a GroupCreate under a group
      of another domain. */
  lemma SameDomainParentsKept(t: Tables, op: Op)
    requires ForeignKeys(t) && SameDomainParents(t) && TablesAfter(t, op).Ok?
    ensures SameDomainParents(TablesAfter(t, op).value) <==>
            (op.GroupCreate? && op.group.parent.Some? ==>
               op.group.parent.value == op.id || GroupIn(t, op.group.domain, op.group.parent.value))
  {
    if LeavesGroups(op) {
      GroupsKept(t, op);
    } else {
      var t' := TablesAfter(t, op).value;
      match op
      case GroupCreate(id, g) => InsertGroupSameDomain(t, id, g);
      case GroupSetParent(d, id, parent) => SetParentSameDomain(t, t', d, id, parent);
      case GroupPatch(d, id, title, updateParent, parent) => GroupPatchSameDomain(t, t', d, id, title, updateParent, parent);
      case GroupDelete(d, id) => DeleteGroupSameDomain(t, t', d, id);
    }
  }
}
