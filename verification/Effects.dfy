/** What each transaction does to the source tables: when it succeeds, which error it answers
    otherwise, and which row it leaves.

    A create goes through exactly when the keys still hold with the new row, a delete exactly when
    they still hold without the old one. */
module Effects {
  import opened Basics
  import opened Masks
  import opened Schema
  import opened GroundTruth
  import opened GroupForest
  import opened Transactions

  /** The given value of a patch field, or the one before. */
  function Asked<T>(given: Option<T>, before: T): T {
    if given.Some? then given.value else before
  }

  /** The mask fits the signed column. */
  predicate Storable(mask: bv64) {
    mask <= MAX_INT64
  }

  lemma StorableMask(mask: bv64)
    ensures Storable(mask) ==> !Negative(mask) && ToSql(mask) == Ok(mask)
    ensures !Storable(mask) ==> ToSql(mask).Err? && ToSql(mask).error.InvalidInput?
  {
    SqlRoundTrip(mask);
  }

  lemma ReadStorable(v: bv64)
    ensures ToSql(FromSql(v)) == Ok(FromSql(v))
  {
    SqlRoundTrip(FromSql(v));
    FromSqlNonZero(v);
  }

  // ---- deletes ----

  /** Some row other than the domain's own names it. */
  ghost predicate DomainReferenced(t: Tables, d: Id) {
    || d in t.users.Values || d in t.resources.Values
    || (exists g | g in t.groups :: t.groups[g].domain == d)
    || (exists a | a in t.accessTypes :: t.accessTypes[a].domain == d)
    || (exists p | p in t.permissions :: t.permissions[p].domain == d)
    || d in t.members.Values || d in t.userGrants.Values || d in t.groupGrants.Values
  }

  ghost predicate UserReferenced(t: Tables, u: Id) {
    (exists m | m in t.members :: m.user == u) || exists k | k in t.userGrants :: k.user == u
  }

  ghost predicate ResourceReferenced(t: Tables, r: Id) {
    exists p | p in t.permissions :: t.permissions[p].resource == r
  }

  /** Its children, members and grants; a group that names itself does not count. */
  ghost predicate GroupReferenced(t: Tables, g: Id) {
    || (exists c | c in t.groups :: c != g && t.groups[c].parent == Some(g))
    || (exists m | m in t.members :: m.group == g)
    || (exists k | k in t.groupGrants :: k.group == g)
  }

  ghost predicate PermissionReferenced(t: Tables, p: Id) {
    (exists k | k in t.userGrants :: k.permission == p) || exists k | k in t.groupGrants :: k.permission == p
  }

  /** A delete of an existing row either takes just that row away or is refused because of the references to it. */
  ghost predicate Deletes(r: Result<Tables>, without: Tables, present: bool, referenced: bool) {
    && (r == Ok(without) <==> present && !referenced)
    && (r == Err(FKViolation) <==> present && referenced)
    && (r == Err(NotFound) <==> !present)
  }

  lemma DomainDeleted(t: Tables, d: Id)
    ensures Deletes(TablesAfter(t, DomainDelete(d)), t.(domains := t.domains - {d}), d in t.domains, DomainReferenced(t, d))
    ensures TablesAfter(t.(domains := t.domains - {d}), DomainDelete(d)) == Err(NotFound)
  {
  }

  lemma UserDeleted(t: Tables, d: Id, u: Id)
    ensures Deletes(TablesAfter(t, UserDelete(d, u)), t.(users := t.users - {u}), UserIn(t, d, u), UserReferenced(t, u))
    ensures TablesAfter(t.(users := t.users - {u}), UserDelete(d, u)) == Err(NotFound)
  {
  }

  lemma ResourceDeleted(t: Tables, d: Id, r: Id)
    ensures Deletes(TablesAfter(t, ResourceDelete(d, r)), t.(resources := t.resources - {r}),
                    ResourceIn(t, d, r), ResourceReferenced(t, r))
    ensures TablesAfter(t.(resources := t.resources - {r}), ResourceDelete(d, r)) == Err(NotFound)
  {
  }

  lemma GroupDeleted(t: Tables, d: Id, g: Id)
    ensures Deletes(TablesAfter(t, GroupDelete(d, g)), t.(groups := t.groups - {g}), GroupIn(t, d, g), GroupReferenced(t, g))
    ensures TablesAfter(t.(groups := t.groups - {g}), GroupDelete(d, g)) == Err(NotFound)
  {
  }

  lemma PermissionDeleted(t: Tables, d: Id, p: Id)
    ensures Deletes(TablesAfter(t, PermissionDelete(d, p)), t.(permissions := t.permissions - {p}),
                    PermissionIn(t, d, p), PermissionReferenced(t, p))
    ensures TablesAfter(t.(permissions := t.permissions - {p}), PermissionDelete(d, p)) == Err(NotFound)
  {
  }

  lemma AccessTypeDeleted(t: Tables, d: Id, a: Id)
    ensures Deletes(TablesAfter(t, AccessTypeDelete(d, a)), t.(accessTypes := t.accessTypes - {a}),
                    a in t.accessTypes && t.accessTypes[a].domain == d, false)
    ensures TablesAfter(t.(accessTypes := t.accessTypes - {a}), AccessTypeDelete(d, a)) == Err(NotFound)
  {
  }

  lemma MemberRemoved(t: Tables, d: Id, u: Id, g: Id)
    ensures var m := Membership(u, g);
      Deletes(TablesAfter(t, RemoveUserFromGroup(d, u, g)), t.(members := t.members - {m}),
              m in t.members && t.members[m] == d, false)
  {
  }

  lemma UserGrantRevoked(t: Tables, d: Id, u: Id, p: Id)
    ensures var k := UserGrant(u, p);
      Deletes(TablesAfter(t, RevokeUserPermission(d, u, p)), t.(userGrants := t.userGrants - {k}),
              k in t.userGrants && t.userGrants[k] == d, false)
  {
  }

  lemma GroupGrantRevoked(t: Tables, d: Id, g: Id, p: Id)
    ensures var k := GroupGrant(g, p);
      Deletes(TablesAfter(t, RevokeGroupPermission(d, g, p)), t.(groupGrants := t.groupGrants - {k}),
              k in t.groupGrants && t.groupGrants[k] == d, false)
  {
  }

  // ---- references and keys ----

  /** A junction row of a domain has a user or group of that domain. */
  lemma JunctionsInside(t: Tables, d: Id)
    requires Consistent(t)
    ensures d in t.members.Values || d in t.userGrants.Values ==> d in t.users.Values
    ensures d in t.groupGrants.Values ==> exists g | g in t.groups :: t.groups[g].domain == d
  {
    if m :| m in t.members && t.members[m] == d { assert t.users[m.user] == d; }
    if k :| k in t.userGrants && t.userGrants[k] == d { assert t.users[k.user] == d; }
    if k :| k in t.groupGrants && t.groupGrants[k] == d { assert t.groups[k.group].domain == d; }
  }

  /** What references a row is what the keys forbid to lose it. */
  lemma DomainNeeded(t: Tables, d: Id)
    requires Consistent(t) && d in t.domains
    ensures DomainReferenced(t, d) <==> !Consistent(t.(domains := t.domains - {d}))
  {
    var left := t.domains - {d};
    JunctionsInside(t, d);
    if u :| u in t.users && t.users[u] == d { assert !DomainKeys(t.users, left); }
    if r :| r in t.resources && t.resources[r] == d { assert !DomainKeys(t.resources, left); }
    if !DomainReferenced(t, d) {
      assert DomainKeys(t.users, left) && DomainKeys(t.resources, left);
      assert GroupKeys(t.groups, left) && AccessTypeKeys(t.accessTypes, left);
      assert PermissionKeys(t.permissions, left, t.resources);
    }
  }

  lemma UserNeeded(t: Tables, d: Id, u: Id)
    requires Consistent(t) && UserIn(t, d, u)
    ensures UserReferenced(t, u) <==> !Consistent(t.(users := t.users - {u}))
  {
  }

  lemma ResourceNeeded(t: Tables, d: Id, r: Id)
    requires Consistent(t) && ResourceIn(t, d, r)
    ensures ResourceReferenced(t, r) <==> !Consistent(t.(resources := t.resources - {r}))
  {
    var without := t.(resources := t.resources - {r});
    if p :| p in t.permissions && t.permissions[p].resource == r {
      assert without.permissions[p].resource !in without.resources;
    }
  }

  lemma GroupNeeded(t: Tables, d: Id, g: Id)
    requires Consistent(t) && GroupIn(t, d, g)
    ensures GroupReferenced(t, g) <==> !Consistent(t.(groups := t.groups - {g}))
  {
    var without := t.(groups := t.groups - {g});
    if c :| c in t.groups && c != g && t.groups[c].parent == Some(g) {
      assert without.groups[c].parent.value !in without.groups;
    }
  }

  lemma PermissionNeeded(t: Tables, d: Id, p: Id)
    requires Consistent(t) && PermissionIn(t, d, p)
    ensures PermissionReferenced(t, p) <==> !Consistent(t.(permissions := t.permissions - {p}))
  {
  }

  // ---- creates ----

  /** A create adds just its row, if the row is new and the keys hold with it. */
  ghost predicate Creates(r: Result<Tables>, with: Tables, present: bool) {
    && (r == Ok(with) <==> !present && Consistent(with))
    && (r == Err(Conflict) <==> present)
    && (r == Err(FKViolation) <==> !present && !Consistent(with))
  }

  lemma DomainCreated(t: Tables, d: Id)
    requires Consistent(t)
    ensures Creates(TablesAfter(t, DomainCreate(d)), t.(domains := t.domains + {d}), d in t.domains)
    ensures d !in t.domains ==> TablesAfter(t, DomainCreate(d)).Ok?
  {
  }

  lemma UserCreated(t: Tables, d: Id, u: Id)
    requires Consistent(t)
    ensures Creates(TablesAfter(t, UserCreate(d, u)), t.(users := t.users[u := d]), u in t.users)
  {
    var with := t.(users := t.users[u := d]);
    if Consistent(with) { assert with.users[u] in with.domains; }
  }

  lemma ResourceCreated(t: Tables, d: Id, r: Id)
    requires Consistent(t)
    ensures Creates(TablesAfter(t, ResourceCreate(d, r)), t.(resources := t.resources[r := d]), r in t.resources)
  {
    var with := t.(resources := t.resources[r := d]);
    if Consistent(with) { assert with.resources[r] in with.domains; }
  }

  lemma GroupCreated(t: Tables, g: Id, row: Group)
    requires Consistent(t)
    ensures Creates(TablesAfter(t, GroupCreate(g, row)), t.(groups := t.groups[g := row]), g in t.groups)
  {
    var with := t.(groups := t.groups[g := row]);
    if Consistent(with) { assert with.groups[g] == row && with.groups[g].domain in with.domains; }
  }

  lemma MemberAdded(t: Tables, d: Id, u: Id, g: Id)
    requires Consistent(t)
    ensures var m := Membership(u, g);
      Creates(TablesAfter(t, AddUserToGroup(d, u, g)), t.(members := t.members[m := d]), m in t.members)
  {
    var m := Membership(u, g);
    var with := t.(members := t.members[m := d]);
    if Consistent(with) { assert m in with.members && with.members[m] == d; }
  }

  lemma UserGranted(t: Tables, d: Id, u: Id, p: Id)
    requires Consistent(t)
    ensures var k := UserGrant(u, p);
      Creates(TablesAfter(t, GrantUserPermission(d, u, p)), t.(userGrants := t.userGrants[k := d]), k in t.userGrants)
  {
    var k := UserGrant(u, p);
    var with := t.(userGrants := t.userGrants[k := d]);
    if Consistent(with) { assert k in with.userGrants && with.userGrants[k] == d; }
  }

  lemma GroupGranted(t: Tables, d: Id, g: Id, p: Id)
    requires Consistent(t)
    ensures var k := GroupGrant(g, p);
      Creates(TablesAfter(t, GrantGroupPermission(d, g, p)), t.(groupGrants := t.groupGrants[k := d]), k in t.groupGrants)
  {
    var k := GroupGrant(g, p);
    var with := t.(groupGrants := t.groupGrants[k := d]);
    if Consistent(with) { assert k in with.groupGrants && with.groupGrants[k] == d; }
  }

  /** A permission is stored with the mask it was created with; a mask that does not fit is refused first. */
  lemma PermissionCreated(t: Tables, p: Id, row: Permission)
    requires Consistent(t)
    ensures var r := TablesAfter(t, PermissionCreate(p, row));
      if Storable(row.mask)
      then Creates(r, t.(permissions := t.permissions[p := row]), p in t.permissions)
      else r.Err? && r.error.InvalidInput?
  {
    StorableMask(row.mask);
    var with := t.(permissions := t.permissions[p := row]);
    if Consistent(with) { assert with.permissions[p] == row; }
  }

  /** An access type conflicts with its id, or with a bit or title of its domain. */
  lemma AccessTypeCreated(t: Tables, a: Id, row: AccessType)
    requires Consistent(t)
    ensures var r := TablesAfter(t, AccessTypeCreate(a, row));
      var with := t.(accessTypes := t.accessTypes[a := row]);
      if Storable(row.bit)
      then Creates(r, with, a in t.accessTypes || !UniqueAccessTypes(with.accessTypes))
      else r.Err? && r.error.InvalidInput?
  {
    StorableMask(row.bit);
    var with := t.(accessTypes := t.accessTypes[a := row]);
    assert with.accessTypes[a] == row;
    if a !in t.accessTypes {
      if !UniqueAccessTypes(with.accessTypes) { TypeClash(t.accessTypes, a, row); }
      forall b | b in t.accessTypes ensures with.accessTypes[b] == t.accessTypes[b] {}
    }
    if Consistent(with) { assert with.accessTypes[a].domain in with.domains; }
  }

  lemma TypeClash(rows: map<Id, AccessType>, a: Id, row: AccessType)
    requires UniqueAccessTypes(rows) && !UniqueAccessTypes(rows[a := row])
    ensures exists b | b in rows :: b != a && rows[b].domain == row.domain && (rows[b].bit == row.bit || rows[b].title == row.title)
  {
    var with := rows[a := row];
    var b, c :| b in with && c in with && b != c && with[b].domain == with[c].domain
                && (with[b].bit == with[c].bit || with[b].title == with[c].title);
    var other := if b == a then c else b;
    assert other in rows;
  }

  // ---- patches ----

  /** A non-empty patch of a type of the domain succeeds exactly when the bit fits and stays unique, as
      does the title; the row then has what was asked for. */
  lemma AccessTypePatched(t: Tables, d: Id, a: Id, title: Option<string>, bit: Option<bv64>)
    requires UniqueAccessTypes(t.accessTypes)
    ensures var r := TablesAfter(t, AccessTypePatch(d, a, title, bit));
      if title.None? && bit.None? then r == Err(EmptyPatch)
      else if a !in t.accessTypes || t.accessTypes[a].domain != d then r == Err(NotFound)
      else if bit.Some? && !Storable(bit.value) then r.Err? && r.error.InvalidInput?
      else
        var row0 := t.accessTypes[a];
        var rows := t.accessTypes[a := AccessType(d, Asked(title, row0.title), Asked(bit, FromSql(row0.bit)))];
        r == if UniqueAccessTypes(rows) then Ok(t.(accessTypes := rows)) else Err(Conflict)
  {
    if bit.Some? { StorableMask(bit.value); }
    if a in t.accessTypes && t.accessTypes[a].domain == d {
      var row0 := t.accessTypes[a];
      ReadStorable(row0.bit);
      UpdateUnique(t.accessTypes, a, AccessType(d, Asked(title, row0.title), Asked(bit, FromSql(row0.bit))));
    }
  }

  /** The update is refused exactly when it would break a unique key. */
  lemma UpdateUnique(rows: map<Id, AccessType>, a: Id, row: AccessType)
    requires UniqueAccessTypes(rows) && a in rows && row.domain == rows[a].domain
    ensures UpdateAccessType(rows, a, row) == if UniqueAccessTypes(rows[a := row]) then Ok(rows[a := row]) else Err(Conflict)
  {
    var with := rows[a := row];
    assert with[a] == row;
    if !UniqueAccessTypes(with) { TypeClash(rows, a, row); }
    forall b | b in rows && b != a ensures with[b] == rows[b] {}
  }

  /** When a patch of a permission succeeds, and which error it answers otherwise. */
  lemma PermissionPatchSucceeds(t: Tables, d: Id, p: Id, title: Option<string>, resource: Option<Id>, mask: Option<bv64>)
    requires Consistent(t)
    ensures var r := TablesAfter(t, PermissionPatch(d, p, title, resource, mask));
      var empty := title.None? && resource.None? && mask.None?;
      var found := PermissionIn(t, d, p) && (resource.Some? ==> ResourceIn(t, d, resource.value));
      && (r == Err(EmptyPatch) <==> empty)
      && (r == Err(NotFound) <==> !empty && !found)
      && (r.Ok? <==> !empty && found && (mask.Some? ==> Storable(mask.value)))
      && (!empty && found && mask.Some? && !Storable(mask.value) ==> r.Err? && r.error.InvalidInput?)
  {
    if mask.Some? { StorableMask(mask.value); }
    if p in t.permissions { ReadStorable(t.permissions[p].mask); }
  }

  /** What a successful patch leaves: the asked title, resource and mask in that row, each as before where
      none was given (a negative mask as 0), and nothing else changed. */
  lemma PermissionPatchStores(t: Tables, t': Tables, d: Id, p: Id, title: Option<string>, resource: Option<Id>, mask: Option<bv64>)
    requires TablesAfter(t, PermissionPatch(d, p, title, resource, mask)) == Ok(t')
    ensures PermissionIn(t, d, p) && PermissionIn(t', d, p) && t' == t.(permissions := t'.permissions)
    ensures forall q | q != p :: (q in t'.permissions <==> q in t.permissions)
                                 && (q in t.permissions ==> t'.permissions[q] == t.permissions[q])
    ensures t'.permissions[p].title == Asked(title, t.permissions[p].title)
    ensures t'.permissions[p].resource == Asked(resource, t.permissions[p].resource)
    ensures mask.Some? ==> t'.permissions[p].mask == mask.value
    ensures mask.None? ==> t'.permissions[p].mask == if Negative(t.permissions[p].mask) then 0 else t.permissions[p].mask
  {
    if mask.Some? { StorableMask(mask.value); }
    ReadStorable(t.permissions[p].mask);
  }

  /** Its effect: every holder has all bits of the asked mask on the permission's resource afterwards. */
  lemma PatchedMaskHeld(t: Tables, t': Tables, d: Id, p: Id, title: Option<string>, resource: Option<Id>, mask: bv64, u: Id)
    requires TablesAfter(t, PermissionPatch(d, p, title, resource, Some(mask))) == Ok(t') && Held(t, u, p)
    ensures p in t.permissions
    ensures Within(mask, GroundMask(t', Triple(d, u, Asked(resource, t.permissions[p].resource))))
  {
    PermissionPatchStores(t, t', d, p, title, resource, Some(mask));
    var k := Triple(d, u, t'.permissions[p].resource);
    assert Held(t', u, p) && Selected(t', k, p);
    PatchedFits(t, t', d, p, title, resource, mask);
    OrAllUpper(EffectiveRows(t', k), p);
  }

  lemma PatchedFits(t: Tables, t': Tables, d: Id, p: Id, title: Option<string>, resource: Option<Id>, mask: bv64)
    requires TablesAfter(t, PermissionPatch(d, p, title, resource, Some(mask))) == Ok(t')
    ensures FromSql(mask) == mask
  {
    SqlRoundTrip(mask);
  }

  // ---- parents ----

  /** Just that group's title and parent changed. */
  ghost predicate GroupChanged(t: Tables, t': Tables, d: Id, g: Id, title: string, parent: Option<Id>) {
    && GroupIn(t, d, g) && GroupIn(t', d, g) && t' == t.(groups := t'.groups)
    && (forall h | h != g :: (h in t'.groups <==> h in t.groups) && (h in t.groups ==> t'.groups[h] == t.groups[h]))
    && t'.groups[g].title == title && t'.groups[g].parent == parent
  }

  /** A successful GroupSetParent gives the group exactly the asked parent: none makes it a root, a group
      becomes its first ancestor. */
  lemma ParentIsSet(t: Tables, t': Tables, d: Id, g: Id, parent: Option<Id>)
    requires TablesAfter(t, GroupSetParent(d, g, parent)) == Ok(t')
    ensures GroupIn(t, d, g) && GroupChanged(t, t', d, g, t.groups[g].title, parent)
    ensures Up(t'.groups, g, 1) == parent
  {
  }

  /** A successful GroupPatch stores the asked title and parent, each as before where none was given. */
  lemma GroupIsPatched(t: Tables, t': Tables, d: Id, g: Id, title: Option<string>, updateParent: bool, parent: Option<Id>)
    requires TablesAfter(t, GroupPatch(d, g, title, updateParent, parent)) == Ok(t')
    ensures GroupIn(t, d, g)
    ensures GroupChanged(t, t', d, g, Asked(title, t.groups[g].title), if updateParent then parent else t.groups[g].parent)
  {
  }

  /** Clearing the parent of an existing group always succeeds, by itself or with a new title. */
  lemma ClearingSucceeds(t: Tables, d: Id, g: Id, title: Option<string>)
    requires Consistent(t)
    ensures TablesAfter(t, GroupSetParent(d, g, None)).Ok? <==> GroupIn(t, d, g)
    ensures TablesAfter(t, GroupPatch(d, g, title, true, None)).Ok? <==> GroupIn(t, d, g)
    ensures !GroupIn(t, d, g) ==> TablesAfter(t, GroupSetParent(d, g, None)) == Err(NotFound)
                                  && TablesAfter(t, GroupPatch(d, g, title, true, None)) == Err(NotFound)
  {
    GroupPatchErrors(t, d, g, title, true, None);
  }

  /** When a group gets a parent, and which error it is otherwise: the chain up from the new parent, followed for
      at most a million groups, must neither meet the group nor leave the domain before it would. */
  lemma SetParentAnswers(t: Tables, d: Id, g: Id, p: Id)
    requires Consistent(t)
    ensures var r := TablesAfter(t, GroupSetParent(d, g, Some(p)));
      var met := exists n: nat | n < 1_000_000 :: Up(t.groups, p, n) == Some(g) && DomainChain(t, d, g, p, n);
      var left := exists n: nat | n < 1_000_000 :: LeavesAt(t, d, g, p, n);
      && (r == Err(SelfParent) <==> p == g)
      && (r == Err(CycleDetected) <==> p != g && GroupIn(t, d, g) && GroupIn(t, d, p) && met)
      && (r == Err(NotFound) <==> p != g && (!GroupIn(t, d, g) || !GroupIn(t, d, p) || left))
      && (r.Ok? <==> p != g && GroupIn(t, d, g) && GroupIn(t, d, p) && !met && !left)
  {
    WalkCycle(t, d, g, p, MAX_STEPS);
    WalkMissing(t, d, g, p, MAX_STEPS);
  }

  /** GroupPatch fails like its parts: when empty, when the group is missing, or when the parent is refused. */
  lemma GroupPatchErrors(t: Tables, d: Id, g: Id, title: Option<string>, updateParent: bool, parent: Option<Id>)
    requires Consistent(t)
    ensures var r := TablesAfter(t, GroupPatch(d, g, title, updateParent, parent));
      var parented := TablesAfter(t, GroupSetParent(d, g, parent));
      && (r == Err(EmptyPatch) <==> title.None? && !updateParent)
      && (title.Some? && !updateParent ==> if GroupIn(t, d, g) then r.Ok? else r == Err(NotFound))
      && (updateParent && GroupIn(t, d, g) ==> (r.Ok? <==> parented.Ok?) && (r.Err? ==> r == parented))
      && (updateParent && !GroupIn(t, d, g) ==> r == Err(NotFound))
  {
    if updateParent && GroupIn(t, d, g) && title.Some? && parent.Some? {
      var titled := t.(groups := t.groups[g := t.groups[g].(title := title.value)]);
      WalkIgnoresTitle(t, titled, d, g, parent.value, MAX_STEPS);
    }
  }

  lemma {:induction false} WalkIgnoresTitle(t: Tables, titled: Tables, d: Id, g: Id, at: Id, steps: nat)
    requires forall h :: GroupIn(t, d, h) <==> GroupIn(titled, d, h)
    requires forall h | h in t.groups && h in titled.groups :: titled.groups[h].parent == t.groups[h].parent
    ensures Walk(titled, d, g, at, steps) == Walk(t, d, g, at, steps)
    decreases steps
  {
    if steps > 0 && at != g && GroupIn(t, d, at) && t.groups[at].parent.Some? {
      WalkIgnoresTitle(t, titled, d, g, t.groups[at].parent.value, steps - 1);
    }
  }

  lemma ReconcileLeavesTables(t: Tables)
    ensures TablesAfter(t, Reconcile) == Ok(t)
  {
  }
}
