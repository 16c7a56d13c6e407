/** The SQLite store: an object whose methods run one transaction each.

    A transaction works on its own copy of the database and is committed by assigning the copy
    back; returning without committing is the rollback. Result sets come back in an order the
    database does not promise, so rows are taken out of a set one arbitrary element at a time. */
module SqliteStore {
  import opened Basics
  import opened Masks
  import opened Schema
  import opened GroundTruth
  import opened PermissionCache
  import opened GroupForest
  import opened Transactions
  import opened Ordering
  import opened Listings

  /** `after` and `error` are what the transaction `op` makes of `before`. */
  ghost predicate Transacted(before: Db, op: Op, after: Db, error: Option<Error>) {
    match Apply(before, op)
    case Ok(db) => error == None && after == db
    case Err(e) => error == Some(e) && after == before
  }

  ghost function Elements<T>(ids: seq<T>): set<T> {
    set id | id in ids
  }

  /** Reads a one-column result set into a slice. */
  method Scan<T(==)>(rows: set<T>) returns (ids: seq<T>)
    ensures Elements(ids) == rows && |ids| == |rows|
  {
    ids := [];
    var left := rows;
    while left != {}
      invariant left <= rows && Elements(ids) == rows - left && |ids| + |left| == |rows|
      decreases |left|
    {
      var id :| id in left;
      assert Elements(ids + [id]) == Elements(ids) + {id};
      ids := ids + [id];
      left := left - {id};
    }
  }

  ghost function HolderRows(domain: Id, users: set<Id>, resource: Id, oldResource: Id, patched: bool): set<Triple> {
    ResourceRows(domain, users, resource) + (if patched then ResourceRows(domain, users, oldResource) else {})
  }

  /** The rows PermissionPatch recomputes. */
  ghost function PatchRows(t: Tables, t': Tables, domain: Id, id: Id, resource: Option<Id>, mask: Option<bv64>): set<Triple>
    requires PermissionIn(t, domain, id) && PermissionIn(t', domain, id)
  {
    if resource.Some? || mask.Some?
    then HolderRows(domain, HolderIds(t', domain, id), t'.permissions[id].resource, t.permissions[id].resource, resource.Some?)
    else {}
  }

  lemma PatchTouches(t: Tables, t': Tables, domain: Id, id: Id, title: Option<string>, resource: Option<Id>, mask: Option<bv64>)
    requires PatchPermission(t, domain, id, title, resource, mask) == Ok(t')
    ensures PermissionIn(t, domain, id) && PermissionIn(t', domain, id)
    ensures Touched(t, Op.PermissionPatch(domain, id, title, resource, mask)) == PatchRows(t, t', domain, id, resource, mask)
  {
    assert HolderIds(t', domain, id) == HolderIds(t, domain, id);
  }

  lemma PatchConsistent(t: Tables, t': Tables, domain: Id, id: Id, title: Option<string>, resource: Option<Id>, mask: Option<bv64>)
    requires Consistent(t) && PatchPermission(t, domain, id, title, resource, mask) == Ok(t')
    ensures Consistent(t')
  {
    ConsistentKept(t, Op.PermissionPatch(domain, id, title, resource, mask));
  }

  /** What the patch did to tables and cache is what its transaction does. */
  lemma PatchApplied(db: Db, domain: Id, id: Id, title: Option<string>, resource: Option<Id>, mask: Option<bv64>,
                     t: Tables, cache: Cache)
    requires PatchPermission(db.t, domain, id, title, resource, mask) == Ok(t)
    requires PermissionIn(db.t, domain, id) && PermissionIn(t, domain, id)
    requires cache == Refresh(t, db.cache, PatchRows(db.t, t, domain, id, resource, mask))
    ensures Apply(db, Op.PermissionPatch(domain, id, title, resource, mask)) == Ok(Db(t, cache))
  {
    PatchTouches(db.t, t, domain, id, title, resource, mask);
  }

  lemma PatchRefused(db: Db, domain: Id, id: Id, title: Option<string>, resource: Option<Id>, mask: Option<bv64>, e: Error)
    requires PatchPermission(db.t, domain, id, title, resource, mask) == Err(e)
    ensures Apply(db, Op.PermissionPatch(domain, id, title, resource, mask)) == Err(e)
  {
  }

  // What the six mutators did to tables and cache is what their transactions do.

  lemma AddCommitted(db: Db, d: Id, u: Id, g: Id, t: Tables, cache: Cache)
    requires InsertMember(db.t, d, Membership(u, g)) == Ok(t)
    requires cache == Refresh(t, db.cache, UserRows(d, u, GroupResourceIds(t, d, g)))
    ensures Transacted(db, Op.AddUserToGroup(d, u, g), Db(t, cache), None)
  {
    assert GroupResourceIds(t, d, g) == GroupResourceIds(db.t, d, g);
  }

  lemma RemoveCommitted(db: Db, d: Id, u: Id, g: Id, t: Tables, cache: Cache)
    requires DeleteMember(db.t, d, Membership(u, g)) == Ok(t)
    requires cache == Refresh(t, db.cache, UserRows(d, u, GroupResourceIds(db.t, d, g)))
    ensures Transacted(db, Op.RemoveUserFromGroup(d, u, g), Db(t, cache), None)
  {
  }

  lemma GrantUserCommitted(db: Db, d: Id, u: Id, p: Id, t: Tables, cache: Cache)
    requires InsertUserGrant(db.t, d, UserGrant(u, p)) == Ok(t) && PermissionIn(t, d, p)
    requires cache == Recomputed(t, db.cache, Triple(d, u, t.permissions[p].resource))
    ensures Transacted(db, Op.GrantUserPermission(d, u, p), Db(t, cache), None)
  {
    RefreshOne(t, db.cache, Triple(d, u, t.permissions[p].resource));
    RowsOfOne(d, u, t.permissions[p].resource);
  }

  lemma RevokeUserCommitted(db: Db, d: Id, u: Id, p: Id, t: Tables, cache: Cache)
    requires DeleteUserGrant(db.t, d, UserGrant(u, p)) == Ok(t) && PermissionIn(t, d, p)
    requires cache == Recomputed(t, db.cache, Triple(d, u, t.permissions[p].resource))
    ensures Transacted(db, Op.RevokeUserPermission(d, u, p), Db(t, cache), None)
  {
    RefreshOne(t, db.cache, Triple(d, u, t.permissions[p].resource));
    RowsOfOne(d, u, t.permissions[p].resource);
  }

  lemma GrantGroupCommitted(db: Db, d: Id, g: Id, p: Id, t: Tables, cache: Cache)
    requires InsertGroupGrant(db.t, d, GroupGrant(g, p)) == Ok(t)
    requires cache == Refresh(t, db.cache, GrantRows(t, d, GroupMemberIds(t, d, g), p))
    ensures Transacted(db, Op.GrantGroupPermission(d, g, p), Db(t, cache), None)
  {
    assert GroupMemberIds(t, d, g) == GroupMemberIds(db.t, d, g);
  }

  lemma RevokeGroupCommitted(db: Db, d: Id, g: Id, p: Id, t: Tables, cache: Cache)
    requires DeleteGroupGrant(db.t, d, GroupGrant(g, p)) == Ok(t)
    requires cache == Refresh(t, db.cache, GrantRows(t, d, GroupMemberIds(db.t, d, g), p))
    ensures Transacted(db, Op.RevokeGroupPermission(d, g, p), Db(t, cache), None)
  {
  }

  lemma GroupPatched(db: Db, d: Id, id: Id, title: Option<string>, updateParent: bool, parent: Option<Id>, t: Tables)
    requires PatchGroup(db.t, d, id, title, updateParent, parent) == Ok(t)
    ensures Transacted(db, Op.GroupPatch(d, id, title, updateParent, parent), Db(t, db.cache), None)
    ensures GroupIn(t, d, id)
  {
    RefreshNothing(t, db.cache);
  }

  lemma GroupNotPatched(db: Db, d: Id, id: Id, title: Option<string>, updateParent: bool, parent: Option<Id>, e: Error)
    requires PatchGroup(db.t, d, id, title, updateParent, parent) == Err(e)
    ensures Transacted(db, Op.GroupPatch(d, id, title, updateParent, parent), db, Some(e))
  {
  }

  lemma TypePatched(db: Db, d: Id, id: Id, title: Option<string>, bit: Option<bv64>, rows: map<Id, AccessType>)
    requires PatchAccessType(db.t.accessTypes, d, id, title, bit) == Ok(rows)
    ensures Transacted(db, Op.AccessTypePatch(d, id, title, bit), Db(db.t.(accessTypes := rows), db.cache), None)
  {
    RefreshNothing(db.t.(accessTypes := rows), db.cache);
  }

  /** What an update stores reads back unchanged. */
  lemma StoredBit(rows: map<Id, AccessType>, d: Id, id: Id, title: Option<string>, bit: Option<bv64>, rows': map<Id, AccessType>)
    requires PatchAccessType(rows, d, id, title, bit) == Ok(rows')
    ensures id in rows' && rows'[id].domain == d && FromSql(rows'[id].bit) == rows'[id].bit
  {
    SqlRoundTrip(if bit.Some? then bit.value else FromSql(rows[id].bit));
  }

  lemma TypeNotPatched(db: Db, d: Id, id: Id, title: Option<string>, bit: Option<bv64>, e: Error)
    requires PatchAccessType(db.t.accessTypes, d, id, title, bit) == Err(e)
    ensures Transacted(db, Op.AccessTypePatch(d, id, title, bit), db, Some(e))
  {
  }

  lemma ReconcileApplied(db: Db, cache: Cache)
    requires cache == Refresh(db.t, map[], HeldTriples(db.t))
    ensures Apply(db, Reconcile) == Ok(Db(db.t, cache))
  {
  }

  /** Recomputing one holder's rows on the new and, if it moved, the old resource. */
  lemma RefreshHolder(t: Tables, cache: Cache, domain: Id, done: set<Id>, user: Id,
                      resource: Id, oldResource: Id, patched: bool)
    ensures var before := Refresh(t, cache, HolderRows(domain, done, resource, oldResource, patched));
            var first := Recomputed(t, before, Triple(domain, user, resource));
            (if patched && oldResource != resource then Recomputed(t, first, Triple(domain, user, oldResource)) else first)
            == Refresh(t, cache, HolderRows(domain, done + {user}, resource, oldResource, patched))
  {
    var rows := HolderRows(domain, done, resource, oldResource, patched);
    var first, second := Triple(domain, user, resource), Triple(domain, user, oldResource);
    RefreshOneMore(t, cache, rows, first);
    RefreshOneMore(t, cache, rows + {first}, second);
    ResourceRowsAdd(domain, done, user, resource);
    ResourceRowsAdd(domain, done, user, oldResource);
    var after := HolderRows(domain, done + {user}, resource, oldResource, patched);
    if patched {
      assert after == rows + {first} + {second};
      assert oldResource == resource ==> after == rows + {first};
    } else {
      assert after == rows + {first};
    }
  }

  class Tx {
    var t: Tables
    var cache: Cache

    constructor (t: Tables, cache: Cache)
      ensures this.t == t && this.cache == cache
    {
      this.t, this.cache := t, cache;
    }

    ghost function State(): Db
      reads this
    {
      Db(t, cache)
    }

    /** computeAndUpsertMask: writes or deletes the cache row. Neither the overflow check nor a
        foreign key of the cache can fail here. */
    method ComputeAndUpsertMask(domain: Id, user: Id, resource: Id) returns (error: Option<Error>)
      requires ForeignKeys(t)
      modifies this`cache
      ensures error == None
      ensures cache == Recomputed(t, old(cache), Triple(domain, user, resource))
    {
      var k := Triple(domain, user, resource);
      var combined := OrRows(EffectiveRows(t, k));
      if combined == 0 {
        cache := cache - {k};
        return None;
      }
      GroundFits(t, k);
      NonZeroMaskStaysInDomain(t, k);
      match ToSql(combined)
      case Err(e) => return Some(e);
      case Ok(stored) =>
        match UpsertCache(t, cache, k, stored)
        case Err(e) => return Some(e);
        case Ok(written) =>
          cache := written;
          return None;
    }

    /** The loop over affected resources of one user. */
    method RecomputeResources(domain: Id, user: Id, resources: seq<Id>) returns (error: Option<Error>)
      requires ForeignKeys(t)
      modifies this`cache
      ensures error == None
      ensures cache == Refresh(t, old(cache), UserRows(domain, user, Elements(resources)))
    {
      RefreshNothing(t, cache);
      ghost var done: set<Id> := {};
      for i := 0 to |resources|
        invariant done == Elements(resources[..i])
        invariant cache == Refresh(t, old(cache), UserRows(domain, user, done))
      {
        error := ComputeAndUpsertMask(domain, user, resources[i]);
        if error.Some? { return; }
        RefreshOneMore(t, old(cache), UserRows(domain, user, done), Triple(domain, user, resources[i]));
        UserRowsAdd(domain, user, done, resources[i]);
        assert resources[..i + 1] == resources[..i] + [resources[i]];
        done := done + {resources[i]};
      }
      assert resources[..|resources|] == resources;
      error := None;
    }

    /** The loop over affected users of one resource. */
    method RecomputeUsers(domain: Id, users: seq<Id>, resource: Id) returns (error: Option<Error>)
      requires ForeignKeys(t)
      modifies this`cache
      ensures error == None
      ensures cache == Refresh(t, old(cache), ResourceRows(domain, Elements(users), resource))
    {
      RefreshNothing(t, cache);
      ghost var done: set<Id> := {};
      for i := 0 to |users|
        invariant done == Elements(users[..i])
        invariant cache == Refresh(t, old(cache), ResourceRows(domain, done, resource))
      {
        error := ComputeAndUpsertMask(domain, users[i], resource);
        if error.Some? { return; }
        RefreshOneMore(t, old(cache), ResourceRows(domain, done, resource), Triple(domain, users[i], resource));
        ResourceRowsAdd(domain, done, users[i], resource);
        assert users[..i + 1] == users[..i] + [users[i]];
        done := done + {users[i]};
      }
      assert users[..|users|] == users;
      error := None;
    }

    /** The refresh after a group grant changed: nothing to look up when the group has no members. */
    method RecomputeMembers(domain: Id, members: seq<Id>, permission: Id) returns (error: Option<Error>)
      requires ForeignKeys(t) && PermissionIn(t, domain, permission)
      modifies this`cache
      ensures error == None
      ensures cache == Refresh(t, old(cache), GrantRows(t, domain, Elements(members), permission))
    {
      if |members| > 0 {
        match PermissionResource(t, domain, permission)
        case Err(e) => return Some(e);
        case Ok(resource) => error := RecomputeUsers(domain, members, resource);
      } else {
        RefreshNothing(t, cache);
        error := None;
      }
    }

    /** The loop of ReconcileUserResourceMasks over the collected triples. */
    method RecomputeTriples(triples: seq<Triple>) returns (error: Option<Error>)
      requires ForeignKeys(t)
      modifies this`cache
      ensures error == None
      ensures cache == Refresh(t, old(cache), Elements(triples))
    {
      RefreshNothing(t, cache);
      ghost var done: set<Triple> := {};
      for i := 0 to |triples|
        invariant done == Elements(triples[..i])
        invariant cache == Refresh(t, old(cache), done)
      {
        error := ComputeAndUpsertMask(triples[i].domain, triples[i].user, triples[i].resource);
        if error.Some? { return; }
        RefreshOneMore(t, old(cache), done, triples[i]);
        assert triples[..i + 1] == triples[..i] + [triples[i]];
        done := done + {triples[i]};
      }
      assert triples[..|triples|] == triples;
      error := None;
    }

    /** The loop of PermissionPatch over the holders: the new resource, and the old one if it moved. */
    method RecomputeHolders(domain: Id, holders: seq<Id>, resource: Id, oldResource: Id, patched: bool)
      returns (error: Option<Error>)
      requires ForeignKeys(t)
      modifies this`cache
      ensures error == None
      ensures cache == Refresh(t, old(cache), HolderRows(domain, Elements(holders), resource, oldResource, patched))
    {
      RefreshNothing(t, cache);
      ghost var done: set<Id> := {};
      for i := 0 to |holders|
        invariant done == Elements(holders[..i])
        invariant cache == Refresh(t, old(cache), HolderRows(domain, done, resource, oldResource, patched))
      {
        error := ComputeAndUpsertMask(domain, holders[i], resource);
        if error.Some? { return; }
        if patched && oldResource != resource {
          error := ComputeAndUpsertMask(domain, holders[i], oldResource);
          if error.Some? { return; }
        }
        RefreshHolder(t, old(cache), domain, done, holders[i], resource, oldResource, patched);
        assert holders[..i + 1] == holders[..i] + [holders[i]];
        done := done + {holders[i]};
      }
      assert holders[..|holders|] == holders;
      error := None;
    }

    /** PermissionPatch up to and including the UPDATE. */
    method UpdatePermissionRow(domain: Id, id: Id, title: Option<string>, resource: Option<Id>, mask: Option<bv64>)
      returns (error: Option<Error>)
      modifies this`t
      ensures match Transactions.PatchPermission(old(t), domain, id, title, resource, mask)
              case Ok(after) => error == None && t == after
              case Err(e) => error == Some(e) && t == old(t)
    {
      if title.None? && resource.None? && mask.None? { return Some(EmptyPatch); }
      if !PermissionIn(t, domain, id) { return Some(NotFound); }
      var current := t.permissions[id];
      var newTitle := if title.Some? then title.value else current.title;
      var newResource := current.resource;
      if resource.Some? {
        if !ResourceIn(t, domain, resource.value) { return Some(NotFound); }
        newResource := resource.value;
      }
      var newMask := if mask.Some? then mask.value else FromSql(current.mask);
      match ToSql(newMask)
      case Err(e) => return Some(e);
      case Ok(stored) =>
        match UpdatePermission(t, id, newTitle, newResource, stored)
        case Err(e) => return Some(e);
        case Ok(updated) =>
          t := updated;
          return None;
    }

    /** The refresh after the UPDATE: every holder's rows, if mask or resource was given. */
    method RefreshHolders(ghost before: Tables, domain: Id, id: Id, oldResource: Id, resource: Option<Id>, mask: Option<bv64>)
      returns (error: Option<Error>)
      requires ForeignKeys(t) && PermissionIn(before, domain, id) && PermissionIn(t, domain, id)
      requires oldResource == before.permissions[id].resource
      modifies this`cache
      ensures error == None
      ensures cache == Refresh(t, old(cache), PatchRows(before, t, domain, id, resource, mask))
    {
      if mask.Some? || resource.Some? {
        var holders := Scan(HolderIds(t, domain, id));
        error := RecomputeHolders(domain, holders, t.permissions[id].resource, oldResource, resource.Some?);
      } else {
        RefreshNothing(t, cache);
        error := None;
      }
    }

    /** PermissionPatch: the UPDATE, then the refresh of the holders' rows if mask or resource was given. */
    method PatchPermission(domain: Id, id: Id, title: Option<string>, resource: Option<Id>, mask: Option<bv64>)
      returns (error: Option<Error>)
      requires Consistent(t)
      modifies this
      ensures error.None? ==> PermissionIn(t, domain, id)
      ensures error.None? ==> Apply(old(State()), Op.PermissionPatch(domain, id, title, resource, mask)) == Ok(State())
      ensures error.Some? ==> Apply(old(State()), Op.PermissionPatch(domain, id, title, resource, mask)) == Err(error.value)
    {
      ghost var before := t;
      var oldResource := PermissionResource(t, domain, id);
      error := UpdatePermissionRow(domain, id, title, resource, mask);
      if error.Some? {
        PatchRefused(old(State()), domain, id, title, resource, mask, error.value);
        return;
      }
      PatchTouches(before, t, domain, id, title, resource, mask);
      PatchConsistent(before, t, domain, id, title, resource, mask);
      error := RefreshHolders(before, domain, id, oldResource.value, resource, mask);
      PatchApplied(old(State()), domain, id, title, resource, mask, t, cache);
    }

    /** groupGetTx. */
    method GroupGet(domain: Id, id: Id) returns (g: Result<Group>)
      ensures g == if GroupIn(t, domain, id) then Ok(t.groups[id]) else Err(NotFound)
    {
      g := if GroupIn(t, domain, id) then Ok(t.groups[id]) else Err(NotFound);
    }

    /** groupSetParentTx, with its walk up the parent chain. */
    method GroupSetParent(domain: Id, id: Id, parent: Option<Id>) returns (error: Option<Error>)
      modifies this`t
      ensures match SetParent(old(t), domain, id, parent, MAX_STEPS)
              case Ok(after) => error == None && t == after
              case Err(e) => error == Some(e) && t == old(t)
    {
      if parent == Some(id) { return Some(SelfParent); }
      var g := GroupGet(domain, id);
      if g.Err? { return Some(g.error); }
      if parent.Some? {
        var p := GroupGet(domain, parent.value);
        if p.Err? { return Some(p.error); }
        var walk := parent.value;
        for i := 0 to MAX_STEPS
          invariant t == old(t)
          invariant Walk(t, domain, id, parent.value, MAX_STEPS) == Walk(t, domain, id, walk, MAX_STEPS - i)
        {
          if walk == id { return Some(CycleDetected); }
          var pg := GroupGet(domain, walk);
          if pg.Err? { return Some(pg.error); }
          if pg.value.parent.None? { break; }
          walk := pg.value.parent.value;
        }
        assert Walk(t, domain, id, parent.value, MAX_STEPS).Clear?;
      }
      match UpdateGroup(t, id, g.value.title, parent)
      case Err(e) => return Some(e);
      case Ok(after) =>
        t := after;
        return None;
    }

    /** The checks and the updates of GroupPatch. */
    method PatchGroup(domain: Id, id: Id, title: Option<string>, updateParent: bool, parent: Option<Id>)
      returns (error: Option<Error>)
      modifies this`t
      ensures match Transactions.PatchGroup(old(t), domain, id, title, updateParent, parent)
              case Ok(after) => error == None && t == after
              case Err(e) => error == Some(e)
    {
      if title.None? && !updateParent { return Some(EmptyPatch); }
      var g := GroupGet(domain, id);
      if g.Err? { return Some(g.error); }
      if title.Some? {
        match UpdateGroup(t, id, title.value, g.value.parent)
        case Err(e) => return Some(e);
        case Ok(updated) => t := updated;
      }
      if updateParent {
        error := GroupSetParent(domain, id, parent);
        return;
      }
      error := None;
    }
  }

  class Store {
    var tables: Tables
    var cache: Cache

    ghost function State(): Db
      reads this
    {
      Db(tables, cache)
    }

    constructor ()
      ensures State() == Db(EmptyTables, map[])
      ensures Consistent(tables) && Exact(tables, cache)
    {
      tables, cache := EmptyTables, map[];
      new;
      forall k ensures GroundMask(tables, k) == 0 { GroundNonZero(tables, k); }
    }

    // ---- reads ----

    /** EffectiveMask reads the cache only; with an exact cache that is the ground truth. */
    method EffectiveMask(domain: Id, user: Id, resource: Id) returns (mask: bv64)
      ensures mask == FromSql(CacheAt(cache, Triple(domain, user, resource)))
      ensures Exact(tables, cache) ==> mask == GroundMask(tables, Triple(domain, user, resource))
    {
      var k := Triple(domain, user, resource);
      GroundFits(tables, k);
      if k !in cache { return 0; }
      mask := FromSql(cache[k]);
    }

    /** PermissionMasksForUserResource: one mask per selected permission, in arbitrary order. */
    method PermissionMasksForUserResource(domain: Id, user: Id, resource: Id) returns (masks: seq<bv64>)
      ensures |masks| == |EffectiveRows(tables, Triple(domain, user, resource))|
      ensures OrSeq(masks) == GroundMask(tables, Triple(domain, user, resource))
    {
      masks := ScanMasks(EffectiveRows(tables, Triple(domain, user, resource)));
    }

    /** UserAuthzResourcesList: count and page of the user's cache rows. */
    method UserAuthzResourcesList(domain: Id, user: Id, opts: ListOpts) returns (r: Result<Listing>)
      ensures r == if domain !in tables.domains || !UserIn(tables, domain, user) then Err(NotFound)
                   else Ok(ListingOf(CachedUserMasks(cache, domain, user), opts))
      ensures Exact(tables, cache) ==> r == UserListing(tables, domain, user, opts)
    {
      if Exact(tables, cache) { CachedUserMasksExact(tables, cache, domain, user); }
      if domain !in tables.domains { return Err(NotFound); }
      if !UserIn(tables, domain, user) { return Err(NotFound); }
      var total := |CachedUserRows(cache, domain, user)|;
      RowCount(CachedUserRows(cache, domain, user), domain, user);
      var masks := CachedUserMasks(cache, domain, user);
      assert masks.Keys == set k | k in CachedUserRows(cache, domain, user) :: k.resource;
      var ordered := OrderBy(masks.Keys);
      var rows := BuildRows(Page(ordered, Sanitize(opts).offset, Sanitize(opts).limit), masks);
      r := Ok(Listing(rows, total));
    }

    /** ResourceAuthzUsersList: count and page of the resource's cache rows. */
    method ResourceAuthzUsersList(domain: Id, resource: Id, opts: ListOpts) returns (r: Result<Listing>)
      ensures r == if domain !in tables.domains || !ResourceIn(tables, domain, resource) then Err(NotFound)
                   else Ok(ListingOf(CachedResourceMasks(cache, domain, resource), opts))
      ensures ForeignKeys(tables) && Exact(tables, cache) ==> r == ResourceListing(tables, domain, resource, opts)
    {
      if ForeignKeys(tables) && Exact(tables, cache) { CachedResourceMasksExact(tables, cache, domain, resource); }
      if domain !in tables.domains { return Err(NotFound); }
      if !ResourceIn(tables, domain, resource) { return Err(NotFound); }
      var total := |CachedResourceRows(cache, domain, resource)|;
      UserRowCount(CachedResourceRows(cache, domain, resource), domain, resource);
      var masks := CachedResourceMasks(cache, domain, resource);
      assert masks.Keys == set k | k in CachedResourceRows(cache, domain, resource) :: k.user;
      var ordered := OrderBy(masks.Keys);
      var rows := BuildRows(Page(ordered, Sanitize(opts).offset, Sanitize(opts).limit), masks);
      r := Ok(Listing(rows, total));
    }

    /** GroupAuthzResourcesList reads the source tables in this store too. */
    method GroupAuthzResourcesList(domain: Id, group: Id, opts: ListOpts) returns (r: Result<Listing>)
      ensures r == GroupListing(tables, domain, group, opts)
    {
      if domain !in tables.domains { return Err(NotFound); }
      if !GroupIn(tables, domain, group) { return Err(NotFound); }
      var listing := ListGroupResources(tables, domain, group, opts);
      r := Ok(listing);
    }

    /** ResourceAuthzGroupsList, likewise. */
    method ResourceAuthzGroupsList(domain: Id, resource: Id, opts: ListOpts) returns (r: Result<Listing>)
      ensures r == ResourceGroupListing(tables, domain, resource, opts)
    {
      if domain !in tables.domains { return Err(NotFound); }
      if !ResourceIn(tables, domain, resource) { return Err(NotFound); }
      var listing := ListResourceGroups(tables, domain, resource, opts);
      r := Ok(listing);
    }

    // ---- grants and memberships ----

    method AddUserToGroup(domain: Id, user: Id, group: Id) returns (error: Option<Error>)
      requires Consistent(tables)
      modifies this
      ensures Transacted(old(State()), Op.AddUserToGroup(domain, user, group), State(), error)
    {
      var tx := new Tx(tables, cache);
      match InsertMember(tx.t, domain, Membership(user, group))
      case Err(e) => return Some(e);
      case Ok(inserted) =>
        tx.t := inserted;
        var affected := Scan(GroupResourceIds(tx.t, domain, group));
        error := tx.RecomputeResources(domain, user, affected);
        if error.Some? { return; }
        AddCommitted(old(State()), domain, user, group, tx.t, tx.cache);
        Commit(tx);
    }

    method RemoveUserFromGroup(domain: Id, user: Id, group: Id) returns (error: Option<Error>)
      requires Consistent(tables)
      modifies this
      ensures Transacted(old(State()), Op.RemoveUserFromGroup(domain, user, group), State(), error)
    {
      var tx := new Tx(tables, cache);
      var affected := Scan(GroupResourceIds(tx.t, domain, group));
      match DeleteMember(tx.t, domain, Membership(user, group))
      case Err(e) => return Some(e);
      case Ok(deleted) =>
        tx.t := deleted;
        error := tx.RecomputeResources(domain, user, affected);
        if error.Some? { return; }
        RemoveCommitted(old(State()), domain, user, group, tx.t, tx.cache);
        Commit(tx);
    }

    method GrantUserPermission(domain: Id, user: Id, permission: Id) returns (error: Option<Error>)
      requires Consistent(tables)
      modifies this
      ensures Transacted(old(State()), Op.GrantUserPermission(domain, user, permission), State(), error)
    {
      var tx := new Tx(tables, cache);
      match InsertUserGrant(tx.t, domain, UserGrant(user, permission))
      case Err(e) => return Some(e);
      case Ok(inserted) =>
        tx.t := inserted;
        match PermissionResource(tx.t, domain, permission)
        case Err(e) => return Some(e);
        case Ok(resource) =>
          error := tx.ComputeAndUpsertMask(domain, user, resource);
          if error.Some? { return; }
          GrantUserCommitted(old(State()), domain, user, permission, tx.t, tx.cache);
          Commit(tx);
    }

    method RevokeUserPermission(domain: Id, user: Id, permission: Id) returns (error: Option<Error>)
      requires Consistent(tables)
      modifies this
      ensures Transacted(old(State()), Op.RevokeUserPermission(domain, user, permission), State(), error)
    {
      var tx := new Tx(tables, cache);
      match DeleteUserGrant(tx.t, domain, UserGrant(user, permission))
      case Err(e) => return Some(e);
      case Ok(deleted) =>
        tx.t := deleted;
        match PermissionResource(tx.t, domain, permission)
        case Err(e) => return Some(e);
        case Ok(resource) =>
          error := tx.ComputeAndUpsertMask(domain, user, resource);
          if error.Some? { return; }
          RevokeUserCommitted(old(State()), domain, user, permission, tx.t, tx.cache);
          Commit(tx);
    }

    method GrantGroupPermission(domain: Id, group: Id, permission: Id) returns (error: Option<Error>)
      requires Consistent(tables)
      modifies this
      ensures Transacted(old(State()), Op.GrantGroupPermission(domain, group, permission), State(), error)
    {
      var tx := new Tx(tables, cache);
      match InsertGroupGrant(tx.t, domain, GroupGrant(group, permission))
      case Err(e) => return Some(e);
      case Ok(inserted) =>
        tx.t := inserted;
        var members := Scan(GroupMemberIds(tx.t, domain, group));
        error := tx.RecomputeMembers(domain, members, permission);
        if error.Some? { return; }
        GrantGroupCommitted(old(State()), domain, group, permission, tx.t, tx.cache);
        Commit(tx);
    }

    method RevokeGroupPermission(domain: Id, group: Id, permission: Id) returns (error: Option<Error>)
      requires Consistent(tables)
      modifies this
      ensures Transacted(old(State()), Op.RevokeGroupPermission(domain, group, permission), State(), error)
    {
      var tx := new Tx(tables, cache);
      var members := Scan(GroupMemberIds(tx.t, domain, group));
      match DeleteGroupGrant(tx.t, domain, GroupGrant(group, permission))
      case Err(e) => return Some(e);
      case Ok(deleted) =>
        tx.t := deleted;
        error := tx.RecomputeMembers(domain, members, permission);
        if error.Some? { return; }
        RevokeGroupCommitted(old(State()), domain, group, permission, tx.t, tx.cache);
        Commit(tx);
    }

    // ---- permissions ----

    method PermissionCreate(id: Id, p: Permission) returns (error: Option<Error>)
      modifies this
      ensures Transacted(old(State()), Op.PermissionCreate(id, p), State(), error)
    {
      RefreshNothing(tables, cache);
      match ToSql(p.mask)
      case Err(e) => return Some(e);
      case Ok(stored) =>
        match InsertPermission(tables, id, p.(mask := stored))
        case Err(e) => return Some(e);
        case Ok(inserted) =>
          RefreshNothing(inserted, cache);
          tables := inserted;
          return None;
    }

    method PermissionDelete(domain: Id, id: Id) returns (error: Option<Error>)
      modifies this
      ensures Transacted(old(State()), Op.PermissionDelete(domain, id), State(), error)
    {
      match DeletePermission(tables, domain, id)
      case Err(e) => return Some(e);
      case Ok(deleted) =>
        RefreshNothing(deleted, cache);
        tables := deleted;
        return None;
    }

    /** PermissionGet: a negative stored mask is reported as 0. */
    method PermissionGet(domain: Id, id: Id) returns (p: Result<Permission>)
      ensures p == if PermissionIn(tables, domain, id)
                   then Ok(tables.permissions[id].(mask := FromSql(tables.permissions[id].mask)))
                   else Err(NotFound)
    {
      if !PermissionIn(tables, domain, id) { return Err(NotFound); }
      var row := tables.permissions[id];
      p := Ok(row.(mask := FromSql(row.mask)));
    }

    method PermissionPatch(domain: Id, id: Id, title: Option<string>, resource: Option<Id>, mask: Option<bv64>)
      returns (r: Result<Permission>)
      requires Consistent(tables)
      modifies this
      ensures Transacted(old(State()), Op.PermissionPatch(domain, id, title, resource, mask), State(),
                         if r.Ok? then None else Some(r.error))
      ensures r.Ok? ==>
        && PermissionIn(tables, domain, id)
        && r.value == tables.permissions[id].(mask := FromSql(tables.permissions[id].mask))
    {
      var tx := new Tx(tables, cache);
      var error := tx.PatchPermission(domain, id, title, resource, mask);
      if error.Some? { return Err(error.value); }
      Commit(tx);
      r := PermissionGet(domain, id);
    }

    // ---- reconciliation ----

    method ReconcileUserResourceMasks() returns (error: Option<Error>)
      requires Consistent(tables)
      modifies this
      ensures Transacted(old(State()), Reconcile, State(), error)
    {
      var tx := new Tx(tables, map[]);
      var triples := Scan(HeldTriples(tx.t));
      error := tx.RecomputeTriples(triples);
      if error.Some? { return; }
      ReconcileApplied(State(), tx.cache);
      Commit(tx);
    }

    // ---- groups ----

    method GroupCreate(id: Id, g: Group) returns (error: Option<Error>)
      modifies this
      ensures Transacted(old(State()), Op.GroupCreate(id, g), State(), error)
    {
      match InsertGroup(tables, id, g)
      case Err(e) => return Some(e);
      case Ok(inserted) =>
        RefreshNothing(inserted, cache);
        tables := inserted;
        return None;
    }

    method GroupSetParent(domain: Id, id: Id, parent: Option<Id>) returns (error: Option<Error>)
      modifies this
      ensures Transacted(old(State()), Op.GroupSetParent(domain, id, parent), State(), error)
    {
      var tx := new Tx(tables, cache);
      error := tx.GroupSetParent(domain, id, parent);
      if error.Some? { return; }
      RefreshNothing(tx.t, tx.cache);
      Commit(tx);
    }

    /** GroupGet outside a transaction. */
    method GroupGet(domain: Id, id: Id) returns (g: Result<Group>)
      ensures g == if GroupIn(tables, domain, id) then Ok(tables.groups[id]) else Err(NotFound)
    {
      g := if GroupIn(tables, domain, id) then Ok(tables.groups[id]) else Err(NotFound);
    }

    /** GroupPatch: title and parent in one transaction; the group is read back after the commit. */
    method GroupPatch(domain: Id, id: Id, title: Option<string>, updateParent: bool, parent: Option<Id>)
      returns (r: Result<Group>)
      modifies this
      ensures Transacted(old(State()), Op.GroupPatch(domain, id, title, updateParent, parent), State(),
                         if r.Ok? then None else Some(r.error))
      ensures r.Ok? ==> GroupIn(tables, domain, id) && r.value == tables.groups[id]
    {
      var tx := new Tx(tables, cache);
      var error := tx.PatchGroup(domain, id, title, updateParent, parent);
      if error.Some? {
        GroupNotPatched(State(), domain, id, title, updateParent, parent, error.value);
        return Err(error.value);
      }
      GroupPatched(State(), domain, id, title, updateParent, parent, tx.t);
      Commit(tx);
      r := GroupGet(domain, id);
    }

    method GroupDelete(domain: Id, id: Id) returns (error: Option<Error>)
      modifies this
      ensures Transacted(old(State()), Op.GroupDelete(domain, id), State(), error)
    {
      match DeleteGroup(tables, domain, id)
      case Err(e) => return Some(e);
      case Ok(deleted) =>
        RefreshNothing(deleted, cache);
        tables := deleted;
        return None;
    }

    // ---- access types ----

    method AccessTypeCreate(id: Id, a: AccessType) returns (error: Option<Error>)
      modifies this
      ensures Transacted(old(State()), Op.AccessTypeCreate(id, a), State(), error)
    {
      match ToSql(a.bit)
      case Err(e) => return Some(e);
      case Ok(bit) =>
        match InsertAccessType(tables.accessTypes, tables.domains, id, a.(bit := bit))
        case Err(e) => return Some(e);
        case Ok(rows) =>
          tables := tables.(accessTypes := rows);
          RefreshNothing(tables, cache);
          return None;
    }

    /** AccessTypeGet: a negative stored bit is reported as 0. */
    method AccessTypeGet(domain: Id, id: Id) returns (a: Result<AccessType>)
      ensures a == if id in tables.accessTypes && tables.accessTypes[id].domain == domain
                   then Ok(tables.accessTypes[id].(bit := FromSql(tables.accessTypes[id].bit)))
                   else Err(NotFound)
    {
      if id !in tables.accessTypes || tables.accessTypes[id].domain != domain { return Err(NotFound); }
      var row := tables.accessTypes[id];
      a := Ok(row.(bit := FromSql(row.bit)));
    }

    /** The checks and the UPDATE of AccessTypePatch. */
    method UpdateTypeRow(domain: Id, id: Id, title: Option<string>, bit: Option<bv64>) returns (r: Result<map<Id, AccessType>>)
      ensures r == PatchAccessType(tables.accessTypes, domain, id, title, bit)
    {
      if title.None? && bit.None? { return Err(EmptyPatch); }
      if id !in tables.accessTypes || tables.accessTypes[id].domain != domain { return Err(NotFound); }
      var current := tables.accessTypes[id];
      var newTitle := if title.Some? then title.value else current.title;
      var newBit := if bit.Some? then bit.value else FromSql(current.bit);
      match ToSql(newBit)
      case Err(e) => return Err(e);
      case Ok(stored) => r := UpdateAccessType(tables.accessTypes, id, AccessType(domain, newTitle, stored));
    }

    /** AccessTypePatch; the row is read back after the commit. */
    method AccessTypePatch(domain: Id, id: Id, title: Option<string>, bit: Option<bv64>) returns (r: Result<AccessType>)
      modifies this
      ensures Transacted(old(State()), Op.AccessTypePatch(domain, id, title, bit), State(),
                         if r.Ok? then None else Some(r.error))
      ensures r.Ok? ==> id in tables.accessTypes && r.value == tables.accessTypes[id]
    {
      var updated := UpdateTypeRow(domain, id, title, bit);
      match updated
      case Err(e) =>
        TypeNotPatched(State(), domain, id, title, bit, e);
        return Err(e);
      case Ok(rows) =>
        TypePatched(State(), domain, id, title, bit, rows);
        StoredBit(tables.accessTypes, domain, id, title, bit, rows);
        tables := tables.(accessTypes := rows);
        r := AccessTypeGet(domain, id);
    }

    method AccessTypeDelete(domain: Id, id: Id) returns (error: Option<Error>)
      modifies this
      ensures Transacted(old(State()), Op.AccessTypeDelete(domain, id), State(), error)
    {
      match DeleteAccessType(tables.accessTypes, domain, id)
      case Err(e) => return Some(e);
      case Ok(rows) =>
        tables := tables.(accessTypes := rows);
        RefreshNothing(tables, cache);
        return None;
    }

    // ---- plain inserts ----

    method DomainCreate(id: Id) returns (error: Option<Error>)
      modifies this
      ensures Transacted(old(State()), Op.DomainCreate(id), State(), error)
    {
      match InsertDomain(tables, id)
      case Err(e) => return Some(e);
      case Ok(inserted) =>
        RefreshNothing(inserted, cache);
        tables := inserted;
        return None;
    }

    method UserCreate(domain: Id, id: Id) returns (error: Option<Error>)
      modifies this
      ensures Transacted(old(State()), Op.UserCreate(domain, id), State(), error)
    {
      match InsertUser(tables, domain, id)
      case Err(e) => return Some(e);
      case Ok(inserted) =>
        RefreshNothing(inserted, cache);
        tables := inserted;
        return None;
    }

    method ResourceCreate(domain: Id, id: Id) returns (error: Option<Error>)
      modifies this
      ensures Transacted(old(State()), Op.ResourceCreate(domain, id), State(), error)
    {
      match InsertResource(tables, domain, id)
      case Err(e) => return Some(e);
      case Ok(inserted) =>
        RefreshNothing(inserted, cache);
        tables := inserted;
        return None;
    }

    // ---- deletes that cascade into the cache ----

    method DomainDelete(id: Id) returns (error: Option<Error>)
      modifies this
      ensures Transacted(old(State()), Op.DomainDelete(id), State(), error)
    {
      match DeleteDomain(tables, id)
      case Err(e) => return Some(e);
      case Ok(deleted) =>
        tables := deleted;
        cache := map k | k in cache && k.domain != id :: cache[k];
        RefreshNothing(tables, cache);
        return None;
    }

    method UserDelete(domain: Id, id: Id) returns (error: Option<Error>)
      modifies this
      ensures Transacted(old(State()), Op.UserDelete(domain, id), State(), error)
    {
      match DeleteUser(tables, domain, id)
      case Err(e) => return Some(e);
      case Ok(deleted) =>
        tables := deleted;
        cache := map k | k in cache && k.user != id :: cache[k];
        RefreshNothing(tables, cache);
        return None;
    }

    method ResourceDelete(domain: Id, id: Id) returns (error: Option<Error>)
      modifies this
      ensures Transacted(old(State()), Op.ResourceDelete(domain, id), State(), error)
    {
      match DeleteResource(tables, domain, id)
      case Err(e) => return Some(e);
      case Ok(deleted) =>
        tables := deleted;
        cache := map k | k in cache && k.resource != id :: cache[k];
        RefreshNothing(tables, cache);
        return None;
    }

    /** Commits: the transaction's copy becomes the database. */
    method Commit(tx: Tx)
      modifies this
      ensures State() == old(tx.State())
    {
      tables, cache := tx.t, tx.cache;
    }
  }
}
