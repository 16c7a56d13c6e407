/** The materialised cache user_resource_masks: what it must hold, how a transaction repairs it,
    and why the rows each transaction repairs are enough. */
module PermissionCache {
  import opened Basics
  import opened Masks
  import opened Schema
  import opened GroundTruth

  /** A missing cache row means no access. */
  function CacheAt(cache: Cache, k: Triple): bv64 {
    if k in cache then cache[k] else 0
  }

  /** The cache holds exactly the triples with a non-zero effective mask, each with that mask. */
  ghost predicate Exact(t: Tables, cache: Cache) {
    forall k :: CacheAt(cache, k) == GroundMask(t, k) && (k in cache ==> cache[k] != 0)
  }

  /** One row brought up to date: written when the mask is non-zero, deleted otherwise. */
  ghost function Recomputed(t: Tables, cache: Cache, k: Triple): Cache {
    if GroundMask(t, k) == 0 then cache - {k} else cache[k := GroundMask(t, k)]
  }

  /** The rows of `ks` brought up to date, the others left alone. */
  ghost function Refresh(t: Tables, cache: Cache, ks: set<Triple>): Cache {
    map k | k in cache.Keys + ks && (k in ks ==> GroundMask(t, k) != 0)
         :: if k in ks then GroundMask(t, k) else cache[k]
  }

  /** Rows may be recomputed one at a time and in any order. */
  lemma RefreshOneMore(t: Tables, cache: Cache, ks: set<Triple>, k: Triple)
    ensures Recomputed(t, Refresh(t, cache, ks), k) == Refresh(t, cache, ks + {k})
  {
    var before := Refresh(t, cache, ks);
    var one, all := Recomputed(t, before, k), Refresh(t, cache, ks + {k});
    forall j ensures (j in one <==> j in all) && (j in one ==> one[j] == all[j]) {
      if j == k {
      } else {
        assert j in one <==> j in before;
        assert j in all <==> j in before;
      }
    }
    SameMap(one, all);
  }

  lemma SameMap<K, V>(a: map<K, V>, b: map<K, V>)
    requires forall k :: k in a <==> k in b
    requires forall k | k in a :: a[k] == b[k]
    ensures a == b
  {
  }

  lemma RefreshOne(t: Tables, cache: Cache, k: Triple)
    ensures Recomputed(t, cache, k) == Refresh(t, cache, {k})
  {
    RefreshNothing(t, cache);
    RefreshOneMore(t, cache, {}, k);
    assert {} + {k} == {k};
  }

  lemma RefreshNothing(t: Tables, cache: Cache)
    ensures Refresh(t, cache, {}) == cache
  {
  }

  /** An exact cache is determined by the source tables. */
  lemma ExactUnique(t: Tables, a: Cache, b: Cache)
    requires Exact(t, a) && Exact(t, b)
    ensures a == b
  {
    forall k ensures k in a <==> k in b {
      assert CacheAt(a, k) == CacheAt(b, k);
    }
    forall k | k in a ensures a[k] == b[k] {
      assert CacheAt(a, k) == CacheAt(b, k);
    }
  }

  /** If no triple outside `ks` changed its mask, refreshing `ks` keeps the cache exact. */
  lemma RefreshKeepsExact(t: Tables, t': Tables, cache: Cache, ks: set<Triple>)
    requires Exact(t, cache)
    requires forall k | k !in ks :: GroundMask(t', k) == GroundMask(t, k)
    ensures Exact(t', Refresh(t', cache, ks))
  {
    var c := Refresh(t', cache, ks);
    forall k ensures CacheAt(c, k) == GroundMask(t', k) && (k in c ==> c[k] != 0) {
      if k !in ks {
        assert CacheAt(cache, k) == GroundMask(t, k);
      }
    }
  }

  // ---- the affected sets chosen by the mutators ----

  /** groupResourceIDs: resources the group's own grants reach, positive masks only. */
  function GroupResourceIds(t: Tables, domain: Id, group: Id): set<Id> {
    set k | && k in t.groupGrants && t.groupGrants[k] == domain && k.group == group
            && k.permission in t.permissions && Positive(t.permissions[k.permission].mask)
         :: t.permissions[k.permission].resource
  }

  /** groupMemberIDs. */
  function GroupMemberIds(t: Tables, domain: Id, group: Id): set<Id> {
    set m | m in t.members && t.members[m] == domain && m.group == group :: m.user
  }

  /** permissionHolderUserIDs: a UNION of the direct holders and the members of holding groups. */
  function HolderIds(t: Tables, domain: Id, permission: Id): set<Id> {
    (set k | k in t.userGrants && t.userGrants[k] == domain && k.permission == permission :: k.user)
    + (set k, m |
         && k in t.groupGrants && t.groupGrants[k] == domain && k.permission == permission
         && m in t.members && m.group == k.group && t.members[m] == t.groupGrants[k]
       :: m.user)
  }

  /** permissionResourceID. */
  function PermissionResource(t: Tables, domain: Id, permission: Id): Result<Id> {
    if PermissionIn(t, domain, permission) then Ok(t.permissions[permission].resource) else Err(NoRows)
  }

  function UserRows(domain: Id, user: Id, resources: set<Id>): set<Triple> {
    set r | r in resources :: Triple(domain, user, r)
  }

  function ResourceRows(domain: Id, users: set<Id>, resource: Id): set<Triple> {
    set u | u in users :: Triple(domain, u, resource)
  }

  lemma RowsOfOne(domain: Id, user: Id, resource: Id)
    ensures ResourceRows(domain, {user}, resource) == {Triple(domain, user, resource)}
  {
  }

  lemma UserRowsAdd(domain: Id, user: Id, resources: set<Id>, resource: Id)
    ensures UserRows(domain, user, resources + {resource})
         == UserRows(domain, user, resources) + {Triple(domain, user, resource)}
  {
  }

  lemma ResourceRowsAdd(domain: Id, users: set<Id>, user: Id, resource: Id)
    ensures ResourceRows(domain, users + {user}, resource)
         == ResourceRows(domain, users, resource) + {Triple(domain, user, resource)}
  {
  }

  /** The triples that may have a mask at all: the reconciliation query. */
  function HeldTriples(t: Tables): set<Triple> {
    (set k | k in t.userGrants && PermissionIn(t, t.userGrants[k], k.permission)
        :: Triple(t.userGrants[k], k.user, t.permissions[k.permission].resource))
    + (set k, m |
         && k in t.groupGrants && PermissionIn(t, t.groupGrants[k], k.permission)
         && m in t.members && m.group == k.group && t.members[m] == t.groupGrants[k]
       :: Triple(t.groupGrants[k], m.user, t.permissions[k.permission].resource))
  }

  // ---- why they are large enough ----

  /** Membership in a group: only the member's rows on the group's positively granted resources can change. */
  lemma MemberOutside(without: Tables, within: Tables, domain: Id, m: Membership, k: Triple)
    requires ForeignKeys(within)
    requires m !in without.members && within == without.(members := without.members[m := domain])
    requires k !in UserRows(domain, m.user, GroupResourceIds(within, domain, m.group))
    ensures GroundMask(within, k) == GroundMask(without, k)
  {
    forall p | Counts(within, k, p)
      ensures Counts(without, k, p) && without.permissions[p].mask == within.permissions[p].mask
    {
      if !Held(without, k.user, p) {
        GainedByMember(without, within, domain, m, k, p);
        assert false;
      }
    }
    MemberAdds(without, within, domain, m, k);
    GroundMonotone(within, without, k);
    WithinAntisymmetric(GroundMask(within, k), GroundMask(without, k));
  }

  lemma GainedByMember(without: Tables, within: Tables, domain: Id, m: Membership, k: Triple, p: Id)
    requires ForeignKeys(within)
    requires m !in without.members && within == without.(members := without.members[m := domain])
    requires Counts(within, k, p) && !Held(without, k.user, p)
    ensures k in UserRows(domain, m.user, GroupResourceIds(within, domain, m.group))
  {
    var g :| g in within.groupGrants && g.permission == p && Membership(k.user, g.group) in within.members;
    assert Membership(k.user, g.group) == m;
    assert GroupIn(within, within.groupGrants[g], g.group) && GroupIn(within, within.members[m], m.group);
    assert PermissionIn(within, within.groupGrants[g], p);
    assert within.permissions[p].resource in GroupResourceIds(within, domain, m.group);
  }

  lemma MemberAdds(without: Tables, within: Tables, domain: Id, m: Membership, k: Triple)
    requires m !in without.members && within == without.(members := without.members[m := domain])
    ensures Within(GroundMask(without, k), GroundMask(within, k))
  {
    GroundMonotone(without, within, k);
  }

  /** A direct grant: only the one row of the user on the permission's resource can change. */
  lemma UserGrantOutside(without: Tables, within: Tables, domain: Id, g: UserGrant, k: Triple)
    requires ForeignKeys(within)
    requires g !in without.userGrants && within == without.(userGrants := without.userGrants[g := domain])
    requires PermissionIn(within, domain, g.permission)
    requires k != Triple(domain, g.user, within.permissions[g.permission].resource)
    ensures GroundMask(within, k) == GroundMask(without, k)
  {
    forall p | Counts(within, k, p)
      ensures Counts(without, k, p) && without.permissions[p].mask == within.permissions[p].mask
    {
      assert UserGrant(k.user, p) != g;
    }
    UserGrantAdds(without, within, domain, g, k);
    GroundMonotone(within, without, k);
    WithinAntisymmetric(GroundMask(within, k), GroundMask(without, k));
  }

  lemma UserGrantAdds(without: Tables, within: Tables, domain: Id, g: UserGrant, k: Triple)
    requires g !in without.userGrants && within == without.(userGrants := without.userGrants[g := domain])
    ensures Within(GroundMask(without, k), GroundMask(within, k))
  {
    GroundMonotone(without, within, k);
  }

  /** A group grant: only the members' rows on the permission's resource can change. */
  lemma GroupGrantOutside(without: Tables, within: Tables, domain: Id, g: GroupGrant, k: Triple)
    requires ForeignKeys(within)
    requires g !in without.groupGrants && within == without.(groupGrants := without.groupGrants[g := domain])
    requires PermissionIn(within, domain, g.permission)
    requires k !in ResourceRows(domain, GroupMemberIds(within, domain, g.group), within.permissions[g.permission].resource)
    ensures GroundMask(within, k) == GroundMask(without, k)
  {
    forall p | Counts(within, k, p)
      ensures Counts(without, k, p) && without.permissions[p].mask == within.permissions[p].mask
    {
      if !Held(without, k.user, p) {
        GainedByGroupGrant(without, within, domain, g, k, p);
        assert false;
      }
    }
    GroupGrantAdds(without, within, domain, g, k);
    GroundMonotone(within, without, k);
    WithinAntisymmetric(GroundMask(within, k), GroundMask(without, k));
  }

  lemma GainedByGroupGrant(without: Tables, within: Tables, domain: Id, g: GroupGrant, k: Triple, p: Id)
    requires ForeignKeys(within)
    requires g !in without.groupGrants && within == without.(groupGrants := without.groupGrants[g := domain])
    requires PermissionIn(within, domain, g.permission)
    requires Counts(within, k, p) && !Held(without, k.user, p)
    ensures k in ResourceRows(domain, GroupMemberIds(within, domain, g.group), within.permissions[g.permission].resource)
  {
    var h :| h in within.groupGrants && h.permission == p && Membership(k.user, h.group) in within.members;
    assert h == g;
    var m := Membership(k.user, g.group);
    assert GroupIn(within, domain, g.group) && GroupIn(within, within.members[m], m.group);
    assert k.user in GroupMemberIds(within, domain, g.group);
  }

  lemma GroupGrantAdds(without: Tables, within: Tables, domain: Id, g: GroupGrant, k: Triple)
    requires g !in without.groupGrants && within == without.(groupGrants := without.groupGrants[g := domain])
    ensures Within(GroundMask(without, k), GroundMask(within, k))
  {
    GroundMonotone(without, within, k);
  }

  /** HolderIds finds exactly the holders. */
  lemma HolderIdsComplete(t: Tables, domain: Id, permission: Id, user: Id)
    requires ForeignKeys(t)
    requires PermissionIn(t, domain, permission)
    ensures user in HolderIds(t, domain, permission) <==> Held(t, user, permission)
  {
    DomainFiltersRedundant(t, domain, user, permission);
    if HeldInDomain(t, domain, user, permission) {
      if UserGrant(user, permission) in t.userGrants && t.userGrants[UserGrant(user, permission)] == domain {
        var k := UserGrant(user, permission);
        assert k in t.userGrants && k.permission == permission;
      } else {
        var k :| k in t.groupGrants && t.groupGrants[k] == domain && k.permission == permission
              && Membership(user, k.group) in t.members && t.members[Membership(user, k.group)] == domain;
        var m := Membership(user, k.group);
        assert m in t.members && m.group == k.group;
      }
    }
  }

  /** A permission whose title, resource or mask is rewritten: only rows of its holders, on its old
      or its new resource, can change. */
  lemma PermissionOutside(t: Tables, t': Tables, domain: Id, id: Id, title: string, resource: Id, mask: bv64, k: Triple)
    requires ForeignKeys(t)
    requires PermissionIn(t, domain, id)
    requires UpdatePermission(t, id, title, resource, mask) == Ok(t')
    requires k !in ResourceRows(domain, HolderIds(t', domain, id), resource)
    requires k !in ResourceRows(domain, HolderIds(t', domain, id), t.permissions[id].resource)
             || (resource == t.permissions[id].resource && FromSql(mask) == FromSql(t.permissions[id].mask))
    ensures GroundMask(t', k) == GroundMask(t, k)
  {
    HolderIdsComplete(t, domain, id, k.user);
    forall p ensures Counts(t, k, p) ==> Counts(t', k, p) && t'.permissions[p].mask == t.permissions[p].mask
             ensures Counts(t', k, p) ==> Counts(t, k, p) && t.permissions[p].mask == t'.permissions[p].mask
    {
      assert Held(t, k.user, p) <==> Held(t', k.user, p);
      if p == id && Held(t, k.user, id) {
        assert k.user in HolderIds(t', domain, id);
      }
    }
    GroundUnchanged(t, t', k);
  }

  /** A title-only patch rewrites a negative stored mask as 0, which no row can notice. */
  lemma TitlePatchOutside(t: Tables, t': Tables, id: Id, title: string, k: Triple)
    requires id in t.permissions
    requires UpdatePermission(t, id, title, t.permissions[id].resource, FromSql(t.permissions[id].mask)) == Ok(t')
    ensures GroundMask(t', k) == GroundMask(t, k)
  {
    FromSqlNonZero(t.permissions[id].mask);
    assert forall p :: Held(t, k.user, p) <==> Held(t', k.user, p);
    GroundUnchanged(t, t', k);
  }

  /** A permission nobody can hold yet, or any longer, adds nothing anywhere. */
  lemma UnheldPermissionOutside(without: Tables, within: Tables, id: Id, p: Permission, k: Triple)
    requires ForeignKeys(without)
    requires id !in without.permissions && within == without.(permissions := without.permissions[id := p])
    ensures GroundMask(within, k) == GroundMask(without, k)
  {
    assert !Held(within, k.user, id) by {
      assert UserGrant(k.user, id) !in without.userGrants;
    }
    assert forall q :: Held(without, k.user, q) <==> Held(within, k.user, q);
    GroundUnchanged(without, within, k);
  }

  /** Every triple with a mask is found by the reconciliation query. */
  lemma HeldTriplesComplete(t: Tables, k: Triple)
    requires ForeignKeys(t)
    requires GroundMask(t, k) != 0
    ensures k in HeldTriples(t)
  {
    GroundNonZero(t, k);
    var p :| Counts(t, k, p);
    DomainFiltersRedundant(t, k.domain, k.user, p);
    if UserGrant(k.user, p) in t.userGrants && t.userGrants[UserGrant(k.user, p)] == k.domain {
      var g := UserGrant(k.user, p);
      assert g in t.userGrants && PermissionIn(t, t.userGrants[g], g.permission);
    } else {
      var g :| g in t.groupGrants && t.groupGrants[g] == k.domain && g.permission == p
            && Membership(k.user, g.group) in t.members && t.members[Membership(k.user, g.group)] == k.domain;
      var m := Membership(k.user, g.group);
      assert PermissionIn(t, t.groupGrants[g], g.permission) && m in t.members && m.group == g.group;
    }
  }

  /** A full rebuild is exact whatever the cache held before. */
  lemma RebuildExact(t: Tables)
    requires ForeignKeys(t)
    ensures Exact(t, Refresh(t, map[], HeldTriples(t)))
  {
    var c := Refresh(t, map[], HeldTriples(t));
    forall k ensures CacheAt(c, k) == GroundMask(t, k) && (k in c ==> c[k] != 0) {
      if GroundMask(t, k) != 0 {
        HeldTriplesComplete(t, k);
      }
    }
  }
}
