/** The Postgres store answers the same reads from the source tables alone: no cache. */
module PostgresStore {
  import opened Basics
  import opened Masks
  import opened Schema
  import opened GroundTruth
  import opened Ordering
  import opened Listings

  /** The batched mask query of the user listing: one row per held positive permission on the page. */
  function UserMaskRows(t: Tables, domain: Id, user: Id, page: seq<Id>): map<Id, MaskRow> {
    map p | p in t.permissions && t.permissions[p].domain == domain && t.permissions[p].resource in page
            && Positive(t.permissions[p].mask) && Held(t, user, p)
         :: MaskRow(t.permissions[p].resource, FromSql(t.permissions[p].mask))
  }

  predicate OnResource(t: Tables, domain: Id, resource: Id, p: Id) {
    && p in t.permissions && t.permissions[p].domain == domain && t.permissions[p].resource == resource
    && Positive(t.permissions[p].mask)
  }

  /** Rows of the two mask queries of the resource listing. */
  datatype BatchKey = Direct(grant: UserGrant) | Indirect(member: Membership, groupGrant: GroupGrant)

  function DirectMaskRows(t: Tables, domain: Id, resource: Id, page: seq<Id>): map<BatchKey, MaskRow> {
    map k | k in t.userGrants && OnResource(t, domain, resource, k.permission) && k.user in page
         :: Direct(k) := MaskRow(k.user, FromSql(t.permissions[k.permission].mask))
  }

  /** A join of memberships, group grants and permissions. */
  function IndirectMaskRows(t: Tables, domain: Id, resource: Id, page: seq<Id>): map<BatchKey, MaskRow> {
    map m, k | m in t.members && k in t.groupGrants && k.group == m.group
               && OnResource(t, domain, resource, k.permission) && m.user in page
            :: Indirect(m, k) := MaskRow(m.user, FromSql(t.permissions[k.permission].mask))
  }

  ghost function BatchRows(t: Tables, k: Triple, page: seq<Id>): map<BatchKey, bv64> {
    RowsFor(DirectMaskRows(t, k.domain, k.resource, page) + IndirectMaskRows(t, k.domain, k.resource, page), k.user)
  }

  /** The batch gives every resource of the page its effective mask. */
  lemma UserBatchComplete(t: Tables, domain: Id, user: Id, page: seq<Id>, resource: Id)
    requires resource in page
    ensures OrAll(RowsFor(UserMaskRows(t, domain, user, page), resource)) == GroundMask(t, Triple(domain, user, resource))
  {
    var rows := RowsFor(UserMaskRows(t, domain, user, page), resource);
    var truth := EffectiveRows(t, Triple(domain, user, resource));
    forall p | p in truth && truth[p] != 0 ensures p in rows && rows[p] == truth[p] {
      FromSqlNonZero(t.permissions[p].mask);
    }
    OrAllSameNonZero(rows, truth);
  }

  lemma DirectRow(t: Tables, domain: Id, resource: Id, page: seq<Id>, row: BatchKey)
    requires row in DirectMaskRows(t, domain, resource, page)
    ensures row.Direct? && row.grant in t.userGrants && OnResource(t, domain, resource, row.grant.permission)
    ensures DirectMaskRows(t, domain, resource, page)[row]
         == MaskRow(row.grant.user, FromSql(t.permissions[row.grant.permission].mask))
  {
  }

  lemma IndirectRow(t: Tables, domain: Id, resource: Id, page: seq<Id>, row: BatchKey)
    requires row in IndirectMaskRows(t, domain, resource, page)
    ensures row.Indirect? && row.member in t.members && row.groupGrant in t.groupGrants
    ensures row.groupGrant.group == row.member.group && OnResource(t, domain, resource, row.groupGrant.permission)
    ensures IndirectMaskRows(t, domain, resource, page)[row]
         == MaskRow(row.member.user, FromSql(t.permissions[row.groupGrant.permission].mask))
  {
  }

  lemma BatchRowWithin(t: Tables, k: Triple, page: seq<Id>, row: BatchKey)
    requires row in BatchRows(t, k, page)
    ensures Within(BatchRows(t, k, page)[row], GroundMask(t, k))
  {
    if row in IndirectMaskRows(t, k.domain, k.resource, page) {
      IndirectRow(t, k.domain, k.resource, page, row);
      assert row.member == Membership(k.user, row.groupGrant.group);
      HeldWithin(t, k, row.groupGrant.permission);
    } else {
      DirectRow(t, k.domain, k.resource, page, row);
      assert row.grant == UserGrant(k.user, row.grant.permission);
      HeldWithin(t, k, row.grant.permission);
    }
  }

  lemma HeldWithin(t: Tables, k: Triple, p: Id)
    requires OnResource(t, k.domain, k.resource, p) && Held(t, k.user, p)
    ensures Within(FromSql(t.permissions[p].mask), GroundMask(t, k))
  {
    FromSqlNonZero(t.permissions[p].mask);
    CountsUpper(t, k, p);
  }

  lemma BatchCovers(t: Tables, k: Triple, page: seq<Id>, p: Id)
    requires k.user in page && Counts(t, k, p)
    ensures Within(t.permissions[p].mask, OrAll(BatchRows(t, k, page)))
  {
    FromSqlNonZero(t.permissions[p].mask);
    if UserGrant(k.user, p) in t.userGrants {
      OrAllUpper(BatchRows(t, k, page), Direct(UserGrant(k.user, p)));
    } else {
      var g :| g in t.groupGrants && g.permission == p && Membership(k.user, g.group) in t.members;
      var row := Indirect(Membership(k.user, g.group), g);
      assert row in IndirectMaskRows(t, k.domain, k.resource, page);
      OrAllUpper(BatchRows(t, k, page), row);
    }
  }

  /** The two batches together give every user of the page the effective mask. */
  lemma ResourceBatchComplete(t: Tables, k: Triple, page: seq<Id>)
    requires k.user in page
    ensures OrAll(BatchRows(t, k, page)) == GroundMask(t, k)
  {
    var rows := BatchRows(t, k, page);
    forall row | row in rows ensures Within(rows[row], GroundMask(t, k)) {
      BatchRowWithin(t, k, page, row);
    }
    OrAllLeast(rows, GroundMask(t, k));
    forall p | Counts(t, k, p) ensures Within(t.permissions[p].mask, OrAll(rows)) {
      BatchCovers(t, k, page, p);
    }
    GroundWithin(t, k, OrAll(rows));
    WithinAntisymmetric(OrAll(rows), GroundMask(t, k));
  }

  lemma UserPage(t: Tables, domain: Id, user: Id, opts: ListOpts, page: seq<Id>, masks: map<Id, bv64>)
    requires page == PageOf(UserResourceIds(t, domain, user), opts)
    requires Accumulated(masks, UserMaskRows(t, domain, user, page))
    ensures RowsOf(page, masks) == RowsOf(page, UserMasks(t, domain, user))
  {
    forall id | id in page ensures MaskAt(masks, id) == MaskAt(UserMasks(t, domain, user), id) {
      PageMembers(UserResourceIds(t, domain, user), opts, id);
      UserBatchComplete(t, domain, user, page, id);
    }
    SameRows(page, masks, UserMasks(t, domain, user));
  }

  lemma ResourcePage(t: Tables, domain: Id, resource: Id, opts: ListOpts, page: seq<Id>, masks: map<Id, bv64>)
    requires page == PageOf(ResourceUserIds(t, domain, resource), opts)
    requires Accumulated(masks, DirectMaskRows(t, domain, resource, page) + IndirectMaskRows(t, domain, resource, page))
    ensures RowsOf(page, masks) == RowsOf(page, ResourceMasks(t, domain, resource))
  {
    forall id | id in page ensures MaskAt(masks, id) == MaskAt(ResourceMasks(t, domain, resource), id) {
      PageMembers(ResourceUserIds(t, domain, resource), opts, id);
      ResourceBatchComplete(t, Triple(domain, id, resource), page);
    }
    SameRows(page, masks, ResourceMasks(t, domain, resource));
  }

  /** scanUserMasks twice into one map: the direct rows, then the indirect ones. */
  method ScanUserMasks(direct: map<BatchKey, MaskRow>, indirect: map<BatchKey, MaskRow>) returns (masks: map<Id, bv64>)
    requires direct.Keys !! indirect.Keys
    ensures Accumulated(masks, direct + indirect)
  {
    AccumulatedNone<BatchKey>(map[]);
    masks := OrById(direct, map[], map[]);
    assert map[] + direct == direct;
    masks := OrById(indirect, masks, direct);
  }

  class Store {
    var t: Tables

    /** EffectiveMask: the query, then CombineMasks. */
    method EffectiveMask(domain: Id, user: Id, resource: Id) returns (mask: bv64)
      ensures mask == GroundMask(t, Triple(domain, user, resource))
    {
      var masks := ScanMasks(EffectiveRows(t, Triple(domain, user, resource)));
      mask := CombineMasks(masks);
    }

    /** UserAuthzResourcesList: count, page of distinct ids, batched masks. */
    method UserAuthzResourcesList(domain: Id, user: Id, opts: ListOpts) returns (r: Result<Listing>)
      ensures r == UserListing(t, domain, user, opts)
    {
      if domain !in t.domains { return Err(NotFound); }
      if !UserIn(t, domain, user) { return Err(NotFound); }
      var ids := UserResourceIds(t, domain, user);
      var total := |ids|;
      assert UserMasks(t, domain, user).Keys == ids;
      var ordered := OrderBy(ids);
      var page := Page(ordered, Sanitize(opts).offset, Sanitize(opts).limit);
      if |page| == 0 {
        assert RowsOf(page, UserMasks(t, domain, user)) == [];
        return Ok(Listing([], total));
      }
      AccumulatedNone<Id>(map[]);
      var masks := OrById(UserMaskRows(t, domain, user, page), map[], map[]);
      assert map[] + UserMaskRows(t, domain, user, page) == UserMaskRows(t, domain, user, page);
      var rows := BuildRows(page, masks);
      UserPage(t, domain, user, opts, page, masks);
      r := Ok(Listing(rows, total));
    }

    /** ResourceAuthzUsersList: count, page of user ids, direct then indirect masks into one map. */
    method ResourceAuthzUsersList(domain: Id, resource: Id, opts: ListOpts) returns (r: Result<Listing>)
      ensures r == ResourceListing(t, domain, resource, opts)
    {
      if domain !in t.domains { return Err(NotFound); }
      if !ResourceIn(t, domain, resource) { return Err(NotFound); }
      var ids := ResourceUserIds(t, domain, resource);
      var total := |ids|;
      assert ResourceMasks(t, domain, resource).Keys == ids;
      var ordered := OrderBy(ids);
      var page := Page(ordered, Sanitize(opts).offset, Sanitize(opts).limit);
      if |page| == 0 {
        assert RowsOf(page, ResourceMasks(t, domain, resource)) == [];
        return Ok(Listing([], total));
      }
      var masks := ScanUserMasks(DirectMaskRows(t, domain, resource, page), IndirectMaskRows(t, domain, resource, page));
      var rows := BuildRows(page, masks);
      ResourcePage(t, domain, resource, opts, page, masks);
      r := Ok(Listing(rows, total));
    }
  }
}
