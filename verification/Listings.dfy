/** The authorization listings: what they are meant to return, read from the source tables. */
module Listings {
  import opened Basics
  import opened Masks
  import opened Schema
  import opened GroundTruth
  import opened PermissionCache
  import opened Ordering

  datatype MaskRow = MaskRow(id: Id, mask: bv64)

  /** One page of a listing and the total over all pages. */
  datatype Listing = Listing(rows: seq<MaskRow>, total: nat)

  /** The listing of a set of ids with their masks: ids in ascending order, one page of them. */
  ghost function ListingOf(masks: map<Id, bv64>, opts: ListOpts): Listing {
    Listing(RowsOf(PageOf(masks.Keys, opts), masks), |masks|)
  }

  ghost function PageOf(ids: set<Id>, opts: ListOpts): seq<Id> {
    Page(InOrder(ids), Sanitize(opts).offset, Sanitize(opts).limit)
  }

  function MaskAt(masks: map<Id, bv64>, id: Id): bv64 {
    if id in masks then masks[id] else 0
  }

  function RowsOf(ids: seq<Id>, masks: map<Id, bv64>): seq<MaskRow> {
    seq(|ids|, i requires 0 <= i < |ids| => MaskRow(ids[i], MaskAt(masks, ids[i])))
  }

  lemma PageMembers(ids: set<Id>, opts: ListOpts, id: Id)
    requires id in PageOf(ids, opts)
    ensures id in ids
  {
    InOrderMembers(ids);
    assert id in InOrder(ids);
  }

  // ---- users and resources, from the source tables ----

  /** Resources on which the user holds a permission of the domain with a positive mask. */
  function UserResourceIds(t: Tables, domain: Id, user: Id): set<Id> {
    set p | p in t.permissions && t.permissions[p].domain == domain && Positive(t.permissions[p].mask) && Held(t, user, p)
         :: t.permissions[p].resource
  }

  /** Users of the domain holding a permission of the domain on the resource with a positive mask. */
  function ResourceUserIds(t: Tables, domain: Id, resource: Id): set<Id> {
    set u | && u in t.users && t.users[u] == domain
            && exists p | p in t.permissions ::
                 && t.permissions[p].domain == domain && t.permissions[p].resource == resource
                 && Positive(t.permissions[p].mask) && Held(t, u, p)
  }

  ghost function UserMasks(t: Tables, domain: Id, user: Id): map<Id, bv64> {
    map r | r in UserResourceIds(t, domain, user) :: GroundMask(t, Triple(domain, user, r))
  }

  ghost function ResourceMasks(t: Tables, domain: Id, resource: Id): map<Id, bv64> {
    map u | u in ResourceUserIds(t, domain, resource) :: GroundMask(t, Triple(domain, u, resource))
  }

  lemma UserResourceListed(t: Tables, domain: Id, user: Id, resource: Id)
    ensures resource in UserResourceIds(t, domain, user) <==> GroundMask(t, Triple(domain, user, resource)) != 0
  {
    var k := Triple(domain, user, resource);
    GroundNonZero(t, k);
    if p :| Counts(t, k, p) {
      assert p in t.permissions && t.permissions[p].resource == resource;
    }
    if resource in UserResourceIds(t, domain, user) {
      var p :| p in t.permissions && t.permissions[p].domain == domain && Positive(t.permissions[p].mask) && Held(t, user, p)
            && t.permissions[p].resource == resource;
      assert Counts(t, k, p);
    }
  }

  lemma ResourceUserListed(t: Tables, domain: Id, user: Id, resource: Id)
    requires ForeignKeys(t)
    ensures user in ResourceUserIds(t, domain, resource) <==> GroundMask(t, Triple(domain, user, resource)) != 0
  {
    var k := Triple(domain, user, resource);
    GroundNonZero(t, k);
    if p :| Counts(t, k, p) {
      HolderInDomain(t, domain, user, p);
    }
    if user in ResourceUserIds(t, domain, resource) {
      var p :| p in t.permissions && t.permissions[p].domain == domain && t.permissions[p].resource == resource
            && Positive(t.permissions[p].mask) && Held(t, user, p);
      assert Counts(t, k, p);
    }
  }

  /** A user's listing and a resource's listing are two readings of one table. */
  lemma ListingsTranspose(t: Tables, domain: Id, user: Id, resource: Id, mask: bv64)
    requires ForeignKeys(t)
    ensures (resource in UserMasks(t, domain, user) && UserMasks(t, domain, user)[resource] == mask) <==>
            (user in ResourceMasks(t, domain, resource) && ResourceMasks(t, domain, resource)[user] == mask)
  {
    UserResourceListed(t, domain, user, resource);
    ResourceUserListed(t, domain, user, resource);
  }

  // ---- the same, from the cache ----

  function CachedUserRows(cache: Cache, domain: Id, user: Id): set<Triple> {
    set k | k in cache && k.domain == domain && k.user == user
  }

  function CachedResourceRows(cache: Cache, domain: Id, resource: Id): set<Triple> {
    set k | k in cache && k.domain == domain && k.resource == resource
  }

  function CachedUserMasks(cache: Cache, domain: Id, user: Id): map<Id, bv64> {
    map r | r in (set k | k in CachedUserRows(cache, domain, user) :: k.resource)
         :: FromSql(CacheAt(cache, Triple(domain, user, r)))
  }

  function CachedResourceMasks(cache: Cache, domain: Id, resource: Id): map<Id, bv64> {
    map u | u in (set k | k in CachedResourceRows(cache, domain, resource) :: k.user)
         :: FromSql(CacheAt(cache, Triple(domain, u, resource)))
  }

  /** Row counts are id counts: the primary key has one row a triple. */
  lemma {:induction false} RowCount(rows: set<Triple>, domain: Id, user: Id)
    requires forall k | k in rows :: k.domain == domain && k.user == user
    ensures |set k | k in rows :: k.resource| == |rows|
    decreases |rows|
  {
    var ids := set k | k in rows :: k.resource;
    if rows == {} {
      assert ids == {};
    } else {
      var k :| k in rows;
      RowCount(rows - {k}, domain, user);
      var rest := set j | j in rows - {k} :: j.resource;
      assert k.resource !in rest;
      assert ids == rest + {k.resource};
    }
  }

  lemma {:induction false} UserRowCount(rows: set<Triple>, domain: Id, resource: Id)
    requires forall k | k in rows :: k.domain == domain && k.resource == resource
    ensures |set k | k in rows :: k.user| == |rows|
    decreases |rows|
  {
    var ids := set k | k in rows :: k.user;
    if rows == {} {
      assert ids == {};
    } else {
      var k :| k in rows;
      UserRowCount(rows - {k}, domain, resource);
      var rest := set j | j in rows - {k} :: j.user;
      assert k.user !in rest;
      assert ids == rest + {k.user};
    }
  }

  lemma CachedRow(t: Tables, cache: Cache, k: Triple)
    requires Exact(t, cache)
    ensures k in cache <==> GroundMask(t, k) != 0
    ensures FromSql(CacheAt(cache, k)) == GroundMask(t, k)
  {
    assert CacheAt(cache, k) == GroundMask(t, k);
    GroundFits(t, k);
  }

  /** With an exact cache the cached listing is the one the source tables give ... */
  lemma CachedUserMasksExact(t: Tables, cache: Cache, domain: Id, user: Id)
    requires Exact(t, cache)
    ensures CachedUserMasks(cache, domain, user) == UserMasks(t, domain, user)
  {
    var cached, truth := CachedUserMasks(cache, domain, user), UserMasks(t, domain, user);
    forall r ensures (r in cached <==> r in truth) && (r in cached ==> cached[r] == truth[r]) {
      var k := Triple(domain, user, r);
      CachedRow(t, cache, k);
      UserResourceListed(t, domain, user, r);
      if k in cache { assert k in CachedUserRows(cache, domain, user); }
    }
    SameMap(cached, truth);
  }

  /** ... in both directions of the table. */
  lemma CachedResourceMasksExact(t: Tables, cache: Cache, domain: Id, resource: Id)
    requires ForeignKeys(t) && Exact(t, cache)
    ensures CachedResourceMasks(cache, domain, resource) == ResourceMasks(t, domain, resource)
  {
    var cached, truth := CachedResourceMasks(cache, domain, resource), ResourceMasks(t, domain, resource);
    forall u ensures (u in cached <==> u in truth) && (u in cached ==> cached[u] == truth[u]) {
      var k := Triple(domain, u, resource);
      CachedRow(t, cache, k);
      ResourceUserListed(t, domain, u, resource);
      if k in cache { assert k in CachedResourceRows(cache, domain, resource); }
    }
    SameMap(cached, truth);
  }

  // ---- groups and resources ----

  /** The positive permissions granted to a group on a resource. */
  function GroupRows(t: Tables, domain: Id, group: Id, resource: Id): map<Id, bv64> {
    map p | p in t.permissions && t.permissions[p].domain == domain && t.permissions[p].resource == resource
            && Positive(t.permissions[p].mask) && GroupGrant(group, p) in t.groupGrants
         :: t.permissions[p].mask
  }

  /** The mask the group listings report: direct grants to the group, not what its members hold. */
  ghost function GroupMask(t: Tables, domain: Id, group: Id, resource: Id): bv64 {
    OrAll(GroupRows(t, domain, group, resource))
  }

  /** A group is reported a bit exactly when a permission of the domain granted to it carries the bit. */
  lemma GroupHasBit(t: Tables, domain: Id, group: Id, resource: Id, bit: bv64)
    ensures HasBit(GroupMask(t, domain, group, resource), bit) <==>
            exists p :: PermissionIn(t, domain, p) && t.permissions[p].resource == resource
                        && GroupGrant(group, p) in t.groupGrants && HasBit(FromSql(t.permissions[p].mask), bit)
  {
    var rows := GroupRows(t, domain, group, resource);
    OrAllHasBit(rows, bit);
    if p :| p in rows && HasBit(rows[p], bit) { FromSqlNonZero(t.permissions[p].mask); }
    if p :| PermissionIn(t, domain, p) && t.permissions[p].resource == resource
            && GroupGrant(group, p) in t.groupGrants && HasBit(FromSql(t.permissions[p].mask), bit) {
      BitNonZero(FromSql(t.permissions[p].mask), bit);
      FromSqlNonZero(t.permissions[p].mask);
      assert p in rows;
    }
  }

  lemma BitNonZero(m: bv64, bit: bv64)
    requires HasBit(m, bit)
    ensures m != 0
  {
  }

  /** The positive permissions granted directly to a user on a resource. */
  function DirectRows(t: Tables, k: Triple): map<Id, bv64> {
    map p | p in t.permissions && t.permissions[p].domain == k.domain && t.permissions[p].resource == k.resource
            && Positive(t.permissions[p].mask) && UserGrant(k.user, p) in t.userGrants
         :: t.permissions[p].mask
  }

  /** What each of the user's groups reports for the resource. */
  ghost function ReportedByGroups(t: Tables, k: Triple): map<Id, bv64> {
    map g | g in (set m | m in t.members && m.user == k.user :: m.group) :: GroupMask(t, k.domain, g, k.resource)
  }

  lemma CountsUpper(t: Tables, k: Triple, p: Id)
    requires Counts(t, k, p)
    ensures Within(t.permissions[p].mask, GroundMask(t, k))
  {
    FromSqlNonZero(t.permissions[p].mask);
    OrAllUpper(EffectiveRows(t, k), p);
  }

  lemma GroundWithin(t: Tables, k: Triple, bound: bv64)
    requires forall p | Counts(t, k, p) :: Within(t.permissions[p].mask, bound)
    ensures Within(GroundMask(t, k), bound)
  {
    forall p | p in EffectiveRows(t, k) ensures Within(EffectiveRows(t, k)[p], bound) {
      FromSqlNonZero(t.permissions[p].mask);
      if EffectiveRows(t, k)[p] != 0 { assert Counts(t, k, p); } else { ZeroWithin(bound); }
    }
    OrAllLeast(EffectiveRows(t, k), bound);
  }

  lemma ZeroWithin(bound: bv64)
    ensures Within(0, bound)
  {
  }

  lemma GroupReportWithin(t: Tables, k: Triple, g: Id)
    requires g in ReportedByGroups(t, k)
    ensures Within(ReportedByGroups(t, k)[g], GroundMask(t, k))
  {
    var rows := GroupRows(t, k.domain, g, k.resource);
    assert Membership(k.user, g) in t.members by {
      var m :| m in t.members && m.user == k.user && m.group == g;
      assert m == Membership(k.user, g);
    }
    forall p | p in rows ensures Within(rows[p], GroundMask(t, k)) {
      assert GroupGrant(g, p) in t.groupGrants;
      assert Counts(t, k, p);
      CountsUpper(t, k, p);
    }
    OrAllLeast(rows, GroundMask(t, k));
  }

  lemma DirectWithin(t: Tables, k: Triple)
    ensures Within(OrAll(DirectRows(t, k)), GroundMask(t, k))
  {
    var rows := DirectRows(t, k);
    forall p | p in rows ensures Within(rows[p], GroundMask(t, k)) {
      assert Counts(t, k, p);
      CountsUpper(t, k, p);
    }
    OrAllLeast(rows, GroundMask(t, k));
  }

  lemma ReportedWithin(t: Tables, k: Triple)
    ensures Within(OrAll(ReportedByGroups(t, k)), GroundMask(t, k))
  {
    var rows := ReportedByGroups(t, k);
    forall g | g in rows ensures Within(rows[g], GroundMask(t, k)) {
      GroupReportWithin(t, k, g);
    }
    OrAllLeast(rows, GroundMask(t, k));
  }

  lemma GrantedReported(t: Tables, k: Triple, p: Id, g: Id)
    requires Counts(t, k, p) && GroupGrant(g, p) in t.groupGrants && Membership(k.user, g) in t.members
    ensures Within(t.permissions[p].mask, OrAll(ReportedByGroups(t, k)))
  {
    var m := Membership(k.user, g);
    assert m in t.members && m.user == k.user && m.group == g;
    OrAllUpper(GroupRows(t, k.domain, g, k.resource), p);
    OrAllUpper(ReportedByGroups(t, k), g);
    WithinTransitive(t.permissions[p].mask, GroupMask(t, k.domain, g, k.resource), OrAll(ReportedByGroups(t, k)));
  }

  lemma CountsCovered(t: Tables, k: Triple, p: Id)
    requires Counts(t, k, p)
    ensures Within(t.permissions[p].mask, OrAll(DirectRows(t, k)))
            || Within(t.permissions[p].mask, OrAll(ReportedByGroups(t, k)))
  {
    if UserGrant(k.user, p) in t.userGrants {
      OrAllUpper(DirectRows(t, k), p);
    } else {
      var j :| j in t.groupGrants && j.permission == p && Membership(k.user, j.group) in t.members;
      assert j == GroupGrant(j.group, p);
      GrantedReported(t, k, p, j.group);
    }
  }

  lemma WithinEither(m: bv64, a: bv64, b: bv64)
    requires Within(m, a) || Within(m, b)
    ensures Within(m, a | b)
  {
    WithinOr(a, b);
    if Within(m, a) { WithinTransitive(m, a, a | b); } else { WithinTransitive(m, b, a | b); }
  }

  lemma GroundCovered(t: Tables, k: Triple, direct: bv64, reported: bv64)
    requires direct == OrAll(DirectRows(t, k)) && reported == OrAll(ReportedByGroups(t, k))
    ensures Within(GroundMask(t, k), direct | reported)
  {
    forall p | Counts(t, k, p) ensures Within(t.permissions[p].mask, direct | reported) {
      CountsCovered(t, k, p);
      WithinEither(t.permissions[p].mask, direct, reported);
    }
    GroundWithin(t, k, direct | reported);
  }

  /** A user's effective mask is what was granted directly, plus what the listings report for the
      user's groups. */
  lemma EffectiveMaskDecomposes(t: Tables, k: Triple)
    ensures GroundMask(t, k) == OrAll(DirectRows(t, k)) | OrAll(ReportedByGroups(t, k))
  {
    var direct, reported := OrAll(DirectRows(t, k)), OrAll(ReportedByGroups(t, k));
    DirectWithin(t, k);
    ReportedWithin(t, k);
    OrWithin(direct, reported, GroundMask(t, k));
    GroundCovered(t, k, direct, reported);
    WithinAntisymmetric(GroundMask(t, k), direct | reported);
  }

  /** Resources the group itself is granted a positive mask on. */
  function GroupResources(t: Tables, domain: Id, group: Id): set<Id> {
    set p | p in t.permissions && t.permissions[p].domain == domain && Positive(t.permissions[p].mask)
            && GroupGrant(group, p) in t.groupGrants
         :: t.permissions[p].resource
  }

  /** Groups granted a positive mask on the resource. */
  function ResourceGroups(t: Tables, domain: Id, resource: Id): set<Id> {
    set k | k in t.groupGrants && k.permission in t.permissions && k.group in t.groups
            && t.permissions[k.permission].domain == domain && t.permissions[k.permission].resource == resource
            && Positive(t.permissions[k.permission].mask)
         :: k.group
  }

  ghost function GroupResourceMasks(t: Tables, domain: Id, group: Id): map<Id, bv64> {
    map r | r in GroupResources(t, domain, group) :: GroupMask(t, domain, group, r)
  }

  ghost function ResourceGroupMasks(t: Tables, domain: Id, resource: Id): map<Id, bv64> {
    map g | g in ResourceGroups(t, domain, resource) :: GroupMask(t, domain, g, resource)
  }

  /** The two group listings are transposes of each other as well. */
  lemma GroupListingsTranspose(t: Tables, domain: Id, group: Id, resource: Id)
    requires ForeignKeys(t)
    ensures resource in GroupResources(t, domain, group) <==> group in ResourceGroups(t, domain, resource)
    ensures resource in GroupResources(t, domain, group) <==> GroupMask(t, domain, group, resource) != 0
  {
    var rows := GroupRows(t, domain, group, resource);
    OrAllZero(rows);
    if p :| p in rows {
      assert rows[p] != 0;
      assert GroupGrant(group, p) in t.groupGrants;
    }
    if group in ResourceGroups(t, domain, resource) {
      var k :| k in t.groupGrants && k.group == group && k.permission in t.permissions
            && t.permissions[k.permission].domain == domain && t.permissions[k.permission].resource == resource
            && Positive(t.permissions[k.permission].mask);
      assert k == GroupGrant(group, k.permission);
      assert k.permission in rows;
    }
    if resource in GroupResources(t, domain, group) {
      var p :| p in t.permissions && t.permissions[p].domain == domain && Positive(t.permissions[p].mask)
            && GroupGrant(group, p) in t.groupGrants && t.permissions[p].resource == resource;
      assert p in rows;
    }
  }

  // ---- what each call returns ----

  ghost function UserListing(t: Tables, domain: Id, user: Id, opts: ListOpts): Result<Listing> {
    if domain !in t.domains || !UserIn(t, domain, user) then Err(NotFound)
    else Ok(ListingOf(UserMasks(t, domain, user), opts))
  }

  ghost function ResourceListing(t: Tables, domain: Id, resource: Id, opts: ListOpts): Result<Listing> {
    if domain !in t.domains || !ResourceIn(t, domain, resource) then Err(NotFound)
    else Ok(ListingOf(ResourceMasks(t, domain, resource), opts))
  }

  ghost function GroupListing(t: Tables, domain: Id, group: Id, opts: ListOpts): Result<Listing> {
    if domain !in t.domains || !GroupIn(t, domain, group) then Err(NotFound)
    else Ok(ListingOf(GroupResourceMasks(t, domain, group), opts))
  }

  ghost function ResourceGroupListing(t: Tables, domain: Id, resource: Id, opts: ListOpts): Result<Listing> {
    if domain !in t.domains || !ResourceIn(t, domain, resource) then Err(NotFound)
    else Ok(ListingOf(ResourceGroupMasks(t, domain, resource), opts))
  }

  /** The calls disagree on exactly one kind of row: a resource of another domain can be listed for a
      user, while its own listing in the user's domain is refused. */
  lemma ForeignRowListedOneWay(t: Tables, domain: Id, user: Id, resource: Id, opts: ListOpts)
    requires ForeignKeys(t) && resource in UserMasks(t, domain, user)
    ensures UserListing(t, domain, user, opts).Ok?
    ensures ResourceListing(t, domain, resource, opts).Ok? <==> ResourceIn(t, domain, resource)
  {
    UserResourceListed(t, domain, user, resource);
    NonZeroMaskStaysInDomain(t, Triple(domain, user, resource));
  }

  /** A listing is answered exactly for a user, resource or group of the domain; otherwise it is NotFound. */
  lemma ListingAnswers(t: Tables, domain: Id, id: Id, opts: ListOpts)
    requires ForeignKeys(t)
    ensures UserListing(t, domain, id, opts).Ok? <==> UserIn(t, domain, id)
    ensures ResourceListing(t, domain, id, opts).Ok? <==> ResourceIn(t, domain, id)
    ensures GroupListing(t, domain, id, opts).Ok? <==> GroupIn(t, domain, id)
    ensures ResourceGroupListing(t, domain, id, opts).Ok? <==> ResourceIn(t, domain, id)
    ensures !UserIn(t, domain, id) ==> UserListing(t, domain, id, opts) == Err(NotFound)
    ensures !GroupIn(t, domain, id) ==> GroupListing(t, domain, id, opts) == Err(NotFound)
    ensures !ResourceIn(t, domain, id) ==>
              ResourceListing(t, domain, id, opts) == Err(NotFound) && ResourceGroupListing(t, domain, id, opts) == Err(NotFound)
  {
    if UserIn(t, domain, id) { assert DomainKeys(t.users, t.domains) && t.users[id] in t.domains; }
    if ResourceIn(t, domain, id) { assert DomainKeys(t.resources, t.domains) && t.resources[id] in t.domains; }
    if GroupIn(t, domain, id) { assert GroupKeys(t.groups, t.domains) && t.groups[id].domain in t.domains; }
  }

  // ---- paging through a listing ----

  /** The rows of n successive calls, at offsets 0, L, 2L, ... for the sanitised limit L. */
  ghost function PagedRows(call: ListOpts -> Result<Listing>, limit: int, n: nat): seq<MaskRow> {
    if n == 0 then []
    else
      var page := call(ListOpts((n - 1) * Sanitize(ListOpts(0, limit)).limit, limit));
      PagedRows(call, limit, n - 1) + if page.Ok? then page.value.rows else []
  }

  /** The call lists these masks: every call answers with its page of them. */
  ghost predicate Lists(call: ListOpts -> Result<Listing>, masks: map<Id, bv64>) {
    forall opts :: call(opts) == Ok(ListingOf(masks, opts))
  }

  /** Enough calls return every id with its mask, in order and each once, and as many rows as each
      call's total says. */
  ghost predicate PagesComplete(call: ListOpts -> Result<Listing>, masks: map<Id, bv64>, limit: int, n: nat) {
    var rows := PagedRows(call, limit, n);
    && (forall i, j | 0 <= i < j < |rows| :: Less(rows[i].id, rows[j].id))
    && (forall row: MaskRow :: row in rows <==> row.id in masks && row.mask == masks[row.id])
    && (forall opts :: call(opts).Ok? && call(opts).value.total == |rows|)
  }

  lemma RowsOfConcat(a: seq<Id>, b: seq<Id>, masks: map<Id, bv64>)
    ensures RowsOf(a + b, masks) == RowsOf(a, masks) + RowsOf(b, masks)
  {
  }

  lemma {:induction false} PagedRowsAre(call: ListOpts -> Result<Listing>, masks: map<Id, bv64>, limit: int, n: nat)
    requires Lists(call, masks)
    ensures PagedRows(call, limit, n) == RowsOf(Pages(InOrder(masks.Keys), Sanitize(ListOpts(0, limit)).limit, n), masks)
  {
    var l := Sanitize(ListOpts(0, limit)).limit;
    if n > 0 {
      PagedRowsAre(call, masks, limit, n - 1);
      NotNegativeProduct(n - 1, l);
      RowsOfConcat(Pages(InOrder(masks.Keys), l, n - 1), Page(InOrder(masks.Keys), (n - 1) * l, l), masks);
    }
  }

  lemma NotNegativeProduct(a: nat, b: nat)
    ensures a * b >= 0
  {
  }

  lemma AllRows(masks: map<Id, bv64>)
    ensures var rows := RowsOf(InOrder(masks.Keys), masks);
      && |rows| == |masks|
      && (forall i, j | 0 <= i < j < |rows| :: Less(rows[i].id, rows[j].id))
      && (forall row: MaskRow :: row in rows <==> row.id in masks && row.mask == masks[row.id])
  {
    var ids := InOrder(masks.Keys);
    var rows := RowsOf(ids, masks);
    InOrderMembers(masks.Keys);
    assert |masks.Keys| == |masks|;
    forall row: MaskRow | row.id in masks && row.mask == masks[row.id] ensures row in rows {
      assert row.id in ids;
      var i :| 0 <= i < |ids| && ids[i] == row.id;
      assert rows[i] == row;
    }
    forall row | row in rows ensures row.id in masks && row.mask == masks[row.id] {
      var i :| 0 <= i < |rows| && rows[i] == row;
      assert ids[i] in ids;
    }
  }

  lemma PagingListing(call: ListOpts -> Result<Listing>, masks: map<Id, bv64>, limit: int, n: nat)
    requires Lists(call, masks) && n >= |masks|
    ensures PagesComplete(call, masks, limit, n)
  {
    PagedRowsAre(call, masks, limit, n);
    InOrderMembers(masks.Keys);
    PagingComplete(InOrder(masks.Keys), ListOpts(0, limit), n);
    AllRows(masks);
  }

  /** Paging through any of the four listings returns all of its rows: the held resources of a user,
      the holders of a resource, the resources of a group, the groups of a resource. */
  lemma UserPagesComplete(t: Tables, domain: Id, user: Id, limit: int, n: nat)
    requires domain in t.domains && UserIn(t, domain, user) && n >= |UserMasks(t, domain, user)|
    ensures PagesComplete(opts => UserListing(t, domain, user, opts), UserMasks(t, domain, user), limit, n)
  {
    PagingListing(opts => UserListing(t, domain, user, opts), UserMasks(t, domain, user), limit, n);
  }

  lemma ResourcePagesComplete(t: Tables, domain: Id, resource: Id, limit: int, n: nat)
    requires domain in t.domains && ResourceIn(t, domain, resource) && n >= |ResourceMasks(t, domain, resource)|
    ensures PagesComplete(opts => ResourceListing(t, domain, resource, opts), ResourceMasks(t, domain, resource), limit, n)
  {
    PagingListing(opts => ResourceListing(t, domain, resource, opts), ResourceMasks(t, domain, resource), limit, n);
  }

  lemma GroupPagesComplete(t: Tables, domain: Id, group: Id, limit: int, n: nat)
    requires domain in t.domains && GroupIn(t, domain, group) && n >= |GroupResourceMasks(t, domain, group)|
    ensures PagesComplete(opts => GroupListing(t, domain, group, opts), GroupResourceMasks(t, domain, group), limit, n)
  {
    PagingListing(opts => GroupListing(t, domain, group, opts), GroupResourceMasks(t, domain, group), limit, n);
  }

  lemma ResourceGroupPagesComplete(t: Tables, domain: Id, resource: Id, limit: int, n: nat)
    requires domain in t.domains && ResourceIn(t, domain, resource) && n >= |ResourceGroupMasks(t, domain, resource)|
    ensures PagesComplete(opts => ResourceGroupListing(t, domain, resource, opts), ResourceGroupMasks(t, domain, resource), limit, n)
  {
    PagingListing(opts => ResourceGroupListing(t, domain, resource, opts), ResourceGroupMasks(t, domain, resource), limit, n);
  }

  // ---- row loops shared by the stores ----

  /** The rows of a result set that carry one id. */
  ghost function RowsFor<K>(rows: map<K, MaskRow>, id: Id): map<K, bv64> {
    map k | k in rows && rows[k].id == id :: rows[k].mask
  }

  lemma RowsForHit<K>(rows: map<K, MaskRow>, k: K, row: MaskRow)
    requires k !in rows
    ensures OrAll(RowsFor(rows[k := row], row.id)) == OrAll(RowsFor(rows, row.id)) | row.mask
  {
    var before, after := RowsFor(rows, row.id), RowsFor(rows[k := row], row.id);
    assert after - {k} == before;
    OrAllRemove(after, k);
    OrCommutes(row.mask, OrAll(before));
  }

  lemma RowsForMiss<K>(rows: map<K, MaskRow>, k: K, row: MaskRow, id: Id)
    requires k !in rows && row.id != id
    ensures OrAll(RowsFor(rows[k := row], id)) == OrAll(RowsFor(rows, id))
  {
    assert RowsFor(rows[k := row], id) == RowsFor(rows, id);
  }

  /** `masks` has, id by id, the OR of the rows read so far. */
  ghost predicate Accumulated<K>(masks: map<Id, bv64>, rows: map<K, MaskRow>) {
    forall id :: MaskAt(masks, id) == OrAll(RowsFor(rows, id))
  }

  lemma AccumulatedNone<K>(rows: map<K, MaskRow>)
    requires rows == map[]
    ensures Accumulated(map[], rows)
  {
    forall id ensures MaskAt(map[], id) == OrAll(RowsFor(rows, id)) {
      assert RowsFor(rows, id) == map[];
    }
  }

  lemma AccumulatedHit<K>(masks: map<Id, bv64>, rows: map<K, MaskRow>, k: K, row: MaskRow)
    requires k !in rows && MaskAt(masks, row.id) == OrAll(RowsFor(rows, row.id))
    ensures MaskAt(masks, row.id) | row.mask == OrAll(RowsFor(rows[k := row], row.id))
  {
    RowsForHit(rows, k, row);
  }

  lemma AccumulatedOne<K>(masks: map<Id, bv64>, rows: map<K, MaskRow>, k: K, row: MaskRow, mask: bv64)
    requires k !in rows && Accumulated(masks, rows)
    requires mask == MaskAt(masks, row.id) | row.mask
    ensures Accumulated(masks[row.id := mask], rows[k := row])
  {
    assert MaskAt(masks, row.id) == OrAll(RowsFor(rows, row.id));
    AccumulatedHit(masks, rows, k, row);
    AccumulatedNext(masks, rows, k, row, mask);
  }

  lemma AccumulatedNext<K>(masks: map<Id, bv64>, rows: map<K, MaskRow>, k: K, row: MaskRow, mask: bv64)
    requires k !in rows && Accumulated(masks, rows)
    requires mask == OrAll(RowsFor(rows[k := row], row.id))
    ensures Accumulated(masks[row.id := mask], rows[k := row])
  {
    var next, read := masks[row.id := mask], rows[k := row];
    forall id ensures MaskAt(next, id) == OrAll(RowsFor(read, id)) {
      if id != row.id {
        RowsForMiss(rows, k, row, id);
        assert MaskAt(next, id) == MaskAt(masks, id) == OrAll(RowsFor(rows, id));
      }
    }
  }

  lemma ReadOneMore<K>(read: map<K, MaskRow>, rows: map<K, MaskRow>, left: set<K>, k: K)
    requires k in left && left <= rows.Keys && rows.Keys !! read.Keys
    ensures k !in read + (rows - left)
    ensures (read + (rows - left))[k := rows[k]] == read + (rows - (left - {k}))
  {
  }

  /** The loop masks[id] |= m over a result set, in whatever order its rows come, on top of the
      rows already read. */
  method OrById<K(==)>(rows: map<K, MaskRow>, into: map<Id, bv64>, ghost read: map<K, MaskRow>)
    returns (masks: map<Id, bv64>)
    requires Accumulated(into, read) && rows.Keys !! read.Keys
    ensures Accumulated(masks, read + rows)
  {
    masks := into;
    var left := rows.Keys;
    assert read + (rows - left) == read;
    while left != {}
      invariant left <= rows.Keys && Accumulated(masks, read + (rows - left))
      decreases |left|
    {
      var k :| k in left;
      var row := rows[k];
      var mask := MaskAt(masks, row.id) | row.mask;
      ReadOneMore(read, rows, left, k);
      AccumulatedOne(masks, read + (rows - left), k, row, mask);
      masks := masks[row.id := mask];
      left := left - {k};
    }
    assert rows - {} == rows;
  }

  /** The last loop of each listing: one result row per id of the page. */
  method BuildRows(ids: seq<Id>, masks: map<Id, bv64>) returns (rows: seq<MaskRow>)
    ensures rows == RowsOf(ids, masks)
  {
    rows := [];
    for i := 0 to |ids|
      invariant |rows| == i && forall j | 0 <= j < i :: rows[j] == MaskRow(ids[j], MaskAt(masks, ids[j]))
    {
      rows := rows + [MaskRow(ids[i], MaskAt(masks, ids[i]))];
    }
  }

  lemma SameRows(ids: seq<Id>, a: map<Id, bv64>, b: map<Id, bv64>)
    requires forall id | id in ids :: MaskAt(a, id) == MaskAt(b, id)
    ensures RowsOf(ids, a) == RowsOf(ids, b)
  {
  }

  // ---- the group listings' batched queries ----

  function GroupMaskRows(t: Tables, domain: Id, group: Id, page: seq<Id>): map<Id, MaskRow> {
    map p | p in t.permissions && t.permissions[p].domain == domain && Positive(t.permissions[p].mask)
            && GroupGrant(group, p) in t.groupGrants && t.permissions[p].resource in page
         :: MaskRow(t.permissions[p].resource, FromSql(t.permissions[p].mask))
  }

  function ResourceGroupMaskRows(t: Tables, domain: Id, resource: Id, page: seq<Id>): map<GroupGrant, MaskRow> {
    map k | k in t.groupGrants && k.permission in t.permissions && k.group in t.groups
            && t.permissions[k.permission].domain == domain && t.permissions[k.permission].resource == resource
            && Positive(t.permissions[k.permission].mask) && k.group in page
         :: MaskRow(k.group, FromSql(t.permissions[k.permission].mask))
  }

  lemma GroupBatchComplete(t: Tables, domain: Id, group: Id, page: seq<Id>, resource: Id)
    requires resource in page
    ensures OrAll(RowsFor(GroupMaskRows(t, domain, group, page), resource)) == GroupMask(t, domain, group, resource)
  {
    var rows, truth := RowsFor(GroupMaskRows(t, domain, group, page), resource), GroupRows(t, domain, group, resource);
    forall p ensures (p in rows <==> p in truth) && (p in rows ==> rows[p] == truth[p]) {
      if p in t.permissions { FromSqlNonZero(t.permissions[p].mask); }
    }
    SameMap(rows, truth);
  }

  lemma ResourceGroupBatchComplete(t: Tables, domain: Id, resource: Id, page: seq<Id>, group: Id)
    requires group in page && group in t.groups
    ensures OrAll(RowsFor(ResourceGroupMaskRows(t, domain, resource, page), group)) == GroupMask(t, domain, group, resource)
  {
    var rows, truth := RowsFor(ResourceGroupMaskRows(t, domain, resource, page), group), GroupRows(t, domain, group, resource);
    forall k | k in rows ensures Within(rows[k], OrAll(truth)) {
      assert k == GroupGrant(group, k.permission);
      FromSqlNonZero(t.permissions[k.permission].mask);
      OrAllUpper(truth, k.permission);
    }
    forall p | p in truth ensures Within(truth[p], OrAll(rows)) {
      FromSqlNonZero(t.permissions[p].mask);
      OrAllUpper(rows, GroupGrant(group, p));
    }
    OrAllLeast(rows, OrAll(truth));
    OrAllLeast(truth, OrAll(rows));
    WithinAntisymmetric(OrAll(rows), OrAll(truth));
  }

  lemma GroupPage(t: Tables, domain: Id, group: Id, opts: ListOpts, page: seq<Id>, masks: map<Id, bv64>)
    requires page == PageOf(GroupResources(t, domain, group), opts)
    requires Accumulated(masks, GroupMaskRows(t, domain, group, page))
    ensures RowsOf(page, masks) == RowsOf(page, GroupResourceMasks(t, domain, group))
  {
    forall id | id in page ensures MaskAt(masks, id) == MaskAt(GroupResourceMasks(t, domain, group), id) {
      PageMembers(GroupResources(t, domain, group), opts, id);
      GroupBatchComplete(t, domain, group, page, id);
    }
    SameRows(page, masks, GroupResourceMasks(t, domain, group));
  }

  lemma ResourceGroupPage(t: Tables, domain: Id, resource: Id, opts: ListOpts, page: seq<Id>, masks: map<Id, bv64>)
    requires page == PageOf(ResourceGroups(t, domain, resource), opts)
    requires Accumulated(masks, ResourceGroupMaskRows(t, domain, resource, page))
    ensures RowsOf(page, masks) == RowsOf(page, ResourceGroupMasks(t, domain, resource))
  {
    forall id | id in page ensures MaskAt(masks, id) == MaskAt(ResourceGroupMasks(t, domain, resource), id) {
      PageMembers(ResourceGroups(t, domain, resource), opts, id);
      ResourceGroupBatchComplete(t, domain, resource, page, id);
    }
    SameRows(page, masks, ResourceGroupMasks(t, domain, resource));
  }

  /** The queries of GroupAuthzResourcesList: distinct resource ids, a page of them, their masks. */
  method ListGroupResources(t: Tables, domain: Id, group: Id, opts: ListOpts) returns (listing: Listing)
    ensures listing == ListingOf(GroupResourceMasks(t, domain, group), opts)
  {
    var ids := GroupResources(t, domain, group);
    assert GroupResourceMasks(t, domain, group).Keys == ids;
    var ordered := OrderBy(ids);
    var page := Page(ordered, Sanitize(opts).offset, Sanitize(opts).limit);
    if |page| == 0 {
      assert RowsOf(page, GroupResourceMasks(t, domain, group)) == [];
      return Listing([], |ids|);
    }
    AccumulatedNone<Id>(map[]);
    var maskRows := GroupMaskRows(t, domain, group, page);
    var masks := OrById(maskRows, map[], map[]);
    assert map[] + maskRows == maskRows;
    var rows := BuildRows(page, masks);
    GroupPage(t, domain, group, opts, page, masks);
    listing := Listing(rows, |ids|);
  }

  /** The queries of ResourceAuthzGroupsList: distinct group ids, a page of them, their masks. */
  method ListResourceGroups(t: Tables, domain: Id, resource: Id, opts: ListOpts) returns (listing: Listing)
    ensures listing == ListingOf(ResourceGroupMasks(t, domain, resource), opts)
  {
    var ids := ResourceGroups(t, domain, resource);
    assert ResourceGroupMasks(t, domain, resource).Keys == ids;
    var ordered := OrderBy(ids);
    var page := Page(ordered, Sanitize(opts).offset, Sanitize(opts).limit);
    if |page| == 0 {
      assert RowsOf(page, ResourceGroupMasks(t, domain, resource)) == [];
      return Listing([], |ids|);
    }
    AccumulatedNone<GroupGrant>(map[]);
    var maskRows := ResourceGroupMaskRows(t, domain, resource, page);
    var masks := OrById(maskRows, map[], map[]);
    assert map[] + maskRows == maskRows;
    var rows := BuildRows(page, masks);
    ResourceGroupPage(t, domain, resource, opts, page, masks);
    listing := Listing(rows, |ids|);
  }
}
