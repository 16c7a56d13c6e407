/** What a user may do, read from the source tables alone. */
module GroundTruth {
  import opened Basics
  import opened Masks
  import opened Schema

  /** The user holds the permission: a direct grant, or a grant to a group the user is a member of.
      As in the source, no domain column is compared. */
  predicate Held(t: Tables, user: Id, permission: Id) {
    || UserGrant(user, permission) in t.userGrants
    || exists k | k in t.groupGrants :: k.permission == permission && Membership(user, k.group) in t.members
  }

  /** The same predicate with every join also restricted to one domain. */
  predicate HeldInDomain(t: Tables, domain: Id, user: Id, permission: Id) {
    || (UserGrant(user, permission) in t.userGrants && t.userGrants[UserGrant(user, permission)] == domain)
    || exists k | k in t.groupGrants && t.groupGrants[k] == domain ::
         && k.permission == permission
         && Membership(user, k.group) in t.members
         && t.members[Membership(user, k.group)] == domain
  }

  /** The permission rows selected for a triple. */
  predicate Selected(t: Tables, k: Triple, permission: Id) {
    && permission in t.permissions
    && t.permissions[permission].domain == k.domain
    && t.permissions[permission].resource == k.resource
    && Held(t, k.user, permission)
  }

  /** The result set of the effective-mask query: one mask per selected permission. */
  function EffectiveRows(t: Tables, k: Triple): map<Id, bv64> {
    map p | p in t.permissions && Selected(t, k, p) :: FromSql(t.permissions[p].mask)
  }

  /** The effective mask of a (domain, user, resource) triple. */
  ghost function GroundMask(t: Tables, k: Triple): bv64 {
    OrAll(EffectiveRows(t, k))
  }

  /** A selected permission whose stored mask is positive: the only rows that add bits. */
  ghost predicate Counts(t: Tables, k: Triple, permission: Id) {
    Selected(t, k, permission) && Positive(t.permissions[permission].mask)
  }

  lemma FromSqlNonZero(v: bv64)
    ensures FromSql(v) != 0 <==> Positive(v)
    ensures !Negative(FromSql(v))
    ensures Positive(v) ==> FromSql(v) == v
  {
  }

  /** Adding counting rows can only add bits. */
  lemma GroundMonotone(t: Tables, t': Tables, k: Triple)
    requires forall p | Counts(t, k, p) :: Counts(t', k, p) && t'.permissions[p].mask == t.permissions[p].mask
    ensures Within(GroundMask(t, k), GroundMask(t', k))
  {
    forall p | p in EffectiveRows(t, k) && EffectiveRows(t, k)[p] != 0
      ensures p in EffectiveRows(t', k) && EffectiveRows(t', k)[p] == EffectiveRows(t, k)[p]
    {
      FromSqlNonZero(t.permissions[p].mask);
      assert Counts(t, k, p);
    }
    OrAllMonotone(EffectiveRows(t, k), EffectiveRows(t', k));
  }

  /** Two states with the same counting rows for a triple give it the same mask. */
  lemma GroundUnchanged(t: Tables, t': Tables, k: Triple)
    requires forall p | Counts(t, k, p) :: Counts(t', k, p) && t'.permissions[p].mask == t.permissions[p].mask
    requires forall p | Counts(t', k, p) :: Counts(t, k, p) && t'.permissions[p].mask == t.permissions[p].mask
    ensures GroundMask(t, k) == GroundMask(t', k)
  {
    GroundMonotone(t, t', k);
    GroundMonotone(t', t, k);
    WithinAntisymmetric(GroundMask(t, k), GroundMask(t', k));
  }

  /** The mask is non-zero exactly when some counting permission is held. */
  lemma GroundNonZero(t: Tables, k: Triple)
    ensures GroundMask(t, k) != 0 <==> exists p :: Counts(t, k, p)
  {
    var rows := EffectiveRows(t, k);
    OrAllZero(rows);
    if p :| p in rows && rows[p] != 0 {
      FromSqlNonZero(t.permissions[p].mask);
      assert Counts(t, k, p);
    }
    if p :| Counts(t, k, p) {
      FromSqlNonZero(t.permissions[p].mask);
      assert p in rows && rows[p] != 0;
    }
  }

  /** The combined mask always fits the signed column, whatever int64 values are stored. */
  lemma GroundFits(t: Tables, k: Triple)
    ensures !Negative(GroundMask(t, k)) && ToSql(GroundMask(t, k)) == Ok(GroundMask(t, k))
  {
    forall p | p in EffectiveRows(t, k) ensures !Negative(EffectiveRows(t, k)[p]) {
      FromSqlNonZero(t.permissions[p].mask);
    }
    OrAllFits(EffectiveRows(t, k));
  }

  /** A bit check on the effective mask succeeds exactly when one held permission on the resource carries the bit. */
  lemma GroundHasBit(t: Tables, k: Triple, bit: bv64)
    ensures HasBit(GroundMask(t, k), bit) <==>
            exists p :: Selected(t, k, p) && HasBit(FromSql(t.permissions[p].mask), bit)
  {
    OrAllHasBit(EffectiveRows(t, k), bit);
    if p :| Selected(t, k, p) && HasBit(FromSql(t.permissions[p].mask), bit) {
      assert p in EffectiveRows(t, k);
    }
  }

  // ---- what the composite foreign keys buy ----

  /** Leaving the domain filters out of the joins changes nothing: a holder of a permission holds it
      within the permission's own domain. */
  lemma DomainFiltersRedundant(t: Tables, domain: Id, user: Id, permission: Id)
    requires ForeignKeys(t)
    requires PermissionIn(t, domain, permission)
    ensures Held(t, user, permission) <==> HeldInDomain(t, domain, user, permission)
  {
    forall k | k in t.groupGrants && k.permission == permission && Membership(user, k.group) in t.members
      ensures t.groupGrants[k] == domain && t.members[Membership(user, k.group)] == domain
    {
      assert GroupIn(t, t.groupGrants[k], k.group);
      assert GroupIn(t, t.members[Membership(user, k.group)], k.group);
    }
    if UserGrant(user, permission) in t.userGrants {
      assert PermissionIn(t, t.userGrants[UserGrant(user, permission)], permission);
    }
  }

  /** A non-zero mask puts the user and the permission in the triple's domain, and the resource in the table. */
  lemma NonZeroMaskStaysInDomain(t: Tables, k: Triple)
    requires ForeignKeys(t)
    requires GroundMask(t, k) != 0
    ensures k.domain in t.domains && UserIn(t, k.domain, k.user) && k.resource in t.resources
  {
    GroundNonZero(t, k);
    var p :| Counts(t, k, p);
    HolderInDomain(t, k.domain, k.user, p);
  }

  lemma HolderInDomain(t: Tables, domain: Id, user: Id, permission: Id)
    requires ForeignKeys(t)
    requires PermissionIn(t, domain, permission) && Held(t, user, permission)
    ensures UserIn(t, domain, user)
  {
    DomainFiltersRedundant(t, domain, user, permission);
    if UserGrant(user, permission) !in t.userGrants {
      var k :| k in t.groupGrants && t.groupGrants[k] == domain && k.permission == permission
            && Membership(user, k.group) in t.members && t.members[Membership(user, k.group)] == domain;
      assert UserIn(t, t.members[Membership(user, k.group)], user);
    }
  }
}
