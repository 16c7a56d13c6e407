/** The two versions of the authorisation API over every reachable state of the SQLite store. */
module AuthzTheorems {
  import opened Basics
  import opened Masks
  import opened Schema
  import opened GroundTruth
  import opened PermissionCache
  import opened Transactions
  import opened RunTheorems
  import opened Ordering
  import opened TitleCodec
  import opened TitleTheorems
  import opened AccessTypeTable

  lemma LoadedTitle(rows: map<Id, AccessType>, domain: Id, i: nat)
    requires i < |LoadDomain(rows, domain)|
    ensures LoadDomain(rows, domain)[i].title == TitlePage(rows, domain)[i]
  {
    var a := LoadedAt(rows, domain, i);
  }

  lemma LoadedTitlesUnique(rows: map<Id, AccessType>, domain: Id)
    ensures UniqueTitles(LoadDomain(rows, domain))
  {
    var loaded, page := LoadDomain(rows, domain), TitlePage(rows, domain);
    InOrderMembers(DomainTitles(rows, domain));
    forall i, j | 0 <= i < j < |loaded| ensures loaded[i].title != loaded[j].title {
      LoadedTitle(rows, domain, i);
      LoadedTitle(rows, domain, j);
      assert Less(page[i], page[j]);
      LessIrreflexive(page[i]);
    }
  }

  /** What EffectiveMask answers. */
  function Answered(db: Db, k: Triple): bv64 {
    FromSql(CacheAt(db.cache, k))
  }

  /** Whether the title of type a, as v2 lists it, means its bit. */
  ghost predicate CanTrust(rows: map<Id, AccessType>, domain: Id, a: Id)
    requires a in rows
  {
    var types, t := LoadDomain(rows, domain), ReadType(rows[a]);
    if Loaded(rows, domain, a) || t.bit == 0 then !SentinelOfFreeBit(types, t.title) else StandsForItself(types, t)
  }

  lemma UnloadedNotTitled(rows: map<Id, AccessType>, domain: Id, a: Id)
    requires UniqueAccessTypes(rows) && a in DomainTypes(rows, domain) && !Loaded(rows, domain, a)
    ensures NotTitled(LoadDomain(rows, domain), rows[a].title)
  {
    var types := LoadDomain(rows, domain);
    LoadedOnPage(rows, domain, a);
    forall u | u in types ensures u.title != rows[a].title {
      var i :| 0 <= i < |types| && types[i] == u;
      LoadedTitle(rows, domain, i);
    }
  }

  /** For every registered type, loaded or cut off by the limit of 63: v2 lists its title on exactly the
      masks that have its bit if and only if its title can be trusted in this sense. */
  lemma CanTrustExactly(rows: map<Id, AccessType>, domain: Id, a: Id)
    requires UniqueAccessTypes(rows) && a in DomainTypes(rows, domain)
    ensures Trusted(LoadDomain(rows, domain), ReadType(rows[a])) <==> CanTrust(rows, domain, a)
  {
    if Loaded(rows, domain, a) {
      LoadedTitlesUnique(rows, domain);
      TitleTrustedExactly(LoadDomain(rows, domain), ReadType(rows[a]));
    } else {
      UnloadedNotTitled(rows, domain, a);
      FromSqlNonZero(rows[a].bit);
      MissingTrustedExactly(LoadDomain(rows, domain), ReadType(rows[a]));
    }
  }

  /** A title cut off by the limit is unknown when masks are written by title. */
  lemma UnloadedTitleRefused(rows: map<Id, AccessType>, domain: Id, a: Id, titles: seq<string>)
    requires UniqueAccessTypes(rows) && a in DomainTypes(rows, domain) && !Loaded(rows, domain, a)
    requires rows[a].title in titles
    ensures MaskOf(titles, BitsByTitle(LoadDomain(rows, domain))).Err?
  {
    UnloadedNotTitled(rows, domain, a);
    LookupSound(LoadDomain(rows, domain), rows[a].title);
    MaskOfFails(titles, BitsByTitle(LoadDomain(rows, domain)));
  }

  /** After any run, for every type of the domain: v1 allows its bit exactly when a permission the user
      holds on the resource shares a bit with it; and v2 lists its title exactly then, if the title can
      be trusted. */
  lemma VersionsAgree(db: Db, ops: seq<Op>, k: Triple, titles: seq<string>, a: Id)
    requires db == Run(Db(EmptyTables, map[]), ops) && a in DomainTypes(db.t.accessTypes, k.domain)
    requires IsTitleList(Answered(db, k), LoadDomain(db.t.accessTypes, k.domain), titles)
    ensures var t := ReadType(db.t.accessTypes[a]);
      && (HasBit(Answered(db, k), t.bit) <==>
            exists p :: Selected(db.t, k, p) && HasBit(FromSql(db.t.permissions[p].mask), t.bit))
      && (CanTrust(db.t.accessTypes, k.domain, a) ==> (t.title in titles <==> HasBit(Answered(db, k), t.bit)))
  {
    ReachableMasks(ops, k);
    GroundHasBit(db.t, k, ReadType(db.t.accessTypes[a]).bit);
    EmptyExact();
    RunExact(Db(EmptyTables, map[]), ops);
    CanTrustExactly(db.t.accessTypes, k.domain, a);
  }
}
