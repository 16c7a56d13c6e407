/** The access types of one domain: why 63 rows are all there can be, and what the allocator sees of them. */
module AccessTypeTable {
  import opened Basics
  import opened Masks
  import opened AccessBits
  import opened Ordering
  import opened Schema
  import opened TitleCodec

  const MAX_ACCESS_TYPES := 63

  /** Every stored bit is a single bit among positions 0..62: what the v2 endpoint lets in. */
  ghost predicate SingleBits(rows: map<Id, AccessType>) {
    forall a | a in rows :: Single(rows[a].bit) && !Negative(rows[a].bit)
  }

  function DomainTypes(rows: map<Id, AccessType>, domain: Id): set<Id> {
    set a | a in rows && rows[a].domain == domain
  }

  /** The position of a single bit; 63 stands for "none". */
  ghost function PosOf(bit: bv64): nat {
    if Single(bit) && !Negative(bit) then Position(bit) else 63
  }

  lemma PosOfBit(pos: nat)
    requires pos <= 62
    ensures PosOf(Bit(pos)) == pos
  {
    BitSingle(pos);
    BitInjective(pos, PosOf(Bit(pos)));
  }

  lemma PosOfSingle(bit: bv64)
    requires Single(bit) && !Negative(bit)
    ensures PosOf(bit) <= 62 && Bit(PosOf(bit)) == bit && Positions(bit) == {PosOf(bit)}
  {
    BitPositions(PosOf(bit));
  }

  /** What a query reads of a row: a negative stored bit is reported as 0. */
  function ReadType(row: AccessType): AccessType {
    row.(bit := FromSql(row.bit))
  }

  /** The positions taken in a domain. */
  ghost function Taken(rows: map<Id, AccessType>, domain: Id): set<nat> {
    set a, pos | a in DomainTypes(rows, domain) && pos in Positions(FromSql(rows[a].bit)) :: pos
  }

  /** When all bits are single, each type takes its one position. */
  lemma TakenSingle(rows: map<Id, AccessType>, domain: Id)
    requires SingleBits(rows)
    ensures Taken(rows, domain) == set a | a in DomainTypes(rows, domain) :: PosOf(rows[a].bit)
  {
    forall a | a in DomainTypes(rows, domain) ensures Positions(FromSql(rows[a].bit)) == {PosOf(rows[a].bit)} {
      PosOfSingle(rows[a].bit);
    }
  }

  ghost function Below(n: nat): set<nat> {
    if n == 0 then {} else Below(n - 1) + {n - 1}
  }

  lemma {:induction false} InBelow(n: nat, i: nat)
    ensures i in Below(n) <==> i < n
  {
    if n > 0 { InBelow(n - 1, i); }
  }

  lemma {:induction false} BelowSize(n: nat)
    ensures |Below(n)| == n
  {
    if n > 0 {
      BelowSize(n - 1);
      InBelow(n - 1, n - 1);
    }
  }

  // ---- pigeonhole ----

  lemma {:induction false} DistinctPositions(rows: map<Id, AccessType>, domain: Id, ids: set<Id>)
    requires SingleBits(rows) && UniqueAccessTypes(rows) && ids <= DomainTypes(rows, domain)
    ensures |set a | a in ids :: PosOf(rows[a].bit)| == |ids|
    decreases |ids|
  {
    var taken := set a | a in ids :: PosOf(rows[a].bit);
    if ids == {} {
      assert taken == {};
    } else {
      var a :| a in ids;
      DistinctPositions(rows, domain, ids - {a});
      var rest := set b | b in ids - {a} :: PosOf(rows[b].bit);
      forall b | b in ids - {a} ensures PosOf(rows[b].bit) != PosOf(rows[a].bit) {
        PosOfSingle(rows[a].bit);
        PosOfSingle(rows[b].bit);
      }
      assert taken == rest + {PosOf(rows[a].bit)};
    }
  }

  lemma TakenSize(rows: map<Id, AccessType>, domain: Id)
    requires SingleBits(rows) && UniqueAccessTypes(rows)
    ensures |Taken(rows, domain)| == |DomainTypes(rows, domain)| && Taken(rows, domain) <= Below(63)
  {
    TakenSingle(rows, domain);
    DistinctPositions(rows, domain, DomainTypes(rows, domain));
    forall a | a in DomainTypes(rows, domain) ensures PosOf(rows[a].bit) in Below(63) {
      PosOfSingle(rows[a].bit);
      InBelow(63, PosOf(rows[a].bit));
    }
  }

  /** A domain holds at most 63 single-bit types. */
  lemma AtMost63(rows: map<Id, AccessType>, domain: Id)
    requires SingleBits(rows) && UniqueAccessTypes(rows)
    ensures |DomainTypes(rows, domain)| <= MAX_ACCESS_TYPES
  {
    TakenSize(rows, domain);
    BelowSize(63);
    SubsetSize(Taken(rows, domain), Below(63));
  }

  // ---- loadDomainAccessTypes ----

  function DomainTitles(rows: map<Id, AccessType>, domain: Id): set<string> {
    set a | a in DomainTypes(rows, domain) :: rows[a].title
  }

  ghost function TypeTitled(rows: map<Id, AccessType>, domain: Id, title: string): AccessType
    requires title in DomainTitles(rows, domain)
  {
    var a :| a in DomainTypes(rows, domain) && rows[a].title == title;
    ReadType(rows[a])
  }

  ghost function TitlePage(rows: map<Id, AccessType>, domain: Id): seq<string> {
    Page(InOrder(DomainTitles(rows, domain)), 0, Sanitize(ListOpts(0, MAX_ACCESS_TYPES)).limit)
  }

  lemma TitlePageMembers(rows: map<Id, AccessType>, domain: Id)
    ensures forall title | title in TitlePage(rows, domain) :: title in DomainTitles(rows, domain)
  {
    InOrderMembers(DomainTitles(rows, domain));
  }

  /** AccessTypeList with LIMIT 63, ordered by title. Titles are unique in a domain, so the id
      never has to break a tie. */
  ghost function LoadDomain(rows: map<Id, AccessType>, domain: Id): seq<AccessType> {
    TitlePageMembers(rows, domain);
    var page := TitlePage(rows, domain);
    seq(|page|, i requires 0 <= i < |page| => TypeTitled(rows, domain, page[i]))
  }

  lemma {:induction false} TitleCount(rows: map<Id, AccessType>, domain: Id, ids: set<Id>)
    requires UniqueAccessTypes(rows) && ids <= DomainTypes(rows, domain)
    ensures |set a | a in ids :: rows[a].title| == |ids|
    decreases |ids|
  {
    var titles := set a | a in ids :: rows[a].title;
    if ids == {} {
      assert titles == {};
    } else {
      var a :| a in ids;
      TitleCount(rows, domain, ids - {a});
      assert titles == (set b | b in ids - {a} :: rows[b].title) + {rows[a].title};
    }
  }

  /** loadDomainAccessTypes: the rows of the query, scanned in title order. */
  method LoadDomainAccessTypes(rows: map<Id, AccessType>, domain: Id) returns (types: seq<AccessType>)
    requires UniqueAccessTypes(rows)
    ensures types == LoadDomain(rows, domain)
  {
    var titles := OrderBy(DomainTitles(rows, domain));
    var page := Page(titles, 0, Sanitize(ListOpts(0, MAX_ACCESS_TYPES)).limit);
    TitlePageMembers(rows, domain);
    ghost var loaded := LoadDomain(rows, domain);
    types := [];
    for i := 0 to |page|
      invariant types == loaded[..i]
    {
      var t := ScanTitled(rows, domain, page[i]);
      assert loaded[i] == t;
      types := types + [t];
    }
  }

  method ScanTitled(rows: map<Id, AccessType>, domain: Id, title: string) returns (t: AccessType)
    requires UniqueAccessTypes(rows) && title in DomainTitles(rows, domain)
    ensures t == TypeTitled(rows, domain, title)
  {
    var a :| a in DomainTypes(rows, domain) && rows[a].title == title;
    OneTypeTitled(rows, domain, a);
    t := ReadType(rows[a]);
  }

  lemma OneTypeTitled(rows: map<Id, AccessType>, domain: Id, a: Id)
    requires UniqueAccessTypes(rows) && a in DomainTypes(rows, domain)
    ensures rows[a].title in DomainTitles(rows, domain)
    ensures TypeTitled(rows, domain, rows[a].title) == ReadType(rows[a])
  {
    assert rows[a].title in DomainTitles(rows, domain);
    var b :| b in DomainTypes(rows, domain) && rows[b].title == rows[a].title
          && TypeTitled(rows, domain, rows[a].title) == ReadType(rows[b]);
  }

  // ---- what the limit of 63 cuts off ----

  /** The type is among those a load returns. */
  ghost predicate Loaded(rows: map<Id, AccessType>, domain: Id, a: Id)
    requires a in rows
  {
    ReadType(rows[a]) in LoadDomain(rows, domain)
  }

  /** The titles of the domain that come before this one. */
  ghost function TitlesBefore(rows: map<Id, AccessType>, domain: Id, title: string): set<string> {
    Before(DomainTitles(rows, domain), title)
  }

  lemma LoadedAt(rows: map<Id, AccessType>, domain: Id, i: nat) returns (a: Id)
    requires i < |LoadDomain(rows, domain)|
    ensures a in DomainTypes(rows, domain) && LoadDomain(rows, domain)[i] == ReadType(rows[a])
    ensures rows[a].title == TitlePage(rows, domain)[i]
  {
    TitlePageMembers(rows, domain);
    var title := TitlePage(rows, domain)[i];
    assert title in DomainTitles(rows, domain);
    a :| a in DomainTypes(rows, domain) && rows[a].title == title && TypeTitled(rows, domain, title) == ReadType(rows[a]);
  }

  lemma LoadedOnPage(rows: map<Id, AccessType>, domain: Id, a: Id)
    requires UniqueAccessTypes(rows) && a in DomainTypes(rows, domain)
    ensures Loaded(rows, domain, a) <==> rows[a].title in TitlePage(rows, domain)
  {
    var loaded, page := LoadDomain(rows, domain), TitlePage(rows, domain);
    if Loaded(rows, domain, a) {
      var i :| 0 <= i < |loaded| && loaded[i] == ReadType(rows[a]);
      var b := LoadedAt(rows, domain, i);
      assert page[i] == rows[a].title;
    }
    if rows[a].title in page {
      var i :| 0 <= i < |page| && page[i] == rows[a].title;
      OneTypeTitled(rows, domain, a);
      assert loaded[i] == ReadType(rows[a]);
    }
  }

  lemma OnPageIffRank(titles: set<string>, title: string, limit: nat)
    requires title in titles
    ensures title in Page(InOrder(titles), 0, limit) <==> |Before(titles, title)| < limit
  {
    InOrderMembers(titles);
    var ordered := InOrder(titles);
    var i :| 0 <= i < |ordered| && ordered[i] == title;
    RankInOrder(titles, i);
    var page := Page(ordered, 0, limit);
    if i < limit { assert page[i] == title; }
    if title in page {
      var j :| 0 <= j < |page| && page[j] == title;
      assert ordered[j] == title;
      LessIrreflexive(title);
    }
  }

  /** A type is loaded exactly when fewer than 63 titles of the domain precede its own. */
  lemma LoadedIffPreceded(rows: map<Id, AccessType>, domain: Id, a: Id)
    requires UniqueAccessTypes(rows) && a in DomainTypes(rows, domain)
    ensures Loaded(rows, domain, a) <==> |TitlesBefore(rows, domain, rows[a].title)| < MAX_ACCESS_TYPES
  {
    LoadedOnPage(rows, domain, a);
    OneTypeTitled(rows, domain, a);
    OnPageIffRank(DomainTitles(rows, domain), rows[a].title, MAX_ACCESS_TYPES);
  }

  /** What a load returns, whatever bits are stored. */
  lemma LoadExactly(rows: map<Id, AccessType>, domain: Id, t: AccessType)
    requires UniqueAccessTypes(rows)
    ensures t in LoadDomain(rows, domain) <==>
            exists a | a in DomainTypes(rows, domain) ::
              |TitlesBefore(rows, domain, rows[a].title)| < MAX_ACCESS_TYPES && ReadType(rows[a]) == t
  {
    var loaded := LoadDomain(rows, domain);
    if t in loaded {
      var i :| 0 <= i < |loaded| && loaded[i] == t;
      var a := LoadedAt(rows, domain, i);
      assert Loaded(rows, domain, a);
      LoadedIffPreceded(rows, domain, a);
    }
    if a :| a in DomainTypes(rows, domain) && |TitlesBefore(rows, domain, rows[a].title)| < MAX_ACCESS_TYPES
            && ReadType(rows[a]) == t {
      LoadedIffPreceded(rows, domain, a);
    }
  }

  lemma SmallAllLoaded(rows: map<Id, AccessType>, domain: Id, a: Id)
    requires UniqueAccessTypes(rows) && a in DomainTypes(rows, domain) && |DomainTitles(rows, domain)| <= MAX_ACCESS_TYPES
    ensures Loaded(rows, domain, a)
  {
    LoadedOnPage(rows, domain, a);
    OneTypeTitled(rows, domain, a);
    InOrderMembers(DomainTitles(rows, domain));
    assert TitlePage(rows, domain) == InOrder(DomainTitles(rows, domain));
  }

  lemma LargeCutsOff(rows: map<Id, AccessType>, domain: Id) returns (a: Id)
    requires UniqueAccessTypes(rows) && |DomainTitles(rows, domain)| > MAX_ACCESS_TYPES
    ensures a in DomainTypes(rows, domain) && !Loaded(rows, domain, a)
  {
    InOrderMembers(DomainTitles(rows, domain));
    var cut := InOrder(DomainTitles(rows, domain))[MAX_ACCESS_TYPES];
    assert cut in DomainTitles(rows, domain);
    a :| a in DomainTypes(rows, domain) && rows[a].title == cut;
    RankInOrder(DomainTitles(rows, domain), MAX_ACCESS_TYPES);
    LoadedIffPreceded(rows, domain, a);
  }

  /** The limit cuts nothing off exactly when the domain has at most 63 types. */
  lemma LoadComplete(rows: map<Id, AccessType>, domain: Id)
    requires UniqueAccessTypes(rows)
    ensures (forall a | a in DomainTypes(rows, domain) :: Loaded(rows, domain, a)) <==>
            |DomainTypes(rows, domain)| <= MAX_ACCESS_TYPES
  {
    TitleCount(rows, domain, DomainTypes(rows, domain));
    if |DomainTitles(rows, domain)| <= MAX_ACCESS_TYPES {
      forall a | a in DomainTypes(rows, domain) { SmallAllLoaded(rows, domain, a); }
    } else {
      var a := LargeCutsOff(rows, domain);
    }
  }

  /** The positions of a loaded type are seen by the allocator, and it sees no others. */
  lemma LoadedPositionsWithin(rows: map<Id, AccessType>, domain: Id)
    requires UniqueAccessTypes(rows)
    ensures Positions(Used(LoadDomain(rows, domain))) <= Taken(rows, domain)
    ensures forall a | a in DomainTypes(rows, domain) && Loaded(rows, domain, a) ::
              Positions(FromSql(rows[a].bit)) <= Positions(Used(LoadDomain(rows, domain)))
  {
    var loaded := LoadDomain(rows, domain);
    forall pos | pos in Positions(Used(loaded)) ensures pos in Taken(rows, domain) {
      UsedPositions(loaded, pos);
      var t :| t in loaded && pos in Positions(t.bit);
      var i :| 0 <= i < |loaded| && loaded[i] == t;
      var a := LoadedAt(rows, domain, i);
    }
    forall a, pos | a in DomainTypes(rows, domain) && Loaded(rows, domain, a) && pos in Positions(FromSql(rows[a].bit))
      ensures pos in Positions(Used(loaded))
    {
      assert ReadType(rows[a]) in loaded;
      UsedPositions(loaded, pos);
    }
  }

  /** With at most 63 types the allocator sees exactly the positions taken in the domain. */
  lemma LoadedPositions(rows: map<Id, AccessType>, domain: Id)
    requires UniqueAccessTypes(rows) && |DomainTypes(rows, domain)| <= MAX_ACCESS_TYPES
    ensures Positions(Used(LoadDomain(rows, domain))) == Taken(rows, domain)
  {
    LoadedPositionsWithin(rows, domain);
    LoadComplete(rows, domain);
  }

  lemma FullIffAll(taken: set<nat>, n: nat)
    requires taken <= Below(n)
    ensures (forall q: nat | q < n :: q in taken) <==> |taken| == n
  {
    BelowSize(n);
    SubsetSize(taken, Below(n));
    forall q: nat | q < n ensures q in Below(n) { InBelow(n, q); }
    if forall q: nat | q < n :: q in taken {
      forall i | i in Below(n) ensures i in taken { InBelow(n, i); }
      assert taken == Below(n);
    }
  }

  lemma AllocationLowest(taken: set<nat>)
    ensures match Allocation(taken)
            case Err(e) => e == BitsExhausted && forall q: nat | q < 63 :: q in taken
            case Ok(bit) =>
              && Single(bit) && !Negative(bit) && PosOf(bit) < 63
              && PosOf(bit) !in taken && forall q: nat | q < PosOf(bit) :: q in taken
  {
    FirstFreeLowest(taken, 0);
    match FirstFree(taken, 0)
    case Err(_) =>
    case Ok(pos) =>
      BitSingle(pos);
      PosOfBit(pos);
  }

  lemma AllocationFull(taken: set<nat>, n: nat)
    requires n == 63 && taken <= Below(n)
    ensures |taken| <= n && (Allocation(taken).Err? <==> |taken| == n)
  {
    AllocationLowest(taken);
    FullIffAll(taken, n);
    BelowSize(n);
    SubsetSize(taken, Below(n));
  }

  /** With at most 63 types, of any bits: the lowest position none of them has, or all are taken. */
  lemma AllocationRoomy(rows: map<Id, AccessType>, domain: Id)
    requires UniqueAccessTypes(rows) && |DomainTypes(rows, domain)| <= MAX_ACCESS_TYPES
    ensures match Allocation(Positions(Used(LoadDomain(rows, domain))))
            case Err(e) => e == BitsExhausted && forall q: nat | q < 63 :: q in Taken(rows, domain)
            case Ok(bit) =>
              && Single(bit) && !Negative(bit)
              && PosOf(bit) !in Taken(rows, domain) && forall q: nat | q < PosOf(bit) :: q in Taken(rows, domain)
  {
    LoadedPositions(rows, domain);
    AllocationLowest(Taken(rows, domain));
  }

  /** Among single-bit types allocation fails exactly when the domain has 63 of them; otherwise it
      returns the lowest bit none of them has. */
  lemma AllocationExact(rows: map<Id, AccessType>, domain: Id)
    requires SingleBits(rows) && UniqueAccessTypes(rows)
    ensures match Allocation(Positions(Used(LoadDomain(rows, domain))))
            case Err(e) => e == BitsExhausted && |DomainTypes(rows, domain)| == 63
            case Ok(bit) =>
              && |DomainTypes(rows, domain)| < 63 && Single(bit) && !Negative(bit)
              && PosOf(bit) !in Taken(rows, domain) && forall q: nat | q < PosOf(bit) :: q in Taken(rows, domain)
  {
    AtMost63(rows, domain);
    AllocationRoomy(rows, domain);
    LoadedPositions(rows, domain);
    TakenSize(rows, domain);
    AllocationFull(Taken(rows, domain), 63);
  }
}
