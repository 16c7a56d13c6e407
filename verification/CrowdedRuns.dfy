/** Two runs into the crowded domain: v2 does not list a title whose bit v1 allows, and a create is
    refused for ever although most bits are free. */
module CrowdedRuns {
  import opened Basics
  import opened Masks
  import opened AccessBits
  import opened Schema
  import opened GroundTruth
  import T = Transactions
  import opened RunTheorems
  import opened TitleCodec
  import opened TitleTheorems
  import opened AccessTypeTable
  import opened AuthzTheorems
  import opened CreateProtocol
  import opened CreateRequest
  import opened CrowdedDomain

  // ---- a title that v2 does not list ----

  /** The domain, then n access types through the v1 create. */
  function CrowdOps(n: nat): seq<T.Op> {
    if n == 0 then [T.DomainCreate("d")] else CrowdOps(n - 1) + [T.AccessTypeCreate(Title(n - 1), CrowdType(n - 1))]
  }

  function CrowdTables(n: nat): Tables {
    EmptyTables.(domains := {"d"}, accessTypes := Crowd(n))
  }

  lemma StepAdded(db: T.Db, ops: seq<T.Op>, op: T.Op, t: Tables, t': Tables)
    requires T.Run(db, ops).t == t && T.TablesAfter(t, op) == Ok(t')
    ensures T.Run(db, ops + [op]).t == t'
  {
    assert (ops + [op])[..|ops|] == ops;
    StepTables(T.Run(db, ops), op);
  }

  lemma CreateCrowdType(n: nat)
    requires n <= 63
    ensures T.TablesAfter(CrowdTables(n), T.AccessTypeCreate(Title(n), CrowdType(n))) == Ok(CrowdTables(n + 1))
  {
    CrowdInserts(n, {"d"});
  }

  lemma CrowdAdded(db: T.Db, ops: seq<T.Op>, n: nat)
    requires n <= 63 && T.Run(db, ops).t == CrowdTables(n)
    ensures T.Run(db, ops + [T.AccessTypeCreate(Title(n), CrowdType(n))]).t == CrowdTables(n + 1)
  {
    CreateCrowdType(n);
    StepAdded(db, ops, T.AccessTypeCreate(Title(n), CrowdType(n)), CrowdTables(n), CrowdTables(n + 1));
  }

  lemma CrowdStart()
    ensures T.Run(T.Db(EmptyTables, map[]), CrowdOps(0)).t == CrowdTables(0)
  {
    assert EmptyTables.domains + {"d"} == {"d"};
    StepAdded(T.Db(EmptyTables, map[]), [], T.DomainCreate("d"), EmptyTables, EmptyTables.(domains := {"d"}));
    assert [] + [T.DomainCreate("d")] == CrowdOps(0);
  }

  lemma {:induction false} CrowdRun(n: nat)
    requires n <= CROWD
    ensures T.Run(T.Db(EmptyTables, map[]), CrowdOps(n)).t == CrowdTables(n)
  {
    if n == 0 {
      CrowdStart();
    } else {
      CrowdRun(n - 1);
      CrowdAdded(T.Db(EmptyTables, map[]), CrowdOps(n - 1), n - 1);
    }
  }

  const HELD := Permission("d", "", "r", 1)

  /** A user who holds bit 1 on a resource, in four transactions. */
  function HeldOp(k: nat): T.Op {
    if k == 0 then T.UserCreate("d", "u")
    else if k == 1 then T.ResourceCreate("d", "r")
    else if k == 2 then T.PermissionCreate("p", HELD)
    else T.GrantUserPermission("d", "u", "p")
  }

  /** The crowd, then the first k of these. */
  function HeldOps(n: nat, k: nat): seq<T.Op> {
    if k == 0 then CrowdOps(n) else HeldOps(n, k - 1) + [HeldOp(k - 1)]
  }

  function HeldTables(t: Tables, k: nat): Tables {
    t.(users := if k < 1 then t.users else t.users["u" := "d"],
       resources := if k < 2 then t.resources else t.resources["r" := "d"],
       permissions := if k < 3 then t.permissions else t.permissions["p" := HELD],
       userGrants := if k < 4 then t.userGrants else t.userGrants[UserGrant("u", "p") := "d"])
  }

  lemma HeldStep(t: Tables, k: nat)
    requires k < 4 && t.domains == {"d"}
    requires t.users == map[] && t.resources == map[] && t.permissions == map[] && t.userGrants == map[]
    ensures T.TablesAfter(HeldTables(t, k), HeldOp(k)) == Ok(HeldTables(t, k + 1))
  {
    SqlStores(HELD.mask);
  }

  lemma {:induction false} HeldRun(n: nat, k: nat)
    requires n <= CROWD && k <= 4
    ensures T.Run(T.Db(EmptyTables, map[]), HeldOps(n, k)).t == HeldTables(CrowdTables(n), k)
  {
    if k == 0 {
      CrowdRun(n);
    } else {
      HeldRun(n, k - 1);
      HeldStep(CrowdTables(n), k - 1);
      StepAdded(T.Db(EmptyTables, map[]), HeldOps(n, k - 1), HeldOp(k - 1),
                HeldTables(CrowdTables(n), k - 1), HeldTables(CrowdTables(n), k));
    }
  }

  lemma HoldsBitOne(db: T.Db, ops: seq<T.Op>, n: nat, k: nat)
    requires db == T.Run(T.Db(EmptyTables, map[]), ops) && db.t == HeldTables(CrowdTables(n), k) && k == 4
    ensures HasBit(Answered(db, Triple("d", "u", "r")), 1)
  {
    assert Selected(db.t, Triple("d", "u", "r"), "p") && HasBit(FromSql(db.t.permissions["p"].mask), 1);
    ReachableMasks(ops, Triple("d", "u", "r"));
    GroundHasBit(db.t, Triple("d", "u", "r"), 1);
  }

  lemma TitleIsNoSentinel(i: nat, pos: nat)
    ensures Title(i) != Sentinel(pos)
  {
    assert Title(i)[0] == 't' && Sentinel(pos)[0] == '_';
  }

  /** In a reachable state v1 allows a registered type's bit and v2 does not list its title. */
  lemma LimitHidesTitle(db: T.Db, n: nat, titles: seq<string>)
    requires n == CROWD && db == T.Run(T.Db(EmptyTables, map[]), HeldOps(n, 4))
    requires IsTitleList(Answered(db, Triple("d", "u", "r")), LoadDomain(db.t.accessTypes, "d"), titles)
    ensures Title(63) in DomainTypes(db.t.accessTypes, "d")
    ensures var t := db.t.accessTypes[Title(63)];
      t.bit == 1 && HasBit(Answered(db, Triple("d", "u", "r")), t.bit) && t.title !in titles
  {
    HeldRun(n, 4);
    HoldsBitOne(db, HeldOps(n, 4), n, 4);
    LastUnloaded(n);
    UnloadedNotTitled(db.t.accessTypes, "d", Title(63));
    MissingListed(Answered(db, Triple("d", "u", "r")), LoadDomain(db.t.accessTypes, "d"), titles, Title(63));
    forall pos: nat { TitleIsNoSentinel(63, pos); }
  }

  // ---- a create that is refused for ever ----

  const NOWHERE := World({}, map[], map[])

  function New(title: string): Request {
    Request("d", title, None)
  }

  /** No type of the crowd has this title. */
  ghost predicate Unused(title: string) {
    forall i: nat :: i < CROWD ==> title != Title(i)
  }

  function CrowdEvents(n: nat): seq<Event> {
    if n == 0 then [CreateDomain("d")] else CrowdEvents(n - 1) + [CreateV1(Title(n - 1), CrowdType(n - 1))]
  }

  /** The crowd, then one v2 create without a bit. */
  function HiddenRace(n: nat, title: string): seq<Event> {
    CrowdEvents(n) + [Arrive(1, New(title))] + [Advance(1, "y")] + [Advance(1, "y")] + [Advance(1, "y")]
  }

  lemma EventAdded(w: World, events: seq<Event>, e: Event, before: World, after: World)
    requires Run(w, events) == before && Next(before, e) == after
    ensures Run(w, events + [e]) == after
  {
    assert (events + [e])[..|events|] == events;
  }

  lemma CreateCrowdEvent(n: nat)
    requires n <= 63
    ensures Next(World({"d"}, Crowd(n), map[]), CreateV1(Title(n), CrowdType(n))) == World({"d"}, Crowd(n + 1), map[])
  {
    CrowdInserts(n, {"d"});
  }

  lemma CrowdWorldStart()
    ensures Run(NOWHERE, CrowdEvents(0)) == World({"d"}, map[], map[])
  {
    assert NOWHERE.domains + {"d"} == {"d"};
    EventAdded(NOWHERE, [], CreateDomain("d"), NOWHERE, World({"d"}, map[], map[]));
    assert [] + [CreateDomain("d")] == CrowdEvents(0);
  }

  lemma CrowdEventAdded(w: World, events: seq<Event>, n: nat)
    requires n <= 63 && Run(w, events) == World({"d"}, Crowd(n), map[])
    ensures Run(w, events + [CreateV1(Title(n), CrowdType(n))]) == World({"d"}, Crowd(n + 1), map[])
  {
    CreateCrowdEvent(n);
    EventAdded(w, events, CreateV1(Title(n), CrowdType(n)), World({"d"}, Crowd(n), map[]), World({"d"}, Crowd(n + 1), map[]));
  }

  lemma {:induction false} CrowdWorld(n: nat)
    requires n <= CROWD
    ensures Run(NOWHERE, CrowdEvents(n)) == World({"d"}, Crowd(n), map[])
  {
    if n == 0 {
      CrowdWorldStart();
    } else {
      CrowdWorld(n - 1);
      CrowdEventAdded(NOWHERE, CrowdEvents(n - 1), n - 1);
    }
  }

  lemma NotNew(n: nat, title: string)
    requires n <= CROWD && Unused(title)
    ensures "y" !in Crowd(n) && !TitleClash(Crowd(n), "d", title)
  {
    forall a | a in Crowd(n) ensures a != "y" && Crowd(n)[a].title != title {
      var i := CrowdOnly(n, a);
      assert Title(i)[0] == 't';
    }
  }

  lemma BitOneHeld(n: nat)
    requires n == CROWD
    ensures BitClash(Crowd(n), "d", 1)
  {
    LastUnloaded(n);
    assert Crowd(n)[Title(63)].domain == "d" && Crowd(n)[Title(63)].bit == 1;
  }

  lemma NewAllocates(rows: map<Id, AccessType>, title: string)
    requires "y" !in rows && Allocated(rows, "d") == Ok(1)
    ensures Next(World({"d"}, rows, map[1 := Client(New(title), Allocating, [])]), Advance(1, "y"))
         == World({"d"}, rows, map[1 := Client(New(title), Inserting(0, 1), [])])
  {
  }

  lemma NewInserts(rows: map<Id, AccessType>, title: string)
    requires "y" !in rows && BitClash(rows, "d", 1) && !TitleClash(rows, "d", title)
    ensures Next(World({"d"}, rows, map[1 := Client(New(title), Inserting(0, 1), [])]), Advance(1, "y"))
         == World({"d"}, rows, map[1 := Client(New(title), Reallocating(0, 1, Clash(true, false)), [1])])
  {
    GoodOne();
    InsertOutcome(World({"d"}, rows, map[1 := Client(New(title), Inserting(0, 1), [])]), New(title), 1, "y");
    assert [] + [1 as bv64] == [1];
  }

  lemma NewRetries(rows: map<Id, AccessType>, title: string)
    requires "y" !in rows && Allocated(rows, "d") == Ok(1)
    ensures Next(World({"d"}, rows, map[1 := Client(New(title), Reallocating(0, 1, Clash(true, false)), [1])]), Advance(1, "y"))
         == World({"d"}, rows, map[1 := Client(New(title), Done(Refused(Error.Conflict)), [1])])
  {
  }

  /** Four events of one request on a table that hides the holder of bit 1. */
  lemma NewRefused(w: World, events: seq<Event>, rows: map<Id, AccessType>, title: string)
    requires Run(w, events) == World({"d"}, rows, map[])
    requires "y" !in rows && Allocated(rows, "d") == Ok(1) && BitClash(rows, "d", 1) && !TitleClash(rows, "d", title)
    ensures Run(w, events + [Arrive(1, New(title))] + [Advance(1, "y")] + [Advance(1, "y")] + [Advance(1, "y")])
         == World({"d"}, rows, map[1 := Client(New(title), Done(Refused(Error.Conflict)), [1])])
  {
    var w0 := World({"d"}, rows, map[]);
    var w1 := w0.(clients := map[1 := Client(New(title), Allocating, [])]);
    var w2 := w0.(clients := map[1 := Client(New(title), Inserting(0, 1), [])]);
    var w3 := w0.(clients := map[1 := Client(New(title), Reallocating(0, 1, Clash(true, false)), [1])]);
    var w4 := w0.(clients := map[1 := Client(New(title), Done(Refused(Error.Conflict)), [1])]);
    var e1 := events + [Arrive(1, New(title))];
    EventAdded(w, events, Arrive(1, New(title)), w0, w1);
    NewAllocates(rows, title);
    EventAdded(w, e1, Advance(1, "y"), w1, w2);
    NewInserts(rows, title);
    EventAdded(w, e1 + [Advance(1, "y")], Advance(1, "y"), w2, w3);
    NewRetries(rows, title);
    EventAdded(w, e1 + [Advance(1, "y")] + [Advance(1, "y")], Advance(1, "y"), w3, w4);
  }

  lemma HiddenRaceRun(n: nat, title: string)
    requires n == CROWD && Unused(title)
    ensures Run(NOWHERE, HiddenRace(n, title)) == World({"d"}, Crowd(n), map[1 := Client(New(title), Done(Refused(Error.Conflict)), [1])])
  {
    CrowdWorld(n);
    NotNew(n, title);
    BitOneHeld(n);
    ZeroUnseen(n);
    LowestAllocated(Crowd(n));
    NewRefused(NOWHERE, CrowdEvents(n), Crowd(n), title);
  }

  /** The event neither frees a bit nor gives a type this title. */
  predicate LeavesTitle(e: Event, title: string) {
    !e.DeleteType? && !e.PatchType? && (e.CreateV1? ==> e.row.title != title)
  }

  lemma {:induction false} CrowdLeavesTitle(n: nat, title: string)
    requires n <= CROWD && Unused(title)
    ensures forall e | e in CrowdEvents(n) :: LeavesTitle(e, title)
  {
    if n > 0 { CrowdLeavesTitle(n - 1, title); }
  }

  lemma RaceLeavesTitle(n: nat, title: string)
    requires n <= CROWD && Unused(title)
    ensures forall e | e in HiddenRace(n, title) :: LeavesTitle(e, title)
  {
    CrowdLeavesTitle(n, title);
  }

  lemma CrowdHidesHolder(n: nat)
    requires n == CROWD
    ensures HiddenHolder(Crowd(n), "d", 1)
    ensures forall a, pos: nat | a in Crowd(n) && pos > 16 :: pos !in Positions(Crowd(n)[a].bit)
  {
    LastUnloaded(n);
    forall a, pos: nat | a in Crowd(n) && pos > 16 ensures pos !in Positions(Crowd(n)[a].bit) { UpperFree(n, a, pos); }
  }

  /** Whatever unused title the request has: no event frees a bit or takes the title, and the request is
      refused as if its title had collided. In truth the bit's holder is cut off, while positions 17 to 62
      are free. The table is as before, so the next such request fares the same. */
  lemma HiddenHolderMisleads(n: nat, title: string)
    requires n == CROWD && Unused(title)
    ensures forall e | e in HiddenRace(n, title) :: LeavesTitle(e, title)
    ensures var w := Run(NOWHERE, HiddenRace(n, title));
      && 1 in w.clients && w.clients[1] == Client(New(title), Done(Refused(Error.Conflict)), [1])
      && w.rows == Crowd(n) && HiddenHolder(w.rows, "d", 1) && !TitleClash(w.rows, "d", title)
      && forall a, pos: nat | a in w.rows && pos > 16 :: pos !in Positions(w.rows[a].bit)
  {
    RaceLeavesTitle(n, title);
    HiddenRaceRun(n, title);
    CrowdHidesHolder(n);
    NotNew(n, title);
  }
}
