/** One v2 create request as the server's retry loop runs it, and what a reallocation tells it. */
module CreateRequest {
  import opened Basics
  import opened Masks
  import opened AccessBits
  import opened Schema
  import opened TitleCodec
  import opened AccessTypeTable
  import opened CreateProtocol

  // ---- the retry loop refines the step machine ----

  /** A request's own view of a run: its store calls, one after the other. */
  ghost function ClientRun(client: Client, calls: seq<Call>): Client {
    if calls == [] then client
    else
      var n := |calls| - 1;
      ClientStep(calls[n].world, ClientRun(client, calls[..n]), calls[n].freshId)
  }

  /** In any interleaving a request ends up where its own store calls take it. */
  lemma {:induction false} RunIsClientRun(w: World, events: seq<Event>, c: nat)
    requires c in w.clients
    ensures c in Run(w, events).clients
    ensures Run(w, events).clients[c] == ClientRun(w.clients[c], Calls(w, events, c))
  {
    if events != [] {
      var n := |events| - 1;
      var before, e := Run(w, events[..n]), events[n];
      var earlier := Calls(w, events[..n], c);
      RunIsClientRun(w, events[..n], c);
      if e.Advance? && e.c == c && e.freshId !in before.rows {
        assert Calls(w, events, c)[..|earlier|] == earlier;
      } else {
        OthersLeaveClient(before, e, c);
        assert Calls(w, events, c) == earlier;
      }
    }
  }

  lemma NextCall(client: Client, calls: seq<Call>, n: nat)
    requires n < |calls|
    ensures ClientRun(client, calls[..n + 1]) == ClientStep(calls[n].world, ClientRun(client, calls[..n]), calls[n].freshId)
  {
    assert calls[..n + 1][..n] == calls[..n];
  }

  /** Validates an explicit bit. */
  method Validate(r: Request) returns (ok: bool)
    requires r.explicitBit.Some?
    ensures Start(r) == if ok then Inserting(0, r.explicitBit.value) else Done(BadRequest)
  {
    var bit := r.explicitBit.value;
    ok := !(bit > MAX_INT64 || !Single(bit));
  }

  /** After n of the calls, request r has come to this phase. */
  ghost predicate At(r: Request, calls: seq<Call>, n: nat, phase: Phase) {
    && n <= |calls|
    && ClientRun(Client(r, Start(r), []), calls[..n]).request == r
    && ClientRun(Client(r, Start(r), []), calls[..n]).phase == phase
  }

  lemma AtNext(r: Request, calls: seq<Call>, n: nat, client: Client)
    requires n < |calls| && client == ClientRun(Client(r, Start(r), []), calls[..n])
    requires At(r, calls, n, client.phase)
    ensures At(r, calls, n + 1, ClientStep(calls[n].world, client, calls[n].freshId).phase)
  {
    NextCall(Client(r, Start(r), []), calls, n);
  }

  /** The store call that inserts `bit`: the row went in, or the error it came back with. */
  method TryInsert(r: Request, calls: seq<Call>, n: nat, attempt: nat, bit: bv64) returns (error: Option<Error>)
    requires n < |calls| && At(r, calls, n, Inserting(attempt, bit))
    ensures match error
            case None => At(r, calls, n + 1, Done(Created(calls[n].freshId, bit)))
            case Some(e) =>
              if r.explicitBit.Some? || !e.Conflict? || attempt == MAX_RETRIES then At(r, calls, n + 1, Done(Refused(e)))
              else exists clash :: At(r, calls, n + 1, Reallocating(attempt, bit, clash))
  {
    AtNext(r, calls, n, ClientRun(Client(r, Start(r), []), calls[..n]));
    match InsertRow(calls[n].world, r, bit, calls[n].freshId)
    case Ok(_) => error := None;
    case Err(e) => error := Some(e);
  }

  /** The store call that loads the domain's types, and the allocation from them. */
  method Reload(call: Call, domain: Id) returns (chosen: Result<bv64>)
    requires UniqueAccessTypes(call.world.rows)
    ensures chosen == Allocated(call.world.rows, domain)
  {
    var types := LoadDomainAccessTypes(call.world.rows, domain);
    chosen := AllocateNextBit(types);
  }

  lemma FirstLoad(r: Request, calls: seq<Call>)
    requires r.explicitBit.None? && |calls| > 0
    ensures match Allocated(calls[0].world.rows, r.domain)
            case Err(_) => At(r, calls, 1, Done(AllBitsExhausted))
            case Ok(bit) => At(r, calls, 1, Inserting(0, bit))
  {
    AtNext(r, calls, 0, Client(r, Start(r), []));
  }

  lemma NextLoad(r: Request, calls: seq<Call>, n: nat, attempt: nat, prevBit: bv64, clash: Clash)
    requires n < |calls| && At(r, calls, n, Reallocating(attempt, prevBit, clash))
    ensures match Allocated(calls[n].world.rows, r.domain)
            case Err(_) => At(r, calls, n + 1, Done(AllBitsExhausted))
            case Ok(bit) => At(r, calls, n + 1, AfterReload(calls[n].world, r, attempt, prevBit))
  {
    AtNext(r, calls, n, ClientRun(Client(r, Start(r), []), calls[..n]));
  }

  /** The store call that re-reads the types, and what the loop does next. */
  method Reallocate(r: Request, calls: seq<Call>, n: nat, attempt: nat, prevBit: bv64) returns (next: Phase)
    requires n < |calls| && UniqueAccessTypes(calls[n].world.rows)
    requires exists clash :: At(r, calls, n, Reallocating(attempt, prevBit, clash))
    ensures At(r, calls, n + 1, next)
    ensures next.Done? || (next.Inserting? && next.attempt == attempt + 1)
  {
    ghost var clash :| At(r, calls, n, Reallocating(attempt, prevBit, clash));
    NextLoad(r, calls, n, attempt, prevBit, clash);
    var chosen := Reload(calls[n], r.domain);
    match chosen
    case Err(_) => next := Done(AllBitsExhausted);
    case Ok(bit) => next := if bit == prevBit then Done(Refused(Error.Conflict)) else Inserting(attempt + 1, bit);
  }

  /** The request up to its first insert. */
  method Begin(r: Request, calls: seq<Call>) returns (next: Phase, n: nat)
    requires |calls| > 0 && UniqueAccessTypes(calls[0].world.rows)
    ensures n <= 1 && At(r, calls, n, next)
    ensures next.Done? || (next.Inserting? && next.attempt == 0)
  {
    if r.explicitBit.Some? {
      var ok := Validate(r);
      n := 0;
      next := if ok then Inserting(0, r.explicitBit.value) else Done(BadRequest);
    } else {
      var chosen := Reload(calls[0], r.domain);
      FirstLoad(r, calls);
      n := 1;
      match chosen
      case Err(_) => next := Done(AllBitsExhausted);
      case Ok(bit) => next := Inserting(0, bit);
    }
  }

  /** accessTypeCreateV2. `calls[i]` is what the i-th store call meets; between two calls the other
      requests may have changed the tables in any way. */
  method AccessTypeCreate(r: Request, calls: seq<Call>) returns (response: Response, n: nat)
    requires |calls| >= 6 && forall i | 0 <= i < 6 :: UniqueAccessTypes(calls[i].world.rows)
    ensures n <= 6 && At(r, calls, n, Done(response))
    ensures ClientRun(Client(r, Start(r), []), calls).phase == Done(response)
  {
    var phase: Phase;
    phase, n := Begin(r, calls);
    var autoAlloc := r.explicitBit.None?;
    for attempt := 0 to MAX_RETRIES + 1
      invariant attempt <= MAX_RETRIES && n <= 2 * attempt + 1 && At(r, calls, n, phase)
      invariant phase.Done? || (phase.Inserting? && phase.attempt == attempt)
    {
      if phase.Done? { break; }
      var bit := phase.bit;
      var error := TryInsert(r, calls, n, attempt, bit);
      n := n + 1;
      if error.None? {
        AnswerIsFinal(r, calls, n, Created(calls[n - 1].freshId, bit));
        return Created(calls[n - 1].freshId, bit), n;
      }
      if !autoAlloc || !error.value.Conflict? || attempt == MAX_RETRIES {
        AnswerIsFinal(r, calls, n, Refused(error.value));
        return Refused(error.value), n;
      }
      phase := Reallocate(r, calls, n, attempt, bit);
      n := n + 1;
    }
    response := phase.response;
    AnswerIsFinal(r, calls, n, response);
  }

  lemma DoneStep(client: Client, calls: seq<Call>, n: nat)
    requires n < |calls| && ClientRun(client, calls[..n]).phase.Done?
    ensures ClientRun(client, calls[..n + 1]) == ClientRun(client, calls[..n])
  {
    NextCall(client, calls, n);
  }

  lemma {:induction false} DoneStays(client: Client, calls: seq<Call>, n: nat)
    requires n <= |calls| && ClientRun(client, calls[..n]).phase.Done?
    ensures ClientRun(client, calls) == ClientRun(client, calls[..n])
    decreases |calls| - n
  {
    if n < |calls| {
      DoneStep(client, calls, n);
      DoneStays(client, calls, n + 1);
    } else {
      assert calls[..n] == calls;
    }
  }

  /** Further calls do not change an answer. */
  lemma AnswerIsFinal(r: Request, calls: seq<Call>, n: nat, response: Response)
    requires At(r, calls, n, Done(response))
    ensures ClientRun(Client(r, Start(r), []), calls).phase == Done(response)
  {
    DoneStays(Client(r, Start(r), []), calls, n);
  }

  lemma {:induction false} CallsSound(w: World, events: seq<Event>, c: nat, i: nat)
    requires Sound(w) && i < |Calls(w, events, c)|
    ensures UniqueAccessTypes(Calls(w, events, c)[i].world.rows)
  {
    var n := |events| - 1;
    var earlier := Calls(w, events[..n], c);
    if i < |earlier| {
      CallsSound(w, events[..n], c, i);
    } else {
      RunSound(w, events[..n]);
    }
  }

  /** A request that has just arrived and gets its six calls in a run is answered there with what the
      retry loop returns on those calls. */
  method AnswerInRun(ghost w: World, ghost events: seq<Event>, ghost c: nat, r: Request, calls: seq<Call>)
    returns (response: Response)
    requires Sound(w) && c in w.clients && w.clients[c] == Client(r, Start(r), [])
    requires calls == Calls(w, events, c) && |calls| >= 6
    ensures c in Run(w, events).clients && Run(w, events).clients[c].phase == Done(response)
  {
    forall i | 0 <= i < 6 ensures UniqueAccessTypes(calls[i].world.rows) { CallsSound(w, events, c, i); }
    var n;
    response, n := AccessTypeCreate(r, calls);
    RunIsClientRun(w, events, c);
  }

  // ---- what getting the same bit again means ----

  /** The event deletes the type or patches it. */
  predicate Changes(e: Event, domain: Id, a: Id) {
    e == DeleteType(domain, a) || (e.PatchType? && e.domain == domain && e.id == a)
  }

  /** The event takes the bit away from the type: it deletes the type or patches it to another bit. */
  predicate Frees(e: Event, domain: Id, a: Id, bit: bv64) {
    e == DeleteType(domain, a)
    || (e.PatchType? && e.domain == domain && e.id == a && e.bit.Some? && e.bit.value != bit)
  }

  ghost predicate SomeChanges(events: seq<Event>, domain: Id, a: Id) {
    exists i | 0 <= i < |events| :: Changes(events[i], domain, a)
  }

  ghost predicate SomeFrees(events: seq<Event>, domain: Id, a: Id, bit: bv64) {
    exists i | 0 <= i < |events| :: Frees(events[i], domain, a, bit)
  }

  lemma RowKept(w: World, e: Event, a: Id)
    requires Sound(w) && a in w.rows && !Changes(e, w.rows[a].domain, a)
    ensures a in Next(w, e).rows && Next(w, e).rows[a] == w.rows[a]
  {
    if e.Advance? && e.c in w.clients && e.freshId !in w.rows && w.clients[e.c].phase.Inserting? {
      InsertOutcome(w, w.clients[e.c].request, w.clients[e.c].phase.bit, e.freshId);
    }
  }

  lemma BitKept(w: World, e: Event, a: Id)
    requires Sound(w) && a in w.rows && !Negative(w.rows[a].bit)
    requires !Frees(e, w.rows[a].domain, a, w.rows[a].bit)
    ensures a in Next(w, e).rows
    ensures Next(w, e).rows[a].domain == w.rows[a].domain && Next(w, e).rows[a].bit == w.rows[a].bit
  {
    if !Changes(e, w.rows[a].domain, a) {
      RowKept(w, e, a);
    } else if PatchAccessType(w.rows, e.domain, e.id, e.title, e.bit).Ok? {
      PatchStores(w.rows, e.domain, e.id, e.title, e.bit);
    }
  }

  /** A type keeps its bit unless it is deleted or patched to another one. */
  lemma {:induction false} BitSurvives(w: World, events: seq<Event>, a: Id)
    requires Sound(w) && a in w.rows && !Negative(w.rows[a].bit)
    ensures SomeFrees(events, w.rows[a].domain, a, w.rows[a].bit)
            || (a in Run(w, events).rows && Run(w, events).rows[a].domain == w.rows[a].domain
                && Run(w, events).rows[a].bit == w.rows[a].bit)
  {
    if events != [] {
      var n := |events| - 1;
      var d, bit := w.rows[a].domain, w.rows[a].bit;
      BitSurvives(w, events[..n], a);
      RunSound(w, events[..n]);
      if i :| 0 <= i < n && Frees(events[..n][i], d, a, bit) {
        assert Frees(events[i], d, a, bit);
      } else if !Frees(events[n], d, a, bit) {
        BitKept(Run(w, events[..n]), events[n], a);
      }
    }
  }

  /** The client was told Created, and its row has its title and the bit it was told. */
  ghost predicate Stored(rows: map<Id, AccessType>, r: Request, answer: Response)
    requires answer.Created?
  {
    answer.id in rows && rows[answer.id] == AccessType(r.domain, r.title, answer.bit)
  }

  lemma CreatedStores(w: World, client: Client, id: Id)
    requires GoodClient(client) && id !in w.rows && !client.phase.Done?
    requires ClientStep(w, client, id).phase.Done? && ClientStep(w, client, id).phase.response.Created?
    ensures Stored(RowsAfter(w, client, id), client.request, ClientStep(w, client, id).phase.response)
  {
    if client.phase.Inserting? { InsertOutcome(w, client.request, client.phase.bit, id); }
  }

  /** Who is Created after an event was before, or made its insert in this event. */
  lemma CreatedStep(w: World, e: Event, c: nat)
    requires Sound(w) && c in Next(w, e).clients
    requires Next(w, e).clients[c].phase.Done? && Next(w, e).clients[c].phase.response.Created?
    ensures (c in w.clients && Next(w, e).clients[c] == w.clients[c])
            || Stored(Next(w, e).rows, Next(w, e).clients[c].request, Next(w, e).clients[c].phase.response)
  {
    if e.Advance? && e.c == c && e.freshId !in w.rows {
      if !w.clients[c].phase.Done? { CreatedStores(w, w.clients[c], e.freshId); }
    }
  }

  /** A request answered with Created has its row in the table, with its title and the bit it was told,
      until somebody deletes or patches that row. */
  lemma {:induction false} CreatedStays(w: World, events: seq<Event>, c: nat)
    requires Sound(w) && w.clients == map[]
    requires c in Run(w, events).clients && Run(w, events).clients[c].phase.Done?
    requires Run(w, events).clients[c].phase.response.Created?
    ensures var w' := Run(w, events);
      var r, answer := w'.clients[c].request, w'.clients[c].phase.response;
      Stored(w'.rows, r, answer) || SomeChanges(events, r.domain, answer.id)
  {
    if events != [] {
      var n := |events| - 1;
      var before, e := Run(w, events[..n]), events[n];
      RunSound(w, events[..n]);
      CreatedStep(before, e, c);
      if c in before.clients && Run(w, events).clients[c] == before.clients[c] {
        CreatedStays(w, events[..n], c);
        var r, answer := before.clients[c].request, before.clients[c].phase.response;
        if i :| 0 <= i < n && Changes(events[..n][i], r.domain, answer.id) {
          assert Changes(events[i], r.domain, answer.id);
        } else if !Changes(e, r.domain, answer.id) {
          RowKept(before, e, answer.id);
        }
      }
    }
  }

  /** One of the types that had the bit was deleted, or patched to another bit, during the events. */
  ghost predicate BitFreed(w: World, events: seq<Event>, domain: Id, bit: bv64) {
    exists a | a in w.rows :: w.rows[a].domain == domain && w.rows[a].bit == bit && SomeFrees(events, domain, a, bit)
  }

  /** One of the types that had the bit still has it, but is cut off by the limit of 63. */
  ghost predicate HolderHidden(rows: map<Id, AccessType>, later: map<Id, AccessType>, domain: Id, bit: bv64) {
    exists a | a in DomainTypes(rows, domain) && a in DomainTypes(later, domain) ::
      rows[a].bit == bit && later[a].bit == bit && !Loaded(later, domain, a)
  }

  lemma HiddenOrFreed(w: World, events: seq<Event>, domain: Id, bit: bv64)
    requires Sound(w) && GoodBit(bit) && BitClash(w.rows, domain, bit)
    requires Allocated(Run(w, events).rows, domain) == Ok(bit)
    ensures HolderHidden(w.rows, Run(w, events).rows, domain, bit) || BitFreed(w, events, domain, bit)
  {
    var a :| a in w.rows && w.rows[a].domain == domain && w.rows[a].bit == bit;
    BitSurvives(w, events, a);
    RunSound(w, events);
    if !SomeFrees(events, domain, a, bit) {
      AllocatedUnloaded(Run(w, events).rows, domain, a);
      assert a in DomainTypes(w.rows, domain) && a in DomainTypes(Run(w, events).rows, domain);
    }
  }

  lemma HolderHiddenNeedsMany(rows: map<Id, AccessType>, later: map<Id, AccessType>, domain: Id, bit: bv64)
    requires UniqueAccessTypes(later) && HolderHidden(rows, later, domain, bit)
    ensures |DomainTypes(later, domain)| > MAX_ACCESS_TYPES
  {
    assert HiddenHolder(later, domain, bit);
    HiddenNeedsMany(later, domain, bit);
  }

  /** Request c inserts, is refused and will reallocate; the events run until it does, and it gets the
      same bit again. The bit was a cause exactly when it was freed meanwhile or its holder is cut off by
      the limit of 63. If neither, the title was the cause, as the code concludes; otherwise the title may
      have collided too or not. */
  lemma SameBitVerdict(w: World, c: nat, id: Id, events: seq<Event>)
    requires Sound(w) && c in w.clients && id !in w.rows && w.clients[c].phase.Inserting?
    requires Next(w, Advance(c, id)).clients[c].phase.Reallocating?
    requires Calls(Next(w, Advance(c, id)), events, c) == []
    requires Allocated(Run(Next(w, Advance(c, id)), events).rows, w.clients[c].request.domain) == Ok(w.clients[c].phase.bit)
    ensures var r, bit := w.clients[c].request, w.clients[c].phase.bit;
      var refused := Next(w, Advance(c, id));
      var later := Run(refused, events);
      var freed, hidden := BitFreed(refused, events, r.domain, bit), HolderHidden(w.rows, later.rows, r.domain, bit);
      && c in later.clients && later.clients[c].phase.Reallocating?
      && (later.clients[c].phase.clash.onBit <==> freed || hidden)
      && (later.clients[c].phase.clash.onTitle <==> TitleClash(w.rows, r.domain, r.title))
      && (freed || hidden || TitleClash(w.rows, r.domain, r.title))
      && (hidden ==> |DomainTypes(later.rows, r.domain)| > MAX_ACCESS_TYPES)
  {
    var r, bit := w.clients[c].request, w.clients[c].phase.bit;
    var refused := Next(w, Advance(c, id));
    var later := Run(refused, events);
    NextSound(w, Advance(c, id));
    RunIsClientRun(refused, events, c);
    RunSound(refused, events);
    InsertOutcome(w, r, bit, id);
    assert refused.rows == w.rows;
    if BitClash(w.rows, r.domain, bit) { HiddenOrFreed(refused, events, r.domain, bit); }
    if HolderHidden(w.rows, later.rows, r.domain, bit) {
      HolderHiddenNeedsMany(w.rows, later.rows, r.domain, bit);
    }
  }

  /** Over every run in which no bit is freed, whatever is stored: the same bit again means that the
      title collided, unless the bit's holder is cut off by the limit of 63. */
  lemma NothingFreedRun(w: World, events: seq<Event>, c: nat)
    requires Sound(w) && w.clients == map[] && FreeNoBit(events)
    requires c in Run(w, events).clients && Run(w, events).clients[c].phase.Reallocating?
    requires var client := Run(w, events).clients[c];
      Allocated(Run(w, events).rows, client.request.domain) == Ok(client.phase.prevBit)
    ensures var w' := Run(w, events);
      var client := w'.clients[c];
      && (client.phase.clash == Clash(false, true) || HiddenHolder(w'.rows, client.request.domain, client.phase.prevBit))
      && (|DomainTypes(w'.rows, client.request.domain)| <= MAX_ACCESS_TYPES ==> client.phase.clash == Clash(false, true))
  {
    RunHeld(w, events);
    RunSound(w, events);
    var w' := Run(w, events);
    SameBitMeansTitle(w', c);
    var client := w'.clients[c];
    if HiddenHolder(w'.rows, client.request.domain, client.phase.prevBit) {
      HiddenNeedsMany(w'.rows, client.request.domain, client.phase.prevBit);
    }
  }

  /** And while no domain outgrows a load, as it cannot when only single bits are stored, the bits one
      request tries strictly increase. */
  lemma RoomyRunClimbs(w: World, events: seq<Event>, c: nat)
    requires Sound(w) && w.clients == map[] && FreeNoBit(events)
    requires RoomyRun(w, events) || (SingleBits(w.rows) && SingleWrites(events))
    requires c in Run(w, events).clients && Run(w, events).clients[c].request.explicitBit.None?
    ensures Climbing(Run(w, events).clients[c].tried)
  {
    if !RoomyRun(w, events) { SingleWritesRoomy(w, events); }
    RunAscends(w, events);
    assert Ascends(Run(w, events).rows, Run(w, events).clients[c]);
  }

  // ---- and when the bit is freed in between ----

  const ONE_DOMAIN := World({"d"}, map[], map[])

  const CREATE_A := Request("d", "a", None)
  const CREATE_B := Request("d", "b", None)

  /** How the winner's bit is freed: its type is deleted, or patched to the next bit. */
  function Freeing(patched: bool): Event {
    if patched then PatchType("d", "x", None, Some(2)) else DeleteType("d", "x")
  }

  /** Two requests allocate the same bit; the first wins, its bit is freed, the second reallocates. */
  function Race(patched: bool): seq<Event> {
    [Arrive(1, CREATE_A), Arrive(2, CREATE_B),
     Advance(1, "x"), Advance(2, "y"), Advance(1, "x"), Advance(2, "y"),
     Freeing(patched), Advance(2, "y")]
  }

  /** The table after k events of the race. */
  function RaceRows(k: nat, patched: bool): map<Id, AccessType> {
    if k < 5 then map[]
    else if k < 7 then map["x" := AccessType("d", "a", 1)]
    else if patched then map["x" := AccessType("d", "a", 2)]
    else map[]
  }

  /** The table and the two requests' phases after k events of the race. */
  function Stage(k: nat, patched: bool): World {
    var a := Client(CREATE_A, if k < 3 then Allocating else if k < 5 then Inserting(0, 1) else Done(Created("x", 1)),
                    if k < 5 then [] else [1]);
    var b := Client(CREATE_B, if k < 4 then Allocating else if k < 6 then Inserting(0, 1)
                              else if k < 8 then Reallocating(0, 1, Clash(true, false)) else Done(Refused(Error.Conflict)),
                    if k < 6 then [] else [1]);
    World({"d"}, RaceRows(k, patched), if k == 0 then map[] else if k == 1 then map[1 := a] else map[1 := a, 2 := b])
  }

  /** With nothing at position 0 the allocator gives out bit 1. */
  lemma LowestAllocated(rows: map<Id, AccessType>)
    requires 0 !in Positions(Used(LoadDomain(rows, "d")))
    ensures Allocated(rows, "d") == Ok(1)
  {
    var seen := Positions(Used(LoadDomain(rows, "d")));
    assert FirstFree(seen, 0) == Ok(0) && Bit(0) == 1;
  }

  lemma SecondPosition()
    ensures Positions(FromSql(2)) == {1}
  {
    assert Bit(1) == 2;
    BitPositions(1);
  }

  lemma RaceAllocates(k: nat, patched: bool)
    requires k < 4 || 7 <= k
    ensures Allocated(RaceRows(k, patched), "d") == Ok(1)
  {
    var rows := RaceRows(k, patched);
    SecondPosition();
    LoadedPositionsWithin(rows, "d");
    assert forall a | a in DomainTypes(rows, "d") :: rows[a].bit == 2;
    LowestAllocated(rows);
  }

  lemma StageAllocates(k: nat, patched: bool)
    requires k < 4
    ensures Next(Stage(k, patched), Race(patched)[k]) == Stage(k + 1, patched)
  {
    RaceAllocates(k, patched);
  }

  lemma GoodOne()
    ensures GoodBit(1)
  {
  }

  lemma FirstWins(patched: bool)
    ensures Next(Stage(4, patched), Race(patched)[4]) == Stage(5, patched)
  {
    GoodOne();
    InsertOutcome(Stage(4, patched), CREATE_A, 1, "x");
    assert [] + [1 as bv64] == [1];
  }

  lemma SecondLoses(patched: bool)
    ensures Next(Stage(5, patched), Race(patched)[5]) == Stage(6, patched)
  {
    GoodOne();
    InsertOutcome(Stage(5, patched), CREATE_B, 1, "y");
    assert [] + [1 as bv64] == [1];
    var row := Stage(5, patched).rows["x"];
    assert row.domain == "d" && row.bit == 1 && row.title == "a";
    assert BitClash(Stage(5, patched).rows, "d", 1) && !TitleClash(Stage(5, patched).rows, "d", "b");
  }

  lemma BitIsFreed(patched: bool)
    ensures Next(Stage(6, patched), Race(patched)[6]) == Stage(7, patched)
  {
    var rows := RaceRows(6, patched);
    assert rows - {"x"} == map[];
    assert rows["x" := AccessType("d", "a", 2)] == map["x" := AccessType("d", "a", 2)];
  }

  lemma SecondRetries(patched: bool)
    ensures Next(Stage(7, patched), Race(patched)[7]) == Stage(8, patched)
  {
    RaceAllocates(7, patched);
  }

  lemma {:induction false} RaceStages(k: nat, patched: bool)
    requires k <= 8
    ensures Run(ONE_DOMAIN, Race(patched)[..k]) == Stage(k, patched)
  {
    if k > 0 {
      RaceStages(k - 1, patched);
      assert Race(patched)[..k][..k - 1] == Race(patched)[..k - 1];
      if k <= 4 { StageAllocates(k - 1, patched); }
      else if k == 5 { FirstWins(patched); }
      else if k == 6 { SecondLoses(patched); }
      else if k == 7 { BitIsFreed(patched); }
      else { SecondRetries(patched); }
    }
  }

  /** In both races the second request is refused with a conflict although no type ever had its title
      and the bit it asked for is free again. */
  lemma FreedBitMisleads(patched: bool)
    ensures var w := Run(ONE_DOMAIN, Race(patched));
      && !BitClash(w.rows, "d", 1)
      && 2 in w.clients && w.clients[2] == Client(CREATE_B, Done(Refused(Error.Conflict)), [1])
    ensures forall k | 0 <= k <= 8 :: !TitleClash(Run(ONE_DOMAIN, Race(patched)[..k]).rows, "d", "b")
  {
    forall k | 0 <= k <= 8 ensures Run(ONE_DOMAIN, Race(patched)[..k]) == Stage(k, patched) { RaceStages(k, patched); }
    assert Race(patched)[..8] == Race(patched);
  }
}
