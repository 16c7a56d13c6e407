/** Concurrent access-type creation: any number of v2 create requests, interleaved at their store calls.

    Each store call is one atomic step, since the pool has one connection. Between the steps of one
    request any other request may run: v2 and v1 creates, patches and deletions of types. */
module CreateProtocol {
  import opened Basics
  import opened Masks
  import opened AccessBits
  import opened Schema
  import opened TitleCodec
  import opened AccessTypeTable

  const MAX_RETRIES := 2

  /** A parsed request body. `explicitBit` is None when the server is to allocate. */
  datatype Request = Request(domain: Id, title: string, explicitBit: Option<bv64>)

  datatype Response =
    | Created(id: Id, bit: bv64)
    | BadRequest
    | AllBitsExhausted
    | Refused(error: Error)

  /** Which unique index refused an insert. The code sees only that one did. */
  datatype Clash = Clash(onBit: bool, onTitle: bool)

  /** Where a request is in accessTypeCreateV2. */
  datatype Phase =
    | Allocating
    | Inserting(attempt: nat, bit: bv64)
    | Reallocating(attempt: nat, prevBit: bv64, clash: Clash)
    | Done(response: Response)

  /** A request with the bits it has tried to insert, in order. */
  datatype Client = Client(request: Request, phase: Phase, tried: seq<bv64>)

  datatype World = World(domains: set<Id>, rows: map<Id, AccessType>, clients: map<nat, Client>)

  datatype Event =
    | Arrive(c: nat, request: Request)
    | Advance(c: nat, freshId: Id)
    | CreateV1(id: Id, row: AccessType)
    | PatchType(domain: Id, id: Id, title: Option<string>, bit: Option<bv64>)
    | DeleteType(domain: Id, id: Id)
    | CreateDomain(domain: Id)
    | DropDomain(domain: Id)

  // ---- the steps of one request ----

  /** Validation of the body: an explicit bit must fit 63 bits and be a power of two. */
  function Start(r: Request): Phase {
    if r.explicitBit.None? then Allocating
    else if r.explicitBit.value > MAX_INT64 || !Single(r.explicitBit.value) then Done(BadRequest)
    else Inserting(0, r.explicitBit.value)
  }

  ghost function Allocated(rows: map<Id, AccessType>, domain: Id): Result<bv64> {
    Allocation(Positions(Used(LoadDomain(rows, domain))))
  }

  ghost predicate BitClash(rows: map<Id, AccessType>, domain: Id, bit: bv64) {
    exists a | a in rows :: rows[a].domain == domain && rows[a].bit == bit
  }

  ghost predicate TitleClash(rows: map<Id, AccessType>, domain: Id, title: string) {
    exists a | a in rows :: rows[a].domain == domain && rows[a].title == title
  }

  /** AccessTypeCreate of the store. */
  function CreateType(w: World, id: Id, row: AccessType): Result<map<Id, AccessType>> {
    var stored :- ToSql(row.bit);
    InsertAccessType(w.rows, w.domains, id, row.(bit := stored))
  }

  function InsertRow(w: World, r: Request, bit: bv64, id: Id): Result<map<Id, AccessType>> {
    CreateType(w, id, AccessType(r.domain, r.title, bit))
  }

  /** The phase after an insert of `bit` came back. */
  ghost function AfterInsert(w: World, r: Request, attempt: nat, bit: bv64, id: Id): Phase {
    match InsertRow(w, r, bit, id)
    case Ok(_) => Done(Created(id, bit))
    case Err(e) =>
      if r.explicitBit.Some? || !e.Conflict? || attempt == MAX_RETRIES then Done(Refused(e))
      else Reallocating(attempt, bit, Clash(BitClash(w.rows, r.domain, bit), TitleClash(w.rows, r.domain, r.title)))
  }

  /** The phase after re-reading the domain's types. */
  ghost function AfterReload(w: World, r: Request, attempt: nat, prevBit: bv64): Phase {
    match Allocated(w.rows, r.domain)
    case Err(_) => Done(AllBitsExhausted)
    case Ok(bit) => if bit == prevBit then Done(Refused(Error.Conflict)) else Inserting(attempt + 1, bit)
  }

  ghost function AfterLoad(w: World, r: Request): Phase {
    match Allocated(w.rows, r.domain)
    case Err(_) => Done(AllBitsExhausted)
    case Ok(bit) => Inserting(0, bit)
  }

  /** One store call of a request. */
  ghost function ClientStep(w: World, client: Client, id: Id): Client {
    match client.phase
    case Allocating => client.(phase := AfterLoad(w, client.request))
    case Inserting(attempt, bit) =>
      client.(phase := AfterInsert(w, client.request, attempt, bit, id), tried := client.tried + [bit])
    case Reallocating(attempt, prevBit, _) => client.(phase := AfterReload(w, client.request, attempt, prevBit))
    case Done(_) => client
  }

  function RowsAfter(w: World, client: Client, id: Id): map<Id, AccessType> {
    if client.phase.Inserting? && InsertRow(w, client.request, client.phase.bit, id).Ok?
    then InsertRow(w, client.request, client.phase.bit, id).value
    else w.rows
  }

  /** One event. Events that cannot happen change nothing: a client arrives once, a row's id is a
      fresh UUID, a domain is dropped only when it has no types. */
  ghost function Next(w: World, e: Event): World {
    match e
    case Arrive(c, r) =>
      if c in w.clients then w else w.(clients := w.clients[c := Client(r, Start(r), [])])
    case Advance(c, id) =>
      if c !in w.clients || id in w.rows then w
      else w.(rows := RowsAfter(w, w.clients[c], id), clients := w.clients[c := ClientStep(w, w.clients[c], id)])
    case CreateV1(id, row) => if CreateType(w, id, row).Ok? then w.(rows := CreateType(w, id, row).value) else w
    case PatchType(d, id, title, bit) =>
      if PatchAccessType(w.rows, d, id, title, bit).Ok?
      then w.(rows := PatchAccessType(w.rows, d, id, title, bit).value) else w
    case DeleteType(d, id) =>
      if DeleteAccessType(w.rows, d, id).Ok? then w.(rows := DeleteAccessType(w.rows, d, id).value) else w
    case CreateDomain(d) => w.(domains := w.domains + {d})
    case DropDomain(d) => if DomainTypes(w.rows, d) == {} then w.(domains := w.domains - {d}) else w
  }

  ghost function Run(w: World, events: seq<Event>): World {
    if events == [] then w else Next(Run(w, events[..|events| - 1]), events[|events| - 1])
  }

  // ---- what every interleaving keeps ----

  predicate GoodBit(bit: bv64) {
    Single(bit) && !Negative(bit)
  }

  /** A request makes one insert per attempt, at most three, and each with a single bit. */
  ghost predicate GoodClient(client: Client) {
    && (forall b | b in client.tried :: GoodBit(b))
    && match client.phase
       case Allocating => client.request.explicitBit.None? && client.tried == []
       case Inserting(attempt, bit) =>
         && attempt <= MAX_RETRIES && |client.tried| == attempt && GoodBit(bit)
         && (client.request.explicitBit.Some? ==> attempt == 0)
       case Reallocating(attempt, prevBit, clash) =>
         && attempt < MAX_RETRIES && |client.tried| == attempt + 1 && client.request.explicitBit.None?
         && client.tried[attempt] == prevBit && (clash.onBit || clash.onTitle)
       case Done(_) => |client.tried| <= MAX_RETRIES + 1
  }

  /** What holds whatever bits the other endpoints store. */
  ghost predicate Sound(w: World) {
    && UniqueAccessTypes(w.rows) && AccessTypeKeys(w.rows, w.domains)
    && forall c | c in w.clients :: GoodClient(w.clients[c])
  }

  /** Moreover every stored bit is single. */
  ghost predicate Safe(w: World) {
    Sound(w) && SingleBits(w.rows)
  }

  lemma StartGood(r: Request)
    ensures GoodClient(Client(r, Start(r), []))
  {
    if r.explicitBit.Some? && r.explicitBit.value <= MAX_INT64 {
      WithinMax(r.explicitBit.value);
    }
  }

  lemma WithinMax(m: bv64)
    requires m <= MAX_INT64
    ensures !Negative(m)
  {
  }

  lemma GoodBitStores(bit: bv64)
    requires GoodBit(bit)
    ensures ToSql(bit) == Ok(bit)
  {
    FitsWithin(bit);
    WithinFits(bit);
  }

  /** Whatever bits are stored, the allocator gives out single ones. */
  lemma AllocatedSingle(rows: map<Id, AccessType>, domain: Id)
    ensures match Allocated(rows, domain)
            case Ok(bit) => GoodBit(bit)
            case Err(e) => e == BitsExhausted
  {
    AllocationLowest(Positions(Used(LoadDomain(rows, domain))));
  }

  /** With at most 63 types, of any bits, it gives out the lowest position that is not taken. */
  lemma AllocatedGood(rows: map<Id, AccessType>, domain: Id)
    requires UniqueAccessTypes(rows) && |DomainTypes(rows, domain)| <= MAX_ACCESS_TYPES
    ensures match Allocated(rows, domain)
            case Ok(bit) => GoodBit(bit) && PosOf(bit) !in Taken(rows, domain)
                            && forall q: nat | q < PosOf(bit) :: q in Taken(rows, domain)
            case Err(e) => e == BitsExhausted
  {
    AllocationRoomy(rows, domain);
  }

  /** A refused insert with a fresh id hit one of the two unique indexes, or the domain is gone. */
  lemma InsertOutcome(w: World, r: Request, bit: bv64, id: Id)
    requires GoodBit(bit) && id !in w.rows
    ensures match InsertRow(w, r, bit, id)
            case Ok(rows) => rows == w.rows[id := AccessType(r.domain, r.title, bit)] && r.domain in w.domains
                             && !BitClash(w.rows, r.domain, bit) && !TitleClash(w.rows, r.domain, r.title)
            case Err(Conflict) => BitClash(w.rows, r.domain, bit) || TitleClash(w.rows, r.domain, r.title)
            case Err(e) => e == FKViolation && r.domain !in w.domains
  {
    GoodBitStores(bit);
  }

  lemma StepGood(w: World, client: Client, id: Id)
    requires GoodClient(client) && id !in w.rows
    ensures GoodClient(ClientStep(w, client, id))
  {
    AllocatedSingle(w.rows, client.request.domain);
    if client.phase.Inserting? {
      InsertOutcome(w, client.request, client.phase.bit, id);
    }
  }

  lemma CreateKeepsKeys(w: World, id: Id, row: AccessType)
    requires UniqueAccessTypes(w.rows) && AccessTypeKeys(w.rows, w.domains) && CreateType(w, id, row).Ok?
    ensures UniqueAccessTypes(CreateType(w, id, row).value) && AccessTypeKeys(CreateType(w, id, row).value, w.domains)
  {
  }

  lemma PatchKeepsKeys(w: World, d: Id, id: Id, title: Option<string>, bit: Option<bv64>)
    requires AccessTypeKeys(w.rows, w.domains) && PatchAccessType(w.rows, d, id, title, bit).Ok?
    ensures AccessTypeKeys(PatchAccessType(w.rows, d, id, title, bit).value, w.domains)
  {
  }

  /** One event keeps the keys and the requests in order, whatever it stores. */
  lemma NextSound(w: World, e: Event)
    requires Sound(w)
    ensures Sound(Next(w, e))
  {
    match e
    case Arrive(c, r) => StartGood(r);
    case Advance(c, id) =>
      if c in w.clients && id !in w.rows {
        var client := w.clients[c];
        StepGood(w, client, id);
        if client.phase.Inserting? && InsertRow(w, client.request, client.phase.bit, id).Ok? {
          CreateKeepsKeys(w, id, AccessType(client.request.domain, client.request.title, client.phase.bit));
        }
      }
    case CreateV1(id, row) => if CreateType(w, id, row).Ok? { CreateKeepsKeys(w, id, row); }
    case PatchType(d, id, title, bit) =>
      if PatchAccessType(w.rows, d, id, title, bit).Ok? { PatchKeepsKeys(w, d, id, title, bit); }
    case DeleteType(_, _) =>
    case CreateDomain(_) =>
    case DropDomain(d) =>
      forall a | a in w.rows && w.rows[a].domain == d ensures a in DomainTypes(w.rows, d) {}
  }

  /** The event asks for no bit, or for a single one. The v1 create and the patch do not check. */
  predicate SingleWrite(e: Event) {
    match e
    case CreateV1(_, row) => GoodBit(row.bit)
    case PatchType(_, _, _, bit) => bit.Some? ==> GoodBit(bit.value)
    case _ => true
  }

  predicate SingleWrites(events: seq<Event>) {
    forall i | 0 <= i < |events| :: SingleWrite(events[i])
  }

  lemma CreateStores(w: World, id: Id, row: AccessType)
    requires SingleBits(w.rows) && CreateType(w, id, row).Ok?
    ensures CreateType(w, id, row).value == w.rows[id := row] && id !in w.rows
    ensures SingleBits(CreateType(w, id, row).value) <==> GoodBit(row.bit)
  {
    SqlRoundTrip(row.bit);
    assert w.rows[id := row][id] == row;
  }

  lemma PatchStores(rows: map<Id, AccessType>, d: Id, id: Id, title: Option<string>, bit: Option<bv64>)
    requires PatchAccessType(rows, d, id, title, bit).Ok?
    ensures var asked := if bit.Some? then bit.value else FromSql(rows[id].bit);
      && id in rows && rows[id].domain == d && !Negative(asked)
      && PatchAccessType(rows, d, id, title, bit).value
         == rows[id := AccessType(d, if title.Some? then title.value else rows[id].title, asked)]
  {
    SqlRoundTrip(if bit.Some? then bit.value else FromSql(rows[id].bit));
  }

  lemma PatchStoresSingle(rows: map<Id, AccessType>, d: Id, id: Id, title: Option<string>, bit: Option<bv64>)
    requires SingleBits(rows) && PatchAccessType(rows, d, id, title, bit).Ok?
    ensures SingleBits(PatchAccessType(rows, d, id, title, bit).value) <==> (bit.Some? ==> GoodBit(bit.value))
  {
    PatchStores(rows, d, id, title, bit);
    var rows' := PatchAccessType(rows, d, id, title, bit).value;
    assert rows'[id].bit == if bit.Some? then bit.value else rows[id].bit;
  }

  /** All stored bits stay single exactly when the event is not an accepted v1 create or patch with
      another kind of bit. */
  lemma NextSafeExactly(w: World, e: Event)
    requires Safe(w)
    ensures Safe(Next(w, e)) <==> SingleWrite(e) || Next(w, e).rows == w.rows
  {
    NextSound(w, e);
    match e
    case Arrive(_, _) =>
    case Advance(c, id) =>
      if c in w.clients && id !in w.rows {
        var client := w.clients[c];
        if client.phase.Inserting? && InsertRow(w, client.request, client.phase.bit, id).Ok? {
          CreateStores(w, id, AccessType(client.request.domain, client.request.title, client.phase.bit));
        }
      }
    case CreateV1(id, row) => if CreateType(w, id, row).Ok? { CreateStores(w, id, row); }
    case PatchType(d, id, title, bit) =>
      if PatchAccessType(w.rows, d, id, title, bit).Ok? { PatchStoresSingle(w.rows, d, id, title, bit); }
    case DeleteType(_, _) =>
    case CreateDomain(_) =>
    case DropDomain(_) =>
  }

  /** For every interleaving, whatever the other endpoints store: the keys hold and no request has made
      more than three inserts, each with a single bit. */
  lemma {:induction false} RunSound(w: World, events: seq<Event>)
    requires Sound(w)
    ensures Sound(Run(w, events))
  {
    if events != [] {
      RunSound(w, events[..|events| - 1]);
      NextSound(Run(w, events[..|events| - 1]), events[|events| - 1]);
    }
  }

  /** For every interleaving in which the v1 create and the patch are given single bits: all stored bits
      of a domain are single, lie in 2^0 .. 2^62 and are pairwise disjoint. */
  lemma {:induction false} RunSafe(w: World, events: seq<Event>)
    requires Safe(w) && SingleWrites(events)
    ensures Safe(Run(w, events))
  {
    if events != [] {
      RunSafe(w, events[..|events| - 1]);
      NextSafeExactly(Run(w, events[..|events| - 1]), events[|events| - 1]);
    }
  }

  lemma StoredBitsDisjoint(rows: map<Id, AccessType>, a: Id, b: Id)
    requires SingleBits(rows) && UniqueAccessTypes(rows)
    requires a in rows && b in rows && a != b && rows[a].domain == rows[b].domain
    ensures rows[a].bit & rows[b].bit == 0
  {
    if rows[a].bit & rows[b].bit != 0 {
      SingleSharedBit(rows[a].bit, rows[b].bit);
    }
  }

  // ---- every request is answered once ----

  /** Store calls a request may still make. */
  function CallsLeft(p: Phase): nat {
    match p
    case Allocating => 6
    case Inserting(attempt, _) => if attempt <= MAX_RETRIES then 2 * (MAX_RETRIES - attempt) + 1 else 0
    case Reallocating(attempt, _, _) => if attempt < MAX_RETRIES then 2 * (MAX_RETRIES - attempt) else 0
    case Done(_) => 0
  }

  lemma StepCounts(w: World, client: Client, id: Id)
    requires GoodClient(client) && !client.phase.Done?
    ensures CallsLeft(ClientStep(w, client, id).phase) < CallsLeft(client.phase)
  {
  }

  /** One store call: the state it meets and the id it would insert under. */
  datatype Call = Call(world: World, freshId: Id)

  /** The store calls client c makes. An event with an id already in use is none. */
  ghost function Calls(w: World, events: seq<Event>, c: nat): seq<Call> {
    if events == [] then []
    else
      var n := |events| - 1;
      var before := Run(w, events[..n]);
      Calls(w, events[..n], c)
      + if events[n].Advance? && events[n].c == c && events[n].freshId !in before.rows
        then [Call(before, events[n].freshId)] else []
  }

  lemma OthersLeaveClient(w: World, e: Event, c: nat)
    requires c in w.clients && !(e.Advance? && e.c == c && e.freshId !in w.rows)
    ensures c in Next(w, e).clients && Next(w, e).clients[c] == w.clients[c]
  {
  }

  /** Each own step uses up a call, nothing else touches the request, and six calls always reach
      the response. */
  lemma {:induction false} RunProgress(w: World, events: seq<Event>, c: nat)
    requires Sound(w) && c in w.clients
    ensures c in Run(w, events).clients
    ensures var phase := Run(w, events).clients[c].phase;
      phase.Done? || CallsLeft(phase) + |Calls(w, events, c)| <= CallsLeft(w.clients[c].phase)
    ensures w.clients[c].phase.Done? ==> Run(w, events).clients[c] == w.clients[c]
  {
    if events != [] {
      var n := |events| - 1;
      var before, e := Run(w, events[..n]), events[n];
      RunProgress(w, events[..n], c);
      RunSound(w, events[..n]);
      if e.Advance? && e.c == c && e.freshId !in before.rows {
        if !before.clients[c].phase.Done? { StepCounts(before, before.clients[c], e.freshId); }
      } else {
        OthersLeaveClient(before, e, c);
      }
    }
  }

  /** After six steps of its own a request is answered, with at most three inserts behind it,
      whatever the other requests did in between. */
  lemma AnsweredAfterSixCalls(w: World, events: seq<Event>, c: nat)
    requires Sound(w) && c in w.clients && |Calls(w, events, c)| >= 6
    ensures c in Run(w, events).clients && Run(w, events).clients[c].phase.Done?
    ensures |Run(w, events).clients[c].tried| <= 3
  {
    RunProgress(w, events, c);
    RunSound(w, events);
    CallsBound(w.clients[c].phase);
    ZeroCallsDone(Run(w, events).clients[c]);
  }

  lemma CallsBound(p: Phase)
    ensures CallsLeft(p) <= 6
  {
  }

  lemma ZeroCallsDone(client: Client)
    requires GoodClient(client)
    ensures CallsLeft(client.phase) == 0 <==> client.phase.Done?
  {
  }

  // ---- interleavings that free no bit ----

  ghost predicate LowerTaken(rows: map<Id, AccessType>, domain: Id, bit: bv64) {
    forall q: nat | q < PosOf(bit) :: q in Taken(rows, domain)
  }

  ghost predicate Climbing(tried: seq<bv64>) {
    forall i, j | 0 <= i < j < |tried| :: PosOf(tried[i]) < PosOf(tried[j])
  }

  /** What an allocating request knows while no bit is freed: everything below its bit is taken, and
      it has tried lower bits only. */
  ghost predicate Ascends(rows: map<Id, AccessType>, client: Client) {
    client.request.explicitBit.None? ==>
      && Climbing(client.tried)
      && match client.phase
         case Allocating => true
         case Inserting(_, bit) =>
           && LowerTaken(rows, client.request.domain, bit)
           && forall b | b in client.tried :: PosOf(b) < PosOf(bit)
         case Reallocating(_, prevBit, _) =>
           && LowerTaken(rows, client.request.domain, prevBit)
           && forall b | b in client.tried :: PosOf(b) <= PosOf(prevBit)
         case Done(_) => true
  }

  ghost predicate AllAscend(w: World) {
    forall c | c in w.clients :: Ascends(w.rows, w.clients[c])
  }

  /** Every type is still there with its bit, as it reads. */
  ghost predicate BitsKept(rows: map<Id, AccessType>, rows': map<Id, AccessType>) {
    forall a | a in rows ::
      a in rows' && rows'[a].domain == rows[a].domain && FromSql(rows'[a].bit) == FromSql(rows[a].bit)
  }

  lemma TakenGrows(rows: map<Id, AccessType>, rows': map<Id, AccessType>, domain: Id)
    requires BitsKept(rows, rows')
    ensures Taken(rows, domain) <= Taken(rows', domain)
  {
    forall pos | pos in Taken(rows, domain) ensures pos in Taken(rows', domain) {
      var a :| a in DomainTypes(rows, domain) && pos in Positions(FromSql(rows[a].bit));
      assert a in DomainTypes(rows', domain);
    }
  }

  lemma AscendsKept(rows: map<Id, AccessType>, rows': map<Id, AccessType>, client: Client)
    requires Ascends(rows, client) && BitsKept(rows, rows')
    ensures Ascends(rows', client)
  {
    TakenGrows(rows, rows', client.request.domain);
  }

  lemma ClimbsOn(tried: seq<bv64>, bit: bv64)
    requires Climbing(tried) && forall b | b in tried :: PosOf(b) < PosOf(bit)
    ensures Climbing(tried + [bit])
    ensures forall b | b in tried + [bit] :: PosOf(b) <= PosOf(bit)
  {
    forall i, j | 0 <= i < j < |tried + [bit]| ensures PosOf((tried + [bit])[i]) < PosOf((tried + [bit])[j]) {
      if j == |tried| { assert tried[i] in tried; }
    }
  }

  lemma InsertAscends(w: World, client: Client, id: Id)
    requires Ascends(w.rows, client) && client.phase.Inserting?
    ensures Ascends(w.rows, ClientStep(w, client, id))
  {
    if client.request.explicitBit.None? { ClimbsOn(client.tried, client.phase.bit); }
  }

  /** A reallocation never goes back. */
  lemma ReloadClimbs(rows: map<Id, AccessType>, domain: Id, prevBit: bv64, bit: bv64)
    requires UniqueAccessTypes(rows) && |DomainTypes(rows, domain)| <= MAX_ACCESS_TYPES && GoodBit(prevBit)
    requires LowerTaken(rows, domain, prevBit) && Allocated(rows, domain) == Ok(bit)
    ensures PosOf(prevBit) <= PosOf(bit) && (PosOf(bit) == PosOf(prevBit) <==> bit == prevBit)
  {
    AllocatedGood(rows, domain);
    PosOfSingle(bit);
    PosOfSingle(prevBit);
  }

  lemma ReloadAscends(w: World, client: Client, id: Id)
    requires UniqueAccessTypes(w.rows) && |DomainTypes(w.rows, client.request.domain)| <= MAX_ACCESS_TYPES
    requires GoodClient(client) && Ascends(w.rows, client) && client.phase.Reallocating?
    ensures Ascends(w.rows, ClientStep(w, client, id))
  {
    var d := client.request.domain;
    AllocatedGood(w.rows, d);
    if Allocated(w.rows, d).Ok? {
      assert client.tried[client.phase.attempt] in client.tried;
      ReloadClimbs(w.rows, d, client.phase.prevBit, Allocated(w.rows, d).value);
    }
  }

  lemma StepAscends(w: World, client: Client, id: Id)
    requires UniqueAccessTypes(w.rows) && |DomainTypes(w.rows, client.request.domain)| <= MAX_ACCESS_TYPES
    requires GoodClient(client) && Ascends(w.rows, client)
    ensures Ascends(w.rows, ClientStep(w, client, id))
  {
    match client.phase
    case Allocating => AllocatedGood(w.rows, client.request.domain);
    case Inserting(_, _) => InsertAscends(w, client, id);
    case Reallocating(_, _, _) => ReloadAscends(w, client, id);
    case Done(_) =>
  }

  /** No type is deleted or patched to a bit: creates, and patches of titles. */
  predicate FreesNoBit(e: Event) {
    !e.DeleteType? && (e.PatchType? ==> e.bit.None?)
  }

  /** A type keeps its domain and its bit; a negative bit may be written back as the 0 it reads as. */
  lemma TypeKept(w: World, e: Event, a: Id)
    requires Sound(w) && FreesNoBit(e) && a in w.rows
    ensures a in Next(w, e).rows && Next(w, e).rows[a].domain == w.rows[a].domain
    ensures FromSql(Next(w, e).rows[a].bit) == FromSql(w.rows[a].bit)
    ensures !Negative(w.rows[a].bit) ==> Next(w, e).rows[a].bit == w.rows[a].bit
  {
    match e
    case Advance(c, id) =>
      if c in w.clients && id !in w.rows && w.clients[c].phase.Inserting? {
        InsertOutcome(w, w.clients[c].request, w.clients[c].phase.bit, id);
      }
    case PatchType(d, id, title, bit) =>
      if PatchAccessType(w.rows, d, id, title, bit).Ok? { PatchStores(w.rows, d, id, title, bit); }
    case _ =>
  }

  lemma NextKeepsBits(w: World, e: Event)
    requires Sound(w) && FreesNoBit(e)
    ensures BitsKept(w.rows, Next(w, e).rows)
  {
    forall a | a in w.rows { TypeKept(w, e, a); }
  }

  /** No domain has more types than a load returns. */
  ghost predicate Roomy(w: World) {
    forall d :: |DomainTypes(w.rows, d)| <= MAX_ACCESS_TYPES
  }

  ghost predicate RoomyRun(w: World, events: seq<Event>) {
    forall i | 0 <= i < |events| :: Roomy(Run(w, events[..i]))
  }

  /** Single bits alone make a run roomy. */
  lemma SingleWritesRoomy(w: World, events: seq<Event>)
    requires Safe(w) && SingleWrites(events)
    ensures RoomyRun(w, events)
  {
    forall i | 0 <= i < |events| ensures Roomy(Run(w, events[..i])) {
      RunSafe(w, events[..i]);
      forall d ensures |DomainTypes(Run(w, events[..i]).rows, d)| <= MAX_ACCESS_TYPES {
        AtMost63(Run(w, events[..i]).rows, d);
      }
    }
  }

  lemma NextAscends(w: World, e: Event)
    requires Sound(w) && Roomy(w) && AllAscend(w) && FreesNoBit(e)
    ensures AllAscend(Next(w, e))
  {
    var w' := Next(w, e);
    NextKeepsBits(w, e);
    forall c | c in w'.clients ensures Ascends(w'.rows, w'.clients[c]) {
      if e.Advance? && e.c == c && c in w.clients && e.freshId !in w.rows {
        assert |DomainTypes(w.rows, w.clients[c].request.domain)| <= MAX_ACCESS_TYPES;
        StepAscends(w, w.clients[c], e.freshId);
        AscendsKept(w.rows, w'.rows, w'.clients[c]);
      } else if c in w.clients {
        OthersLeaveClient(w, e, c);
        AscendsKept(w.rows, w'.rows, w.clients[c]);
      }
    }
  }

  predicate FreeNoBit(events: seq<Event>) {
    forall i | 0 <= i < |events| :: FreesNoBit(events[i])
  }

  /** While no bit is freed and no domain outgrows a load, the bits one allocating request tries
      strictly increase, whatever bits the other endpoints store. */
  lemma {:induction false} RunAscends(w: World, events: seq<Event>)
    requires Sound(w) && AllAscend(w) && FreeNoBit(events) && RoomyRun(w, events)
    ensures AllAscend(Run(w, events))
  {
    if events != [] {
      var n := |events| - 1;
      forall i | 0 <= i < n ensures Roomy(Run(w, events[..n][..i])) { assert events[..n][..i] == events[..i]; }
      RunAscends(w, events[..n]);
      RunSound(w, events[..n]);
      NextAscends(Run(w, events[..n]), events[n]);
    }
  }

  // ---- who holds a bit that was refused ----

  /** A bit that was refused for itself is still held. */
  ghost predicate HeldOn(rows: map<Id, AccessType>, client: Client) {
    client.phase.Reallocating? && client.phase.clash.onBit ==> BitClash(rows, client.request.domain, client.phase.prevBit)
  }

  ghost predicate AllHeld(w: World) {
    forall c | c in w.clients :: HeldOn(w.rows, w.clients[c])
  }

  lemma HeldOnKept(rows: map<Id, AccessType>, rows': map<Id, AccessType>, domain: Id, bit: bv64)
    requires GoodBit(bit) && BitClash(rows, domain, bit)
    requires forall a | a in rows && rows[a].bit == bit :: a in rows' && rows'[a].domain == rows[a].domain && rows'[a].bit == bit
    ensures BitClash(rows', domain, bit)
  {
    var a :| a in rows && rows[a].domain == domain && rows[a].bit == bit;
    assert rows'[a].bit == bit;
  }

  lemma NextHeld(w: World, e: Event)
    requires Sound(w) && AllHeld(w) && FreesNoBit(e)
    ensures AllHeld(Next(w, e))
  {
    var w' := Next(w, e);
    forall c | c in w'.clients ensures HeldOn(w'.rows, w'.clients[c]) {
      var client := w'.clients[c];
      if c in w.clients && client.phase.Reallocating? && client.phase.clash.onBit {
        var bit := client.phase.prevBit;
        GoodPrevBit(w, e, c);
        forall a | a in w.rows && w.rows[a].bit == bit
          ensures a in w'.rows && w'.rows[a].domain == w.rows[a].domain && w'.rows[a].bit == bit
        {
          TypeKept(w, e, a);
        }
        HeldOnKept(w.rows, w'.rows, client.request.domain, bit);
      }
    }
  }

  lemma StepClash(w: World, client: Client, id: Id)
    requires GoodClient(client) && id !in w.rows && client != ClientStep(w, client, id)
    requires ClientStep(w, client, id).phase.Reallocating? && ClientStep(w, client, id).phase.clash.onBit
    ensures var after := ClientStep(w, client, id);
      GoodBit(after.phase.prevBit) && BitClash(w.rows, after.request.domain, after.phase.prevBit)
  {
  }

  lemma OldClash(rows: map<Id, AccessType>, client: Client)
    requires GoodClient(client) && HeldOn(rows, client) && client.phase.Reallocating? && client.phase.clash.onBit
    ensures GoodBit(client.phase.prevBit) && BitClash(rows, client.request.domain, client.phase.prevBit)
  {
    assert client.tried[client.phase.attempt] in client.tried;
  }

  /** Who reallocates after an event because of its bit met a holder of it before the event. */
  lemma GoodPrevBit(w: World, e: Event, c: nat)
    requires Sound(w) && AllHeld(w) && c in w.clients
    requires c in Next(w, e).clients && Next(w, e).clients[c].phase.Reallocating? && Next(w, e).clients[c].phase.clash.onBit
    ensures var client := Next(w, e).clients[c];
      GoodBit(client.phase.prevBit) && BitClash(w.rows, client.request.domain, client.phase.prevBit)
  {
    if Next(w, e).clients[c] == w.clients[c] {
      OldClash(w.rows, w.clients[c]);
    } else {
      StepClash(w, w.clients[c], e.freshId);
    }
  }

  lemma {:induction false} RunHeld(w: World, events: seq<Event>)
    requires Sound(w) && AllHeld(w) && FreeNoBit(events)
    ensures AllHeld(Run(w, events))
  {
    if events != [] {
      var n := |events| - 1;
      RunHeld(w, events[..n]);
      RunSound(w, events[..n]);
      NextHeld(Run(w, events[..n]), events[n]);
    }
  }

  /** Some type of the domain holds the bit but is cut off by the limit of 63. */
  ghost predicate HiddenHolder(rows: map<Id, AccessType>, domain: Id, bit: bv64) {
    exists a | a in DomainTypes(rows, domain) :: rows[a].bit == bit && !Loaded(rows, domain, a)
  }

  lemma HiddenNeedsMany(rows: map<Id, AccessType>, domain: Id, bit: bv64)
    requires UniqueAccessTypes(rows) && HiddenHolder(rows, domain, bit)
    ensures |DomainTypes(rows, domain)| > MAX_ACCESS_TYPES
  {
    LoadComplete(rows, domain);
  }

  /** The allocator gives out a bit that is held only because its holder is not loaded. */
  lemma AllocatedUnloaded(rows: map<Id, AccessType>, domain: Id, a: Id)
    requires UniqueAccessTypes(rows) && a in DomainTypes(rows, domain) && GoodBit(rows[a].bit)
    requires Allocated(rows, domain) == Ok(rows[a].bit)
    ensures !Loaded(rows, domain, a)
  {
    var bit := rows[a].bit;
    LoadedPositionsWithin(rows, domain);
    AllocationLowest(Positions(Used(LoadDomain(rows, domain))));
    PosOfSingle(bit);
    assert PosOf(bit) in Positions(FromSql(bit));
  }

  /** In a state reached without freeing a bit: the same bit again means that the title collided, unless
      the bit's holder is cut off by the limit of 63. */
  lemma SameBitMeansTitle(w: World, c: nat)
    requires Sound(w) && AllHeld(w) && c in w.clients && w.clients[c].phase.Reallocating?
    requires Allocated(w.rows, w.clients[c].request.domain) == Ok(w.clients[c].phase.prevBit)
    ensures var client := w.clients[c];
      client.phase.clash == Clash(false, true) || HiddenHolder(w.rows, client.request.domain, client.phase.prevBit)
  {
    var client := w.clients[c];
    assert client.tried[client.phase.attempt] in client.tried;
    if client.phase.clash.onBit {
      assert HeldOn(w.rows, client);
      var a :| a in w.rows && w.rows[a].domain == client.request.domain && w.rows[a].bit == client.phase.prevBit;
      AllocatedUnloaded(w.rows, client.request.domain, a);
    }
  }
}
