/** What each answer of a v2 create request says about the tables its store calls met. */
module CreateAnswers {
  import opened Basics
  import opened Masks
  import opened AccessBits
  import opened Schema
  import opened TitleCodec
  import opened TitleTexts
  import opened AccessTypeTable
  import opened CreateProtocol
  import opened CreateRequest
  import Transactions

  /** The request after these store calls. */
  ghost function After(r: Request, calls: seq<Call>): Client {
    ClientRun(Client(r, Start(r), []), calls)
  }

  /** The first n calls come with ids that are not in use. */
  ghost predicate Fresh(calls: seq<Call>, n: nat) {
    n <= |calls| && forall i | 0 <= i < n :: calls[i].freshId !in calls[i].world.rows
  }

  /** The row would break a unique key of its domain. */
  ghost predicate Clashes(call: Call, r: Request, bit: bv64) {
    BitClash(call.world.rows, r.domain, bit) || TitleClash(call.world.rows, r.domain, r.title)
  }

  ghost predicate DomainThere(call: Call, r: Request) {
    r.domain in call.world.domains
  }

  // ---- requests with an explicit bit ----

  lemma ExplicitStart(r: Request)
    ensures Start(r) == Done(BadRequest) <==>
            r.explicitBit.Some? && !exists pos: nat :: pos <= 62 && r.explicitBit.value == Bit(pos)
    ensures r.explicitBit.Some? && Start(r) != Done(BadRequest) ==> Start(r) == Inserting(0, r.explicitBit.value)
  {
    if r.explicitBit.Some? {
      MaxIsNegative(r.explicitBit.value);
      SingleHasPosition(r.explicitBit.value);
    }
  }

  lemma MaxIsNegative(m: bv64)
    ensures m > MAX_INT64 <==> Negative(m)
  {
  }

  lemma {:induction false} NeverBadLater(client: Client, calls: seq<Call>)
    requires client.phase != Done(BadRequest)
    ensures ClientRun(client, calls).phase != Done(BadRequest)
  {
    if calls != [] { NeverBadLater(client, calls[..|calls| - 1]); }
  }

  /** BadRequest is the answer exactly to an explicit bit other than Bit(0) .. Bit(62), whatever the tables. */
  lemma BadRequestExactly(r: Request, calls: seq<Call>)
    ensures After(r, calls).phase == Done(BadRequest) <==>
            r.explicitBit.Some? && !exists pos: nat :: pos <= 62 && r.explicitBit.value == Bit(pos)
  {
    ExplicitStart(r);
    if Start(r) == Done(BadRequest) {
      DoneStays(Client(r, Start(r), []), calls, 0);
    } else {
      NeverBadLater(Client(r, Start(r), []), calls);
    }
  }

  /** Any of the 63 bits is let in: the first store call decides between Created, Conflict and a missing domain. */
  lemma ExplicitAnswer(r: Request, calls: seq<Call>, pos: nat)
    requires pos <= 62 && r.explicitBit == Some(Bit(pos)) && |calls| > 0 && Fresh(calls, 1)
    ensures After(r, calls).phase == Done(
              if Clashes(calls[0], r, Bit(pos)) then Refused(Error.Conflict)
              else if DomainThere(calls[0], r) then Created(calls[0].freshId, Bit(pos))
              else Refused(FKViolation))
  {
    ExplicitStart(r);
    var client := Client(r, Start(r), []);
    NextCall(client, calls, 0);
    BitIsGood(pos);
    InsertAnswer(calls[0], r, Bit(pos));
    DoneStays(client, calls, 1);
  }

  lemma BitIsGood(pos: nat)
    requires pos <= 62
    ensures GoodBit(Bit(pos))
  {
    BitSingle(pos);
  }

  lemma InsertAnswer(call: Call, r: Request, bit: bv64)
    requires GoodBit(bit) && call.freshId !in call.world.rows
    ensures var inserted := InsertRow(call.world, r, bit, call.freshId);
      if Clashes(call, r, bit) then inserted == Err(Error.Conflict)
      else if DomainThere(call, r) then inserted.Ok?
      else inserted == Err(FKViolation)
  {
    GoodBitStores(bit);
  }

  // ---- what a load shows ----

  /** A loaded type of the domain has the bit of this position. */
  ghost predicate Seen(call: Call, domain: Id, pos: nat) {
    HasType(LoadDomain(call.world.rows, domain), Bit(pos))
  }

  /** The bit is the lowest one no loaded type has. */
  ghost predicate Lowest(call: Call, domain: Id, bit: bv64) {
    exists pos: nat | pos <= 62 ::
      bit == Bit(pos) && !Seen(call, domain, pos) && forall q: nat | q < pos :: Seen(call, domain, q)
  }

  ghost predicate AllSeen(call: Call, domain: Id) {
    forall pos: nat | pos <= 62 :: Seen(call, domain, pos)
  }

  /** The allocator gives out the lowest bit it does not see, or none when it sees all 63. */
  lemma AllocatedMeans(call: Call, domain: Id)
    ensures match Allocated(call.world.rows, domain)
            case Ok(bit) => Lowest(call, domain, bit) && !AllSeen(call, domain)
            case Err(_) => AllSeen(call, domain)
  {
    var types := LoadDomain(call.world.rows, domain);
    forall pos: nat | pos <= 62 ensures Seen(call, domain, pos) <==> pos in Positions(Used(types)) { HasTypeUsed(types, pos); }
    AllocationLowest(Positions(Used(types)));
    if Allocated(call.world.rows, domain).Ok? { PosOfSingle(Allocated(call.world.rows, domain).value); }
  }

  lemma LowestUnique(call: Call, domain: Id, b: bv64, c: bv64)
    requires Lowest(call, domain, b) && Lowest(call, domain, c)
    ensures b == c && GoodBit(b)
  {
    var i: nat :| i <= 62 && b == Bit(i) && !Seen(call, domain, i) && forall q: nat | q < i :: Seen(call, domain, q);
    var j: nat :| j <= 62 && c == Bit(j) && !Seen(call, domain, j) && forall q: nat | q < j :: Seen(call, domain, q);
    assert !(i < j) && !(j < i);
    BitIsGood(i);
  }

  lemma LowestAllocated(call: Call, domain: Id, bit: bv64)
    requires Lowest(call, domain, bit)
    ensures Allocated(call.world.rows, domain) == Ok(bit) && GoodBit(bit)
  {
    AllocatedMeans(call, domain);
    LowestUnique(call, domain, bit, bit);
    if Allocated(call.world.rows, domain).Ok? { LowestUnique(call, domain, bit, Allocated(call.world.rows, domain).value); }
  }

  lemma AllSeenAllocated(call: Call, domain: Id)
    ensures AllSeen(call, domain) <==> Allocated(call.world.rows, domain).Err?
  {
    AllocatedMeans(call, domain);
  }

  lemma FreeBit(call: Call, domain: Id) returns (bit: bv64)
    requires !AllSeen(call, domain)
    ensures Lowest(call, domain, bit)
  {
    AllocatedMeans(call, domain);
    bit := Allocated(call.world.rows, domain).value;
  }

  // ---- requests that leave the bit to the server ----

  /** The bits a request has inserted so far: the k-th was the lowest one its k-th load did not see, all but the
      last were refused by a unique key, and no reload gave the refused bit again. */
  ghost predicate Attempts(r: Request, calls: seq<Call>, bits: seq<bv64>)
    decreases |bits|
  {
    && 2 * |bits| <= |calls|
    && (bits != [] ==>
          var n := |bits| - 1;
          && Attempts(r, calls, bits[..n])
          && (n > 0 ==> Clashes(calls[2 * n - 1], r, bits[n - 1]) && bits[n] != bits[n - 1])
          && Lowest(calls[2 * n], r.domain, bits[n]))
  }

  /** All the inserts were refused by a unique key. */
  ghost predicate AllRefused(r: Request, calls: seq<Call>, bits: seq<bv64>) {
    |bits| <= 3 && Attempts(r, calls, bits) && (bits != [] ==> Clashes(calls[2 * |bits| - 1], r, bits[|bits| - 1]))
  }

  /** What the answer says about the tables the calls met. */
  ghost predicate Means(r: Request, calls: seq<Call>, bits: seq<bv64>, answer: Response)
    requires |calls| >= 6
  {
    var n := |bits|;
    && n <= 3 && Attempts(r, calls, bits)
    && match answer
       case Created(id, bit) =>
         n > 0 && bit == bits[n - 1] && id == calls[2 * n - 1].freshId
         && !Clashes(calls[2 * n - 1], r, bit) && DomainThere(calls[2 * n - 1], r)
       case Refused(FKViolation) =>
         n > 0 && !Clashes(calls[2 * n - 1], r, bits[n - 1]) && !DomainThere(calls[2 * n - 1], r)
       case Refused(Conflict) =>
         n > 0 && AllRefused(r, calls, bits) && (n == 3 || Lowest(calls[2 * n], r.domain, bits[n - 1]))
       case AllBitsExhausted => n < 3 && AllRefused(r, calls, bits) && AllSeen(calls[2 * n], r.domain)
       case _ => false
  }

  /** The request, which begins by loading the types, after these calls. */
  ghost function AutoAfter(r: Request, calls: seq<Call>): Client {
    ClientRun(Client(r, Allocating, []), calls)
  }

  /** Where a request is after its inserts. */
  ghost function AfterLast(r: Request, calls: seq<Call>, bits: seq<bv64>): Phase
    requires bits != [] && 2 * |bits| <= |calls|
  {
    AfterInsert(calls[2 * |bits| - 1].world, r, |bits| - 1, bits[|bits| - 1], calls[2 * |bits| - 1].freshId)
  }

  /** The request may go on with a bit: it has none yet, or the reload gave another one. */
  predicate MayInsert(phase: Phase, n: nat, bit: bv64) {
    (phase.Allocating? && n == 0) || (phase.Reallocating? && phase.attempt + 1 == n && phase.prevBit != bit)
  }

  lemma LoadAnswer(call: Call, client: Client, n: nat, bit: bv64)
    requires Lowest(call, client.request.domain, bit) && MayInsert(client.phase, n, bit)
    ensures ClientStep(call.world, client, call.freshId) == client.(phase := Inserting(n, bit))
  {
    LowestAllocated(call, client.request.domain, bit);
  }

  lemma LoadStep(r: Request, calls: seq<Call>, m: nat, n: nat, client: Client, bit: bv64)
    requires m < |calls| && AutoAfter(r, calls[..m]) == client && client.request == r
    requires Lowest(calls[m], r.domain, bit) && MayInsert(client.phase, n, bit)
    ensures AutoAfter(r, calls[..m + 1]) == Client(r, Inserting(n, bit), client.tried)
  {
    NextCall(Client(r, Allocating, []), calls, m);
    LoadAnswer(calls[m], client, n, bit);
  }

  lemma InsertStep(r: Request, calls: seq<Call>, m: nat, n: nat, tried: seq<bv64>, bit: bv64)
    requires m < |calls| && AutoAfter(r, calls[..m]) == Client(r, Inserting(n, bit), tried)
    ensures AutoAfter(r, calls[..m + 1]) == Client(r, AfterInsert(calls[m].world, r, n, bit, calls[m].freshId), tried + [bit])
  {
    NextCall(Client(r, Allocating, []), calls, m);
  }

  /** One load and the insert after it. */
  lemma RoundStep(r: Request, calls: seq<Call>, m: nat, n: nat, client: Client, bit: bv64)
    requires m + 1 < |calls| && AutoAfter(r, calls[..m]) == client && client.request == r
    requires Lowest(calls[m], r.domain, bit) && MayInsert(client.phase, n, bit)
    ensures AutoAfter(r, calls[..m + 2])
            == Client(r, AfterInsert(calls[m + 1].world, r, n, bit, calls[m + 1].freshId), client.tried + [bit])
  {
    LoadStep(r, calls, m, n, client, bit);
    InsertStep(r, calls, m + 1, n, client.tried, bit);
  }

  lemma LastInsert(r: Request, calls: seq<Call>, bits: seq<bv64>)
    requires r.explicitBit.None? && |bits| <= 3 && Fresh(calls, 2 * |bits|) && Attempts(r, calls, bits) && bits != []
    ensures var n := |bits|;
      var last := calls[2 * n - 1];
      AfterLast(r, calls, bits) ==
      if !Clashes(last, r, bits[n - 1])
      then Done(if DomainThere(last, r) then Created(last.freshId, bits[n - 1]) else Refused(FKViolation))
      else if n == 3 then Done(Refused(Error.Conflict))
      else Reallocating(n - 1, bits[n - 1],
                        Clash(BitClash(last.world.rows, r.domain, bits[n - 1]), TitleClash(last.world.rows, r.domain, r.title)))
  {
    LowestAllocated(calls[2 * |bits| - 2], r.domain, bits[|bits| - 1]);
    InsertAnswer(calls[2 * |bits| - 1], r, bits[|bits| - 1]);
  }

  /** The phase a request is in once it has inserted these bits. */
  ghost function PhaseAfter(r: Request, calls: seq<Call>, bits: seq<bv64>): Phase
    requires 2 * |bits| <= |calls|
  {
    if bits == [] then Allocating else AfterLast(r, calls, bits)
  }

  /** The request does make these inserts, in this order: after two refusals and two new bits, a third one too. */
  lemma {:induction false} StillTries(r: Request, calls: seq<Call>, bits: seq<bv64>, m: nat)
    requires r.explicitBit.None? && |bits| <= 3 && m == 2 * |bits| && Fresh(calls, m) && Attempts(r, calls, bits)
    ensures AutoAfter(r, calls[..m]) == Client(r, PhaseAfter(r, calls, bits), bits)
    decreases |bits|
  {
    if bits == [] {
      assert calls[..m] == [];
    } else {
      var earlier := bits[..|bits| - 1];
      StillTries(r, calls, earlier, m - 2);
      GoesOn(r, calls, bits, earlier, m);
      NextTry(r, calls, m - 2, bits, Client(r, PhaseAfter(r, calls, earlier), earlier));
    }
  }

  lemma NextTry(r: Request, calls: seq<Call>, m: nat, bits: seq<bv64>, client: Client)
    requires bits != [] && m + 2 == 2 * |bits| <= |calls|
    requires AutoAfter(r, calls[..m]) == client && client.request == r && client.tried == bits[..|bits| - 1]
    requires Lowest(calls[m], r.domain, bits[|bits| - 1]) && MayInsert(client.phase, |bits| - 1, bits[|bits| - 1])
    ensures AutoAfter(r, calls[..m + 2]) == Client(r, AfterLast(r, calls, bits), bits)
  {
    RoundStep(r, calls, m, |bits| - 1, client, bits[|bits| - 1]);
    assert bits == bits[..|bits| - 1] + [bits[|bits| - 1]];
  }

  lemma GoesOn(r: Request, calls: seq<Call>, bits: seq<bv64>, earlier: seq<bv64>, m: nat)
    requires r.explicitBit.None? && bits != [] && |bits| <= 3 && m == 2 * |bits| && Fresh(calls, m) && Attempts(r, calls, bits)
    requires earlier == bits[..|bits| - 1]
    ensures MayInsert(PhaseAfter(r, calls, earlier), |bits| - 1, bits[|bits| - 1])
  {
    if |bits| > 1 { LastInsert(r, calls, earlier); }
  }

  /** A reload that shows all bits, or the refused bit once more, ends the request. */
  lemma StopStep(r: Request, calls: seq<Call>, m: nat, client: Client, answer: Response)
    requires m < |calls| && AutoAfter(r, calls[..m]) == client && client.request == r
    requires client.phase.Allocating? || client.phase.Reallocating?
    requires match Allocated(calls[m].world.rows, r.domain)
             case Err(_) => answer == AllBitsExhausted
             case Ok(bit) => client.phase.Reallocating? && bit == client.phase.prevBit && answer == Refused(Error.Conflict)
    ensures AutoAfter(r, calls).phase == Done(answer)
  {
    NextCall(Client(r, Allocating, []), calls, m);
    DoneStays(Client(r, Allocating, []), calls, m + 1);
  }

  lemma RefusedPhase(r: Request, calls: seq<Call>, bits: seq<bv64>)
    requires r.explicitBit.None? && Fresh(calls, 2 * |bits|) && AllRefused(r, calls, bits) && |bits| < 3
    ensures var client := AutoAfter(r, calls[..2 * |bits|]);
      client.request == r && if bits == [] then client.phase.Allocating?
                             else client.phase.Reallocating? && client.phase.prevBit == bits[|bits| - 1]
  {
    StillTries(r, calls, bits, 2 * |bits|);
    if bits != [] { LastInsert(r, calls, bits); }
  }

  lemma ReloadExhausted(r: Request, calls: seq<Call>, bits: seq<bv64>)
    requires r.explicitBit.None? && Fresh(calls, 6) && AllRefused(r, calls, bits) && |bits| < 3
    requires AllSeen(calls[2 * |bits|], r.domain)
    ensures AutoAfter(r, calls).phase == Done(AllBitsExhausted)
  {
    RefusedPhase(r, calls, bits);
    AllSeenAllocated(calls[2 * |bits|], r.domain);
    StopStep(r, calls, 2 * |bits|, AutoAfter(r, calls[..2 * |bits|]), AllBitsExhausted);
  }

  lemma ReloadSame(r: Request, calls: seq<Call>, bits: seq<bv64>)
    requires r.explicitBit.None? && Fresh(calls, 6) && AllRefused(r, calls, bits) && 0 < |bits| < 3
    requires Lowest(calls[2 * |bits|], r.domain, bits[|bits| - 1])
    ensures AutoAfter(r, calls).phase == Done(Refused(Error.Conflict))
  {
    RefusedPhase(r, calls, bits);
    LowestAllocated(calls[2 * |bits|], r.domain, bits[|bits| - 1]);
    StopStep(r, calls, 2 * |bits|, AutoAfter(r, calls[..2 * |bits|]), Refused(Error.Conflict));
  }

  lemma LastStep(r: Request, calls: seq<Call>, bits: seq<bv64>, answer: Response)
    requires r.explicitBit.None? && |bits| <= 3 && Fresh(calls, 6) && Attempts(r, calls, bits) && bits != []
    requires AfterLast(r, calls, bits) == Done(answer)
    ensures AutoAfter(r, calls).phase == Done(answer)
  {
    StillTries(r, calls, bits, 2 * |bits|);
    DoneStays(Client(r, Allocating, []), calls, 2 * |bits|);
  }

  /** Tables like that give this answer. */
  lemma MeaningAnswers(r: Request, calls: seq<Call>, bits: seq<bv64>, answer: Response)
    requires r.explicitBit.None? && Fresh(calls, 6) && Means(r, calls, bits, answer)
    ensures AutoAfter(r, calls).phase == Done(answer)
  {
    if answer.AllBitsExhausted? {
      ReloadExhausted(r, calls, bits);
    } else if answer == Refused(Error.Conflict) && |bits| < 3 {
      ReloadSame(r, calls, bits);
    } else {
      LastInsert(r, calls, bits);
      LastStep(r, calls, bits, answer);
    }
  }

  lemma ExhaustedMeans(r: Request, calls: seq<Call>, bits: seq<bv64>)
    requires |calls| >= 6 && AllRefused(r, calls, bits) && |bits| < 3 && AllSeen(calls[2 * |bits|], r.domain)
    ensures Means(r, calls, bits, AllBitsExhausted)
  {
  }

  lemma SameBitMeans(r: Request, calls: seq<Call>, bits: seq<bv64>)
    requires |calls| >= 6 && AllRefused(r, calls, bits) && 0 < |bits| < 3
    requires Lowest(calls[2 * |bits|], r.domain, bits[|bits| - 1])
    ensures Means(r, calls, bits, Refused(Error.Conflict))
  {
  }

  /** The next load and insert either decide the answer or add another refusal. */
  lemma OneRound(r: Request, calls: seq<Call>, bits: seq<bv64>) returns (decided: bool, answer: Response, all: seq<bv64>)
    requires Fresh(calls, 6) && AllRefused(r, calls, bits) && |bits| < 3
    ensures decided ==> Means(r, calls, all, answer)
    ensures !decided ==> AllRefused(r, calls, all) && |all| == |bits| + 1 < 3
  {
    var n := |bits|;
    if AllSeen(calls[2 * n], r.domain) {
      ExhaustedMeans(r, calls, bits);
      return true, AllBitsExhausted, bits;
    }
    var bit := FreeBit(calls[2 * n], r.domain);
    if n > 0 && bit == bits[n - 1] {
      SameBitMeans(r, calls, bits);
      return true, Refused(Error.Conflict), bits;
    }
    decided, answer := InsertRound(r, calls, bits, bit);
    all := bits + [bit];
  }

  lemma InsertRound(r: Request, calls: seq<Call>, bits: seq<bv64>, bit: bv64) returns (decided: bool, answer: Response)
    requires |calls| >= 6 && AllRefused(r, calls, bits) && |bits| < 3
    requires Lowest(calls[2 * |bits|], r.domain, bit) && (bits != [] ==> bit != bits[|bits| - 1])
    ensures decided ==> Means(r, calls, bits + [bit], answer)
    ensures !decided ==> AllRefused(r, calls, bits + [bit]) && |bits| < 2
  {
    MoreAttempts(r, calls, bits, bit);
    decided := |bits| == 2 || !Clashes(calls[2 * |bits| + 1], r, bit);
    answer := AllBitsExhausted;
    if decided { answer := InsertMeaning(r, calls, bits + [bit]); }
  }

  /** Some answer fits any tables. */
  lemma SomeMeaning(r: Request, calls: seq<Call>, bits: seq<bv64>) returns (answer: Response, all: seq<bv64>)
    requires Fresh(calls, 6) && AllRefused(r, calls, bits) && |bits| < 3
    ensures Means(r, calls, all, answer)
    decreases 3 - |bits|
  {
    var decided;
    decided, answer, all := OneRound(r, calls, bits);
    if !decided { answer, all := SomeMeaning(r, calls, all); }
  }

  /** The insert decides, if it goes through, fails on the domain, or is the third. */
  lemma InsertMeaning(r: Request, calls: seq<Call>, bits: seq<bv64>) returns (answer: Response)
    requires |calls| >= 6 && 0 < |bits| <= 3 && Attempts(r, calls, bits)
    requires |bits| == 3 || !Clashes(calls[2 * |bits| - 1], r, bits[|bits| - 1])
    ensures Means(r, calls, bits, answer)
  {
    var n := |bits|;
    var insert := calls[2 * n - 1];
    if Clashes(insert, r, bits[n - 1]) {
      answer := Refused(Error.Conflict);
    } else {
      answer := if DomainThere(insert, r) then Created(insert.freshId, bits[n - 1]) else Refused(FKViolation);
    }
  }

  lemma MoreAttempts(r: Request, calls: seq<Call>, bits: seq<bv64>, bit: bv64)
    requires |calls| >= 6 && AllRefused(r, calls, bits) && |bits| < 3
    requires Lowest(calls[2 * |bits|], r.domain, bit) && (bits != [] ==> bit != bits[|bits| - 1])
    ensures Attempts(r, calls, bits + [bit])
    ensures Clashes(calls[2 * |bits| + 1], r, bit) ==> AllRefused(r, calls, bits + [bit])
  {
    assert (bits + [bit])[..|bits|] == bits;
  }

  /** Six calls give a request without a bit this answer exactly when the tables they met are as it means. */
  lemma AnswerMeans(r: Request, calls: seq<Call>, answer: Response)
    requires r.explicitBit.None? && Fresh(calls, 6)
    ensures After(r, calls).phase == Done(answer) <==> exists bits :: Means(r, calls, bits, answer)
  {
    var given, bits := SomeMeaning(r, calls, []);
    MeaningAnswers(r, calls, bits, given);
    if other :| Means(r, calls, other, answer) { MeaningAnswers(r, calls, other, answer); }
  }

  // ---- in a run ----

  lemma {:induction false} CallsFresh(w: World, events: seq<Event>, c: nat)
    ensures Fresh(Calls(w, events, c), |Calls(w, events, c)|)
  {
    if events != [] { CallsFresh(w, events[..|events| - 1], c); }
  }

  /** So it is in every interleaving, from the arrival of the request on. */
  lemma AnswerInRunMeans(w: World, events: seq<Event>, c: nat, r: Request, calls: seq<Call>, answer: Response)
    requires c !in w.clients && r.explicitBit.None?
    requires calls == Calls(Next(w, Arrive(c, r)), events, c) && |calls| >= 6
    ensures c in Run(Next(w, Arrive(c, r)), events).clients
    ensures Run(Next(w, Arrive(c, r)), events).clients[c].phase == Done(answer) <==> exists bits :: Means(r, calls, bits, answer)
  {
    var arrived := Next(w, Arrive(c, r));
    RunIsClientRun(arrived, events, c);
    CallsFresh(arrived, events, c);
    AnswerMeans(r, calls, answer);
  }

  // ---- the types of the protocol are those of the store ----

  /** The store transaction behind an event that writes a type; None for an event that writes none. */
  function Transaction(w: World, e: Event): Option<Transactions.Op> {
    match e
    case CreateV1(id, row) => Some(Transactions.AccessTypeCreate(id, row))
    case PatchType(d, id, title, bit) => Some(Transactions.AccessTypePatch(d, id, title, bit))
    case DeleteType(d, id) => Some(Transactions.AccessTypeDelete(d, id))
    case Advance(c, id) =>
      if c in w.clients && id !in w.rows && w.clients[c].phase.Inserting?
      then Some(Transactions.AccessTypeCreate(id, AccessType(w.clients[c].request.domain, w.clients[c].request.title, w.clients[c].phase.bit)))
      else None
    case _ => None
  }

  /** An event leaves the types as its store transaction does: changed if that succeeds, untouched otherwise. */
  lemma EventIsTransaction(w: World, e: Event, t: Tables)
    requires t.accessTypes == w.rows && t.domains == w.domains
    ensures match Transaction(w, e)
            case None => Next(w, e).rows == w.rows
            case Some(op) =>
              var after := Transactions.TablesAfter(t, op);
              if after.Ok? then after.value == t.(accessTypes := Next(w, e).rows) else Next(w, e).rows == w.rows
  {
    match e
    case CreateV1(id, row) => SameCreate(w, t, id, row);
    case Advance(c, id) =>
      if Transaction(w, e).Some? { SameCreate(w, t, id, Transaction(w, e).value.accessType); }
    case _ =>
  }

  lemma SameCreate(w: World, t: Tables, id: Id, row: AccessType)
    requires t.accessTypes == w.rows && t.domains == w.domains
    ensures Transactions.TablesAfter(t, Transactions.AccessTypeCreate(id, row)) == Transactions.WithAccessTypes(t, CreateType(w, id, row))
  {
  }
}
