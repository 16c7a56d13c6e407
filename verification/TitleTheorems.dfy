/** What the title codec and the bit allocator promise together. */
module TitleTheorems {
  import opened Basics
  import opened Masks
  import opened AccessBits
  import opened Ordering
  import opened Schema
  import opened GroundTruth
  import opened TitleCodec

  /** UNIQUE (domain_id, title). */
  ghost predicate UniqueTitles(types: seq<AccessType>) {
    forall i, j | 0 <= i < j < |types| :: types[i].title != types[j].title
  }

  /** Moreover no title looks like a sentinel. */
  ghost predicate ProperTitles(types: seq<AccessType>) {
    UniqueTitles(types) && forall i | 0 <= i < |types| :: !IsSentinel(types[i].title)
  }

  /** Moreover every type has its own single bit among positions 0..62. */
  ghost predicate Registry(types: seq<AccessType>) {
    && ProperTitles(types)
    && (forall i | 0 <= i < |types| :: Single(types[i].bit) && !Negative(types[i].bit))
    && (forall i, j | 0 <= i < j < |types| :: types[i].bit != types[j].bit)
  }

  // ---- members of a title list ----

  lemma {:induction false} MatchedMember(mask: bv64, types: seq<AccessType>, s: string)
    ensures s in MatchedTitles(mask, types) <==> exists t | t in types :: Matches(mask, t) && t.title == s
  {
    if types != [] {
      var n := |types| - 1;
      MatchedMember(mask, types[..n], s);
      assert types == types[..n] + [types[n]];
    }
  }

  lemma {:induction false} SentinelMember(left: set<nat>, n: nat, s: string)
    ensures s in Sentinels(left, n) <==> exists pos | pos in left :: pos < n && s == Sentinel(pos)
  {
    if n > 0 { SentinelMember(left, n - 1, s); }
  }

  lemma ListMember(mask: bv64, types: seq<AccessType>, titles: seq<string>, s: string)
    requires IsTitleList(mask, types, titles)
    ensures s in titles <==>
            || (exists t | t in types :: Matches(mask, t) && t.title == s)
            || (exists pos | pos in Unregistered(mask, types) :: pos < 63 && s == Sentinel(pos))
  {
    MatchedMember(mask, types, s);
    SentinelMember(Unregistered(mask, types), 63, s);
    assert s in titles <==> s in multiset(titles);
    assert s in MatchedTitles(mask, types) <==> s in multiset(MatchedTitles(mask, types));
  }

  lemma SameTitle(types: seq<AccessType>, a: AccessType, b: AccessType)
    requires UniqueTitles(types) && a in types && b in types && a.title == b.title
    ensures a == b
  {
    var i :| 0 <= i < |types| && types[i] == a;
    var j :| 0 <= j < |types| && types[j] == b;
  }

  lemma ProperTitle(types: seq<AccessType>, t: AccessType)
    requires ProperTitles(types) && t in types
    ensures !IsSentinel(t.title)
  {
    var i :| 0 <= i < |types| && types[i] == t;
  }

  /** A registered title is listed when the single-bit check on the same mask succeeds, and otherwise
      only if it happens to be the sentinel of an unregistered bit of the mask. */
  lemma TitleListedExactly(mask: bv64, types: seq<AccessType>, titles: seq<string>, t: AccessType)
    requires UniqueTitles(types) && IsTitleList(mask, types, titles) && t in types
    ensures t.title in titles <==>
            Matches(mask, t) || exists pos | pos in Unregistered(mask, types) :: pos < 63 && t.title == Sentinel(pos)
  {
    ListMember(mask, types, titles, t.title);
    forall u | u in types && u.title == t.title ensures u == t {
      SameTitle(types, t, u);
    }
  }

  /** Without titles of sentinel form: listed exactly when the single-bit check succeeds. */
  lemma TitleListedIffHasBit(mask: bv64, types: seq<AccessType>, titles: seq<string>, t: AccessType)
    requires ProperTitles(types) && IsTitleList(mask, types, titles) && t in types
    ensures t.title in titles <==> HasBit(mask, t.bit)
  {
    TitleListedExactly(mask, types, titles, t);
    ProperTitle(types, t);
  }

  /** The title is the sentinel of a bit that no registered type has. */
  ghost predicate SentinelOfFreeBit(types: seq<AccessType>, title: string) {
    exists pos: nat :: pos < 63 && pos !in Positions(Used(types)) && title == Sentinel(pos)
  }

  lemma UsedLast(types: seq<AccessType>)
    requires types != []
    ensures Positions(Used(types)) == Positions(Used(types[..|types| - 1])) + Positions(types[|types| - 1].bit)
  {
    OrPositions(Used(types[..|types| - 1]), types[|types| - 1].bit);
  }

  lemma {:induction false} CoveredAt(mask: bv64, types: seq<AccessType>, pos: nat)
    requires pos in Positions(mask)
    ensures pos in Positions(Covered(mask, types)) <==> pos in Positions(Used(types))
  {
    if types == [] {
    } else {
      var n := |types| - 1;
      CoveredAt(mask, types[..n], pos);
      UsedLast(types);
      if Matches(mask, types[n]) {
        CoveredMatch(mask, types);
      } else {
        assert Covered(mask, types) == Covered(mask, types[..n]);
        if pos in Positions(types[n].bit) { SharedHasBit(mask, types[n].bit, pos); }
      }
    }
  }

  lemma FreeBitConfuses(types: seq<AccessType>, titles: seq<string>, t: AccessType, pos: nat)
    requires UniqueTitles(types) && t in types && IsTitleList(Bit(pos), types, titles)
    requires pos < 63 && pos !in Positions(Used(types)) && t.title == Sentinel(pos)
    ensures t.title in titles && !HasBit(Bit(pos), t.bit)
  {
    BitPositions(pos);
    CoveredAt(Bit(pos), types, pos);
    TitleListedExactly(Bit(pos), types, titles, t);
    UsedPositions(types, pos);
    InPositions(t.bit, pos);
    AndCommutes(Bit(pos), t.bit);
  }

  /** On every mask, the title is listed exactly when the mask shares a bit with the type. */
  ghost predicate Trusted(types: seq<AccessType>, t: AccessType) {
    forall mask, titles | IsTitleList(mask, types, titles) :: t.title in titles <==> HasBit(mask, t.bit)
  }

  /** A listed type's title can be trusted exactly when it is not the sentinel of a bit that is still
      free among the types. Nothing in the API forbids such a title. */
  lemma TitleTrustedExactly(types: seq<AccessType>, t: AccessType)
    requires UniqueTitles(types) && t in types
    ensures Trusted(types, t) <==> !SentinelOfFreeBit(types, t.title)
  {
    if SentinelOfFreeBit(types, t.title) {
      var pos: nat :| pos < 63 && pos !in Positions(Used(types)) && t.title == Sentinel(pos);
      var titles := SomeTitleList(Bit(pos), types);
      FreeBitConfuses(types, titles, t, pos);
    } else {
      forall mask, titles | IsTitleList(mask, types, titles) ensures t.title in titles <==> HasBit(mask, t.bit) {
        TitleListedExactly(mask, types, titles, t);
        forall pos | pos in Unregistered(mask, types) ensures pos !in Positions(Used(types)) { CoveredAt(mask, types, pos); }
      }
    }
  }

  lemma SomeTitleList(mask: bv64, types: seq<AccessType>) returns (titles: seq<string>)
    ensures IsTitleList(mask, types, titles)
  {
    var unsorted := MatchedTitles(mask, types) + Sentinels(Unregistered(mask, types), 63);
    SortStringsSorts(unsorted);
    titles := SortStrings(unsorted);
  }

  // ---- sentinels are different ----

  lemma {:induction false} DecimalInjective(m: nat, n: nat)
    requires Decimal(m) == Decimal(n)
    ensures m == n
  {
    if m < 10 && n < 10 {
      DigitInjective(m, n);
    } else if m >= 10 && n >= 10 {
      var a, b := Decimal(m / 10), Decimal(n / 10);
      assert |a| == |b| && Decimal(m)[..|a|] == a && Decimal(n)[..|b|] == b;
      DecimalInjective(m / 10, n / 10);
      assert Decimal(m)[|a|] == Digit(m % 10) && Decimal(n)[|b|] == Digit(n % 10);
      DigitInjective(m % 10, n % 10);
    } else {
      DecimalLong(if m >= 10 then m else n);
    }
  }

  lemma DigitInjective(d: nat, e: nat)
    requires d < 10 && e < 10 && Digit(d) == Digit(e)
    ensures d == e
  {
  }

  lemma DecimalLong(n: nat)
    requires n >= 10
    ensures |Decimal(n)| >= 2
  {
    DecimalSome(n / 10);
  }

  lemma DecimalSome(n: nat)
    ensures |Decimal(n)| >= 1
  {
  }

  lemma {:induction false} PowerGrows(p: nat, q: nat)
    requires p < q
    ensures 0 < PowerOfTwo(p) < PowerOfTwo(q)
    decreases q
  {
    if p < q - 1 { PowerGrows(p, q - 1); } else if p > 0 { PowerGrows(p - 1, p); }
  }

  /** No two bits share a sentinel. */
  lemma SentinelInjective(p: nat, q: nat)
    requires Sentinel(p) == Sentinel(q)
    ensures p == q
  {
    assert Sentinel(p)[5..] == Decimal(PowerOfTwo(p)) && Sentinel(q)[5..] == Decimal(PowerOfTwo(q));
    DecimalInjective(PowerOfTwo(p), PowerOfTwo(q));
    if p < q { PowerGrows(p, q); }
    if q < p { PowerGrows(q, p); }
  }

  // ---- a type that is not among the listed ones ----

  ghost predicate NotTitled(types: seq<AccessType>, title: string) {
    forall u | u in types :: u.title != title
  }

  /** The type's title is the sentinel of its own bit, and that bit is free among the listed types. */
  ghost predicate StandsForItself(types: seq<AccessType>, t: AccessType) {
    exists pos: nat :: pos < 63 && pos !in Positions(Used(types)) && t.title == Sentinel(pos) && t.bit == Bit(pos)
  }

  /** The title of a type that is missing from the types appears only as a sentinel. */
  lemma MissingListed(mask: bv64, types: seq<AccessType>, titles: seq<string>, title: string)
    requires NotTitled(types, title) && IsTitleList(mask, types, titles)
    ensures title in titles <==>
            exists pos: nat :: pos < 63 && pos in Positions(mask) && pos !in Positions(Used(types)) && title == Sentinel(pos)
  {
    ListMember(mask, types, titles, title);
    forall pos | pos in Positions(mask) ensures pos in Unregistered(mask, types) <==> pos !in Positions(Used(types)) {
      CoveredAt(mask, types, pos);
    }
    if pos: nat :| pos < 63 && pos in Positions(mask) && pos !in Positions(Used(types)) && title == Sentinel(pos) {
      assert pos in Unregistered(mask, types);
    }
  }

  lemma MissingOnBit(types: seq<AccessType>, titles: seq<string>, title: string, q: nat)
    requires NotTitled(types, title) && q < 63 && IsTitleList(Bit(q), types, titles)
    ensures title in titles <==> q !in Positions(Used(types)) && title == Sentinel(q)
  {
    BitPositions(q);
    MissingListed(Bit(q), types, titles, title);
  }

  lemma BitShared(q: nat, bit: bv64)
    requires q < 63 && q in Positions(bit)
    ensures HasBit(Bit(q), bit)
  {
    BitPositions(q);
    SharedHasBit(Bit(q), bit, q);
  }

  lemma TrustedBit(types: seq<AccessType>, t: AccessType, q: nat)
    requires NotTitled(types, t.title) && Trusted(types, t) && q < 63 && q in Positions(t.bit)
    ensures q !in Positions(Used(types)) && t.title == Sentinel(q)
  {
    var titles := SomeTitleList(Bit(q), types);
    MissingOnBit(types, titles, t.title, q);
    BitShared(q, t.bit);
  }

  lemma TrustedOnce(types: seq<AccessType>, t: AccessType, q: nat, p: nat)
    requires NotTitled(types, t.title) && Trusted(types, t) && t.title == Sentinel(q) && p in Positions(t.bit)
    ensures p == q
  {
    InPositions(t.bit, p);
    TrustedBit(types, t, p);
    SentinelInjective(p, q);
  }

  lemma TrustedStands(types: seq<AccessType>, t: AccessType)
    requires NotTitled(types, t.title) && Trusted(types, t) && !Negative(t.bit) && t.bit != 0
    ensures StandsForItself(types, t)
  {
    var q := SomePosition(t.bit);
    InPositions(t.bit, q);
    TrustedBit(types, t, q);
    forall p | p in Positions(t.bit) ensures p == q { TrustedOnce(types, t, q, p); }
    assert Positions(t.bit) == {q};
    BitPositions(q);
    BitSingle(q);
    SamePositions(t.bit, Bit(q));
  }

  lemma TrustedZero(types: seq<AccessType>, t: AccessType)
    requires NotTitled(types, t.title) && Trusted(types, t) && t.bit == 0
    ensures !SentinelOfFreeBit(types, t.title)
  {
    if pos: nat :| pos < 63 && pos !in Positions(Used(types)) && t.title == Sentinel(pos) {
      var titles := SomeTitleList(Bit(pos), types);
      MissingOnBit(types, titles, t.title, pos);
    }
  }

  lemma PositionHasBit(mask: bv64, q: nat)
    requires q < 63
    ensures q in Positions(mask) <==> HasBit(mask, Bit(q))
  {
    if q in Positions(mask) {
      BitPositions(q);
      SharedHasBit(mask, Bit(q), q);
    } else {
      InPositions(mask, q);
    }
  }

  lemma StandsListed(mask: bv64, types: seq<AccessType>, titles: seq<string>, title: string, q: nat)
    requires NotTitled(types, title) && IsTitleList(mask, types, titles)
    requires q < 63 && q !in Positions(Used(types)) && title == Sentinel(q)
    ensures title in titles <==> q in Positions(mask)
  {
    MissingListed(mask, types, titles, title);
    forall pos: nat | title == Sentinel(pos) ensures pos == q { SentinelInjective(pos, q); }
  }

  lemma StandsTrusted(types: seq<AccessType>, t: AccessType)
    requires NotTitled(types, t.title) && StandsForItself(types, t)
    ensures Trusted(types, t)
  {
    var q: nat :| q < 63 && q !in Positions(Used(types)) && t.title == Sentinel(q) && t.bit == Bit(q);
    forall mask, titles | IsTitleList(mask, types, titles) ensures t.title in titles <==> HasBit(mask, t.bit) {
      StandsListed(mask, types, titles, t.title, q);
      PositionHasBit(mask, q);
    }
  }

  lemma ZeroTrusted(types: seq<AccessType>, t: AccessType)
    requires NotTitled(types, t.title) && t.bit == 0 && !SentinelOfFreeBit(types, t.title)
    ensures Trusted(types, t)
  {
    forall mask, titles | IsTitleList(mask, types, titles) ensures t.title in titles <==> HasBit(mask, t.bit) {
      MissingListed(mask, types, titles, t.title);
    }
  }

  /** The title of a missing type can be trusted only in two corners: the type has no bit and its title
      stands for no free one, or its title stands for just its own bit. */
  lemma MissingTrustedExactly(types: seq<AccessType>, t: AccessType)
    requires NotTitled(types, t.title) && !Negative(t.bit)
    ensures Trusted(types, t) <==>
            if t.bit == 0 then !SentinelOfFreeBit(types, t.title) else StandsForItself(types, t)
  {
    if Trusted(types, t) {
      if t.bit == 0 { TrustedZero(types, t); } else { TrustedStands(types, t); }
    } else if t.bit == 0 {
      if !SentinelOfFreeBit(types, t.title) { ZeroTrusted(types, t); }
    } else {
      if StandsForItself(types, t) { StandsTrusted(types, t); }
    }
  }

  /** The v2 titles of a user on a resource contain a registered title exactly when some permission
      the user holds on the resource carries a bit of that type. */
  lemma TitleListedIffPermissionHeld(t: Tables, k: Triple, types: seq<AccessType>, titles: seq<string>, a: AccessType)
    requires ProperTitles(types) && IsTitleList(GroundMask(t, k), types, titles) && a in types
    ensures a.title in titles <==> exists p :: Selected(t, k, p) && HasBit(FromSql(t.permissions[p].mask), a.bit)
  {
    TitleListedIffHasBit(GroundMask(t, k), types, titles, a);
    GroundHasBit(t, k, a.bit);
  }

  // ---- the lookup table ----

  lemma {:induction false} LookupSound(types: seq<AccessType>, s: string)
    ensures s in BitsByTitle(types) ==> exists t | t in types :: t.title == s && t.bit == BitsByTitle(types)[s] && t.bit != 0
    ensures (exists t | t in types :: t.title == s && t.bit != 0) ==> s in BitsByTitle(types)
  {
    if types != [] {
      var n := |types| - 1;
      LookupSound(types[..n], s);
      assert types == types[..n] + [types[n]];
    }
  }

  lemma LookupExact(types: seq<AccessType>, t: AccessType)
    requires ProperTitles(types) && t in types && t.bit != 0
    ensures t.title in BitsByTitle(types) && BitsByTitle(types)[t.title] == t.bit
  {
    LookupSound(types, t.title);
    var u :| u in types && u.title == t.title && u.bit == BitsByTitle(types)[t.title];
    SameTitle(types, t, u);
  }

  // ---- titles to mask, by positions ----

  lemma {:induction false} MaskOfFails(titles: seq<string>, bits: map<string, bv64>)
    ensures match MaskOf(titles, bits)
            case Ok(_) => forall s | s in titles :: s in bits
            case Err(e) => e.UnknownTitle? && e.title in titles && e.title !in bits
  {
    if titles != [] {
      var n := |titles| - 1;
      MaskOfFails(titles[..n], bits);
      assert titles == titles[..n] + [titles[n]];
    }
  }

  lemma {:induction false} MaskOfPositions(titles: seq<string>, bits: map<string, bv64>, pos: nat)
    requires MaskOf(titles, bits).Ok? && forall s | s in titles :: s in bits
    ensures pos in Positions(MaskOf(titles, bits).value) <==> exists s | s in titles :: pos in Positions(bits[s])
  {
    if titles == [] {
      ZeroPositions();
    } else {
      var n := |titles| - 1;
      assert titles == titles[..n] + [titles[n]];
      MaskOfPositions(titles[..n], bits, pos);
      MaskOfLast(titles, bits);
    }
  }

  lemma MaskOfLast(titles: seq<string>, bits: map<string, bv64>)
    requires titles != [] && MaskOf(titles, bits).Ok?
    ensures var n := |titles| - 1;
      && MaskOf(titles[..n], bits).Ok? && titles[n] in bits
      && Positions(MaskOf(titles, bits).value) == Positions(MaskOf(titles[..n], bits).value) + Positions(bits[titles[n]])
  {
    var n := |titles| - 1;
    OrPositions(MaskOf(titles[..n], bits).value, bits[titles[n]]);
  }

  lemma {:induction false} MaskOfNotNegative(titles: seq<string>, bits: map<string, bv64>)
    requires MaskOf(titles, bits).Ok? && forall s | s in bits :: !Negative(bits[s])
    ensures !Negative(MaskOf(titles, bits).value)
  {
    if titles != [] {
      var n := |titles| - 1;
      MaskOfNotNegative(titles[..n], bits);
      OrNotNegative(MaskOf(titles[..n], bits).value, bits[titles[n]]);
    }
  }

  lemma OrNotNegative(a: bv64, b: bv64)
    requires !Negative(a) && !Negative(b)
    ensures !Negative(a | b)
  {
  }

  lemma LookupNotNegative(types: seq<AccessType>)
    requires Registry(types)
    ensures forall s | s in BitsByTitle(types) :: !Negative(BitsByTitle(types)[s])
  {
    forall s | s in BitsByTitle(types) ensures !Negative(BitsByTitle(types)[s]) {
      LookupSound(types, s);
    }
  }

  // ---- single bits ----

  lemma OnePosition(b: bv64) returns (pos: nat)
    requires Single(b) && !Negative(b)
    ensures Positions(b) == {pos} && pos <= 62
  {
    pos := Position(b);
    BitPositions(pos);
  }

  /** A single-bit type matches a mask exactly when its position is in the mask. */
  lemma SingleMatches(mask: bv64, t: AccessType)
    requires Single(t.bit) && !Negative(t.bit)
    ensures Matches(mask, t) <==> Positions(t.bit) <= Positions(mask)
  {
    var pos := OnePosition(t.bit);
    AndCommutes(mask, t.bit);
    SharedPosition(t.bit, mask);
  }

  lemma {:induction false} CoveredPositions(mask: bv64, types: seq<AccessType>)
    requires forall i | 0 <= i < |types| :: Single(types[i].bit) && !Negative(types[i].bit)
    ensures Positions(Covered(mask, types)) == Positions(mask) * Positions(Used(types))
  {
    if types == [] {
      ZeroPositions();
    } else {
      var n := |types| - 1;
      CoveredPositions(mask, types[..n]);
      UsedLast(types);
      SingleMatches(mask, types[n]);
      var pos := OnePosition(types[n].bit);
      if Matches(mask, types[n]) {
        CoveredMatch(mask, types);
      } else {
        assert Covered(mask, types) == Covered(mask, types[..n]);
      }
    }
  }

  lemma CoveredMatch(mask: bv64, types: seq<AccessType>)
    requires types != [] && Matches(mask, types[|types| - 1])
    ensures Positions(Covered(mask, types))
         == Positions(Covered(mask, types[..|types| - 1])) + Positions(types[|types| - 1].bit)
  {
    OrPositions(Covered(mask, types[..|types| - 1]), types[|types| - 1].bit);
  }

  /** Every position of the mask belongs to a registered type. */
  predicate Registered(mask: bv64, types: seq<AccessType>) {
    mask & !Used(types) == 0
  }

  lemma RegisteredWithin(mask: bv64, types: seq<AccessType>)
    requires Registered(mask, types)
    ensures Positions(mask) <= Positions(Used(types))
  {
    DifferencePositions(mask, Used(types));
    ZeroPositions();
  }

  lemma WithinRegistered(mask: bv64, types: seq<AccessType>)
    requires !Negative(mask) && Positions(mask) <= Positions(Used(types))
    ensures Registered(mask, types)
  {
    DifferencePositions(mask, Used(types));
    NotNegative(mask, Used(types));
    NoPositions(mask & !Used(types));
  }

  // ---- mask -> titles -> mask ----

  lemma ListedPositions(mask: bv64, types: seq<AccessType>, titles: seq<string>, pos: nat)
    requires Registry(types) && IsTitleList(mask, types, titles)
    requires Unregistered(mask, types) == {} && pos in Positions(mask)
    ensures exists s | s in titles :: s in BitsByTitle(types) && pos in Positions(BitsByTitle(types)[s])
  {
    CoveredPositions(mask, types);
    UsedPositions(types, pos);
    var t :| t in types && pos in Positions(t.bit);
    var only := OnePosition(t.bit);
    SingleMatches(mask, t);
    LookupExact(types, t);
    ListMember(mask, types, titles, t.title);
  }

  lemma ListedTitle(mask: bv64, types: seq<AccessType>, titles: seq<string>, s: string)
    requires Registry(types) && IsTitleList(mask, types, titles)
    requires s in titles && !IsSentinel(s)
    ensures s in BitsByTitle(types) && Positions(BitsByTitle(types)[s]) <= Positions(mask)
  {
    ListMember(mask, types, titles, s);
    var t :| t in types && Matches(mask, t) && t.title == s;
    LookupExact(types, t);
    SingleMatches(mask, t);
  }

  lemma SentinelUnknown(types: seq<AccessType>, s: string)
    requires ProperTitles(types) && IsSentinel(s)
    ensures s !in BitsByTitle(types)
  {
    LookupSound(types, s);
    forall t | t in types ensures t.title != s {
      ProperTitle(types, t);
    }
  }

  lemma NoSentinelListed(mask: bv64, types: seq<AccessType>, titles: seq<string>, s: string)
    requires ProperTitles(types) && IsTitleList(mask, types, titles)
    requires Unregistered(mask, types) == {} && s in titles
    ensures !IsSentinel(s)
  {
    ListMember(mask, types, titles, s);
    var t :| t in types && Matches(mask, t) && t.title == s;
    var i :| 0 <= i < |types| && types[i] == t;
  }

  /** Reading a mask as titles and back gives the mask exactly when registered types cover it. */
  lemma MaskRoundTrip(mask: bv64, types: seq<AccessType>, titles: seq<string>)
    requires Registry(types) && !Negative(mask) && IsTitleList(mask, types, titles)
    ensures Registered(mask, types) ==> MaskOf(titles, BitsByTitle(types)) == Ok(mask)
    ensures !Registered(mask, types) ==>
            var r := MaskOf(titles, BitsByTitle(types)); r.Err? && r.error.UnknownTitle? && IsSentinel(r.error.title)
  {
    CoveredPositions(mask, types);
    if Unregistered(mask, types) == {} {
      WithinRegistered(mask, types);
      CoveredRoundTrip(mask, types, titles);
    } else {
      if Registered(mask, types) { RegisteredWithin(mask, types); }
      UncoveredFails(mask, types, titles);
    }
  }

  lemma CoveredRoundTrip(mask: bv64, types: seq<AccessType>, titles: seq<string>)
    requires Registry(types) && !Negative(mask) && IsTitleList(mask, types, titles) && Unregistered(mask, types) == {}
    ensures MaskOf(titles, BitsByTitle(types)) == Ok(mask)
  {
    var bits := BitsByTitle(types);
    forall s | s in titles ensures s in bits && Positions(bits[s]) <= Positions(mask) {
      NoSentinelListed(mask, types, titles, s);
      ListedTitle(mask, types, titles, s);
    }
    MaskOfFails(titles, bits);
    var m := MaskOf(titles, bits).value;
    forall pos: nat ensures pos in Positions(m) <==> pos in Positions(mask) {
      MaskOfPositions(titles, bits, pos);
      if pos in Positions(mask) { ListedPositions(mask, types, titles, pos); }
    }
    LookupNotNegative(types);
    MaskOfNotNegative(titles, bits);
    SamePositions(m, mask);
  }

  lemma UncoveredFails(mask: bv64, types: seq<AccessType>, titles: seq<string>)
    requires Registry(types) && IsTitleList(mask, types, titles) && Unregistered(mask, types) != {}
    ensures var r := MaskOf(titles, BitsByTitle(types)); r.Err? && r.error.UnknownTitle? && IsSentinel(r.error.title)
  {
    var bits := BitsByTitle(types);
    var pos :| pos in Unregistered(mask, types);
    InPositions(mask, pos);
    ListMember(mask, types, titles, Sentinel(pos));
    assert Sentinel(pos) in titles;
    SentinelUnknown(types, Sentinel(pos));
    MaskOfFails(titles, bits);
    var s := MaskOf(titles, bits).error.title;
    if !IsSentinel(s) { ListedTitle(mask, types, titles, s); }
  }

  // ---- titles -> mask -> titles ----

  lemma {:induction false} MatchedOnce(mask: bv64, types: seq<AccessType>, s: string)
    requires forall i, j | 0 <= i < j < |types| :: types[i].title != types[j].title
    ensures multiset(MatchedTitles(mask, types))[s] <= 1
  {
    if types != [] {
      var n := |types| - 1;
      MatchedOnce(mask, types[..n], s);
      if Matches(mask, types[n]) && types[n].title == s {
        MatchedMember(mask, types[..n], s);
        assert s !in MatchedTitles(mask, types[..n]);
        assert multiset(MatchedTitles(mask, types[..n]))[s] == 0;
      }
    }
  }

  lemma {:induction false} AscendingIfOnce(s: seq<string>)
    requires Sorted(s) && forall x :: multiset(s)[x] <= 1
    ensures Ascending(Less, s)
  {
    forall i, j | 0 <= i < j < |s| ensures Less(s[i], s[j]) {
      LessTotal(s[i], s[j]);
      if s[i] == s[j] { TwiceCounted(s, i, j); }
    }
  }

  lemma TwiceCounted(s: seq<string>, i: nat, j: nat)
    requires i < j < |s| && s[i] == s[j]
    ensures multiset(s)[s[i]] >= 2
  {
    assert s == s[..j] + [s[j]] + s[j + 1..];
    assert s[i] in s[..j];
    assert multiset(s) == multiset(s[..j]) + multiset{s[j]} + multiset(s[j + 1..]);
  }

  lemma ListedIffGiven(titles: seq<string>, types: seq<AccessType>, mask: bv64, t: AccessType)
    requires Registry(types) && MaskOf(titles, BitsByTitle(types)) == Ok(mask) && t in types
    ensures Matches(mask, t) <==> t.title in titles
  {
    var bits := BitsByTitle(types);
    MaskOfFails(titles, bits);
    LookupExact(types, t);
    SingleMatches(mask, t);
    var pos := OnePosition(t.bit);
    MaskOfPositions(titles, bits, pos);
    if Matches(mask, t) {
      var s :| s in titles && pos in Positions(bits[s]);
      LookupSound(types, s);
      var u :| u in types && u.title == s && u.bit == bits[s];
      SamePosition(types, t, u, pos);
    }
  }

  lemma SamePosition(types: seq<AccessType>, a: AccessType, b: AccessType, pos: nat)
    requires Registry(types) && a in types && b in types && pos in Positions(a.bit) && pos in Positions(b.bit)
    ensures a == b
  {
    var i :| 0 <= i < |types| && types[i] == a;
    var j :| 0 <= j < |types| && types[j] == b;
    var p := OnePosition(a.bit);
    var q := OnePosition(b.bit);
    SamePositions(a.bit, b.bit);
  }

  lemma GivenAreRegistered(titles: seq<string>, types: seq<AccessType>, mask: bv64)
    requires Registry(types) && MaskOf(titles, BitsByTitle(types)) == Ok(mask)
    ensures Unregistered(mask, types) == {}
  {
    var bits := BitsByTitle(types);
    MaskOfFails(titles, bits);
    CoveredPositions(mask, types);
    forall pos | pos in Positions(mask) ensures pos in Positions(Used(types)) {
      MaskOfPositions(titles, bits, pos);
      var s :| s in titles && pos in Positions(bits[s]);
      LookupSound(types, s);
      UsedPositions(types, pos);
    }
  }

  /** Writing titles as a mask and reading it back gives the same titles, sorted and each once. */
  lemma TitlesRoundTrip(titles: seq<string>, types: seq<AccessType>, mask: bv64, listed: seq<string>)
    requires Registry(types) && MaskOf(titles, BitsByTitle(types)) == Ok(mask) && IsTitleList(mask, types, listed)
    ensures listed == InOrder(set s | s in titles)
  {
    GivenAreRegistered(titles, types, mask);
    NoSentinels(Unregistered(mask, types), 63);
    forall s ensures multiset(listed)[s] <= 1 { MatchedOnce(mask, types, s); }
    AscendingIfOnce(listed);
    forall s ensures s in listed <==> s in titles {
      ListMember(mask, types, listed, s);
      if t :| t in types && Matches(mask, t) && t.title == s { ListedIffGiven(titles, types, mask, t); }
      if s in titles {
        MaskOfFails(titles, BitsByTitle(types));
        LookupSound(types, s);
        var t :| t in types && t.title == s;
        ListedIffGiven(titles, types, mask, t);
      }
    }
    InOrderMembers(set s | s in titles);
    LessIsStrict();
    AscendingUnique(Less, listed, InOrder(set s | s in titles));
  }
}
