/** Access masks as lists of permission titles, and the allocation of new bits. */
module TitleCodec {
  import opened Basics
  import opened Masks
  import opened AccessBits
  import opened Ordering
  import opened Schema

  // ---- sentinels ----

  function Digit(d: nat): char
    requires d < 10
  {
    "0123456789"[d]
  }

  function Decimal(n: nat): string {
    if n < 10 then [Digit(n)] else Decimal(n / 10) + [Digit(n % 10)]
  }

  function PowerOfTwo(pos: nat): nat {
    if pos == 0 then 1 else 2 * PowerOfTwo(pos - 1)
  }

  /** The stand-in title of a bit no access type is registered for. */
  function Sentinel(pos: nat): string {
    "_bit:" + Decimal(PowerOfTwo(pos))
  }

  ghost predicate IsSentinel(s: string) {
    exists pos: nat :: pos <= 62 && s == Sentinel(pos)
  }

  // ---- sorting ----

  ghost predicate Sorted(s: seq<string>) {
    forall i, j | 0 <= i < j < |s| :: !Less(s[j], s[i])
  }

  /** sort.Strings, as an insertion sort. */
  function SortStrings(s: seq<string>): seq<string> {
    if s == [] then [] else Insert(SortStrings(s[1..]), s[0])
  }

  lemma {:induction false} InsertSorted(s: seq<string>, x: string)
    requires Sorted(s)
    ensures Sorted(Insert(s, x)) && multiset(Insert(s, x)) == multiset(s) + multiset{x}
  {
    if s == [] {
    } else if !Less(s[0], x) {
      forall i | 0 <= i < |s| ensures !Less(s[i], x) {
        if Less(s[i], x) { LessTotal(s[0], s[i]); NotLessChain(s[0], s[i], x); }
      }
    } else {
      assert s == [s[0]] + s[1..];
      InsertSorted(s[1..], x);
      var rest := Insert(s[1..], x);
      forall i | 0 <= i < |rest| ensures !Less(rest[i], s[0]) {
        assert rest[i] in multiset(rest);
        if rest[i] == x { LessAsymmetric(s[0], x); } else { assert rest[i] in s[1..]; }
      }
    }
  }

  lemma LessAsymmetric(a: string, b: string)
    requires Less(a, b)
    ensures !Less(b, a)
  {
    if Less(b, a) {
      LessTransitive(a, b, a);
      LessIrreflexive(a);
    }
  }

  lemma NotLessChain(a: string, b: string, c: string)
    requires !Less(b, a) && Less(b, c)
    ensures Less(a, c)
  {
    LessTotal(a, b);
    if Less(a, b) { LessTransitive(a, b, c); }
  }

  lemma {:induction false} SortStringsSorts(s: seq<string>)
    ensures Sorted(SortStrings(s)) && multiset(SortStrings(s)) == multiset(s)
  {
    if s != [] {
      SortStringsSorts(s[1..]);
      InsertSorted(SortStrings(s[1..]), s[0]);
      assert s == [s[0]] + s[1..];
    }
  }

  // ---- mask to titles ----

  predicate Matches(mask: bv64, t: AccessType) {
    HasBit(mask, t.bit)
  }

  /** Titles of the types that share a bit with the mask, in the order of the types. */
  function MatchedTitles(mask: bv64, types: seq<AccessType>): seq<string> {
    if types == [] then []
    else
      var n := |types| - 1;
      MatchedTitles(mask, types[..n]) + if Matches(mask, types[n]) then [types[n].title] else []
  }

  /** The OR of their bits. */
  function Covered(mask: bv64, types: seq<AccessType>): bv64 {
    if types == [] then 0
    else
      var n := |types| - 1;
      if Matches(mask, types[n]) then Covered(mask, types[..n]) | types[n].bit else Covered(mask, types[..n])
  }

  /** Sentinels of the positions below n among `left`. */
  function Sentinels(left: set<nat>, n: nat): seq<string> {
    if n == 0 then []
    else Sentinels(left, n - 1) + if n - 1 in left then [Sentinel(n - 1)] else []
  }

  /** The positions of the mask that no matching type covers. */
  function Unregistered(mask: bv64, types: seq<AccessType>): set<nat> {
    Positions(mask) - Positions(Covered(mask, types))
  }

  /** What MaskToTitles promises of its result: the titles of the matching types and the sentinels
      of the unregistered positions, sorted. */
  ghost predicate IsTitleList(mask: bv64, types: seq<AccessType>, titles: seq<string>) {
    && Sorted(titles)
    && multiset(titles) == multiset(MatchedTitles(mask, types)) + multiset(Sentinels(Unregistered(mask, types), 63))
  }

  method MaskToTitles(mask: bv64, types: seq<AccessType>) returns (titles: seq<string>)
    ensures IsTitleList(mask, types, titles)
  {
    if mask == 0 {
      ZeroMask(types);
      return [];
    }
    var covered;
    titles, covered := CollectMatched(mask, types);
    DifferencePositions(mask, covered);
    var sentinels := CollectSentinels(mask & !covered);
    SortStringsSorts(titles + sentinels);
    titles := SortStrings(titles + sentinels);
  }

  /** The first loop of MaskToTitles. */
  method CollectMatched(mask: bv64, types: seq<AccessType>) returns (titles: seq<string>, covered: bv64)
    ensures titles == MatchedTitles(mask, types) && covered == Covered(mask, types)
  {
    titles, covered := [], 0;
    for i := 0 to |types|
      invariant titles == MatchedTitles(mask, types[..i]) && covered == Covered(mask, types[..i])
    {
      assert types[..i + 1][..i] == types[..i];
      if Matches(mask, types[i]) {
        titles := titles + [types[i].title];
        covered := covered | types[i].bit;
      }
    }
    assert types[..|types|] == types;
  }

  /** The second loop of MaskToTitles, over positions 0..62. */
  method CollectSentinels(remaining: bv64) returns (titles: seq<string>)
    ensures titles == Sentinels(Positions(remaining), 63)
  {
    titles := [];
    for pos := 0 to 63
      invariant titles == Sentinels(Positions(remaining), pos)
    {
      InPositions(remaining, pos);
      if IsSet(remaining, pos) {
        titles := titles + [Sentinel(pos)];
      }
    }
  }

  lemma ZeroMask(types: seq<AccessType>)
    ensures IsTitleList(0, types, [])
  {
    ZeroMatches(types);
    ZeroPositions();
    NoSentinels(Unregistered(0, types), 63);
  }

  lemma {:induction false} ZeroMatches(types: seq<AccessType>)
    ensures MatchedTitles(0, types) == []
  {
    if types != [] {
      ZeroMatches(types[..|types| - 1]);
      ZeroAnd(types[|types| - 1].bit);
    }
  }

  lemma {:induction false} NoSentinels(left: set<nat>, n: nat)
    requires left == {}
    ensures Sentinels(left, n) == []
  {
    if n > 0 { NoSentinels(left, n - 1); }
  }

  // ---- titles to mask ----

  /** The lookup table: the last type with a title wins, zero bits are left out. */
  function BitsByTitle(types: seq<AccessType>): map<string, bv64> {
    if types == [] then map[]
    else
      var n := |types| - 1;
      var m := BitsByTitle(types[..n]);
      if types[n].bit != 0 then m[types[n].title := types[n].bit] else m
  }

  /** Left to right, stopping at the first unknown title. */
  function MaskOf(titles: seq<string>, bits: map<string, bv64>): Result<bv64> {
    if titles == [] then Ok(0)
    else
      var n := |titles| - 1;
      var m :- MaskOf(titles[..n], bits);
      if titles[n] in bits then Ok(m | bits[titles[n]]) else Err(UnknownTitle(titles[n]))
  }

  method TitlesToMask(titles: seq<string>, types: seq<AccessType>) returns (r: Result<bv64>)
    ensures r == MaskOf(titles, BitsByTitle(types))
  {
    if |titles| == 0 { return Ok(0); }
    var byTitle: map<string, bv64> := map[];
    for i := 0 to |types|
      invariant byTitle == BitsByTitle(types[..i])
    {
      assert types[..i + 1][..i] == types[..i];
      if types[i].bit != 0 { byTitle := byTitle[types[i].title := types[i].bit]; }
    }
    assert types[..|types|] == types;
    var mask: bv64 := 0;
    for i := 0 to |titles|
      invariant MaskOf(titles[..i], byTitle) == Ok(mask)
    {
      assert titles[..i + 1][..i] == titles[..i];
      if titles[i] !in byTitle {
        FirstUnknown(titles, byTitle, i);
        return Err(UnknownTitle(titles[i]));
      }
      mask := mask | byTitle[titles[i]];
    }
    assert titles[..|titles|] == titles;
    r := Ok(mask);
  }

  lemma {:induction false} FirstUnknown(titles: seq<string>, bits: map<string, bv64>, i: nat)
    requires i < |titles| && MaskOf(titles[..i], bits).Ok? && titles[i] !in bits
    ensures MaskOf(titles, bits) == Err(UnknownTitle(titles[i]))
    decreases |titles|
  {
    var n := |titles| - 1;
    if i < n {
      assert titles[..n][..i] == titles[..i];
      FirstUnknown(titles[..n], bits, i);
    }
  }

  // ---- allocation ----

  function Used(types: seq<AccessType>): bv64 {
    if types == [] then 0 else Used(types[..|types| - 1]) | types[|types| - 1].bit
  }

  /** The lowest position from `pos` on that is not taken. */
  function FirstFree(taken: set<nat>, pos: nat): Result<nat>
    decreases 63 - pos
  {
    if pos >= 63 then Err(BitsExhausted)
    else if pos !in taken then Ok(pos)
    else FirstFree(taken, pos + 1)
  }

  /** The bit AllocateNextBit gives out when the types take these positions. */
  function Allocation(taken: set<nat>): Result<bv64> {
    match FirstFree(taken, 0)
    case Ok(pos) => Ok(Bit(pos))
    case Err(e) => Err(e)
  }

  method AllocateNextBit(types: seq<AccessType>) returns (r: Result<bv64>)
    ensures r == Allocation(Positions(Used(types)))
  {
    var used: bv64 := 0;
    for i := 0 to |types|
      invariant used == Used(types[..i])
    {
      assert types[..i + 1][..i] == types[..i];
      used := used | types[i].bit;
    }
    assert types[..|types|] == types;
    r := LowestFree(used);
  }

  /** The scan of AllocateNextBit over positions 0..62. */
  method LowestFree(used: bv64) returns (r: Result<bv64>)
    ensures r == Allocation(Positions(used))
  {
    ghost var taken := Positions(used);
    for pos := 0 to 63
      invariant FirstFree(taken, 0) == FirstFree(taken, pos)
    {
      InPositions(used, pos);
      if !IsSet(used, pos) { return Ok(Bit(pos)); }
    }
    r := Err(BitsExhausted);
  }

  /** What FirstFree finds: nothing lower is free, and it fails only when all 63 positions are taken. */
  lemma {:induction false} FirstFreeLowest(taken: set<nat>, pos: nat)
    ensures match FirstFree(taken, pos)
            case Ok(free) => pos <= free <= 62 && free !in taken && forall q: nat | pos <= q < free :: q in taken
            case Err(e) => e == BitsExhausted && forall q: nat | pos <= q <= 62 :: q in taken
    decreases 63 - pos
  {
    if pos < 63 && pos in taken {
      FirstFreeLowest(taken, pos + 1);
    }
  }

  /** A position is used exactly when some type's bit value has it. */
  lemma {:induction false} UsedPositions(types: seq<AccessType>, pos: nat)
    ensures pos in Positions(Used(types)) <==> exists t | t in types :: pos in Positions(t.bit)
  {
    if types == [] {
      ZeroPositions();
    } else {
      var n := |types| - 1;
      UsedPositions(types[..n], pos);
      OrPositions(Used(types[..n]), types[n].bit);
      assert types == types[..n] + [types[n]];
    }
  }
}
