/** Single permission bits and their positions 0..62 (63 is the sign of the stored column). */
module AccessBits {
  import opened Masks

  /** uint64(1) << pos, for pos below 64. */
  function Bit(pos: nat): bv64 {
    if pos == 0 then 1 else Bit(pos - 1) << 1
  }

  /** The API's test for a single bit: non-zero and a power of two. */
  predicate Single(b: bv64) {
    b != 0 && b & (b - 1) == 0
  }

  // ---- words ----

  lemma SingleSharedBit(b: bv64, c: bv64)
    requires Single(b) && Single(c) && b & c != 0
    ensures b == c
  {
  }

  lemma SingleShiftRight(b: bv64)
    requires Single(b) && b & 1 == 0
    ensures Single(b >> 1) && (b >> 1) << 1 == b
  {
  }

  lemma SingleShiftLeft(b: bv64)
    requires Single(b) && !Negative(b)
    ensures Single(b << 1)
  {
  }

  lemma ShiftAnd(a: bv64, b: bv64)
    ensures (a << 1) & (b << 1) == (a & b) << 1 && 1 & (a << 1) == 0
  {
  }

  lemma AndCommutes(a: bv64, b: bv64)
    ensures a & b == b & a
  {
  }

  // ---- Bit doubles at each position ----

  lemma Bit4(pos: nat)
    ensures Bit(pos + 4) == Bit(pos) << 4
  {
    assert Bit(pos + 2) == Bit(pos) << 2;
  }

  lemma Bit16(pos: nat)
    ensures Bit(pos + 16) == Bit(pos) << 16
  {
    Bit4(pos); Bit4(pos + 4); Bit4(pos + 8); Bit4(pos + 12);
  }

  lemma SignIsBit63()
    ensures Bit(63) == SIGN_BIT
  {
    assert Bit(3) == 8 by { assert Bit(1) == 2; }
    Bit4(3); Bit4(7); Bit4(11);
    Bit16(15); Bit16(31); Bit16(47);
  }

  lemma {:induction false} BitsDisjoint(i: nat, j: nat)
    requires i != j
    ensures Bit(i) & Bit(j) == 0
  {
    if i == 0 {
      ShiftAnd(Bit(j - 1), 0);
    } else if j == 0 {
      AndCommutes(Bit(i), Bit(j));
      ShiftAnd(Bit(i - 1), 0);
    } else {
      ShiftAnd(Bit(i - 1), Bit(j - 1));
      BitsDisjoint(i - 1, j - 1);
    }
  }

  lemma {:induction false} BitSingle(pos: nat)
    requires pos <= 63
    ensures Single(Bit(pos))
    ensures pos <= 62 ==> !Negative(Bit(pos))
  {
    SignIsBit63();
    if pos < 63 { BitsDisjoint(pos, 63); }
    if pos > 0 {
      BitSingle(pos - 1);
      SingleShiftLeft(Bit(pos - 1));
    }
  }

  /** Different positions, different bits. */
  lemma BitInjective(i: nat, j: nat)
    requires i <= 63 && j <= 63 && Bit(i) == Bit(j)
    ensures i == j
  {
    BitSingle(i);
    if i != j { BitsDisjoint(i, j); }
  }

  // ---- every single bit has a position ----

  lemma ShiftBelow(b: bv64, c: bv64)
    requires !Negative(c) && b < c << 1
    ensures b >> 1 < c
  {
  }

  lemma NonNegativeBelow(b: bv64)
    requires !Negative(b)
    ensures b < SIGN_BIT
  {
  }

  lemma OddSingle(b: bv64)
    requires Single(b) && b & 1 != 0
    ensures b == 1
  {
    SingleSharedBit(b, 1);
  }

  /** Halving a single bit that is not 1. */
  lemma Halve(b: bv64, c: bv64) returns (half: bv64)
    requires Single(b) && b & 1 == 0 && !Negative(c) && b < c << 1
    ensures Single(half) && half < c && half << 1 == b
  {
    SingleShiftRight(b);
    ShiftBelow(b, c);
    half := b >> 1;
  }

  lemma NotBelowOne(b: bv64)
    requires Single(b)
    ensures !(b < 1)
  {
  }

  lemma HalveBelow(b: bv64, n: nat) returns (half: bv64)
    requires 0 < n <= 63 && Single(b) && b & 1 == 0 && b < Bit(n)
    ensures Single(half) && half < Bit(n - 1) && half << 1 == b
  {
    BitSingle(n - 1);
    half := Halve(b, Bit(n - 1));
  }

  lemma NextBit(pos: nat)
    ensures Bit(pos + 1) == Bit(pos) << 1
  {
  }

  lemma {:induction false} FindPosition(b: bv64, n: nat) returns (pos: nat)
    requires n <= 63 && Single(b) && b < Bit(n)
    ensures pos < n && b == Bit(pos)
    decreases n
  {
    if n == 0 {
      NotBelowOne(b);
      assert false;
    } else if b & 1 != 0 {
      OddSingle(b);
      pos := 0;
    } else {
      var half := HalveBelow(b, n);
      var below := FindPosition(half, n - 1);
      NextBit(below);
      pos := below + 1;
    }
  }

  /** The bits a request may store are exactly Bit(0) .. Bit(62). */
  lemma SingleHasPosition(b: bv64)
    ensures Single(b) && !Negative(b) <==> exists pos: nat :: pos <= 62 && b == Bit(pos)
  {
    if Single(b) && !Negative(b) {
      SignIsBit63();
      NonNegativeBelow(b);
      var pos := FindPosition(b, 63);
    }
    if pos: nat :| pos <= 62 && b == Bit(pos) {
      BitSingle(pos);
    }
  }

  ghost function Position(b: bv64): (pos: nat)
    requires Single(b) && !Negative(b)
    ensures pos <= 62 && b == Bit(pos)
  {
    SingleHasPosition(b);
    var pos: nat :| pos <= 62 && b == Bit(pos);
    pos
  }

  lemma LowestBit(m: bv64) returns (low: bv64)
    requires !Negative(m) && m != 0
    ensures Single(low) && !Negative(low) && m & low != 0
  {
    LowestSingle(m);
    LowestShared(m);
    low := m & (0 - m);
  }

  lemma LowestSingle(m: bv64)
    requires m != 0 && !Negative(m)
    ensures Single(m & (0 - m)) && !Negative(m & (0 - m))
  {
  }

  lemma LowestShared(m: bv64)
    requires m != 0
    ensures m & (m & (0 - m)) != 0
  {
  }

  /** A non-zero mask has one of the positions 0..62 set, unless it is only the sign. */
  lemma SomePosition(m: bv64) returns (pos: nat)
    requires !Negative(m) && m != 0
    ensures pos <= 62 && m & Bit(pos) != 0
  {
    var low := LowestBit(m);
    pos := Position(low);
  }

  // ---- a mask as the set of its positions ----

  predicate IsSet(m: bv64, pos: nat) {
    m & Bit(pos) != 0
  }

  function PositionsBelow(m: bv64, n: nat): set<nat> {
    if n == 0 then {} else PositionsBelow(m, n - 1) + if IsSet(m, n - 1) then {n - 1} else {}
  }

  /** The positions of the permission space, 0..62, that a mask has set. */
  function Positions(m: bv64): set<nat> {
    PositionsBelow(m, 63)
  }

  lemma {:induction false} InPositionsBelow(m: bv64, n: nat, pos: nat)
    ensures pos in PositionsBelow(m, n) <==> pos < n && IsSet(m, pos)
  {
    if n > 0 { InPositionsBelow(m, n - 1, pos); }
  }

  lemma InPositions(m: bv64, pos: nat)
    ensures pos in Positions(m) <==> pos < 63 && IsSet(m, pos)
  {
    InPositionsBelow(m, 63, pos);
  }

  lemma OrKeepsBit(a: bv64, b: bv64, pos: nat)
    requires IsSet(a, pos)
    ensures IsSet(a | b, pos)
  {
  }

  lemma OrAddsNoBit(a: bv64, b: bv64, pos: nat)
    requires !IsSet(a, pos) && !IsSet(b, pos)
    ensures !IsSet(a | b, pos)
  {
  }

  lemma OrIsSet(a: bv64, b: bv64, pos: nat)
    ensures IsSet(a | b, pos) <==> IsSet(a, pos) || IsSet(b, pos)
  {
    if IsSet(a, pos) {
      OrKeepsBit(a, b, pos);
    } else if IsSet(b, pos) {
      OrCommutes(a, b);
      OrKeepsBit(b, a, pos);
    } else {
      OrAddsNoBit(a, b, pos);
    }
  }

  lemma OrPositions(a: bv64, b: bv64)
    ensures Positions(a | b) == Positions(a) + Positions(b)
  {
    forall pos: nat ensures pos in Positions(a | b) <==> pos in Positions(a) + Positions(b) {
      InPositions(a | b, pos);
      InPositions(a, pos);
      InPositions(b, pos);
      OrIsSet(a, b, pos);
    }
  }

  lemma {:induction false} ZeroPositionsBelow(n: nat)
    ensures PositionsBelow(0, n) == {}
  {
    if n > 0 {
      ZeroPositionsBelow(n - 1);
      ZeroAnd(Bit(n - 1));
    }
  }

  lemma ZeroPositions()
    ensures Positions(0) == {}
  {
    ZeroPositionsBelow(63);
  }

  lemma ZeroAnd(m: bv64)
    ensures 0 & m == 0
  {
  }

  lemma AndSelf(m: bv64)
    ensures m & m == m
  {
  }

  lemma BitIsSet(pos: nat, q: nat)
    requires pos <= 62
    ensures IsSet(Bit(pos), q) <==> q == pos
  {
    if q == pos {
      BitSingle(pos);
      AndSelf(Bit(pos));
    } else {
      BitsDisjoint(pos, q);
    }
  }

  lemma BitPositions(pos: nat)
    requires pos <= 62
    ensures Positions(Bit(pos)) == {pos}
  {
    forall q: nat ensures q in Positions(Bit(pos)) <==> q == pos {
      InPositions(Bit(pos), q);
      BitIsSet(pos, q);
    }
  }

  lemma DifferenceIsSet(a: bv64, b: bv64, pos: nat)
    requires pos <= 62
    ensures IsSet(a & !b, pos) <==> IsSet(a, pos) && !IsSet(b, pos)
  {
    BitSingle(pos);
    DifferenceAnd(a, b, Bit(pos));
  }

  lemma DifferenceAnd(a: bv64, b: bv64, bit: bv64)
    requires Single(bit)
    ensures (a & !b) & bit != 0 ==> a & bit != 0 && b & bit == 0
    ensures a & bit != 0 && b & bit == 0 ==> (a & !b) & bit != 0
  {
  }

  lemma {:induction false} DifferencePositionsBelow(a: bv64, b: bv64, n: nat)
    requires n <= 63
    ensures PositionsBelow(a & !b, n) == PositionsBelow(a, n) - PositionsBelow(b, n)
  {
    if n > 0 {
      DifferencePositionsBelow(a, b, n - 1);
      DifferenceIsSet(a, b, n - 1);
      InPositionsBelow(a, n - 1, n - 1);
      InPositionsBelow(b, n - 1, n - 1);
    }
  }

  /** Go's a &^ b removes exactly b's positions. */
  lemma DifferencePositions(a: bv64, b: bv64)
    ensures Positions(a & !b) == Positions(a) - Positions(b)
  {
    DifferencePositionsBelow(a, b, 63);
  }

  /** A stored mask with no position set is zero. */
  lemma NoPositions(m: bv64)
    requires !Negative(m) && Positions(m) == {}
    ensures m == 0
  {
    if m != 0 {
      var pos := SomePosition(m);
      InPositions(m, pos);
    }
  }

  /** Stored masks are told apart by their positions. */
  lemma SamePositions(a: bv64, b: bv64)
    requires !Negative(a) && !Negative(b) && Positions(a) == Positions(b)
    ensures a == b
  {
    DifferencePositions(a, b);
    DifferencePositions(b, a);
    NotNegative(a, b);
    NotNegative(b, a);
    NoPositions(a & !b);
    NoPositions(b & !a);
    SameBits(a, b);
  }

  lemma NotNegative(a: bv64, b: bv64)
    requires !Negative(a)
    ensures !Negative(a & !b)
  {
  }

  lemma SameBits(a: bv64, b: bv64)
    requires a & !b == 0 && b & !a == 0
    ensures a == b
  {
  }

  /** Two masks share a bit exactly when they share a position. */
  lemma SharedPosition(a: bv64, b: bv64)
    requires !Negative(a)
    ensures a & b != 0 <==> Positions(a) * Positions(b) != {}
  {
    if a & b != 0 {
      var pos := FindShared(a, b);
      assert pos in Positions(a) * Positions(b);
    } else {
      forall pos: nat ensures pos !in Positions(a) * Positions(b) {
        NothingSharedAt(a, b, pos);
      }
    }
  }

  lemma FindShared(a: bv64, b: bv64) returns (pos: nat)
    requires !Negative(a) && a & b != 0
    ensures pos in Positions(a) && pos in Positions(b)
  {
    AndNotNegative(a, b);
    pos := SomePosition(a & b);
    SharedIsSet(a, b, pos);
    InPositions(a, pos);
    InPositions(b, pos);
  }

  lemma SharedIsSet(a: bv64, b: bv64, pos: nat)
    requires IsSet(a & b, pos)
    ensures IsSet(a, pos) && IsSet(b, pos)
  {
    AndBit(a, b, Bit(pos));
  }

  lemma NothingSharedAt(a: bv64, b: bv64, pos: nat)
    requires a & b == 0
    ensures pos !in Positions(a) || pos !in Positions(b)
  {
    InPositions(a, pos);
    InPositions(b, pos);
    if pos < 63 {
      BitSingle(pos);
      NothingShared(a, b, Bit(pos));
    }
  }

  lemma SharedAnd(a: bv64, b: bv64, pos: nat)
    requires pos in Positions(a) && pos in Positions(b)
    ensures a & b != 0
  {
    if a & b == 0 { NothingSharedAt(a, b, pos); }
  }

  lemma HasPosition(m: bv64, pos: nat)
    requires pos in Positions(m)
    ensures m != 0
  {
    ZeroPositions();
  }

  /** A position in common is enough for the single-call bit check. */
  lemma SharedHasBit(a: bv64, b: bv64, pos: nat)
    requires pos in Positions(a) && pos in Positions(b)
    ensures HasBit(a, b)
  {
    SharedAnd(a, b, pos);
    HasPosition(b, pos);
  }

  lemma AndNotNegative(a: bv64, b: bv64)
    requires !Negative(a)
    ensures !Negative(a & b)
  {
  }

  lemma AndBit(a: bv64, b: bv64, bit: bv64)
    requires (a & b) & bit != 0
    ensures a & bit != 0 && b & bit != 0
  {
  }

  lemma NothingShared(a: bv64, b: bv64, bit: bv64)
    requires a & b == 0 && Single(bit)
    ensures a & bit == 0 || b & bit == 0
  {
  }
}
