/** A domain with 64 types: the table, how the store comes to hold it, and what a load leaves out.

    The types are titled t, tt, ttt, ... The first 63 have two bits each, among positions 1 to 16; the
    last one has bit 1 and is cut off. */
module CrowdedDomain {
  import opened Basics
  import opened Masks
  import opened AccessBits
  import opened Ordering
  import opened Schema
  import opened TitleCodec
  import opened AccessTypeTable

  const CROWD := 64

  function Title(i: nat): string {
    seq(i + 1, _ => 't')
  }

  /** 63 different pairs of a position in 1..8 and one in 9..16. */
  function PairBit(i: nat): bv64 {
    Bit(1 + i / 8) | Bit(9 + i % 8)
  }

  function CrowdType(i: nat): AccessType {
    AccessType("d", Title(i), if i < 63 then PairBit(i) else 1)
  }

  /** The table after n creates. */
  function Crowd(n: nat): map<Id, AccessType> {
    if n == 0 then map[] else Crowd(n - 1)[Title(n - 1) := CrowdType(n - 1)]
  }

  // ---- titles ----

  lemma TitlesDiffer(i: nat, j: nat)
    requires i != j
    ensures Title(i) != Title(j)
  {
    assert |Title(i)| == i + 1 && |Title(j)| == j + 1;
  }

  lemma {:induction false} TitlesOrdered(i: nat, j: nat)
    ensures Less(Title(i), Title(j)) <==> i < j
  {
    if i > 0 && j > 0 {
      assert Title(i)[1..] == Title(i - 1) && Title(j)[1..] == Title(j - 1);
      TitlesOrdered(i - 1, j - 1);
    } else {
      assert Title(0)[1..] == [];
      if j > 0 { assert Title(j)[1..] == Title(j - 1); }
      if i > 0 { assert Title(i)[1..] == Title(i - 1); }
    }
  }

  ghost function FirstTitles(n: nat): set<string> {
    if n == 0 then {} else FirstTitles(n - 1) + {Title(n - 1)}
  }

  lemma {:induction false} InFirstTitles(n: nat, s: string)
    ensures s in FirstTitles(n) <==> exists i: nat :: i < n && s == Title(i)
  {
    if n > 0 { InFirstTitles(n - 1, s); }
  }

  lemma {:induction false} FirstTitlesSize(n: nat)
    ensures |FirstTitles(n)| == n
  {
    if n > 0 {
      FirstTitlesSize(n - 1);
      InFirstTitles(n - 1, Title(n - 1));
      forall i: nat | i < n - 1 { TitlesDiffer(i, n - 1); }
    }
  }

  // ---- bits ----

  lemma TwoPositions(a: bv64, b: bv64, p: nat, q: nat)
    requires Positions(a) == {p} && Positions(b) == {q}
    ensures Positions(a | b) == {p, q}
  {
    OrPositions(a, b);
  }

  lemma PairOf(i: nat, a: bv64, b: bv64)
    requires i < 63 && a == Bit(1 + i / 8) && b == Bit(9 + i % 8)
    ensures PairBit(i) == a | b
  {
  }

  lemma PairPositions(i: nat)
    requires i < 63
    ensures Positions(PairBit(i)) == {1 + i / 8, 9 + i % 8} && !Negative(PairBit(i))
  {
    var p, q := 1 + i / 8, 9 + i % 8;
    var a, b := Bit(p), Bit(q);
    BitSingle(p);
    BitSingle(q);
    OrNotNegative(a, b);
    BitPositions(p);
    BitPositions(q);
    TwoPositions(a, b, p, q);
    PairOf(i, a, b);
  }

  lemma OrNotNegative(a: bv64, b: bv64)
    requires !Negative(a) && !Negative(b)
    ensures !Negative(a | b)
  {
  }

  lemma CrowdPositions(i: nat)
    requires i <= 63
    ensures Positions(CrowdType(i).bit) == if i < 63 then {1 + i / 8, 9 + i % 8} else {0}
    ensures !Negative(CrowdType(i).bit)
  {
    if i < 63 {
      PairPositions(i);
    } else {
      assert Bit(0) == 1;
      BitPositions(0);
    }
  }

  lemma BitsDiffer(i: nat, j: nat)
    requires i < j <= 63
    ensures CrowdType(i).bit != CrowdType(j).bit
  {
    CrowdPositions(i);
    CrowdPositions(j);
    if j < 63 && i / 8 == j / 8 {
      assert 9 + i % 8 !in Positions(CrowdType(j).bit);
    } else {
      assert 1 + i / 8 !in Positions(CrowdType(j).bit);
    }
  }

  // ---- the table ----

  lemma {:induction false} CrowdHas(n: nat, i: nat)
    requires i < n
    ensures Title(i) in Crowd(n) && Crowd(n)[Title(i)] == CrowdType(i)
  {
    if i < n - 1 {
      CrowdHas(n - 1, i);
      TitlesDiffer(i, n - 1);
    }
  }

  lemma {:induction false} CrowdOnly(n: nat, id: Id) returns (i: nat)
    requires id in Crowd(n)
    ensures i < n && id == Title(i) && Crowd(n)[id] == CrowdType(i)
  {
    if id == Title(n - 1) { i := n - 1; } else { i := CrowdOnly(n - 1, id); }
  }

  /** Every create of the crowd goes through. */
  lemma CrowdInserts(n: nat, domains: set<Id>)
    requires n <= 63 && "d" in domains
    ensures ToSql(CrowdType(n).bit) == Ok(CrowdType(n).bit)
    ensures InsertAccessType(Crowd(n), domains, Title(n), CrowdType(n)) == Ok(Crowd(n + 1))
  {
    CrowdPositions(n);
    SqlStores(CrowdType(n).bit);
    forall id | id in Crowd(n) ensures id != Title(n) && Crowd(n)[id].title != Title(n) && Crowd(n)[id].bit != CrowdType(n).bit {
      var i := CrowdOnly(n, id);
      TitlesDiffer(i, n);
      BitsDiffer(i, n);
    }
  }

  lemma SqlStores(m: bv64)
    requires !Negative(m)
    ensures ToSql(m) == Ok(m)
  {
    SqlRoundTrip(m);
  }

  lemma {:induction false} CrowdUnique(n: nat)
    requires n <= 64
    ensures UniqueAccessTypes(Crowd(n))
  {
    if n > 0 {
      CrowdUnique(n - 1);
      CrowdInserts(n - 1, {"d"});
    }
  }

  lemma CrowdTitles(n: nat)
    ensures DomainTitles(Crowd(n), "d") == FirstTitles(n)
  {
    forall s ensures s in DomainTitles(Crowd(n), "d") <==> s in FirstTitles(n) {
      InFirstTitles(n, s);
      if s in DomainTitles(Crowd(n), "d") {
        var a :| a in DomainTypes(Crowd(n), "d") && Crowd(n)[a].title == s;
        var i := CrowdOnly(n, a);
      }
      if i: nat :| i < n && s == Title(i) {
        CrowdHas(n, i);
        assert Title(i) in DomainTypes(Crowd(n), "d");
      }
    }
  }

  /** i titles of the crowd precede the i-th one. */
  lemma CrowdRank(n: nat, i: nat)
    requires i < n
    ensures |TitlesBefore(Crowd(n), "d", Title(i))| == i
  {
    CrowdTitles(n);
    FirstTitlesSize(i);
    forall s ensures s in TitlesBefore(Crowd(n), "d", Title(i)) <==> s in FirstTitles(i) {
      InFirstTitles(n, s);
      InFirstTitles(i, s);
      if j: nat :| j < n && s == Title(j) {
        TitlesOrdered(j, i);
        if k: nat :| k < i && s == Title(k) { if j != k { TitlesDiffer(j, k); } }
      }
      if k: nat :| k < i && s == Title(k) { TitlesOrdered(k, i); }
    }
    assert TitlesBefore(Crowd(n), "d", Title(i)) == FirstTitles(i);
  }

  // ---- what a load leaves out ----

  lemma LastUnloaded(n: nat)
    requires n == CROWD
    ensures Title(63) in DomainTypes(Crowd(n), "d") && Crowd(n)[Title(63)] == CrowdType(63)
    ensures UniqueAccessTypes(Crowd(n)) && !Loaded(Crowd(n), "d", Title(63))
  {
    CrowdUnique(n);
    CrowdHas(n, 63);
    CrowdRank(n, 63);
    LoadedIffPreceded(Crowd(n), "d", Title(63));
  }

  lemma LoadedIsEarly(n: nat, t: AccessType) returns (i: nat)
    requires n == CROWD && t in LoadDomain(Crowd(n), "d")
    ensures i < 63 && t == ReadType(CrowdType(i))
  {
    CrowdUnique(n);
    LoadExactly(Crowd(n), "d", t);
    var a :| a in DomainTypes(Crowd(n), "d") && |TitlesBefore(Crowd(n), "d", Crowd(n)[a].title)| < MAX_ACCESS_TYPES
          && ReadType(Crowd(n)[a]) == t;
    i := CrowdOnly(n, a);
    CrowdRank(n, i);
  }

  lemma EarlyWithoutZero(i: nat)
    requires i < 63
    ensures 0 !in Positions(ReadType(CrowdType(i)).bit)
  {
    CrowdPositions(i);
  }

  /** No loaded type has position 0. */
  lemma ZeroUnseen(n: nat)
    requires n == CROWD
    ensures 0 !in Positions(Used(LoadDomain(Crowd(n), "d")))
  {
    UsedPositions(LoadDomain(Crowd(n), "d"), 0);
    forall t | t in LoadDomain(Crowd(n), "d") ensures 0 !in Positions(t.bit) {
      var i := LoadedIsEarly(n, t);
      EarlyWithoutZero(i);
    }
  }

  /** Positions 17 to 62 are free in the whole domain. */
  lemma UpperFree(n: nat, a: Id, pos: nat)
    requires n <= CROWD && a in Crowd(n) && pos > 16
    ensures pos !in Positions(Crowd(n)[a].bit)
  {
    var i := CrowdOnly(n, a);
    CrowdPositions(i);
  }
}
