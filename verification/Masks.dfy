/** Access masks: uint64 in the program, signed 64-bit INTEGER in the database.

    A column value is kept as its 64 bits, so the sign of a stored value is its top bit. */
module Masks {
  import opened Basics

  const SIGN_BIT: bv64 := 0x8000_0000_0000_0000
  const MAX_INT64: bv64 := 0x7FFF_FFFF_FFFF_FFFF

  /** SQL `v < 0` on a stored value. */
  predicate Negative(v: bv64) {
    v & SIGN_BIT != 0
  }

  /** SQL `v > 0` on a stored value. */
  predicate Positive(v: bv64) {
    v != 0 && !Negative(v)
  }

  /** A negative (legacy) value is read as no access at all. */
  function FromSql(v: bv64): bv64 {
    if Negative(v) then 0 else v
  }

  function ToSql(m: bv64): Result<bv64> {
    if m > MAX_INT64 then Err(InvalidInput("mask value exceeds signed 64-bit range")) else Ok(m)
  }

  predicate HasBit(effectiveMask: bv64, bit: bv64) {
    bit != 0 && effectiveMask & bit != 0
  }

  /** Every bit of `a` is also in `b`. */
  predicate Within(a: bv64, b: bv64) {
    a | b == b
  }

  // ---- facts about single words ----

  lemma OrCommutes(a: bv64, b: bv64)
    ensures a | b == b | a
  {
  }

  lemma OrSwap(a: bv64, b: bv64, c: bv64)
    ensures a | (b | c) == b | (a | c)
  {
  }

  lemma WithinOr(a: bv64, b: bv64)
    ensures Within(a, a | b) && Within(b, a | b)
  {
  }

  lemma OrWithin(a: bv64, b: bv64, c: bv64)
    requires Within(a, c) && Within(b, c)
    ensures Within(a | b, c)
  {
  }

  lemma WithinTransitive(a: bv64, b: bv64, c: bv64)
    requires Within(a, b) && Within(b, c)
    ensures Within(a, c)
  {
    assert a | c == a | (b | c) == (a | b) | c;
  }

  lemma WithinAntisymmetric(a: bv64, b: bv64)
    requires Within(a, b) && Within(b, a)
    ensures a == b
  {
    OrCommutes(a, b);
  }

  lemma WithinHasBit(a: bv64, b: bv64, bit: bv64)
    requires Within(a, b) && HasBit(a, bit)
    ensures HasBit(b, bit)
  {
  }

  lemma OrHasBit(a: bv64, b: bv64, bit: bv64)
    requires HasBit(a | b, bit)
    ensures HasBit(a, bit) || HasBit(b, bit)
  {
  }

  lemma FitsWithin(m: bv64)
    requires !Negative(m)
    ensures Within(m, MAX_INT64)
  {
  }

  lemma WithinFits(m: bv64)
    requires Within(m, MAX_INT64)
    ensures !Negative(m) && ToSql(m) == Ok(m)
  {
  }

  /** What ToSql lets through is exactly what FromSql gives back unchanged. */
  lemma SqlRoundTrip(m: bv64)
    ensures ToSql(m).Ok? <==> FromSql(m) == m
    ensures ToSql(m).Ok? ==> ToSql(m).value == m && !Negative(m)
  {
    if !Negative(m) {
      FitsWithin(m);
      WithinFits(m);
    }
  }

  // ---- the OR of many rows ----

  /** The bitwise OR of the masks found in a set of rows, taken in no particular order. */
  ghost function OrAll<K>(rows: map<K, bv64>): bv64
    decreases |rows|
  {
    if rows.Keys == {} then 0
    else
      var id :| id in rows.Keys;
      rows[id] | OrAll(rows - {id})
  }

  /** The choice made inside OrAll does not matter: any row may be read first. */
  lemma {:induction false} OrAllRemove<K>(rows: map<K, bv64>, id: K)
    requires id in rows
    ensures OrAll(rows) == rows[id] | OrAll(rows - {id})
    decreases |rows|
  {
    var first :| first in rows.Keys && OrAll(rows) == rows[first] | OrAll(rows - {first});
    if first != id {
      OrAllRemove(rows - {first}, id);
      OrAllRemove(rows - {id}, first);
      assert rows - {first} - {id} == rows - {id} - {first};
      OrSwap(rows[first], rows[id], OrAll(rows - {first} - {id}));
    }
  }

  /** Reading one more row of a result set of which `left` is still to come. */
  lemma OrAllReadOne<K>(rows: map<K, bv64>, left: set<K>, id: K)
    requires id in left && left <= rows.Keys
    ensures OrAll(rows - (left - {id})) == OrAll(rows - left) | rows[id]
  {
    assert rows - (left - {id}) - {id} == rows - left;
    OrAllRemove(rows - (left - {id}), id);
    OrCommutes(OrAll(rows - left), rows[id]);
  }

  /** OrAll is an upper bound of its rows ... */
  lemma OrAllUpper<K>(rows: map<K, bv64>, id: K)
    requires id in rows
    ensures Within(rows[id], OrAll(rows))
  {
    OrAllRemove(rows, id);
    WithinOr(rows[id], OrAll(rows - {id}));
  }

  /** ... and the least one: with OrAllUpper this says exactly which mask OrAll is. */
  lemma {:induction false} OrAllLeast<K>(rows: map<K, bv64>, bound: bv64)
    requires forall id | id in rows :: Within(rows[id], bound)
    ensures Within(OrAll(rows), bound)
    decreases |rows|
  {
    if rows.Keys != {} {
      var id :| id in rows.Keys;
      OrAllRemove(rows, id);
      OrAllLeast(rows - {id}, bound);
      OrWithin(rows[id], OrAll(rows - {id}), bound);
    }
  }

  /** More rows can only add bits, and rows with a zero mask do not count. */
  lemma OrAllMonotone<K>(small: map<K, bv64>, large: map<K, bv64>)
    requires forall id | id in small && small[id] != 0 :: id in large && large[id] == small[id]
    ensures Within(OrAll(small), OrAll(large))
  {
    forall id | id in small ensures Within(small[id], OrAll(large)) {
      if small[id] != 0 { OrAllUpper(large, id); }
    }
    OrAllLeast(small, OrAll(large));
  }

  /** Row sets that agree on their non-zero masks have the same OR. */
  lemma OrAllSameNonZero<K>(a: map<K, bv64>, b: map<K, bv64>)
    requires forall id | id in a && a[id] != 0 :: id in b && b[id] == a[id]
    requires forall id | id in b && b[id] != 0 :: id in a && a[id] == b[id]
    ensures OrAll(a) == OrAll(b)
  {
    OrAllMonotone(a, b);
    OrAllMonotone(b, a);
    WithinAntisymmetric(OrAll(a), OrAll(b));
  }

  /** A bit is in the OR exactly when some row carries it. */
  lemma OrAllHasBit<K>(rows: map<K, bv64>, bit: bv64)
    ensures HasBit(OrAll(rows), bit) <==> exists id | id in rows :: HasBit(rows[id], bit)
  {
    forall id | id in rows && HasBit(rows[id], bit) ensures HasBit(OrAll(rows), bit) {
      OrAllUpper(rows, id);
      WithinHasBit(rows[id], OrAll(rows), bit);
    }
    if HasBit(OrAll(rows), bit) {
      var id := BitCarrier(rows, bit);
    }
  }

  lemma {:induction false} BitCarrier<K>(rows: map<K, bv64>, bit: bv64) returns (id: K)
    requires HasBit(OrAll(rows), bit)
    ensures id in rows && HasBit(rows[id], bit)
    decreases |rows|
  {
    id :| id in rows.Keys;
    OrAllRemove(rows, id);
    OrHasBit(rows[id], OrAll(rows - {id}), bit);
    if !HasBit(rows[id], bit) {
      id := BitCarrier(rows - {id}, bit);
    }
  }

  /** The OR is zero exactly when every row is. */
  lemma OrAllZero<K>(rows: map<K, bv64>)
    ensures OrAll(rows) == 0 <==> forall id | id in rows :: rows[id] == 0
  {
    if OrAll(rows) == 0 {
      forall id | id in rows ensures rows[id] == 0 {
        OrAllUpper(rows, id);
      }
    }
    if forall id | id in rows :: rows[id] == 0 {
      OrAllLeast(rows, 0);
    }
  }

  /** An OR of values that fit a signed column fits a signed column. */
  lemma OrAllFits<K>(rows: map<K, bv64>)
    requires forall id | id in rows :: !Negative(rows[id])
    ensures !Negative(OrAll(rows)) && ToSql(OrAll(rows)) == Ok(OrAll(rows))
  {
    forall id | id in rows ensures Within(rows[id], MAX_INT64) {
      FitsWithin(rows[id]);
    }
    OrAllLeast(rows, MAX_INT64);
    WithinFits(OrAll(rows));
  }

  /** The masks of a result set, ORed from first to last. */
  function OrSeq(masks: seq<bv64>): bv64 {
    if masks == [] then 0 else OrSeq(masks[..|masks| - 1]) | masks[|masks| - 1]
  }

  lemma OrSeqAppend(masks: seq<bv64>, m: bv64)
    ensures OrSeq(masks + [m]) == OrSeq(masks) | m
  {
    assert (masks + [m])[..|masks|] == masks;
  }

  /** CombineMasks: the accumulating loop. */
  method CombineMasks(masks: seq<bv64>) returns (out: bv64)
    ensures out == OrSeq(masks)
  {
    out := 0;
    for i := 0 to |masks|
      invariant out == OrSeq(masks[..i])
    {
      out := out | masks[i];
      assert masks[..i + 1][..i] == masks[..i];
    }
    assert masks[..|masks|] == masks;
  }

  /** The row loop of computeAndUpsertMask: ORs a result set in whatever order its rows come. */
  method OrRows<K(==)>(rows: map<K, bv64>) returns (combined: bv64)
    ensures combined == OrAll(rows)
  {
    combined := 0;
    var left := rows.Keys;
    assert rows - left == map[];
    while left != {}
      invariant left <= rows.Keys && combined == OrAll(rows - left)
      decreases |left|
    {
      var p :| p in left;
      OrAllReadOne(rows, left, p);
      combined := combined | rows[p];
      left := left - {p};
    }
    assert rows - {} == rows;
  }

  /** Reads a result set of masks into a slice. */
  method ScanMasks<K(==)>(rows: map<K, bv64>) returns (masks: seq<bv64>)
    ensures |masks| == |rows| && OrSeq(masks) == OrAll(rows)
  {
    masks := [];
    var left := rows.Keys;
    assert rows - left == map[];
    while left != {}
      invariant left <= rows.Keys && OrSeq(masks) == OrAll(rows - left) && |masks| + |left| == |rows|
      decreases |left|
    {
      var p :| p in left;
      OrAllReadOne(rows, left, p);
      OrSeqAppend(masks, rows[p]);
      masks := masks + [rows[p]];
      left := left - {p};
    }
    assert rows - {} == rows;
  }
}
