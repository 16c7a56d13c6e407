/** The titles a reader sees for a mask: the text of a stand-in, read back digit by digit, and which
    titles and stand-ins a list holds. */
module TitleTexts {
  import opened Basics
  import opened Masks
  import opened AccessBits
  import opened Ordering
  import opened Schema
  import opened TitleCodec
  import opened TitleTheorems

  // ---- reading numbers ----

  predicate IsDigit(c: char) {
    '0' <= c <= '9'
  }

  function DigitValue(c: char): nat
    requires IsDigit(c)
  {
    (c - '0') as nat
  }

  /** Digits only, and no leading zero before another digit. */
  predicate IsDecimal(s: string) {
    s != "" && (forall i | 0 <= i < |s| :: IsDigit(s[i])) && (|s| > 1 ==> s[0] != '0')
  }

  function ReadNumber(s: string): nat
    requires forall i | 0 <= i < |s| :: IsDigit(s[i])
  {
    if s == "" then 0 else 10 * ReadNumber(s[..|s| - 1]) + DigitValue(s[|s| - 1])
  }

  /** The text is a stand-in for the bit whose value is n. */
  predicate StandsFor(s: string, n: nat) {
    |s| >= 5 && s[..5] == "_bit:" && IsDecimal(s[5..]) && ReadNumber(s[5..]) == n
  }

  lemma DigitReads(d: nat)
    requires d < 10
    ensures IsDigit(Digit(d)) && DigitValue(Digit(d)) == d
  {
  }

  /** What is written is a decimal number, and reads as what was written. */
  lemma {:induction false} DecimalReads(n: nat)
    ensures IsDecimal(Decimal(n)) && ReadNumber(Decimal(n)) == n
    ensures n > 0 ==> Decimal(n)[0] != '0'
  {
    DigitReads(n % 10);
    if n >= 10 {
      DecimalReads(n / 10);
      assert Decimal(n)[..|Decimal(n)| - 1] == Decimal(n / 10);
    } else {
      assert Decimal(n)[..0] == "";
    }
  }

  lemma {:induction false} ReadsPositive(s: string)
    requires s != "" && (forall i | 0 <= i < |s| :: IsDigit(s[i])) && s[0] != '0'
    ensures ReadNumber(s) > 0
  {
    if |s| > 1 { ReadsPositive(s[..|s| - 1]); }
  }

  lemma DigitWrites(c: char)
    requires IsDigit(c)
    ensures DigitValue(c) < 10 && Digit(DigitValue(c)) == c
  {
  }

  lemma DecimalAppend(n: nat, d: nat)
    requires n > 0 && d < 10
    ensures Decimal(10 * n + d) == Decimal(n) + [Digit(d)]
  {
    assert (10 * n + d) / 10 == n && (10 * n + d) % 10 == d;
  }

  /** There is no other way to write the number. */
  lemma {:induction false} DecimalUnique(s: string)
    requires IsDecimal(s)
    ensures s == Decimal(ReadNumber(s))
  {
    var n := |s| - 1;
    DigitWrites(s[n]);
    assert s == s[..n] + [s[n]];
    if n > 0 {
      ReadsPositive(s[..n]);
      DecimalUnique(s[..n]);
      DecimalAppend(ReadNumber(s[..n]), DigitValue(s[n]));
    } else {
      assert s[..n] == "";
    }
  }

  // ---- stand-ins ----

  lemma DoubleValue(b: bv64)
    requires !Negative(b)
    ensures (b << 1) as nat == 2 * (b as nat)
  {
  }

  lemma {:induction false} PowerIsBit(pos: nat)
    requires pos <= 62
    ensures PowerOfTwo(pos) == Bit(pos) as nat
  {
    if pos > 0 {
      PowerIsBit(pos - 1);
      BitSingle(pos - 1);
      DoubleValue(Bit(pos - 1));
    }
  }

  lemma StandInText(n: nat, s: string)
    ensures StandsFor(s, n) <==> s == "_bit:" + Decimal(n)
  {
    DecimalReads(n);
    var text := "_bit:" + Decimal(n);
    assert text[..5] == "_bit:" && text[5..] == Decimal(n);
    if StandsFor(s, n) {
      DecimalUnique(s[5..]);
      assert s == s[..5] + s[5..];
    }
  }

  /** The stand-in of a position shows the value of its bit, and is the only text that does. */
  lemma SentinelText(pos: nat, s: string)
    requires pos <= 62
    ensures StandsFor(s, Bit(pos) as nat) <==> s == Sentinel(pos)
  {
    PowerIsBit(pos);
    StandInText(PowerOfTwo(pos), s);
  }

  // ---- what a list holds ----

  /** Some type's value has the bit. */
  ghost predicate HasType(types: seq<AccessType>, bit: bv64) {
    exists t | t in types :: HasBit(t.bit, bit)
  }

  lemma HasTypeUsed(types: seq<AccessType>, pos: nat)
    requires pos <= 62
    ensures HasType(types, Bit(pos)) <==> pos in Positions(Used(types))
  {
    UsedPositions(types, pos);
    forall t | t in types ensures pos in Positions(t.bit) <==> HasBit(t.bit, Bit(pos)) { PositionHasBit(t.bit, pos); }
  }

  lemma UnregisteredExactly(mask: bv64, types: seq<AccessType>, pos: nat)
    requires pos <= 62
    ensures pos in Unregistered(mask, types) <==> HasBit(mask, Bit(pos)) && !HasType(types, Bit(pos))
  {
    PositionHasBit(mask, pos);
    HasTypeUsed(types, pos);
    if pos in Positions(mask) { CoveredAt(mask, types, pos); }
  }

  /** A bit of the mask that no type has. */
  ghost predicate Untitled(mask: bv64, types: seq<AccessType>, pos: nat) {
    pos <= 62 && HasBit(mask, Bit(pos)) && !HasType(types, Bit(pos))
  }

  lemma StandInsListed(mask: bv64, types: seq<AccessType>, s: string)
    ensures (exists pos | pos in Unregistered(mask, types) :: pos < 63 && s == Sentinel(pos))
            <==> (exists pos: nat | Untitled(mask, types, pos) :: StandsFor(s, Bit(pos) as nat))
  {
    if pos :| pos in Unregistered(mask, types) && pos < 63 && s == Sentinel(pos) {
      SentinelText(pos, s);
      UnregisteredExactly(mask, types, pos);
      assert Untitled(mask, types, pos);
    }
    if pos: nat :| Untitled(mask, types, pos) && StandsFor(s, Bit(pos) as nat) {
      SentinelText(pos, s);
      UnregisteredExactly(mask, types, pos);
    }
  }

  /** A text is in the list of a mask exactly when it is the title of a type that shares a bit with the mask, or
      stands for the value of a bit of the mask that no type has. */
  lemma ListedExactly(mask: bv64, types: seq<AccessType>, titles: seq<string>, s: string)
    requires IsTitleList(mask, types, titles)
    ensures s in titles <==>
            || (exists t | t in types :: HasBit(mask, t.bit) && t.title == s)
            || (exists pos: nat | Untitled(mask, types, pos) :: StandsFor(s, Bit(pos) as nat))
  {
    ListMember(mask, types, titles, s);
    StandInsListed(mask, types, s);
  }

  /** Every single bit of the mask is shown: by the titles of the types that have it, or under its value. */
  lemma EveryBitShown(mask: bv64, types: seq<AccessType>, titles: seq<string>, bit: bv64)
    requires IsTitleList(mask, types, titles) && Single(bit) && !Negative(bit) && HasBit(mask, bit)
    ensures if HasType(types, bit)
            then exists t | t in types :: HasBit(t.bit, bit) && t.title in titles
            else exists s | s in titles :: StandsFor(s, bit as nat)
  {
    SingleHasPosition(bit);
    var pos: nat :| pos <= 62 && bit == Bit(pos);
    if HasType(types, bit) {
      var t :| t in types && HasBit(t.bit, bit);
      PositionHasBit(mask, pos);
      PositionHasBit(t.bit, pos);
      SharedHasBit(mask, t.bit, pos);
      ListedExactly(mask, types, titles, t.title);
    } else {
      SentinelText(pos, Sentinel(pos));
      assert Untitled(mask, types, pos);
      ListedExactly(mask, types, titles, Sentinel(pos));
    }
  }

  /** A title stands for the bit of the last type that has the title and a bit at all. */
  lemma {:induction false} LookupExactly(types: seq<AccessType>, title: string, bit: bv64)
    ensures title in BitsByTitle(types) && BitsByTitle(types)[title] == bit <==>
            exists i | 0 <= i < |types| :: types[i].title == title && types[i].bit == bit && bit != 0 && NoneAfter(types, title, i)
  {
    if types != [] {
      var n := |types| - 1;
      LookupExactly(types[..n], title, bit);
      if types[n].title == title && types[n].bit != 0 {
        assert NoneAfter(types, title, n);
      } else {
        forall i | 0 <= i < n ensures NoneAfter(types, title, i) <==> NoneAfter(types[..n], title, i) {
          assert forall j | i < j < n :: types[..n][j] == types[j];
        }
        if i :| 0 <= i < n && types[..n][i].title == title && types[..n][i].bit == bit && bit != 0 && NoneAfter(types[..n], title, i) {
          assert types[i].title == title && NoneAfter(types, title, i);
        }
        if i :| 0 <= i < |types| && types[i].title == title && types[i].bit == bit && bit != 0 && NoneAfter(types, title, i) {
          assert types[..n][i].title == title && NoneAfter(types[..n], title, i);
        }
      }
    }
  }

  /** No later type has the title and a bit. */
  ghost predicate NoneAfter(types: seq<AccessType>, title: string, i: nat) {
    forall j | i < j < |types| :: types[j].title != title || types[j].bit == 0
  }

  /** A list of titles is refused for its first title without a bit, whatever follows. */
  lemma FirstUnknownRefused(titles: seq<string>, bits: map<string, bv64>, i: nat)
    requires i < |titles| && titles[i] !in bits && forall j | 0 <= j < i :: titles[j] in bits
    ensures MaskOf(titles, bits) == Err(UnknownTitle(titles[i]))
  {
    KnownRead(titles[..i], bits);
    FirstUnknown(titles, bits, i);
  }

  lemma {:induction false} KnownRead(titles: seq<string>, bits: map<string, bv64>)
    requires forall j | 0 <= j < |titles| :: titles[j] in bits
    ensures MaskOf(titles, bits).Ok?
  {
    if titles != [] { KnownRead(titles[..|titles| - 1], bits); }
  }
}
