/** Bitmaps and 5-bit hash digits of the trie, in the arithmetic of unsigned
    32-bit words: bit d of b is the parity of b / 2^d, marking a clear bit adds
    2^d and clearing a set one subtracts it. A bitmap marks the digits that have
    a child. The children lie in a compressed array in the order of their
    digits, so a child's slot is the number of marked digits below its own.
 */
module Bits {

  type Digit = d: nat | d < 32

  type Hash = h: nat | h < 0x1_0000_0000

  function Bit(d: nat): nat { if d == 0 then 1 else 2 * Bit(d - 1) }

  predicate Has(b: nat, d: nat) { if d == 0 then b % 2 == 1 else Has(b / 2, d - 1) }

  /** The number of digits below d that b marks. */
  function Rank(b: nat, d: nat): nat { if d == 0 then 0 else b % 2 + Rank(b / 2, d - 1) }

  /** The number of digits that b marks. */
  function Count(b: nat): nat { if b == 0 then 0 else b % 2 + Count(b / 2) }

  /** The 5-bit digit of a hash at a level of the trie: the hash shifted right
      by five times the level, masked with 31. Digits are only taken at levels
      0 to 6, so the shift amount never reaches 32, where it would wrap. */
  function Frag(h: nat, level: nat): Digit {
    if level == 0 then h % 32 else Frag(h / 32, level - 1)
  }

  /** Hash h starts with the digits of path. */
  ghost predicate Matches(h: Hash, path: seq<Digit>) {
    forall i | 0 <= i < |path| :: Frag(h, i) == path[i]
  }

  lemma {:induction false} EqualDigits(g: nat, h: nat, n: nat)
    requires g < Power32(n) && h < Power32(n)
    requires forall i | 0 <= i < n :: Frag(g, i) == Frag(h, i)
    ensures g == h
  {
    if n > 0 {
      assert Frag(g, 0) == Frag(h, 0);
      forall i | 0 <= i < n - 1 ensures Frag(g / 32, i) == Frag(h / 32, i) {
        assert Frag(g, i + 1) == Frag(h, i + 1);
      }
      EqualDigits(g / 32, h / 32, n - 1);
    }
  }

  function Power32(n: nat): nat { if n == 0 then 1 else 32 * Power32(n - 1) }

  /** Seven digits determine a 32-bit hash. */
  lemma DigitsDetermine(g: Hash, h: Hash, path: seq<Digit>)
    requires |path| >= 7 && Matches(g, path) && Matches(h, path)
    ensures g == h
  {
    forall i | 0 <= i < 7 ensures Frag(g, i) == Frag(h, i) {
      assert Frag(g, i) == path[i] == Frag(h, i);
    }
    assert Power32(7) == 0x8_0000_0000;
    EqualDigits(g, h, 7);
  }

  lemma MatchesChild(h: Hash, path: seq<Digit>)
    requires Matches(h, path)
    ensures Matches(h, path + [Frag(h, |path|)])
  {}

  lemma MatchesParent(h: Hash, path: seq<Digit>, d: Digit)
    requires Matches(h, path + [d])
    ensures Matches(h, path) && Frag(h, |path|) == d
  {
    var p := path + [d];
    assert p[|path|] == d;
    forall i | 0 <= i < |path| ensures Frag(h, i) == path[i] { assert p[i] == path[i]; }
  }

  // ---- Marking and clearing ----

  lemma HalfAfterSet(b: nat, d: nat)
    requires d > 0
    ensures (b + Bit(d)) / 2 == b / 2 + Bit(d - 1) && (b + Bit(d)) % 2 == b % 2
  {
    assert Bit(d) == 2 * Bit(d - 1);
  }

  lemma {:induction false} HasAfterSet(b: nat, d: nat, e: nat)
    requires !Has(b, d)
    ensures Has(b + Bit(d), e) <==> Has(b, e) || d == e
  {
    if d == 0 {
    } else {
      HalfAfterSet(b, d);
      if e > 0 {
        HasAfterSet(b / 2, d - 1, e - 1);
      }
    }
  }

  /** Marking a new digit moves up the slots of the digits above it and no other. */
  lemma {:induction false} RankAfterSet(b: nat, d: nat, e: nat)
    requires !Has(b, d)
    ensures Rank(b + Bit(d), e) == Rank(b, e) + (if d < e then 1 else 0)
  {
    if d == 0 {
    } else {
      HalfAfterSet(b, d);
      if e > 0 {
        RankAfterSet(b / 2, d - 1, e - 1);
      }
    }
  }

  lemma {:induction false} CountAfterSet(b: nat, d: nat)
    requires !Has(b, d)
    ensures Count(b + Bit(d)) == Count(b) + 1
  {
    if d == 0 {
    } else {
      HalfAfterSet(b, d);
      CountAfterSet(b / 2, d - 1);
    }
  }

  /** A set bit can be subtracted, and adding it back restores the word. */
  lemma {:induction false} ClearBit(b: nat, d: nat)
    requires Has(b, d)
    ensures Bit(d) <= b && !Has(b - Bit(d), d)
  {
    if d > 0 {
      ClearBit(b / 2, d - 1);
      assert (b - Bit(d)) / 2 == b / 2 - Bit(d - 1);
    }
  }

  lemma {:induction false} RankInRange(b: nat, d: nat)
    requires Has(b, d)
    ensures Rank(b, d) < Count(b)
  {
    if d > 0 {
      RankInRange(b / 2, d - 1);
    }
  }

  lemma {:induction false} RankAtMost(b: nat, d: nat)
    ensures Rank(b, d) <= Count(b)
  {
    if d > 0 {
      RankAtMost(b / 2, d - 1);
    }
  }

  /** Slots follow the order of digits. */
  lemma {:induction false} RankMonotone(b: nat, d: nat, e: nat)
    requires Has(b, d) && d < e
    ensures Rank(b, d) < Rank(b, e)
  {
    if d > 0 {
      RankMonotone(b / 2, d - 1, e - 1);
    }
  }

  lemma RankInjective(b: nat, d: nat, e: nat)
    requires Has(b, d) && Has(b, e) && d != e
    ensures Rank(b, d) != Rank(b, e)
  {
    if d < e {
      RankMonotone(b, d, e);
    } else {
      RankMonotone(b, e, d);
    }
  }

  /** Bitmap b1 marks the digits of b0 and d. Digit d takes the slot that it
      would have had in b0, and the slots from there on move up by one. */
  ghost predicate Inserted(b0: nat, b1: nat, d: nat) {
    && !Has(b0, d) && Has(b1, d) && Rank(b1, d) == Rank(b0, d) <= Count(b0)
    && Count(b1) == Count(b0) + 1
    && (forall e: nat :: Has(b1, e) <==> Has(b0, e) || e == d)
    && forall e: nat | Has(b0, e) ::
         Rank(b1, e) == Rank(b0, e) + (if Rank(b0, e) < Rank(b0, d) then 0 else 1)
  }

  lemma SetInserts(b: nat, d: nat)
    requires !Has(b, d)
    ensures Inserted(b, b + Bit(d), d)
  {
    CountAfterSet(b, d);
    RankAfterSet(b, d, d);
    RankAtMost(b, d);
    HasAfterSet(b, d, d);
    forall e: nat
      ensures Has(b + Bit(d), e) <==> Has(b, e) || e == d
      ensures Has(b, e) ==>
              Rank(b + Bit(d), e) == Rank(b, e) + (if Rank(b, e) < Rank(b, d) then 0 else 1)
    {
      HasAfterSet(b, d, e);
      RankAfterSet(b, d, e);
      if Has(b, e) {
        if e < d { RankMonotone(b, e, d); } else { RankOrder(b, d, e); }
      }
    }
  }

  lemma ClearInserts(b: nat, d: nat)
    requires Has(b, d)
    ensures Bit(d) <= b && Inserted(b - Bit(d), b, d)
  {
    ClearBit(b, d);
    SetInserts(b - Bit(d), d);
  }

  lemma {:induction false} RankOrder(b: nat, d: nat, e: nat)
    requires d <= e
    ensures Rank(b, d) <= Rank(b, e)
  {
    if d > 0 {
      RankOrder(b / 2, d - 1, e - 1);
    }
  }

  /** The word shifted right by s. */
  function Shr(b: nat, s: nat): nat { if s == 0 then b else Shr(b / 2, s - 1) }

  /** Shifting one place at a time meets the bits in order; the ones met so far
      and the ones still to come add up to the count. */
  lemma {:induction false} ShrStep(b: nat, s: nat)
    ensures Shr(b, s + 1) == Shr(b, s) / 2
    ensures Has(b, s) <==> Shr(b, s) % 2 == 1
    ensures Rank(b, s + 1) == Rank(b, s) + Shr(b, s) % 2
    ensures Count(b) == Rank(b, s) + Count(Shr(b, s))
  {
    if s > 0 {
      ShrStep(b / 2, s - 1);
    }
  }

  lemma {:induction false} ShrZero(b: nat, s: nat, e: nat)
    requires Shr(b, s) == 0 && s <= e
    ensures !Has(b, e)
  {
    if s > 0 {
      ShrZero(b / 2, s - 1, e - 1);
    } else {
      NoBits(e);
    }
  }

  lemma {:induction false} NoBits(e: nat)
    ensures !Has(0, e)
  {
    if e > 0 {
      NoBits(e - 1);
    }
  }

  lemma {:induction false} SomeBit(b: nat) returns (d: nat)
    requires b > 0
    ensures Has(b, d)
  {
    if b % 2 == 1 {
      d := 0;
    } else {
      d := SomeBit(b / 2);
      d := d + 1;
    }
  }

  /** A word with no marks from 32 up is used up by 32 shifts. */
  lemma {:induction false} ShrDone(b: nat, s: nat)
    requires Shr(b, s) != 0
    ensures exists e: nat :: s <= e && Has(b, e)
  {
    if s > 0 {
      ShrDone(b / 2, s - 1);
      var e: nat :| s - 1 <= e && Has(b / 2, e);
      assert Has(b, e + 1);
    } else {
      var e := SomeBit(b);
    }
  }

  /** Two slots leave room for two digits. */
  lemma TwoDigits(b: nat, d: nat, e: nat, f: nat)
    requires Count(b) == 2 && Has(b, d) && Has(b, e) && Has(b, f) && Rank(b, d) != Rank(b, e)
    ensures f == d || f == e
  {
    RankInRange(b, d);
    RankInRange(b, e);
    RankInRange(b, f);
    if f != d && f != e {
      RankInjective(b, f, d);
      RankInjective(b, f, e);
    }
  }

  /** Every slot belongs to a marked digit. */
  lemma {:induction false} DigitAt(b: nat, i: nat) returns (d: nat)
    requires i < Count(b)
    ensures Has(b, d) && Rank(b, d) == i
  {
    if b % 2 == 1 && i == 0 {
      d := 0;
    } else {
      var c := DigitAt(b / 2, i - b % 2);
      d := c + 1;
    }
  }
}
