/** The word trick by which the trie counts the marked digits: neighbouring fields
    of the word are added in parallel, and the result is the number of set bits.
 */
module Popcount {
  import opened Bits

  // ---- Masks that keep every other field of 1, 2 and 4 bits ----

  function Odd1(n: nat): nat { if n == 0 then 0 else n % 2 + 4 * Odd1(n / 4) }

  function Odd2(n: nat): nat { if n == 0 then 0 else n % 4 + 16 * Odd2(n / 16) }

  function Odd4(n: nat): nat { if n == 0 then 0 else n % 16 + 256 * Odd4(n / 256) }

  /** Each stage adds the neighbouring fields; the last one adds the four octets
      and keeps seven bits. */
  function AddBits(n: nat): nat { if n >= Odd1(n / 2) then n - Odd1(n / 2) else 0 }

  function AddPairs(a: nat): nat { Odd2(a) + Odd2(a / 4) }

  function AddNibbles(b: nat): nat { Odd4(b + b / 16) }

  function AddOctets(c: nat): nat {
    var d := c + c / 0x100;
    (d + d / 0x1_0000) % 128
  }

  /** The count as the code computes it for a word of 32 bits, with the masks
      0x55555555, 0x33333333 and 0x0F0F0F0F. */
  function Popcount(n: Hash): nat { AddOctets(AddNibbles(AddPairs(AddBits(n)))) }

  // ---- The counts of the fields of 2, 4 and 8 bits ----

  function Pairs(n: nat): nat { if n == 0 then 0 else Rank(n, 2) + 4 * Pairs(n / 4) }

  function Nibbles(n: nat): nat { if n == 0 then 0 else Rank(n, 4) + 16 * Nibbles(n / 16) }

  function Octets(n: nat): nat { if n == 0 then 0 else Rank(n, 8) + 256 * Octets(n / 256) }

  lemma {:induction false} RankOfZero(d: nat)
    ensures Rank(0, d) == 0
  {
    if d > 0 {
      RankOfZero(d - 1);
    }
  }

  lemma {:induction false} RankBound(n: nat, d: nat)
    ensures Rank(n, d) <= d
  {
    if d > 0 {
      RankBound(n / 2, d - 1);
    }
  }

  lemma {:induction false} RankAdd(n: nat, a: nat, b: nat)
    ensures Rank(n, a + b) == Rank(n, a) + Rank(Shr(n, a), b)
  {
    if a > 0 {
      RankAdd(n / 2, a - 1, b);
    }
  }

  lemma {:induction false} ShrAdd(n: nat, a: nat, b: nat)
    ensures Shr(n, a + b) == Shr(Shr(n, a), b)
  {
    if a > 0 {
      ShrAdd(n / 2, a - 1, b);
    }
  }

  lemma Shifts(n: nat)
    ensures Shr(n, 2) == n / 4 && Shr(n, 4) == n / 16 && Shr(n, 8) == n / 256
  {
    ShrTwo(n);
    ShrTwo(n / 4);
    ShrTwo(n / 16);
    ShrTwo(n / 64);
    ShrAdd(n, 2, 2);
    ShrAdd(n, 4, 2);
    ShrAdd(n, 6, 2);
  }

  lemma ShrTwo(n: nat)
    ensures Shr(n, 2) == n / 4
  {
    assert Shr(n, 2) == Shr(n / 2, 1) == Shr(n / 2 / 2, 0);
  }

  /** A field is the sum of its halves. */
  lemma Halves(n: nat)
    ensures Rank(n, 4) == Rank(n, 2) + Rank(n / 4, 2) && Rank(n, 8) == Rank(n, 4) + Rank(n / 16, 4)
  {
    Shifts(n);
    RankAdd(n, 2, 2);
    RankAdd(n, 4, 4);
  }

  // ---- The stages ----

  lemma By4(q: nat, r: nat)
    requires r < 4
    ensures (r + 4 * q) / 4 == q && (r + 4 * q) % 4 == r
  {}

  lemma By16(q: nat, r: nat)
    requires r < 16
    ensures (r + 16 * q) / 16 == q && (r + 16 * q) % 16 == r
  {}

  lemma By256(q: nat, r: nat)
    requires r < 256
    ensures (r + 256 * q) / 256 == q && (r + 256 * q) % 256 == r
  {}

  lemma Twice(n: nat)
    ensures n / 4 / 4 == n / 16 && n / 16 / 16 == n / 256
  {}

  lemma {:induction false} PairStage(n: nat)
    ensures n - Odd1(n / 2) == Pairs(n) == AddBits(n)
  {
    if n > 0 {
      PairStage(n / 4);
      TwoBits(n);
      Odd1Step(n / 2);
    }
  }

  lemma Odd1Step(n: nat)
    ensures Odd1(n) == n % 2 + 4 * Odd1(n / 4)
  {}

  lemma TwoBits(n: nat)
    ensures Rank(n, 2) == n % 2 + n / 2 % 2
    ensures n == n % 2 + 2 * (n / 2 % 2) + 4 * (n / 4) && n / 2 / 4 == n / 4 / 2
  {
    assert Rank(n, 2) == n % 2 + Rank(n / 2, 1) && Rank(n / 2, 1) == n / 2 % 2 + Rank(n / 2 / 2, 0);
  }

  lemma PairsStep(n: nat)
    ensures Pairs(n) % 4 == Rank(n, 2) && Pairs(n) / 4 == Pairs(n / 4)
  {
    RankOfZero(2);
    RankBound(n, 2);
    By4(Pairs(n / 4), Rank(n, 2));
  }

  lemma Odd2Step(n: nat)
    ensures Odd2(n) == n % 4 + 16 * Odd2(n / 16)
  {}

  lemma Odd4Step(n: nat)
    ensures Odd4(n) == n % 16 + 256 * Odd4(n / 256)
  {}

  lemma {:induction false} NibbleStage(n: nat)
    ensures AddPairs(Pairs(n)) == Nibbles(n)
  {
    if n > 0 {
      NibbleStage(n / 16);
      Twice(n);
      Twice(Pairs(n));
      Twice(Pairs(n / 4));
      PairsStep(n);
      PairsStep(n / 4);
      PairsStep(n / 16);
      Odd2Step(Pairs(n));
      Odd2Step(Pairs(n / 4));
      Halves(n);
    }
  }

  lemma NibblesStep(n: nat)
    ensures Nibbles(n) == Rank(n, 4) + 16 * Nibbles(n / 16)
    ensures Nibbles(n) % 16 == Rank(n, 4) && Nibbles(n) / 16 == Nibbles(n / 16)
  {
    RankOfZero(4);
    RankBound(n, 4);
    By16(Nibbles(n / 16), Rank(n, 4));
  }

  lemma OctetsStep(n: nat)
    ensures Octets(n) == Rank(n, 8) + 256 * Octets(n / 256)
  {
    RankOfZero(8);
  }

  /** Fields of at most four add up without a carry. */
  lemma OctetSum(x: nat, y: nat, z: nat, t: nat, p: nat, q: nat, r: nat)
    requires x <= 4 && y <= 4 && z <= 4
    requires p == x + 16 * q && q == y + 16 * r && r == z + 16 * t && p / 16 == q && r / 16 == t
    ensures AddNibbles(p) == x + y + 256 * AddNibbles(r)
  {
    NoCarry(x, y, z, t, p + q);
    Odd4Step(p + q);
  }

  lemma OctetsOfNibbles(n: nat)
    ensures AddNibbles(Nibbles(n)) == Rank(n, 8) + 256 * AddNibbles(Nibbles(n / 256))
  {
    Twice(n);
    NibblesStep(n);
    NibblesStep(n / 16);
    NibblesStep(n / 256);
    Halves(n);
    RankBound(n, 4);
    RankBound(n / 16, 4);
    RankBound(n / 256, 4);
    OctetSum(Rank(n, 4), Rank(n / 16, 4), Rank(n / 256, 4), Nibbles(n / 256 / 16),
             Nibbles(n), Nibbles(n / 16), Nibbles(n / 256));
  }

  lemma {:induction false} OctetStage(n: nat)
    ensures AddNibbles(Nibbles(n)) == Octets(n)
  {
    if n > 0 {
      OctetStage(n / 256);
      OctetsOfNibbles(n);
      OctetsStep(n);
    }
  }

  lemma NoCarry(x: nat, y: nat, z: nat, t: nat, s: nat)
    requires x <= 4 && y <= 4 && z <= 4 && s == (x + y) + 16 * (y + z) + 256 * (z + 16 * t + t)
    ensures s % 16 == x + y && s / 256 == z + 16 * t + t
  {
    By256(z + 16 * t + t, (x + y) + 16 * (y + z));
    By16(y + z + 16 * (z + 16 * t + t), x + y);
  }

  lemma Octaves(n: Hash)
    ensures n / 0x100 / 256 == n / 0x1_0000 && n / 0x1_0000 / 256 == n / 0x100_0000 && n / 0x100_0000 / 256 == 0
  {}

  /** The four octets of a word, added up. */
  lemma WordStage(n: Hash)
    ensures AddOctets(Octets(n)) == Rank(n, 8) + Rank(n / 0x100, 8) + Rank(n / 0x1_0000, 8) + Rank(n / 0x100_0000, 8)
  {
    var n1, n2, n3 := n / 0x100, n / 0x1_0000, n / 0x100_0000;
    Octaves(n);
    OctetsStep(n);
    OctetsStep(n1);
    OctetsStep(n2);
    OctetsStep(n3);
    RankBound(n, 8);
    RankBound(n1, 8);
    RankBound(n2, 8);
    RankBound(n3, 8);
    FourOctets(Rank(n, 8), Rank(n1, 8), Rank(n2, 8), Rank(n3, 8), Octets(n));
  }

  lemma FourOctets(w: nat, x: nat, y: nat, z: nat, c: nat)
    requires w <= 8 && x <= 8 && y <= 8 && z <= 8 && c == w + 256 * (x + 256 * (y + 256 * z))
    ensures AddOctets(c) == w + x + y + z
  {
    By256(x + 256 * (y + 256 * z), w);
    var d := c + c / 0x100;
    var high := (y + z) + 256 * z;
    assert d == (w + x) + 256 * (x + y) + 0x1_0000 * high;
    assert d / 0x1_0000 == high;
    var sum := w + x + y + z;
    assert d + high == sum + 128 * (2 * (x + y + z) + 512 * high);
    assert (d + high) % 128 == sum;
  }

  lemma CountOctet(n: nat)
    ensures Count(n) == Rank(n, 8) + Count(n / 256)
  {
    Shifts(n);
    ShrStep(n, 8);
  }

  lemma CountWord(n: Hash)
    ensures Count(n) == Rank(n, 8) + Rank(n / 0x100, 8) + Rank(n / 0x1_0000, 8) + Rank(n / 0x100_0000, 8)
  {
    Octaves(n);
    CountOctet(n);
    CountOctet(n / 0x100);
    CountOctet(n / 0x1_0000);
    CountOctet(n / 0x100_0000);
  }

  lemma Stages(n: Hash)
    ensures Popcount(n) == AddOctets(Octets(n))
  {
    PairStage(n);
    NibbleStage(n);
    OctetStage(n);
  }

  /** The word trick counts the set bits, for every word. */
  lemma PopcountIsCount(n: Hash)
    ensures Popcount(n) == Count(n)
  {
    Stages(n);
    WordStage(n);
    CountWord(n);
  }

  /** The bits of b below d, as masking with a lower bit minus one leaves them. */
  function Low(b: nat, d: nat): nat { if d == 0 then 0 else b % 2 + 2 * Low(b / 2, d - 1) }

  lemma {:induction false} CountLow(b: nat, d: nat)
    ensures Count(Low(b, d)) == Rank(b, d) && Low(b, d) <= b
  {
    if d > 0 {
      CountLow(b / 2, d - 1);
      var low := Low(b / 2, d - 1);
      assert Low(b, d) / 2 == low && Low(b, d) % 2 == b % 2;
    }
  }

  /** So the slot of a digit is the count of the masked bitmap. */
  lemma SlotByPopcount(b: Hash, d: nat)
    ensures Low(b, d) < 0x1_0000_0000 && Popcount(Low(b, d)) == Rank(b, d)
  {
    CountLow(b, d);
    PopcountIsCount(Low(b, d));
  }
}
