/** The base class of the block hashes: bytes arrive in any pieces, full blocks
    are compressed as they fill up, and the digest pads the rest. The compression
    itself is not part of this model: the blocks given to it are recorded.
 */
module BlockHash {
  import opened Units

  /** Integers below this are exact as floating-point numbers, and so are their
      products with eight. */
  const EXACT := 0x20_0000_0000_0000

  // ---- What a message is cut and padded to ----

  /** The full blocks of a message. */
  function Cut(m: seq<Byte>, size: nat): seq<seq<Byte>>
    requires size > 0
    decreases |m|
  {
    if |m| < size then [] else [m[..size]] + Cut(m[size..], size)
  }

  /** What is left after the full blocks. */
  function Rest(m: seq<Byte>, size: nat): (r: seq<Byte>)
    requires size > 0
    ensures |r| < size && |r| <= |m|
    decreases |m|
  {
    if |m| < size then m else Rest(m[size..], size)
  }

  function Zeros(n: nat): seq<Byte> { seq<Byte>(n, i => 0) }

  /** A number in n bytes, the highest first. */
  function BigEndian(v: nat, n: nat): (r: seq<Byte>)
    ensures |r| == n
  {
    if n == 0 then [] else BigEndian(v / 256, n - 1) + [v % 256]
  }

  /** The padded message: a one bit, zeros up to the length field, and the length
      in bits (FIPS 180-4, section 5.1). */
  function Padded(m: seq<Byte>, size: nat, final: nat): seq<Byte>
    requires final < size
  {
    m + [0x80] + Zeros((final - 1 - |m|) % size) + BigEndian(8 * |m|, size - final)
  }

  // ---- Arithmetic ----

  lemma DivModUnique(x: int, q: int, r: int, size: nat)
    requires size > 0 && x == q * size + r && 0 <= r < size
    ensures x / size == q && x % size == r
  {
    var p := x / size;
    assert p * size <= x < (p + 1) * size;
    TimesGrows(p + 1, q, size);
    TimesGrows(q + 1, p, size);
  }

  lemma TimesGrows(a: int, b: int, n: nat)
    ensures a <= b ==> a * n <= b * n
  {}

  lemma ModShift(x: int, size: nat)
    requires size > 0
    ensures (x - size) % size == x % size && (x + size) % size == x % size
  {
    var q, r := x / size, x % size;
    assert (q - 1) * size == q * size - size && (q + 1) * size == q * size + size;
    DivModUnique(x - size, q - 1, r, size);
    DivModUnique(x + size, q + 1, r, size);
  }

  lemma {:induction false} RestLength(m: seq<Byte>, size: nat)
    requires size > 0
    ensures |Rest(m, size)| == |m| % size
    decreases |m|
  {
    if |m| < size {
      DivModUnique(|m|, 0, |m|, size);
    } else {
      RestLength(m[size..], size);
      ModShift(|m|, size);
    }
  }

  /** The zeros of the padding, counted from the rest. */
  lemma {:induction false} PaddingLength(m: seq<Byte>, size: nat, final: nat)
    requires final < size
    ensures var e := |Rest(m, size)|;
            (final - 1 - |m|) % size == if e < final then final - 1 - e else size + final - 1 - e
    decreases |m|
  {
    if |m| < size {
      var x := final - 1 - |m|;
      if |m| < final {
        DivModUnique(x, 0, x, size);
      } else {
        DivModUnique(x, -1, x + size, size);
      }
    } else {
      PaddingLength(m[size..], size, final);
      ModShift(final - 1 - |m|, size);
    }
  }

  // ---- Appending ----

  /** More bytes only matter together with the rest. */
  lemma {:induction false} CutAppend(m: seq<Byte>, x: seq<Byte>, size: nat)
    requires size > 0
    ensures Cut(m + x, size) == Cut(m, size) + Cut(Rest(m, size) + x, size)
    ensures Rest(m + x, size) == Rest(Rest(m, size) + x, size)
    decreases |m|
  {
    if |m| >= size {
      assert (m + x)[..size] == m[..size] && (m + x)[size..] == m[size..] + x;
      CutAppend(m[size..], x, size);
    }
  }

  lemma OneBlock(b: seq<Byte>, size: nat)
    requires size > 0 && |b| == size
    ensures Cut(b, size) == [b] && Rest(b, size) == []
  {
    assert b[..size] == b && b[size..] == [];
  }

  lemma TwoBlocks(b: seq<Byte>, c: seq<Byte>, size: nat)
    requires size > 0 && |b| == size && |c| == size
    ensures Cut(b + c, size) == [b, c]
  {
    assert (b + c)[..size] == b && (b + c)[size..] == c;
    OneBlock(c, size);
  }

  // ---- The hash ----

  class Hash {
    const size: nat
    const final: nat
    const block: array<Byte>
    var len: nat
    /** The blocks compressed so far. */
    var blocks: seq<seq<Byte>>
    /** The bytes taken in so far. */
    ghost var message: seq<Byte>

    ghost predicate Valid()
      reads this, block
    {
      && 0 < final <= size - 8 && block.Length == size
      && len == |message| && Holds(message)
    }

    constructor (size: nat, final: nat)
      requires 0 < final <= size - 8
      ensures Valid() && fresh(block) && message == [] && this.size == size && this.final == final
    {
      this.size, this.final, this.len, this.blocks, this.message := size, final, 0, [], [];
      this.block := new Byte[size](i => 0);
      new;
      assert block[..0] == [];
    }

    method Compress()
      modifies this`blocks
      ensures blocks == old(blocks) + [block[..]]
    {
      blocks := blocks + [block[..]];
    }

    /** Copies t[from..to] to position a of the block. */
    method Copy(t: seq<Byte>, from: nat, to: nat, a: nat)
      requires from <= to <= |t| && a + (to - from) <= block.Length
      modifies block
      ensures block[..a + (to - from)] == old(block[..a]) + t[from..to]
    {
      var f := 0;
      while f < to - from
        invariant 0 <= f <= to - from
        invariant block[..a + f] == old(block[..a]) + t[from..from + f]
      {
        block[a + f] := t[from + f];
        f := f + 1;
        assert block[..a + f] == block[..a + f - 1] + [t[from + f - 1]];
      }
    }

    /** The full blocks of a message are compressed, and the block holds the rest. */
    ghost predicate Holds(m: seq<Byte>)
      requires size > 0
      reads this`blocks, block
    {
      |Rest(m, size)| <= block.Length && blocks == Cut(m, size) && block[..|Rest(m, size)|] == Rest(m, size)
    }

    /** Takes a part of t that fits into the block, which then may be full. */
    method TakePart(ghost m: seq<Byte>, t: seq<Byte>, s: nat, c: nat, u: nat)
      requires 0 < size == block.Length && Holds(m) && u == |m|
      requires 0 < c && s + c <= |t| && u % size + c <= size
      modifies this`blocks, block
      ensures Holds(m + t[s..s + c])
    {
      ghost var x := t[s..s + c];
      RestLength(m, size);
      RestLength(m + x, size);
      Copy(t, s, s + c, u % size);
      if (u + c) % size == 0 {
        Full(m, x, size);
        assert block[..size] == block[..];
        Compress();
      } else {
        NotFull(m, x, size);
      }
    }

    method Update(t: seq<Byte>)
      requires Valid()
      modifies this, block
      ensures Valid() && message == old(message) + t
    {
      var u, s := len, 0;
      assert message + t[..0] == message;
      while s < |t|
        invariant 0 <= s <= |t| && u == len + s && len == |message| && message == old(message)
        invariant Holds(message + t[..s])
      {
        var a := u % size;
        var c := if |t| - s < size - a then |t| - s else size - a;
        TakePart(message + t[..s], t, s, c, u);
        assert message + t[..s] + t[s..s + c] == message + t[..s + c];
        s, u := s + c, u + c;
      }
      assert t[..|t|] == t;
      len := len + |t|;
      message := message + t;
    }

    /** Writes a 32-bit number at a position of the block. */
    method WriteUInt32BE(v: nat, at: nat)
      requires v < 0x1_0000_0000 && at + 4 <= block.Length
      modifies block
      ensures block[..] == old(block[..at]) + BigEndian(v, 4) + old(block[at + 4..])
    {
      block[at] := v / 0x100_0000;
      block[at + 1] := v / 0x1_0000 % 256;
      block[at + 2] := v / 0x100 % 256;
      block[at + 3] := v % 256;
      FourBytes(v);
      assert block[..] == block[..at] + block[at..at + 4] + block[at + 4..];
      assert block[at..at + 4] == BigEndian(v, 4);
    }

    method FillZeros(from: nat)
      requires from <= block.Length
      modifies block
      ensures block[..] == old(block[..from]) + Zeros(block.Length - from)
    {
      var i := from;
      while i < block.Length
        invariant from <= i <= block.Length && block[..i] == old(block[..from]) + Zeros(i - from)
      {
        block[i] := 0;
        i := i + 1;
        assert block[..i] == block[..i - 1] + [0];
      }
      assert block[..] == block[..i];
    }

    /** A word over the last zeros of the block, and over those before. */
    method WriteLast(v: nat, ghost prefix: seq<Byte>, ghost k: nat)
      requires v < 0x1_0000_0000 && 4 <= k <= block.Length && block[..] == prefix + Zeros(k)
      modifies block
      ensures block[..] == prefix + Zeros(k - 4) + BigEndian(v, 4)
    {
      WriteUInt32BE(v, block.Length - 4);
      LastWord(prefix, k, BigEndian(v, 4), block[..]);
    }

    method WriteBeforeLast(v: nat, ghost prefix: seq<Byte>, ghost k: nat)
      requires v < 0x1_0000_0000 && 8 <= k <= block.Length && block[..] == prefix + Zeros(k)
      modifies block
      ensures block[..] == prefix + Zeros(k - 8) + BigEndian(v, 4) + Zeros(4)
    {
      WriteUInt32BE(v, block.Length - 8);
      WordBeforeLast(prefix, k, BigEndian(v, 4), block[..]);
    }

    /** The length in bits at the end of the block, whose last bytes are zeros. */
    method WriteLength(ghost prefix: seq<Byte>)
      requires 0 < final <= size - 8 && block.Length == size && len < EXACT
      requires |prefix| == final && block[..] == prefix + Zeros(size - final)
      modifies block
      ensures block[..] == prefix + BigEndian(8 * len, size - final)
    {
      var n := 8 * len;
      if n <= 0xFFFF_FFFF {
        ShortLength(n, size - final);
        WriteLast(n, prefix, size - final);
        Associate(prefix, Zeros(size - final - 4), BigEndian(n, 4));
      } else {
        var low := n % 0x1_0000_0000;
        var high := (n - low) / 0x1_0000_0000;
        LongLength(n, size - final);
        HighWord(n, low, high);
        WriteTwo(high, low, prefix, size - final);
      }
    }

    method WriteTwo(high: nat, low: nat, ghost prefix: seq<Byte>, ghost k: nat)
      requires high < 0x1_0000_0000 && low < 0x1_0000_0000
      requires 8 <= k <= block.Length && block[..] == prefix + Zeros(k)
      modifies block
      ensures block[..] == prefix + (Zeros(k - 8) + BigEndian(high, 4) + BigEndian(low, 4))
    {
      ghost var longer := prefix + Zeros(k - 8) + BigEndian(high, 4);
      WriteBeforeLast(high, prefix, k);
      WriteLast(low, longer, 4);
      assert longer + Zeros(0) == longer;
      Associate(prefix, Zeros(k - 8), BigEndian(high, 4));
      Associate(prefix, Zeros(k - 8) + BigEndian(high, 4), BigEndian(low, 4));
    }

    /** Pads and compresses the rest. */
    method Digest()
      requires Valid() && |message| < EXACT
      modifies this, block
      ensures message == old(message) && blocks == Cut(Padded(message, size, final), size)
    {
      var e := len % size;
      ghost var r := Rest(message, size);
      RestLength(message, size);
      PaddedBlocks(message, size, final);
      block[e] := 0x80;
      assert block[..e + 1] == r + [0x80];
      FillZeros(e + 1);
      if e >= final {
        Compress();
        WriteAll();
      } else {
        WriteAfter(r + [0x80]);
      }
      Compress();
    }

    /** A block of zeros with the length at its end. */
    method WriteAll()
      requires 0 < final <= size - 8 && block.Length == size && len < EXACT
      modifies block
      ensures block[..] == Zeros(final) + BigEndian(8 * len, size - final)
    {
      FillZeros(0);
      ZerosSplit(final, size - final);
      assert block[..] == Zeros(final) + Zeros(size - final);
      WriteLength(Zeros(final));
    }

    /** The length at the end of a block that has room for it. */
    method WriteAfter(ghost head: seq<Byte>)
      requires 0 < final <= size - 8 && block.Length == size && len < EXACT
      requires |head| <= final && block[..] == head + Zeros(size - |head|)
      modifies block
      ensures block[..] == head + Zeros(final - |head|) + BigEndian(8 * len, size - final)
    {
      ZerosSplit(final - |head|, size - final);
      Associate(head, Zeros(final - |head|), Zeros(size - final));
      WriteLength(head + Zeros(final - |head|));
    }
  }

  /** Streaming is one-shot: any pieces and one digest compress the blocks of the
      padded whole. */
  method HashPieces(size: nat, final: nat, pieces: seq<seq<Byte>>) returns (blocks: seq<seq<Byte>>)
    requires 0 < final <= size - 8 && |Joined(pieces)| < EXACT
    ensures blocks == Cut(Padded(Joined(pieces), size, final), size)
  {
    var hash := new Hash(size, final);
    UpdateAll(hash, pieces);
    hash.Digest();
    blocks := hash.blocks;
  }

  method UpdateAll(hash: Hash, pieces: seq<seq<Byte>>)
    requires hash.Valid() && hash.message == []
    modifies hash, hash.block
    ensures hash.Valid() && hash.message == Joined(pieces)
  {
    var i := 0;
    while i < |pieces|
      invariant 0 <= i <= |pieces| && hash.Valid() && hash.message == Joined(pieces[..i])
    {
      JoinedNext(pieces, i);
      hash.Update(pieces[i]);
      i := i + 1;
    }
    assert pieces[..|pieces|] == pieces;
  }

  function Joined(pieces: seq<seq<Byte>>): seq<Byte> {
    if pieces == [] then [] else Joined(pieces[..|pieces| - 1]) + pieces[|pieces| - 1]
  }

  lemma JoinedNext(pieces: seq<seq<Byte>>, i: nat)
    requires i < |pieces|
    ensures Joined(pieces[..i + 1]) == Joined(pieces[..i]) + pieces[i]
  {
    assert pieces[..i + 1][..i] == pieces[..i];
  }

  /** The blocks of the padded message: one or two after the full ones. */
  lemma PaddedBlocks(m: seq<Byte>, size: nat, final: nat)
    requires 0 < final < size
    ensures var r, length := Rest(m, size), BigEndian(8 * |m|, size - final);
            Cut(Padded(m, size, final), size) ==
            Cut(m, size) +
            if |r| < final then [r + [0x80] + Zeros(final - 1 - |r|) + length]
            else [r + [0x80] + Zeros(size - 1 - |r|), Zeros(final) + length]
  {
    var r, length := Rest(m, size), BigEndian(8 * |m|, size - final);
    var zeros := (final - 1 - |m|) % size;
    PaddingLength(m, size, final);
    RestLength(m, size);
    var tail := [0x80] + Zeros(zeros) + length;
    assert Padded(m, size, final) == m + tail;
    CutAppend(m, tail, size);
    if |r| < final {
      OneMore(r, length, size, final);
    } else {
      TwoMore(r, length, size, final);
    }
  }

  lemma OneMore(r: seq<Byte>, length: seq<Byte>, size: nat, final: nat)
    requires |r| < final < size && |length| == size - final
    ensures Cut(r + ([0x80] + Zeros(final - 1 - |r|) + length), size) == [r + [0x80] + Zeros(final - 1 - |r|) + length]
  {
    var b := r + [0x80] + Zeros(final - 1 - |r|) + length;
    assert r + ([0x80] + Zeros(final - 1 - |r|) + length) == b;
    OneBlock(b, size);
  }

  lemma TwoMore(r: seq<Byte>, length: seq<Byte>, size: nat, final: nat)
    requires final <= |r| < size && |length| == size - final
    ensures Cut(r + ([0x80] + Zeros(size + final - 1 - |r|) + length), size) ==
            [r + [0x80] + Zeros(size - 1 - |r|), Zeros(final) + length]
  {
    var b, c := r + [0x80] + Zeros(size - 1 - |r|), Zeros(final) + length;
    ZerosSplit(size - 1 - |r|, final);
    assert r + ([0x80] + Zeros(size + final - 1 - |r|) + length) == b + c;
    TwoBlocks(b, c, size);
  }

  // ---- The length field ----

  lemma {:induction false} ZeroBytes(n: nat)
    ensures BigEndian(0, n) == Zeros(n)
  {
    if n > 0 {
      ZeroBytes(n - 1);
      assert Zeros(n) == Zeros(n - 1) + [0];
    }
  }

  /** The last four bytes of a number are those of its last 32 bits. */
  lemma LastFour(v: nat, n: nat)
    ensures BigEndian(v, n + 4) == BigEndian(v / 0x1_0000_0000, n) + BigEndian(v % 0x1_0000_0000, 4)
  {
    FourBytes(v % 0x1_0000_0000);
    var a, b, c, d := v / 256, v / 256 / 256, v / 256 / 256 / 256, v / 256 / 256 / 256 / 256;
    assert BigEndian(v, n + 4) == BigEndian(a, n + 3) + [v % 256];
    assert BigEndian(a, n + 3) == BigEndian(b, n + 2) + [a % 256];
    assert BigEndian(b, n + 2) == BigEndian(c, n + 1) + [b % 256];
    assert BigEndian(c, n + 1) == BigEndian(d, n) + [c % 256];
    FourDigits(v);
  }

  lemma FourDigits(v: nat)
    ensures var w := v % 0x1_0000_0000;
            && v / 256 / 256 / 256 / 256 == v / 0x1_0000_0000
            && w / 0x100_0000 == v / 256 / 256 / 256 % 256 && w / 0x1_0000 % 256 == v / 256 / 256 % 256
            && w / 0x100 % 256 == v / 256 % 256 && w % 256 == v % 256
  {
    var h := v / 256 / 256 / 256 / 256;
    var r0, r1, r2, r3 := v % 256, v / 256 % 256, v / 256 / 256 % 256, v / 256 / 256 / 256 % 256;
    DigitsOf(v);
    FourParts(h, r3, r2, r1, r0);
    LastDigit(r3, r2);
    LastDigit(r3 * 256 + r2, r1);
    LastDigit((r3 * 256 + r2) * 256 + r1, r0);
  }

  lemma DigitsOf(v: nat)
    ensures v == v / 256 / 256 / 256 / 256 * 0x1_0000_0000 + v / 256 / 256 / 256 % 256 * 0x100_0000 +
                 v / 256 / 256 % 256 * 0x1_0000 + v / 256 % 256 * 0x100 + v % 256
  {
    var a := v / 256;
    var b := a / 256;
    var c := b / 256;
    assert v == a * 256 + v % 256 && a == b * 256 + a % 256 && b == c * 256 + b % 256 && c == c / 256 * 256 + c % 256;
  }

  lemma LastDigit(a: nat, r: Byte)
    ensures (a * 256 + r) % 256 == r
  {}

  lemma FourParts(h: nat, r3: Byte, r2: Byte, r1: Byte, r0: Byte)
    ensures var w := r3 * 0x100_0000 + r2 * 0x1_0000 + r1 * 0x100 + r0;
            var v := h * 0x1_0000_0000 + w;
            && w < 0x1_0000_0000 && v / 0x1_0000_0000 == h && v % 0x1_0000_0000 == w
            && w / 0x100_0000 == r3 && w / 0x1_0000 == r3 * 256 + r2 && w / 0x100 == (r3 * 256 + r2) * 256 + r1
  {}

  lemma ShortLength(n: nat, k: nat)
    requires n <= 0xFFFF_FFFF && k >= 4
    ensures BigEndian(n, k) == Zeros(k - 4) + BigEndian(n, 4)
  {
    var high, low := n / 0x1_0000_0000, n % 0x1_0000_0000;
    Short(n);
    LastFour(n, k - 4);
    ZeroBytes(k - 4);
    assert high == 0 && low == n;
  }

  lemma Short(n: nat)
    requires n <= 0xFFFF_FFFF
    ensures n / 0x1_0000_0000 == 0 && n % 0x1_0000_0000 == n
  {}

  lemma LongLength(n: nat, k: nat)
    requires n < 8 * EXACT && k >= 8
    ensures BigEndian(n, k) == Zeros(k - 8) + BigEndian(n / 0x1_0000_0000, 4) + BigEndian(n % 0x1_0000_0000, 4)
  {
    LastFour(n, k - 4);
    ShortLength(n / 0x1_0000_0000, k - 4);
  }

  // ---- The padding can be undone ----

  function FromBigEndian(b: seq<Byte>): nat {
    if b == [] then 0 else FromBigEndian(b[..|b| - 1]) * 256 + b[|b| - 1]
  }

  function Power256(n: nat): nat { if n == 0 then 1 else 256 * Power256(n - 1) }

  lemma {:induction false} BigEndianRoundTrip(v: nat, n: nat)
    requires v < Power256(n)
    ensures FromBigEndian(BigEndian(v, n)) == v
  {
    if n > 0 {
      BigEndianRoundTrip(v / 256, n - 1);
      assert BigEndian(v, n)[..n - 1] == BigEndian(v / 256, n - 1);
    }
  }

  /** Padding fills the last block, and different messages are padded to different
      ones. */
  lemma PaddingIsInjective(m: seq<Byte>, w: seq<Byte>, size: nat, final: nat)
    requires 0 < final < size && 8 * |m| < Power256(size - final) && 8 * |w| < Power256(size - final)
    requires Padded(m, size, final) == Padded(w, size, final)
    ensures m == w
  {
    var k := size - final;
    var p, q := Padded(m, size, final), Padded(w, size, final);
    assert p[|p| - k..] == BigEndian(8 * |m|, k) && q[|q| - k..] == BigEndian(8 * |w|, k);
    BigEndianRoundTrip(8 * |m|, k);
    BigEndianRoundTrip(8 * |w|, k);
    assert m == p[..|m|] && w == q[..|w|];
  }

  lemma PaddedFits(m: seq<Byte>, size: nat, final: nat)
    requires 0 < final < size
    ensures |Padded(m, size, final)| % size == 0
  {
    var x := final - 1 - |m|;
    var q := x / size;
    assert q * size == x - x % size;
    assert |Padded(m, size, final)| == (1 - q) * size by { assert (1 - q) * size == size - q * size; }
    DivModUnique(|Padded(m, size, final)|, 1 - q, 0, size);
  }

  lemma ZerosSplit(a: nat, b: nat)
    ensures Zeros(a + b) == Zeros(a) + Zeros(b)
  {}

  lemma Associate(a: seq<Byte>, b: seq<Byte>, c: seq<Byte>)
    ensures a + b + c == a + (b + c)
  {}

  lemma LastWord(prefix: seq<Byte>, k: nat, w: seq<Byte>, b: seq<Byte>)
    requires |w| == 4 <= k
    requires var was := prefix + Zeros(k); b == was[..|was| - 4] + w + was[|was|..]
    ensures b == prefix + Zeros(k - 4) + w
  {}

  lemma HighWord(n: nat, low: nat, high: int)
    requires n < 8 * EXACT && low == n % 0x1_0000_0000 && high == (n - low) / 0x1_0000_0000
    ensures high == n / 0x1_0000_0000 < 0x1_0000_0000
  {}

  lemma WordBeforeLast(prefix: seq<Byte>, k: nat, w: seq<Byte>, b: seq<Byte>)
    requires |w| == 4 && k >= 8
    requires var was := prefix + Zeros(k); b == was[..|was| - 8] + w + was[|was| - 4..]
    ensures b == prefix + Zeros(k - 8) + w + Zeros(4)
  {}

  lemma Full(m: seq<Byte>, x: seq<Byte>, size: nat)
    requires size > 0 && x != [] && |Rest(m, size)| + |x| <= size && |Rest(m + x, size)| == 0
    ensures |Rest(m, size)| + |x| == size
    ensures Cut(m + x, size) == Cut(m, size) + [Rest(m, size) + x]
  {
    CutAppend(m, x, size);
    var b := Rest(m, size) + x;
    if |b| == size {
      OneBlock(b, size);
    }
  }

  lemma NotFull(m: seq<Byte>, x: seq<Byte>, size: nat)
    requires size > 0 && |Rest(m, size)| + |x| <= size && |Rest(m + x, size)| != 0
    ensures Cut(m + x, size) == Cut(m, size) && Rest(m + x, size) == Rest(m, size) + x
  {
    CutAppend(m, x, size);
    var b := Rest(m, size) + x;
    if |b| == size {
      OneBlock(b, size);
    }
  }

  lemma FourBytes(v: nat)
    requires v < 0x1_0000_0000
    ensures BigEndian(v, 4) == [v / 0x100_0000, v / 0x1_0000 % 256, v / 0x100 % 256, v % 256]
  {
    assert BigEndian(v, 4) == BigEndian(v / 256, 3) + [v % 256];
    assert BigEndian(v / 256, 3) == BigEndian(v / 256 / 256, 2) + [v / 256 % 256];
    assert BigEndian(v / 256 / 256, 2) == BigEndian(v / 256 / 256 / 256, 1) + [v / 256 / 256 % 256];
    assert BigEndian(v / 256 / 256 / 256, 1) == [v / 256 / 256 / 256 % 256];
  }
}
