/** Base64 as the bundle's array codec does it: encoding in chunks, and decoding
    into an array of a length computed before.
 */
module Base64 {
  import opened Options
  import opened Units

  /** The encoder's chunks, a multiple of three bytes. */
  const CHUNK := 16383

  const PAD: CodeUnit := 61

  /** Six bits. */
  type Six = v: int | 0 <= v < 64

  /** The letter of six bits. */
  function Letter(v: Six): CodeUnit {
    if v < 26 then 65 + v else if v < 52 then 71 + v else if v < 62 then v - 4 else if v == 62 then 43 else 47
  }

  /** The value of a letter, also of the two URL-safe ones; of anything else 0. */
  function Value(c: int): Six {
    if 65 <= c <= 90 then c - 65
    else if 97 <= c <= 122 then c - 71
    else if 48 <= c <= 57 then c + 4
    else if c == 43 || c == 45 then 62
    else if c == 47 || c == 95 then 63
    else 0
  }

  // ---- The alphabet ----

  function Span(first: char, last: char): seq<CodeUnit>
    requires first <= last <= 'z'
  {
    seq<CodeUnit>(last as int - first as int + 1, i requires 0 <= i <= last as int - first as int => first as int + i)
  }

  /** RFC 4648, section 4. */
  const ALPHABET: seq<CodeUnit> := Span('A', 'Z') + Span('a', 'z') + Span('0', '9') + ['+' as int, '/' as int]

  lemma LetterIs(v: Six)
    ensures |ALPHABET| == 64 && Letter(v) == ALPHABET[v]
  {}

  /** The two URL-safe letters are read besides the alphabet, and anything else
      counts as zero. */
  lemma ValueMeans(c: CodeUnit, v: Six)
    ensures |ALPHABET| == 64 && (ALPHABET[v] == c ==> Value(c) == v)
    ensures (c == '-' as int ==> Value(c) == 62) && (c == '_' as int ==> Value(c) == 63)
    ensures c !in ALPHABET && c != '-' as int && c != '_' as int ==> Value(c) == 0
  {
    LetterIs(v);
    LetterIs(Value(c));
  }

  // ---- Encoding ----

  /** Three bytes as four letters of six bits each. */
  function Quad(a: Byte, b: Byte, c: Byte): seq<CodeUnit> {
    [Letter(a / 4), Letter(a % 4 * 16 + b / 16), Letter(b % 16 * 4 + c / 64), Letter(c % 64)]
  }

  function Pair(a: Byte, b: Byte): seq<CodeUnit> {
    [Letter(a / 4), Letter(a % 4 * 16 + b / 16), Letter(b % 16 * 4), PAD]
  }

  function Single(a: Byte): seq<CodeUnit> { [Letter(a / 4), Letter(a % 4 * 16), PAD, PAD] }

  /** The encoding in one piece. */
  function Encode(t: seq<Byte>): seq<CodeUnit> {
    if t == [] then []
    else if |t| == 1 then Single(t[0])
    else if |t| == 2 then Pair(t[0], t[1])
    else Quad(t[0], t[1], t[2]) + Encode(t[3..])
  }

  lemma {:induction false} EncodeLength(t: seq<Byte>)
    ensures |Encode(t)| == 4 * ((|t| + 2) / 3)
  {
    if |t| >= 3 {
      EncodeLength(t[3..]);
    }
  }

  /** The 24 bits of a group of three bytes; missing ones are zero. */
  function Group(t: seq<Byte>, q: nat): nat {
    ByteAt(t, 3 * q) * 0x1_0000 + ByteAt(t, 3 * q + 1) * 0x100 + ByteAt(t, 3 * q + 2)
  }

  function ByteAt(t: seq<Byte>, i: nat): Byte { if i < |t| then t[i] else 0 }

  /** Four letters, highest bits first, spell 24 bits; letters that none of the k
      bytes reaches are padding. */
  ghost predicate Spells(e: seq<CodeUnit>, i: nat, n: nat, k: int) {
    && |ALPHABET| == 64 && i + 4 <= |e|
    && e[i] == ALPHABET[n / 0x4_0000 % 64]
    && e[i + 1] == ALPHABET[n / 0x1000 % 64]
    && e[i + 2] == (if k > 1 then ALPHABET[n / 0x40 % 64] else PAD)
    && e[i + 3] == (if k > 2 then ALPHABET[n % 64] else PAD)
  }

  lemma FirstSpelled(a: Byte, b: Byte, c: Byte, k: int, e: seq<CodeUnit>)
    requires k <= 1 ==> b == 0 && c == 0 && e == Single(a)
    requires k == 2 ==> c == 0 && e == Pair(a, b)
    requires k > 2 ==> Quad(a, b, c) <= e
    ensures Spells(e, 0, a * 0x1_0000 + b * 0x100 + c, k)
  {
    hide ALPHABET, Letter;
    var n := a * 0x1_0000 + b * 0x100 + c;
    SixBits(a, b, c);
    LetterIs(n / 0x4_0000 % 64);
    LetterIs(n / 0x1000 % 64);
    LetterIs(n / 0x40 % 64);
    LetterIs(n % 64);
    if k > 2 { assert e[..4] == Quad(a, b, c); }
  }

  /** Each group of bytes is written as its letters. */
  lemma {:induction false} EncodeMeans(t: seq<Byte>, q: nat)
    requires 3 * q < |t|
    ensures Spells(Encode(t), 4 * q, Group(t, q), |t| - 3 * q)
    decreases q
  {
    hide Spells, Single, Pair, Letter;
    if q == 0 {
      FirstSpelled(t[0], ByteAt(t, 1), ByteAt(t, 2), |t|, Encode(t));
    } else {
      EncodeMeans(t[3..], q - 1);
      LaterSpelled(Quad(t[0], t[1], t[2]), Encode(t[3..]), 4 * (q - 1), Group(t[3..], q - 1), |t| - 3 * q);
      LaterGroup(t, q);
    }
  }

  lemma LaterSpelled(x: seq<CodeUnit>, e: seq<CodeUnit>, i: nat, n: nat, k: int)
    requires |x| == 4 && Spells(e, i, n, k)
    ensures Spells(x + e, i + 4, n, k)
  {
    hide ALPHABET;
    var all := x + e;
    assert all[i + 4] == e[i] && all[i + 5] == e[i + 1] && all[i + 6] == e[i + 2] && all[i + 7] == e[i + 3];
  }

  lemma LaterGroup(t: seq<Byte>, q: nat)
    requires 3 <= 3 * q < |t|
    ensures Group(t, q) == Group(t[3..], q - 1)
  {}

  lemma {:induction false} EncodeParts(a: seq<Byte>, b: seq<Byte>, q: nat)
    requires |a| == 3 * q
    ensures Encode(a + b) == Encode(a) + Encode(b)
  {
    if a == [] {
      assert a + b == b;
    } else {
      assert (a + b)[3..] == a[3..] + b;
      EncodeParts(a[3..], b, q - 1);
    }
  }

  /** The four letters cut from one 24-bit number. */
  method EncodeTriple(a: Byte, b: Byte, c: Byte) returns (r: seq<CodeUnit>)
    ensures r == Quad(a, b, c)
  {
    var x, y, z, w := CutTriple(a, b, c);
    r := [Letter(x), Letter(y), Letter(z), Letter(w)];
  }

  method CutTriple(a: Byte, b: Byte, c: Byte) returns (x: Six, y: Six, z: Six, w: Six)
    ensures x == a / 4 && y == a % 4 * 16 + b / 16 && z == b % 16 * 4 + c / 64 && w == c % 64
  {
    var v := a * 0x1_0000 + b * 0x100 + c;
    SixBits(a, b, c);
    x, y, z, w := v / 0x4_0000 % 64, v / 0x1000 % 64, v / 0x40 % 64, v % 64;
  }

  lemma By64(q: nat, r: nat)
    requires r < 64
    ensures (q * 64 + r) / 64 == q && (q * 64 + r) % 64 == r
  {}

  lemma By256(q: nat, r: nat)
    requires r < 256
    ensures (q * 256 + r) / 256 == q && (q * 256 + r) % 256 == r
  {}

  lemma Shifts(v: nat)
    ensures v / 0x1000 == v / 64 / 64 && v / 0x4_0000 == v / 64 / 64 / 64 && v / 0x1_0000 == v / 256 / 256
  {}

  lemma Halves(a: nat, b: nat, c: nat)
    ensures a == a / 4 * 4 + a % 4 && b == b / 16 * 16 + b % 16 && c == c / 64 * 64 + c % 64
  {}

  lemma SixBits(a: Byte, b: Byte, c: Byte)
    ensures var v := a * 0x1_0000 + b * 0x100 + c;
            && v / 0x4_0000 % 64 == a / 4 && v / 0x1000 % 64 == a % 4 * 16 + b / 16
            && v / 0x40 % 64 == b % 16 * 4 + c / 64 && v % 64 == c % 64
  {
    var x, y, z, w := a / 4, a % 4 * 16 + b / 16, b % 16 * 4 + c / 64, c % 64;
    Halves(a, b, c);
    By64((x * 64 + y) * 64 + z, w);
    By64(x * 64 + y, z);
    By64(x, y);
    Shifts(a * 0x1_0000 + b * 0x100 + c);
  }

  lemma EncodeNext(t: seq<Byte>, from: nat, s: nat, k: nat)
    requires s == from + 3 * k && s + 3 <= |t|
    ensures Encode(t[from..s + 3]) == Encode(t[from..s]) + Quad(t[s], t[s + 1], t[s + 2])
  {
    var three := t[s..s + 3];
    EncodeParts(t[from..s], three, k);
    assert t[from..s] + three == t[from..s + 3];
    assert three[3..] == [] && three[0] == t[s] && three[1] == t[s + 1] && three[2] == t[s + 2];
  }

  method EncodeChunk(t: seq<Byte>, from: nat, to: nat, ghost q: nat) returns (r: seq<CodeUnit>)
    requires from <= to <= |t| && to == from + 3 * q
    ensures r == Encode(t[from..to])
  {
    r := [];
    var s := from;
    ghost var k := 0;
    assert t[from..s] == [];
    while s < to
      invariant s == from + 3 * k <= to && k <= q
      invariant r == Encode(t[from..s])
    {
      r := EncodeStep(t, from, s, r, k);
      s, k := s + 3, k + 1;
    }
  }

  method EncodeStep(t: seq<Byte>, ghost from: nat, s: nat, before: seq<CodeUnit>, ghost k: nat)
    returns (r: seq<CodeUnit>)
    requires s == from + 3 * k && s + 3 <= |t| && before == Encode(t[from..s])
    ensures r == Encode(t[from..s + 3])
  {
    var quad := EncodeTriple(t[s], t[s + 1], t[s + 2]);
    EncodeNext(t, from, s, k);
    r := before + quad;
  }

  lemma EncodeTail(t: seq<Byte>, u: nat, end: nat, q: nat)
    requires u <= end <= |t| && u == 3 * q
    ensures Encode(t[..end]) == Encode(t[..u]) + Encode(t[u..end])
  {
    EncodeParts(t[..u], t[u..end], q);
    assert t[..u] + t[u..end] == t[..end];
  }

  /** The chunks of the whole groups of three bytes. */
  method EncodeGroups(t: seq<Byte>, s: nat, ghost m: nat) returns (r: seq<CodeUnit>)
    requires s <= |t| && s == 3 * m
    ensures r == Encode(t[..s])
  {
    r := [];
    var u := 0;
    ghost var q := 0;
    while u < s
      invariant u == q * CHUNK && (u < s ==> r == Encode(t[..u])) && (u >= s ==> r == Encode(t[..s]))
      decreases s - u
    {
      var end := if u + CHUNK > s then s else u + CHUNK;
      var part := EncodeChunk(t, u, end, if u + CHUNK > s then m - q * 5461 else 5461);
      EncodeTail(t, u, end, q * 5461);
      r, u, q := r + part, u + CHUNK, q + 1;
    }
  }

  method EncodeOne(v: int) returns (r: seq<CodeUnit>)
    requires 0 <= v < 256
    ensures r == Single(v)
  {
    r := [Letter(v / 4), Letter(v * 16 % 64), PAD, PAD];
  }

  method EncodeTwo(a: int, b: int) returns (r: seq<CodeUnit>)
    requires 0 <= a < 256 && 0 <= b < 256
    ensures r == Pair(a, b)
  {
    var v := a * 256 + b;
    TenBits(a, b);
    r := [Letter(v / 0x400), Letter(v / 0x10 % 64), Letter(v * 4 % 64), PAD];
  }

  /** The one or two bytes that are left. */
  method EncodeRest(t: seq<Byte>, s: nat) returns (r: seq<CodeUnit>)
    requires s <= |t| && |t| - s < 3
    ensures r == Encode(t[s..])
  {
    ghost var rest := t[s..];
    r := [];
    if |t| - s == 1 {
      r := EncodeOne(t[s]);
    } else if |t| - s == 2 {
      r := EncodeTwo(t[s], t[s + 1]);
    }
  }

  /** Chunk by chunk, and then what does not fill three bytes. */
  method FromByteArray(t: seq<Byte>) returns (r: seq<CodeUnit>)
    ensures r == Encode(t)
  {
    var extra := |t| % 3;
    var s := |t| - extra;
    r := EncodeGroups(t, s, |t| / 3);
    var last := EncodeRest(t, s);
    EncodeTail(t, s, |t|, |t| / 3);
    assert t[..|t|] == t;
    r := r + last;
  }

  lemma TenBits(a: Byte, b: Byte)
    ensures var v := a * 256 + b;
            v / 0x400 == a / 4 && v / 0x10 % 64 == a % 4 * 16 + b / 16 && v * 4 % 64 == b % 16 * 4
  {
    var a1, a0, b1, b0 := a / 4, a % 4, b / 16, b % 16;
    Halves(a, b, 0);
    By1024(a1, a0 * 256 + b);
    By16(a1 * 64 + (a0 * 16 + b1), b0);
    By64(a1, a0 * 16 + b1);
    By64(a1 * 64 + (a0 * 16 + b1), b0 * 4);
  }

  lemma By16(q: nat, r: nat)
    requires r < 16
    ensures (q * 16 + r) / 16 == q
  {}

  lemma By1024(q: nat, r: nat)
    requires r < 1024
    ensures (q * 1024 + r) / 1024 == q
  {}

  // ---- Decoding ----

  function IndexOf(t: seq<CodeUnit>, c: CodeUnit): (n: nat)
    ensures n <= |t|
  {
    if t == [] || t[0] == c then 0 else 1 + IndexOf(t[1..], c)
  }

  /** The letters before the padding, and the length of the padding as far as it
      completes a group. */
  function Lengths(t: seq<CodeUnit>): (nat, nat) {
    var n := IndexOf(t, PAD);
    (n, if n == |t| then 0 else 4 - n % 4)
  }

  function ByteLength(n: nat, pad: nat): int { 3 * (n + pad) / 4 - pad }

  /** Four times six bits as three bytes. */
  function Join(a: Six, b: Six, c: Six, d: Six): seq<Byte> {
    [a * 4 + b / 16, b % 16 * 16 + c / 4, c % 4 * 64 + d]
  }

  /** The bytes of the groups of four letters from l, as long as l is below f.
      No caller's f reaches beyond the last whole group. */
  function Groups(t: seq<CodeUnit>, l: nat, f: int): seq<Byte>
    decreases f - l
  {
    if l >= f || l + 4 > |t| then []
    else Join(Value(t[l]), Value(t[l + 1]), Value(t[l + 2]), Value(t[l + 3])) + Groups(t, l + 4, f)
  }

  /** The bytes of an incomplete group at l. */
  function Tail(t: seq<CodeUnit>, l: nat, pad: nat): seq<Byte>
    requires (pad == 2 ==> l + 2 <= |t|) && (pad == 1 ==> l + 3 <= |t|)
  {
    if pad == 2 then Join(Value(t[l]), Value(t[l + 1]), 0, 0)[..1]
    else if pad == 1 then Join(Value(t[l]), Value(t[l + 1]), Value(t[l + 2]), 0)[..2]
    else []
  }

  /** Where the groups end. */
  function After(l: nat, f: int): nat
    decreases f - l
  {
    if l >= f then l else After(l + 4, f)
  }

  function Zeros(n: nat): seq<Byte> { seq<Byte>(n, i => 0) }

  /** An array of n bytes after writing bs to it; what does not fit is lost. */
  function Fit(bs: seq<Byte>, n: nat): seq<Byte> { if |bs| >= n then bs[..n] else bs + Zeros(n - |bs|) }

  lemma {:induction false} AfterIs(l: nat, f: int)
    ensures l < f ==> f <= After(l, f) < f + 4 && (After(l, f) - l) % 4 == 0
    ensures f <= l ==> After(l, f) == l
    decreases f - l
  {
    if l < f {
      AfterIs(l + 4, f);
    }
  }

  /** The first position that is not decoded as a group of four. */
  function Full(n: nat, pad: nat): int { if pad > 0 then n - 4 else n }

  /** The letters of an incomplete group are there. */
  lemma TailIsThere(t: seq<CodeUnit>)
    requires |t| % 4 == 0
    ensures var (n, pad) := Lengths(t);
            var f := Full(n, pad);
            && (f <= |t| - 3 || f == |t|)
            && (pad == 2 ==> After(0, f) + 2 <= |t|) && (pad == 1 ==> After(0, f) + 3 <= |t|)
  {
    var (n, pad) := Lengths(t);
    AfterIs(0, Full(n, pad));
  }

  /** Decoding of any string; a length that is no multiple of four, and padding
      before any letter, are errors. */
  function Decode(t: seq<CodeUnit>): Option<seq<Byte>> {
    var (n, pad) := Lengths(t);
    if |t| % 4 > 0 || ByteLength(n, pad) < 0 then None
    else
      var f := Full(n, pad);
      TailIsThere(t);
      Some(Fit(Groups(t, 0, f) + Tail(t, After(0, f), pad), ByteLength(n, pad)))
  }

  lemma EightBits(a: Six, b: Six, c: Six, d: Six)
    ensures var v := a * 0x4_0000 + b * 0x1000 + c * 0x40 + d;
            Join(a, b, c, d) == [v / 0x1_0000, v / 0x100 % 256, v % 256]
  {
    Halves(c, b, 0);
    Regroup(a, b / 16, b % 16, c / 4, c % 4, d);
    var x, y, z := a * 4 + b / 16, b % 16 * 16 + c / 4, c % 4 * 64 + d;
    ThreeBytes(x, y, z);
  }

  lemma Regroup(a: nat, b1: nat, b0: nat, c1: nat, c0: nat, d: nat)
    ensures a * 0x4_0000 + (b1 * 16 + b0) * 0x1000 + (c1 * 4 + c0) * 0x40 + d ==
            (a * 4 + b1) * 0x1_0000 + (b0 * 16 + c1) * 0x100 + (c0 * 64 + d)
  {}

  lemma ThreeBytes(x: Byte, y: Byte, z: Byte)
    ensures var v := x * 0x1_0000 + y * 0x100 + z;
            v / 0x1_0000 == x && v / 0x100 % 256 == y && v % 256 == z
  {
    By256(x * 256 + y, z);
    By256(x, y);
    Shifts(x * 0x1_0000 + y * 0x100 + z);
  }

  lemma SixteenBits(a: Six, b: Six, c: Six)
    ensures var v := a * 0x400 + b * 0x10 + c / 4;
            Join(a, b, c, 0)[..2] == [v / 256, v % 256]
  {
    var b1, b0 := b / 16, b % 16;
    Halves(0, b, 0);
    assert a * 0x400 + b * 0x10 + c / 4 == (a * 4 + b1) * 256 + (b0 * 16 + c / 4);
    By256(a * 4 + b1, b0 * 16 + c / 4);
  }

  lemma FitNext(bs: seq<Byte>, b: Byte, n: nat)
    ensures Fit(bs + [b], n) == if |bs| < n then Fit(bs, n)[|bs| := b] else Fit(bs, n)
  {
    if |bs| < n {
      assert Fit(bs + [b], n) == bs + [b] + Zeros(n - |bs| - 1);
    }
  }

  /** An array with a write position; writes past its end are lost. */
  class Output {
    const bytes: array<Byte>
    var a: nat
    ghost var written: seq<Byte>

    ghost predicate Valid()
      reads this, bytes
    {
      a == |written| && bytes[..] == Fit(written, bytes.Length)
    }

    constructor (n: nat)
      ensures Valid() && fresh(bytes) && written == [] && bytes.Length == n
    {
      bytes := new Byte[n](i => 0);
      a, written := 0, [];
    }

    method Put(b: int)
      requires Valid() && 0 <= b < 256
      modifies this, bytes
      ensures Valid() && written == old(written) + [b]
    {
      FitNext(written, b, bytes.Length);
      if a < bytes.Length {
        bytes[a] := b;
      }
      a := a + 1;
      written := written + [b];
    }
  }

  method DecodeGroup(a: Six, b: Six, c: Six, d: Six, out: Output)
    requires out.Valid()
    modifies out, out.bytes
    ensures out.Valid() && out.written == old(out.written) + Join(a, b, c, d)
  {
    var v: int := a * 0x4_0000 + b * 0x1000 + c * 0x40 + d;
    EightBits(a, b, c, d);
    ghost var joined := Join(a, b, c, d);
    out.Put(v / 0x1_0000);
    out.Put(v / 0x100 % 256);
    out.Put(v % 256);
    assert joined == [joined[0]] + [joined[1]] + [joined[2]];
  }

  method DecodeTail(t: seq<CodeUnit>, l: nat, pad: nat, out: Output)
    requires out.Valid() && (pad == 2 ==> l + 2 <= |t|) && (pad == 1 ==> l + 3 <= |t|)
    modifies out, out.bytes
    ensures out.Valid() && out.written == old(out.written) + Tail(t, l, pad)
  {
    if pad == 2 {
      var a: int, b: int := Value(t[l]), Value(t[l + 1]);
      out.Put(a * 4 + b / 16);
    } else if pad == 1 {
      var a: int, b: int, c: int := Value(t[l]), Value(t[l + 1]), Value(t[l + 2]);
      var v := a * 0x400 + b * 0x10 + c / 4;
      SixteenBits(a, b, c);
      ghost var two := Tail(t, l, pad);
      assert two == [two[0]] + [two[1]];
      out.Put(v / 256);
      out.Put(v % 256);
    }
  }

  method DecodeGroups(t: seq<CodeUnit>, f: int, out: Output) returns (l: nat)
    requires out.Valid() && out.written == [] && (f <= |t| - 3 || (f == |t| && |t| % 4 == 0))
    modifies out, out.bytes
    ensures out.Valid() && out.written == Groups(t, 0, f) && l == After(0, f)
  {
    l := 0;
    while l < f
      invariant (f == |t| ==> (|t| - l) % 4 == 0) && out.Valid()
      invariant out.written + Groups(t, l, f) == Groups(t, 0, f) && After(l, f) == After(0, f)
      decreases f - l
    {
      GroupInside(t, l, f);
      ghost var written := out.written;
      DecodeGroup(Value(t[l]), Value(t[l + 1]), Value(t[l + 2]), Value(t[l + 3]), out);
      GroupFurther(written, t, l, f);
      l := l + 4;
    }
  }

  lemma GroupFurther(written: seq<Byte>, t: seq<CodeUnit>, l: nat, f: int)
    requires l < f && l + 4 <= |t|
    ensures var three := Join(Value(t[l]), Value(t[l + 1]), Value(t[l + 2]), Value(t[l + 3]));
            && Groups(t, l, f) == three + Groups(t, l + 4, f) && After(l, f) == After(l + 4, f)
            && written + Groups(t, l, f) == written + three + Groups(t, l + 4, f)
  {}

  lemma GroupInside(t: seq<CodeUnit>, l: nat, f: int)
    requires l < f && (f <= |t| - 3 || (f == |t| && (|t| - l) % 4 == 0))
    ensures l + 4 <= |t| && (f == |t| ==> (|t| - (l + 4)) % 4 == 0)
  {}

  method ToByteArray(t: seq<CodeUnit>) returns (r: Option<seq<Byte>>)
    ensures r == Decode(t)
  {
    var (n, pad) := Lengths(t);
    if |t| % 4 > 0 || ByteLength(n, pad) < 0 {
      return None;
    }
    var f := if pad > 0 then n - 4 else n;
    var out := new Output(ByteLength(n, pad));
    TailIsThere(t);
    var l := DecodeGroups(t, f, out);
    DecodeTail(t, l, pad, out);
    r := Some(out.bytes[..]);
  }

  // ---- Round trip ----

  lemma LetterRoundTrip(v: Six)
    ensures Value(Letter(v)) == v && Letter(v) != PAD
  {}

  /** Four times six bits cut from three bytes join to them again. */
  lemma JoinSplit(a: Byte, b: Byte, c: Byte)
    ensures Join(a / 4, a % 4 * 16 + b / 16, b % 16 * 4 + c / 64, c % 64) == [a, b, c]
  {
    Halves(a, b, c);
    Refit(a % 4, b / 16, 16);
    Refit(b % 16, c / 64, 4);
  }

  lemma Refit(high: nat, low: nat, n: nat)
    requires low < n && n in {4, 16}
    ensures (high * n + low) / n == high && (high * n + low) % n == low
  {}

  lemma LettersJoin(x: Six, y: Six, z: Six, w: Six)
    ensures Join(Value(Letter(x)), Value(Letter(y)), Value(Letter(z)), Value(Letter(w))) == Join(x, y, z, w)
    ensures PAD !in [Letter(x), Letter(y), Letter(z), Letter(w)]
  {
    LetterRoundTrip(x);
    LetterRoundTrip(y);
    LetterRoundTrip(z);
    LetterRoundTrip(w);
  }

  lemma QuadRoundTrip(a: Byte, b: Byte, c: Byte)
    ensures var q := Quad(a, b, c);
            Join(Value(q[0]), Value(q[1]), Value(q[2]), Value(q[3])) == [a, b, c] && PAD !in q
  {
    JoinSplit(a, b, c);
    LettersJoin(a / 4, a % 4 * 16 + b / 16, b % 16 * 4 + c / 64, c % 64);
  }

  /** Whole groups hold no padding. */
  lemma {:induction false} GroupsHoldNoPad(t: seq<Byte>, q: nat)
    requires |t| == 3 * q
    ensures PAD !in Encode(t) && |Encode(t)| == 4 * q
  {
    if q > 0 {
      QuadRoundTrip(t[0], t[1], t[2]);
      GroupsHoldNoPad(t[3..], q - 1);
    }
  }

  lemma {:induction false} IndexIs(t: seq<CodeUnit>, c: CodeUnit, n: nat)
    requires n <= |t| && (forall i | 0 <= i < n :: t[i] != c) && (n < |t| ==> t[n] == c)
    ensures IndexOf(t, c) == n
  {
    if n > 0 {
      IndexIs(t[1..], c, n - 1);
    }
  }

  lemma EncodeFirst(t: seq<Byte>, quad: seq<CodeUnit>, rest: seq<CodeUnit>)
    requires |t| >= 3 && quad == Quad(t[0], t[1], t[2]) && rest == Encode(t[3..])
    ensures Encode(t) == quad + rest
  {
    assert Encode(t) == Quad(t[0], t[1], t[2]) + Encode(t[3..]);
  }

  /** One group of letters at l. */
  lemma GroupAt(all: seq<CodeUnit>, l: nat, a: Byte, b: Byte, c: Byte, quad: seq<CodeUnit>)
    requires quad == Quad(a, b, c) && Reads(all, l, quad)
    ensures l + 4 <= |all|
    ensures Join(Value(all[l]), Value(all[l + 1]), Value(all[l + 2]), Value(all[l + 3])) == [a, b, c]
  {
    FourItems(all, l, quad);
    QuadRoundTrip(a, b, c);
  }

  lemma FirstThree(t: seq<Byte>)
    requires |t| >= 3
    ensures t == [t[0], t[1], t[2]] + t[3..]
  {}

  /** Encoded groups at l are decoded to their bytes, if f lies in the last of
      them or right after it. */
  lemma {:induction false} GroupsRoundTrip(all: seq<CodeUnit>, l: nat, f: int, t: seq<Byte>, e: seq<CodeUnit>, q: nat)
    requires |t| == 3 * q && e == Encode(t) && Reads(all, l, e) && l + 4 * q <= |all|
    requires f <= l + 4 * q && (q > 0 ==> l + 4 * q - 4 < f)
    ensures Groups(all, l, f) == t && After(l, f) == l + 4 * q
    decreases q
  {
    if q > 0 {
      var quad, rest := Quad(t[0], t[1], t[2]), Encode(t[3..]);
      EncodeFirst(t, quad, rest);
      ReadsPart(all, l, quad, rest);
      GroupAt(all, l, t[0], t[1], t[2], quad);
      GroupsRoundTrip(all, l + 4, f, t[3..], rest, q - 1);
      GroupFurther([], all, l, f);
      FirstThree(t);
    }
  }

  lemma FourItems(all: seq<CodeUnit>, l: nat, quad: seq<CodeUnit>)
    requires |quad| == 4 && Reads(all, l, quad)
    ensures l + 4 <= |all|
    ensures all[l] == quad[0] && all[l + 1] == quad[1] && all[l + 2] == quad[2] && all[l + 3] == quad[3]
  {
    ReadsItem(all, l, quad, 0);
    ReadsItem(all, l, quad, 1);
    ReadsItem(all, l, quad, 2);
    ReadsItem(all, l, quad, 3);
  }

  /** The padding after k bytes of an incomplete group. */
  function Pads(k: nat): nat
    requires k < 3
  {
    if k == 0 then 0 else 3 - k
  }

  /** What is found of an encoded rest of no, one or two bytes. */
  predicate RestCode(e: seq<CodeUnit>, rest: seq<Byte>) {
    if |rest| == 0 then e == []
    else if |rest| == 1 then
      |e| == 4 && e[0] != PAD && e[1] != PAD && e[2] == PAD && Join(Value(e[0]), Value(e[1]), 0, 0)[0] == rest[0]
    else
      && |rest| == 2 && |e| == 4 && e[0] != PAD && e[1] != PAD && e[2] != PAD && e[3] == PAD
      && Join(Value(e[0]), Value(e[1]), Value(e[2]), 0)[0] == rest[0]
      && Join(Value(e[0]), Value(e[1]), Value(e[2]), 0)[1] == rest[1]
  }

  lemma SingleMeans(a: Byte)
    ensures RestCode(Single(a), [a])
  {
    LetterRoundTrip(a / 4);
    LetterRoundTrip(a % 4 * 16);
  }

  lemma PairMeans(a: Byte, b: Byte)
    ensures RestCode(Pair(a, b), [a, b])
  {
    LetterRoundTrip(a / 4);
    LetterRoundTrip(a % 4 * 16 + b / 16);
    LetterRoundTrip(b % 16 * 4);
  }

  lemma RestMeans(rest: seq<Byte>)
    requires |rest| < 3
    ensures RestCode(Encode(rest), rest)
  {
    if |rest| == 1 {
      SingleMeans(rest[0]);
    } else if |rest| == 2 {
      PairMeans(rest[0], rest[1]);
    }
  }

  /** The parts of an encoding: its groups, and the last letters with padding. */
  predicate InParts(e: seq<CodeUnit>, groups: seq<CodeUnit>, last: seq<CodeUnit>, rest: seq<Byte>, q: nat) {
    && e == groups + last && PAD !in groups && |groups| == 4 * q && |rest| < 3 && RestCode(last, rest)
  }

  lemma PadCounts(n: nat, q: nat, k: nat)
    requires k < 3 && n == 4 * q + if k == 0 then 0 else 4
    ensures n % 4 == 0 && (k > 0 ==> 4 - (n - Pads(k)) % 4 == Pads(k))
    ensures 3 * (n - Pads(k) + Pads(k)) / 4 - Pads(k) == 3 * q + k
  {
    assert 3 * n == (3 * q + if k == 0 then 0 else 3) * 4;
  }

  /** The letters and the padding of an encoding. */
  lemma LengthsOf(e: seq<CodeUnit>, groups: seq<CodeUnit>, last: seq<CodeUnit>, rest: seq<Byte>, q: nat, n: nat)
    requires InParts(e, groups, last, rest, q) && n == |e| - Pads(|rest|)
    ensures |e| % 4 == 0 && Lengths(e) == (n, Pads(|rest|)) && ByteLength(n, Pads(|rest|)) == 3 * q + |rest|
  {
    PadCounts(|e|, q, |rest|);
    LettersFirst(e, groups, last, rest, q);
    IndexIs(e, PAD, n);
  }

  lemma LettersFirst(e: seq<CodeUnit>, groups: seq<CodeUnit>, last: seq<CodeUnit>, rest: seq<Byte>, q: nat)
    requires InParts(e, groups, last, rest, q)
    ensures var n := |e| - Pads(|rest|);
            n >= 0 && (forall i | 0 <= i < n :: e[i] != PAD) && (n < |e| ==> e[n] == PAD)
  {
    forall i | 0 <= i < |groups| ensures e[i] != PAD { assert groups[i] in groups; }
  }

  lemma TailOf(e: seq<CodeUnit>, l: nat, last: seq<CodeUnit>, rest: seq<Byte>)
    requires |rest| < 3 && RestCode(last, rest) && Reads(e, l, last)
    ensures Tail(e, l, Pads(|rest|)) == rest
  {
    if rest != [] {
      FourItems(e, l, last);
    }
  }

  lemma FullEnds(n: nat, q: nat, k: nat)
    requires k < 3 && n == 4 * q + if k == 0 then 0 else 4
    ensures n % 4 == 0
    ensures var f := Full(n - Pads(k), Pads(k));
            (f <= n - 3 || f == n) && f <= 4 * q && (q > 0 ==> 4 * q - 4 < f)
  {}

  lemma GroupsOf(
    e: seq<CodeUnit>, groups: seq<CodeUnit>, last: seq<CodeUnit>, body: seq<Byte>, rest: seq<Byte>, q: nat, f: int)
    requires InParts(e, groups, last, rest, q) && groups == Encode(body) && |body| == 3 * q
    requires f == Full(|e| - Pads(|rest|), Pads(|rest|))
    ensures |e| % 4 == 0 && (f <= |e| - 3 || f == |e|) && Groups(e, 0, f) == body && After(0, f) == 4 * q
  {
    FullEnds(|e|, q, |rest|);
    ReadsGroups(e, groups, last);
    GroupsRoundTrip(e, 0, f, body, groups, q);
  }

  lemma ReadsGroups(e: seq<CodeUnit>, groups: seq<CodeUnit>, last: seq<CodeUnit>)
    requires e == groups + last
    ensures Reads(e, 0, groups) && Reads(e, |groups|, last)
  {}

  lemma DecodeOf(e: seq<CodeUnit>, groups: seq<CodeUnit>, last: seq<CodeUnit>, body: seq<Byte>, rest: seq<Byte>, q: nat)
    requires InParts(e, groups, last, rest, q) && groups == Encode(body) && |body| == 3 * q
    ensures Decode(e) == Some(body + rest) && ByteLength(Lengths(e).0, Lengths(e).1) == |body + rest|
  {
    LengthsOf(e, groups, last, rest, q, |e| - Pads(|rest|));
    GroupsOf(e, groups, last, body, rest, q, Full(|e| - Pads(|rest|), Pads(|rest|)));
    ReadsGroups(e, groups, last);
    TailOf(e, 4 * q, last, rest);
    FitAll(body + rest);
    DecodeIs(e, |e| - Pads(|rest|), Pads(|rest|), 4 * q, body, rest);
  }

  lemma DecodeIs(e: seq<CodeUnit>, n: nat, pad: nat, l: nat, body: seq<Byte>, rest: seq<Byte>)
    requires |e| % 4 == 0 && Lengths(e) == (n, pad) && ByteLength(n, pad) == |body + rest|
    requires (Full(n, pad) <= |e| - 3 || Full(n, pad) == |e|) && Groups(e, 0, Full(n, pad)) == body
    requires After(0, Full(n, pad)) == l && (pad == 2 ==> l + 2 <= |e|) && (pad == 1 ==> l + 3 <= |e|)
    requires Tail(e, l, pad) == rest && Fit(body + rest, |body + rest|) == body + rest
    ensures Decode(e) == Some(body + rest)
  {}

  lemma FitAll(bs: seq<Byte>)
    ensures Fit(bs, |bs|) == bs
  {}

  lemma EncodeInParts(
    e: seq<CodeUnit>, groups: seq<CodeUnit>, last: seq<CodeUnit>, body: seq<Byte>, rest: seq<Byte>, q: nat)
    requires |body| == 3 * q && |rest| < 3
    requires e == Encode(body + rest) && groups == Encode(body) && last == Encode(rest)
    ensures InParts(e, groups, last, rest, q)
  {
    EncodeParts(body, rest, q);
    GroupsHoldNoPad(body, q);
    RestMeans(rest);
    MakeParts(e, groups, last, rest, q);
  }

  lemma MakeParts(e: seq<CodeUnit>, groups: seq<CodeUnit>, last: seq<CodeUnit>, rest: seq<Byte>, q: nat)
    requires e == groups + last && PAD !in groups && |groups| == 4 * q && |rest| < 3 && RestCode(last, rest)
    ensures InParts(e, groups, last, rest, q)
  {}

  lemma PartsRoundTrip(t: seq<Byte>, e: seq<CodeUnit>, body: seq<Byte>, rest: seq<Byte>, q: nat)
    requires t == body + rest && e == Encode(t) && |body| == 3 * q && |rest| < 3
    ensures Decode(e) == Some(t) && ByteLength(Lengths(e).0, Lengths(e).1) == |t|
  {
    EncodeInParts(e, Encode(body), Encode(rest), body, rest, q);
    DecodeOf(e, Encode(body), Encode(rest), body, rest, q);
  }

  lemma SplitGroups(t: seq<Byte>) returns (body: seq<Byte>, rest: seq<Byte>, q: nat)
    ensures t == body + rest && |body| == 3 * q && |rest| < 3
  {
    q := |t| / 3;
    body, rest := t[..3 * q], t[3 * q..];
  }

  /** Round trip, for every sequence of bytes; and the length computed from an
      encoding, without decoding it, is the number of bytes encoded. */
  lemma RoundTrip(t: seq<Byte>)
    ensures Decode(Encode(t)) == Some(t)
    ensures ByteLength(Lengths(Encode(t)).0, Lengths(Encode(t)).1) == |t|
  {
    var body, rest, q := SplitGroups(t);
    PartsRoundTrip(t, Encode(t), body, rest, q);
  }
}
