/** The buffer's UTF-8 encoder, over any UTF-16 text, and its decoder, over any
    bytes (RFC 3629, section 3).
 */
module Utf8 {
  import opened Options
  import opened Units

  const REPLACEMENT: CodeUnit := 65533

  /** The bytes of a replacement character. */
  const UNKNOWN: seq<Byte> := [239, 191, 189]

  predicate IsSurrogate(c: int) { 55296 <= c <= 57343 }

  // ---- Encoding ----

  /** The bytes of one code point. */
  function Bytes(n: nat): seq<Byte>
    requires n < 0x11_0000
  {
    if n < 0x80 then [n]
    else if n < 0x800 then [192 + n / 64, 128 + n % 64]
    else if n < 0x1_0000 then [224 + n / 64 / 64, 128 + n / 64 % 64, 128 + n % 64]
    else [240 + n / 64 / 64 / 64, 128 + n / 64 / 64 % 64, 128 + n / 64 % 64, 128 + n % 64]
  }

  /** A code point that is no surrogate. */
  type Code = n: int | 0 <= n < 0x11_0000 && !IsSurrogate(n)

  function AllBytes(cs: seq<Code>): seq<Byte> { if cs == [] then [] else Bytes(cs[0]) + AllBytes(cs[1..]) }

  /** A lead surrogate that is held back. */
  type Held = h: Option<CodeUnit> | h.Some? ==> IsLead(h.value) witness None

  /** The code points put out for one more code unit, and what is held back then. */
  function Step(held: Held, n: CodeUnit, last: bool): (seq<Code>, Held) {
    if !IsSurrogate(n) then ((if held.Some? then [REPLACEMENT] else []) + [n], None)
    else if held.None? then if IsTrail(n) || last then ([REPLACEMENT], None) else ([], Some(n))
    else if IsLead(n) then ([REPLACEMENT], Some(n))
    else ([CodePoint(held.value, n)], None)
  }

  /** What is still put out for s; what is held back at the end is lost. */
  function Codes(held: Held, s: seq<CodeUnit>): seq<Code>
    decreases |s|
  {
    if s == [] then [] else Step(held, s[0], |s| == 1).0 + Codes(Step(held, s[0], |s| == 1).1, s[1..])
  }

  function Encode(s: seq<CodeUnit>): seq<Byte> { AllBytes(Codes(None, s)) }

  lemma {:induction false} BytesJoin(a: seq<Code>, b: seq<Code>)
    ensures AllBytes(a + b) == AllBytes(a) + AllBytes(b)
  {
    if a == [] {
      assert a + b == b;
    } else {
      assert (a + b)[1..] == a[1..] + b;
      BytesJoin(a[1..], b);
    }
  }

  /** What is left of a limit, if there is one, after n bytes; it may be negative. */
  function Less(left: Option<int>, n: nat): Option<int> { if left.None? then None else Some(left.value - n) }

  predicate Fits(left: Option<int>, n: nat) { left.None? || n <= left.value }

  /** The bytes of the code points up to the first that does not fit. */
  function Within(cs: seq<Code>, left: Option<int>): seq<Byte> {
    if cs == [] || !Fits(left, |Bytes(cs[0])|) then []
    else Bytes(cs[0]) + Within(cs[1..], Less(left, |Bytes(cs[0])|))
  }

  /** The limit that a number stands for; zero is none. */
  function Limit(units: int): Option<int> { if units == 0 then None else Some(units) }

  /** Nothing fits into less than nothing. */
  lemma WithinNothing(cs: seq<Code>, left: int)
    requires left < 0
    ensures Within(cs, Some(left)) == []
  {}

  lemma JoinBytes(a: seq<Byte>, b: seq<Byte>, c: seq<Byte>)
    ensures a + (b + c) == a + b + c
  {}

  lemma {:induction false} WithinJoin(a: seq<Code>, b: seq<Code>, left: Option<int>)
    ensures Within(a + b, left) == Within(a, left) + Within(b, Less(left, |AllBytes(a)|))
    decreases |a|
  {
    if a == [] {
      assert a + b == b;
    } else {
      var bytes, rest := Bytes(a[0]), a[1..];
      assert (a + b)[0] == a[0] && (a + b)[1..] == rest + b;
      if Fits(left, |bytes|) {
        var left1 := Less(left, |bytes|);
        WithinJoin(rest, b, left1);
        JoinBytes(bytes, Within(rest, left1), Within(b, Less(left1, |AllBytes(rest)|)));
      } else {
        WithinNothing(b, left.value - |AllBytes(a)|);
      }
    }
  }

  /** The bytes within a limit are those of the longest prefix of the code points
      that fits, and without one they are all. */
  lemma {:induction false} WithinMeans(cs: seq<Code>, left: Option<int>) returns (m: nat)
    requires left.Some? ==> left.value >= 0
    ensures m <= |cs| && Within(cs, left) == AllBytes(cs[..m]) && Fits(left, |AllBytes(cs[..m])|)
    ensures m < |cs| ==> !Fits(left, |AllBytes(cs[..m + 1])|)
    decreases |cs|
  {
    if cs == [] {
      m := 0;
    } else if !Fits(left, |Bytes(cs[0])|) {
      m := 0;
      assert cs[..1] == [cs[0]] && AllBytes([cs[0]]) == Bytes(cs[0]) + AllBytes([cs[0]][1..]);
    } else {
      var n := WithinMeans(cs[1..], Less(left, |Bytes(cs[0])|));
      m := n + 1;
      PrefixBytes(cs, n);
      if m < |cs| { PrefixBytes(cs, m); }
    }
  }

  lemma PrefixBytes(cs: seq<Code>, n: nat)
    requires n < |cs|
    ensures AllBytes(cs[..n + 1]) == Bytes(cs[0]) + AllBytes(cs[1..][..n])
  {
    assert cs[..n + 1][1..] == cs[1..][..n];
  }

  /** The encoder with a limit on the bytes, where zero is no limit. */
  function EncodeWithin(s: seq<CodeUnit>, units: int): seq<Byte> { Within(Codes(None, s), Limit(units)) }

  lemma {:induction false} WithinAll(cs: seq<Code>)
    ensures Within(cs, None) == AllBytes(cs)
  {
    if cs != [] {
      WithinAll(cs[1..]);
    }
  }

  lemma OneWithin(c: Code, left: Option<int>)
    ensures Within([c], left) == (if Fits(left, |Bytes(c)|) then Bytes(c) else []) && AllBytes([c]) == Bytes(c)
  {}

  method PushBytes(n: nat) returns (r: seq<Byte>)
    requires n < 0x11_0000
    ensures r == Bytes(n)
  {
    if n < 0x80 {
      r := [n];
    } else if n < 0x800 {
      r := [n / 0x40 + 192, n % 0x40 + 128];
    } else if n < 0x1_0000 {
      Shifts(n);
      r := [n / 0x1000 + 224, n / 0x40 % 0x40 + 128, n % 0x40 + 128];
    } else {
      Shifts(n);
      r := [n / 0x4_0000 + 240, n / 0x1000 % 0x40 + 128, n / 0x40 % 0x40 + 128, n % 0x40 + 128];
    }
  }

  lemma Shifts(n: nat)
    ensures n / 0x1000 == n / 64 / 64 && n / 0x4_0000 == n / 64 / 64 / 64
  {}

  /** The replacement character, if it fits. */
  method PushUnknown(left: Option<int>) returns (o: seq<Byte>, rest: Option<int>)
    ensures o == Within([REPLACEMENT], left) && rest == Less(left, |AllBytes([REPLACEMENT])|)
  {
    OneWithin(REPLACEMENT, left);
    rest := Less(left, 3);
    o := if rest.None? || rest.value > -1 then UNKNOWN else [];
  }

  /** A code point, if it fits. */
  method PushCode(code: Code, left: Option<int>) returns (o: seq<Byte>, rest: Option<int>, stop: bool)
    ensures o == Within([code], left) && rest == Less(left, |AllBytes([code])|)
    ensures stop ==> rest.Some? && rest.value < 0
  {
    OneWithin(code, left);
    o := PushBytes(code);
    stop := !Fits(left, |o|);
    rest := Less(left, |o|);
    if stop {
      o := [];
    }
  }

  /** One code unit; stop tells that a code point did not fit. */
  method EncodeUnit(held: Held, n: CodeUnit, last: bool, left: Option<int>)
    returns (o: seq<Byte>, next: Held, rest: Option<int>, stop: bool)
    ensures o == Within(Step(held, n, last).0, left) && next == Step(held, n, last).1
    ensures rest == Less(left, |AllBytes(Step(held, n, last).0)|)
    ensures stop ==> rest.Some? && rest.value < 0
  {
    o, next, rest, stop := [], None, left, false;
    var code: Code := REPLACEMENT;
    if IsSurrogate(n) {
      if held.None? {
        if IsTrail(n) || last {
          o, rest := PushUnknown(left);
        } else {
          next := Some(n);
        }
        return;
      }
      if IsLead(n) {
        o, rest := PushUnknown(left);
        next := Some(n);
        return;
      }
      code := CodePoint(held.value, n);
    } else {
      if held.Some? {
        o, rest := PushUnknown(left);
        WithinJoin([REPLACEMENT], [n], left);
        BytesJoin([REPLACEMENT], [n]);
      }
      code := n;
    }
    var bytes;
    bytes, rest, stop := PushCode(code, rest);
    o := o + bytes;
  }

  /** The encoder's loop, which ends early at a code point that does not fit. */
  method ToBytes(s: seq<CodeUnit>, units: int) returns (o: seq<Byte>)
    ensures o == EncodeWithin(s, units)
  {
    o := [];
    var held: Held := None;
    var left := Limit(units);
    for u := 0 to |s|
      invariant o + Within(Codes(held, s[u..]), left) == EncodeWithin(s, units)
    {
      var bytes, next, rest, stop := EncodeUnit(held, s[u], u + 1 == |s|, left);
      OneUnitFurther(held, s, u, left);
      JoinBytes(o, bytes, Within(Codes(next, s[u + 1..]), rest));
      o, held, left := o + bytes, next, rest;
      if stop {
        WithinNothing(Codes(held, s[u + 1..]), left.value);
        return;
      }
    }
  }

  lemma OneUnitFurther(held: Held, s: seq<CodeUnit>, u: nat, left: Option<int>)
    requires u < |s|
    ensures var (codes, next) := Step(held, s[u], u + 1 == |s|);
            Within(Codes(held, s[u..]), left) ==
            Within(codes, left) + Within(Codes(next, s[u + 1..]), Less(left, |AllBytes(codes)|))
  {
    var (codes, next) := Step(held, s[u], u + 1 == |s|);
    assert s[u..][1..] == s[u + 1..];
    WithinJoin(codes, Codes(next, s[u + 1..]), left);
  }

  // ---- Decoding ----

  predicate IsTailByte(b: int) { 128 <= b < 192 }

  function LengthOf(c: Byte): nat { if c > 239 then 4 else if c > 223 then 3 else if c > 191 then 2 else 1 }

  /** Six more bits. */
  function More(a: nat, b: int): nat { a * 64 + b % 64 }

  predicate Accepted(a: int, length: nat) {
    if length == 2 then 0x7F < a < 0x800
    else if length == 3 then 0x7FF < a < 0x1_0000 && !IsSurrogate(a)
    else 0xFFFF < a < 0x11_0000
  }

  /** The bits of n tail bytes from i after those in a, if they are tail bytes. */
  function Tails(t: seq<Byte>, i: nat, n: nat, a: nat): Option<nat>
    requires i + n <= |t|
    decreases n
  {
    if n == 0 then Some(a) else if !IsTailByte(t[i]) then None else Tails(t, i + 1, n - 1, More(a, t[i]))
  }

  /** The code point at i, if its bytes are there and well formed. */
  function CodeAt(t: seq<Byte>, i: nat): (r: Option<nat>)
    requires i < |t|
    ensures r.Some? ==> i + LengthOf(t[i]) <= |t| && r.value < 0x11_0000 && !IsSurrogate(r.value)
  {
    var c, l := t[i], LengthOf(t[i]);
    if i + l > |t| then None
    else if l == 1 then if c < 128 then Some(c) else None
    else
      match Tails(t, i + 1, l - 1, if l == 2 then c % 32 else c % 16)
      case None => None
      case Some(a) => if Accepted(a, l) then Some(a) else None
  }

  /** The code units of a code point. */
  function UnitsOf(a: nat): seq<CodeUnit>
    requires a < 0x11_0000
  {
    if a > 0xFFFF then [(a - 0x1_0000) / 1024 + 55296, (a - 0x1_0000) % 1024 + 56320] else [a]
  }

  /** Every step takes at least one byte; a byte that starts nothing is replaced. */
  function DecodeFrom(t: seq<Byte>, i: nat): seq<CodeUnit>
    requires i <= |t|
    decreases |t| - i
  {
    if i == |t| then []
    else
      match CodeAt(t, i)
      case None => [REPLACEMENT] + DecodeFrom(t, i + 1)
      case Some(a) => UnitsOf(a) + DecodeFrom(t, i + LengthOf(t[i]))
  }

  function Decode(t: seq<Byte>): seq<CodeUnit> { DecodeFrom(t, 0) }

  /** The decoder's loop. */
  method ToUnits(t: seq<Byte>) returns (r: seq<CodeUnit>)
    ensures r == Decode(t)
  {
    r := [];
    var i := 0;
    while i < |t|
      invariant 0 <= i <= |t| && r + DecodeFrom(t, i) == Decode(t)
      decreases |t| - i
    {
      var c := t[i];
      var l := if c > 239 then 4 else if c > 223 then 3 else if c > 191 then 2 else 1;
      var f := ReadCode(t, i, l);
      var units := PushUnits(f);
      var next := i + if f.None? then 1 else l;
      JoinThree(r, units, DecodeFrom(t, next));
      r, i := r + units, next;
    }
  }

  lemma JoinThree(a: seq<CodeUnit>, b: seq<CodeUnit>, c: seq<CodeUnit>)
    ensures a + (b + c) == a + b + c
  {}

  method PushUnits(f: Option<nat>) returns (r: seq<CodeUnit>)
    requires f.Some? ==> f.value < 0x11_0000
    ensures r == if f.None? then [REPLACEMENT] else UnitsOf(f.value)
  {
    if f.None? {
      r := [REPLACEMENT];
    } else if f.value > 0xFFFF {
      var v := f.value - 0x1_0000;
      r := [v / 1024 % 1024 + 55296, 56320 + v % 1024];
    } else {
      r := [f.value];
    }
  }

  method ReadCode(t: seq<Byte>, i: nat, l: nat) returns (f: Option<nat>)
    requires i < |t| && l == LengthOf(t[i])
    ensures f == CodeAt(t, i)
  {
    f := None;
    var c: int := t[i];
    if i + l > |t| {
      return;
    }
    if l == 1 {
      if c < 128 {
        f := Some(c);
      }
    } else if l == 2 {
      var o: int := t[i + 1];
      OneTail(t, i + 1, c % 32);
      if IsTailByte(o) {
        var a := c % 32 * 0x40 + o % 64;
        if a > 127 {
          f := Some(a);
        }
      }
    } else if l == 3 {
      var o: int, u: int := t[i + 1], t[i + 2];
      OneTail(t, i + 2, More(c % 16, o));
      if IsTailByte(o) && IsTailByte(u) {
        var a := c % 16 * 0x1000 + o % 64 * 0x40 + u % 64;
        if a > 2047 && (a < 55296 || a > 57343) {
          f := Some(a);
        }
      }
    } else {
      var o: int, u: int, s: int := t[i + 1], t[i + 2], t[i + 3];
      OneTail(t, i + 3, More(More(c % 16, o), u));
      TwoTails(t, i + 2, More(c % 16, o));
      if IsTailByte(o) && IsTailByte(u) && IsTailByte(s) {
        var a := c % 16 * 0x4_0000 + o % 64 * 0x1000 + u % 64 * 0x40 + s % 64;
        if a > 65535 && a < 1114112 {
          f := Some(a);
        }
      }
    }
  }

  lemma OneTail(t: seq<Byte>, i: nat, a: nat)
    requires i + 1 <= |t|
    ensures Tails(t, i, 1, a) == if IsTailByte(t[i]) then Some(More(a, t[i])) else None
  {
    assert i + 1 <= |t| ==> Tails(t, i + 1, 0, More(a, t[i])) == Some(More(a, t[i]));
  }

  lemma TwoTails(t: seq<Byte>, i: nat, a: nat)
    requires i + 2 <= |t|
    ensures Tails(t, i, 2, a) ==
            if IsTailByte(t[i]) && IsTailByte(t[i + 1]) then Some(More(More(a, t[i]), t[i + 1])) else None
  {
    OneTail(t, i + 1, More(a, t[i]));
  }

  // ---- One code point ----

  lemma TailByte(r: nat)
    requires r < 64
    ensures IsTailByte(128 + r) && (128 + r) % 64 == r
  {}

  lemma TwoBytes(t: seq<Byte>, i: nat, n: nat)
    requires i + 2 <= |t| && 0x80 <= n < 0x800 && t[i] == 192 + n / 64 && t[i + 1] == 128 + n % 64
    ensures LengthOf(t[i]) == 2 && CodeAt(t, i) == Some(n)
  {
    TailByte(n % 64);
    assert (192 + n / 64) % 32 == n / 64;
    OneTail(t, i + 1, n / 64);
    assert More(n / 64, n % 64) == n;
  }

  lemma ThreeBytes(t: seq<Byte>, i: nat, n: nat, m: nat)
    requires i + 3 <= |t| && 0x800 <= n < 0x1_0000 && !IsSurrogate(n) && m == n / 64
    requires t[i] == 224 + m / 64 && t[i + 1] == 128 + m % 64 && t[i + 2] == 128 + n % 64
    ensures LengthOf(t[i]) == 3 && CodeAt(t, i) == Some(n)
  {
    TailByte(m % 64);
    TailByte(n % 64);
    assert (224 + m / 64) % 16 == m / 64;
    TwoTails(t, i + 1, m / 64);
    assert More(m / 64, m % 64) == m && More(m, n % 64) == n;
  }

  lemma FourBytes(t: seq<Byte>, i: nat, n: nat, m: nat, k: nat)
    requires i + 4 <= |t| && 0x1_0000 <= n < 0x11_0000 && m == n / 64 && k == m / 64
    requires t[i] == 240 + k / 64 && t[i + 1] == 128 + k % 64 && t[i + 2] == 128 + m % 64 && t[i + 3] == 128 + n % 64
    ensures LengthOf(t[i]) == 4 && CodeAt(t, i) == Some(n)
  {
    TailByte(k % 64);
    TailByte(m % 64);
    TailByte(n % 64);
    assert (240 + k / 64) % 16 == k / 64;
    TwoTails(t, i + 2, k);
    assert More(k / 64, k % 64) == k && More(k, m % 64) == m && More(m, n % 64) == n;
  }

  /** The bytes of a code point are read as that code point. */
  lemma CodeRoundTrip(n: nat, t: seq<Byte>, i: nat, bytes: seq<Byte>)
    requires n < 0x11_0000 && !IsSurrogate(n) && bytes == Bytes(n) && Reads(t, i, bytes)
    ensures i + |bytes| <= |t| && LengthOf(t[i]) == |bytes| && CodeAt(t, i) == Some(n)
  {
    ReadsItem(t, i, bytes, 0);
    if n >= 0x1_0000 {
      ReadsItem(t, i, bytes, 1);
      ReadsItem(t, i, bytes, 2);
      ReadsItem(t, i, bytes, 3);
      FourBytes(t, i, n, n / 64, n / 64 / 64);
    } else if n >= 0x800 {
      ReadsItem(t, i, bytes, 1);
      ReadsItem(t, i, bytes, 2);
      ThreeBytes(t, i, n, n / 64);
    } else if n >= 0x80 {
      ReadsItem(t, i, bytes, 1);
      TwoBytes(t, i, n);
    }
  }

  lemma DecodeStep(t: seq<Byte>, i: nat, a: nat, l: nat)
    requires i < |t| && CodeAt(t, i) == Some(a) && l == LengthOf(t[i])
    ensures i + l <= |t| && DecodeFrom(t, i) == UnitsOf(a) + DecodeFrom(t, i + l)
  {}

  /** Text that starts with the bytes of a code point. */
  lemma DecodeCode(n: nat, t: seq<Byte>, i: nat, bytes: seq<Byte>)
    requires n < 0x11_0000 && !IsSurrogate(n) && bytes == Bytes(n) && Reads(t, i, bytes)
    ensures i + |bytes| <= |t| && DecodeFrom(t, i) == UnitsOf(n) + DecodeFrom(t, i + |bytes|)
  {
    CodeRoundTrip(n, t, i, bytes);
    DecodeStep(t, i, n, |bytes|);
  }

  lemma MoreParts(a: nat, b: Byte)
    requires IsTailByte(b)
    ensures More(a, b) / 64 == a && b == 128 + More(a, b) % 64
  {}

  lemma ReadsBytes(t: seq<Byte>, i: nat, bytes: seq<Byte>)
    requires i + |bytes| <= |t| && forall j | 0 <= j < |bytes| :: t[i + j] == bytes[j]
    ensures Reads(t, i, bytes)
  {}

  lemma TwoBytesBack(t: seq<Byte>, i: nat, n: nat)
    requires i < |t| && LengthOf(t[i]) == 2 && CodeAt(t, i) == Some(n)
    ensures Reads(t, i, Bytes(n))
  {
    OneTail(t, i + 1, t[i] % 32);
    MoreParts(t[i] % 32, t[i + 1]);
    ReadsBytes(t, i, Bytes(n));
  }

  lemma ThreeBytesBack(t: seq<Byte>, i: nat, n: nat)
    requires i < |t| && LengthOf(t[i]) == 3 && CodeAt(t, i) == Some(n)
    ensures Reads(t, i, Bytes(n))
  {
    TwoTails(t, i + 1, t[i] % 16);
    MoreParts(t[i] % 16, t[i + 1]);
    MoreParts(More(t[i] % 16, t[i + 1]), t[i + 2]);
    ReadsBytes(t, i, Bytes(n));
  }

  lemma FourBytesBack(t: seq<Byte>, i: nat, n: nat)
    requires i < |t| && LengthOf(t[i]) == 4 && CodeAt(t, i) == Some(n)
    ensures Reads(t, i, Bytes(n))
  {
    var k := More(t[i] % 16, t[i + 1]);
    TwoTails(t, i + 2, k);
    MoreParts(t[i] % 16, t[i + 1]);
    MoreParts(k, t[i + 2]);
    MoreParts(More(k, t[i + 2]), t[i + 3]);
    assert Bytes(n) == [t[i], t[i + 1], t[i + 2], t[i + 3]];
    ReadsBytes(t, i, [t[i], t[i + 1], t[i + 2], t[i + 3]]);
  }

  /** A code point is read exactly where its own bytes are: no longer form of it, no
      surrogate, and nothing past the last code point is accepted. */
  lemma CodeAtIff(t: seq<Byte>, i: nat, n: nat)
    requires i < |t|
    ensures CodeAt(t, i) == Some(n) <==> n < 0x11_0000 && !IsSurrogate(n) && Reads(t, i, Bytes(n))
  {
    if n < 0x11_0000 && !IsSurrogate(n) && Reads(t, i, Bytes(n)) {
      CodeRoundTrip(n, t, i, Bytes(n));
    }
    if CodeAt(t, i) == Some(n) {
      if LengthOf(t[i]) == 2 {
        TwoBytesBack(t, i, n);
      } else if LengthOf(t[i]) == 3 {
        ThreeBytesBack(t, i, n);
      } else if LengthOf(t[i]) == 4 {
        FourBytesBack(t, i, n);
      } else {
        ReadsBytes(t, i, Bytes(n));
      }
    }
  }

  /** Decoding takes a code point where the bytes of one are, and otherwise replaces
      one byte. */
  lemma DecodeMeans(t: seq<Byte>, i: nat)
    requires i < |t|
    ensures forall n: Code | Reads(t, i, Bytes(n)) ::
              i + |Bytes(n)| <= |t| && DecodeFrom(t, i) == UnitsOf(n) + DecodeFrom(t, i + |Bytes(n)|)
    ensures (forall n: Code :: !Reads(t, i, Bytes(n))) ==> DecodeFrom(t, i) == [REPLACEMENT] + DecodeFrom(t, i + 1)
  {
    forall n: Code | Reads(t, i, Bytes(n))
      ensures i + |Bytes(n)| <= |t| && DecodeFrom(t, i) == UnitsOf(n) + DecodeFrom(t, i + |Bytes(n)|)
    {
      DecodeCode(n, t, i, Bytes(n));
    }
    if CodeAt(t, i).Some? { CodeAtIff(t, i, CodeAt(t, i).value); }
  }

  lemma PairRoundTrip(lead: CodeUnit, trail: CodeUnit)
    requires IsLead(lead) && IsTrail(trail)
    ensures 0xFFFF < CodePoint(lead, trail) < 0x11_0000 && UnitsOf(CodePoint(lead, trail)) == [lead, trail]
  {
    var v := CodePoint(lead, trail) - 0x1_0000;
    assert v / 1024 == lead - 55296 && v % 1024 == trail - 56320;
  }

  // ---- Round trip ----

  /** Every surrogate is half of a pair. */
  predicate WellFormed(s: seq<CodeUnit>) {
    s == [] || ((Width(s) == 2 || !IsSurrogate(s[0])) && WellFormed(s[Width(s)..]))
  }

  /** The text with every lone surrogate replaced; only a last lead surrogate that
      follows another one is dropped. */
  function Repaired(s: seq<CodeUnit>, afterLead: bool): seq<CodeUnit>
    decreases |s|
  {
    if s == [] then []
    else if Width(s) == 2 then s[..2] + Repaired(s[2..], false)
    else if !IsSurrogate(s[0]) then [s[0]] + Repaired(s[1..], false)
    else if IsLead(s[0]) && |s| == 1 && afterLead then []
    else [REPLACEMENT] + Repaired(s[1..], IsLead(s[0]))
  }

  lemma SameHead(s: seq<CodeUnit>, n: nat, r: seq<CodeUnit>)
    requires n <= |s|
    ensures s[..n] + r == s <==> r == s[n..]
  {
    assert s == s[..n] + s[n..] && (s[..n] + r)[n..] == r;
  }

  lemma {:induction false} RepairedIff(s: seq<CodeUnit>, afterLead: bool)
    ensures Repaired(s, afterLead) == s <==> WellFormed(s)
    decreases |s|
  {
    if s != [] {
      var n := Width(s);
      RepairedIff(s[n..], false);
      if n == 2 || !IsSurrogate(s[0]) {
        var r := Repaired(s[n..], false);
        SameHead(s, n, r);
        assert Repaired(s, afterLead) == s[..n] + r;
      } else if !(IsLead(s[0]) && |s| == 1 && afterLead) {
        assert Repaired(s, afterLead)[0] == REPLACEMENT;
      }
    }
  }

  function AllUnits(cs: seq<Code>): seq<CodeUnit> { if cs == [] then [] else UnitsOf(cs[0]) + AllUnits(cs[1..]) }

  lemma {:induction false} UnitsJoin(a: seq<Code>, b: seq<Code>)
    ensures AllUnits(a + b) == AllUnits(a) + AllUnits(b)
  {
    if a == [] {
      assert a + b == b;
    } else {
      assert (a + b)[1..] == a[1..] + b;
      UnitsJoin(a[1..], b);
    }
  }

  /** The bytes of code points are decoded to their code units. */
  lemma {:induction false} CodesDecode(cs: seq<Code>, t: seq<Byte>, i: nat)
    requires i <= |t| && t[i..] == AllBytes(cs)
    ensures DecodeFrom(t, i) == AllUnits(cs)
    decreases |cs|
  {
    if cs != [] {
      var bytes := Bytes(cs[0]);
      SplitAt(t, i, bytes, AllBytes(cs[1..]));
      DecodeCode(cs[0], t, i, bytes);
      CodesDecode(cs[1..], t, i + |bytes|);
    }
  }

  lemma SplitAt(t: seq<Byte>, i: nat, a: seq<Byte>, b: seq<Byte>)
    requires i <= |t| && t[i..] == a + b
    ensures Reads(t, i, a) && i + |a| <= |t| && t[i + |a|..] == b
  {
    assert t[i..][..|a|] == a && t[i..][|a|..] == b;
  }

  /** The code units of a step. */
  function StepUnits(held: Held, n: CodeUnit, last: bool): seq<CodeUnit> {
    if !IsSurrogate(n) then (if held.Some? then [REPLACEMENT] else []) + [n]
    else if held.None? then if IsTrail(n) || last then [REPLACEMENT] else []
    else if IsLead(n) then [REPLACEMENT]
    else [held.value, n]
  }

  lemma StepMeans(held: Held, n: CodeUnit, last: bool)
    ensures AllUnits(Step(held, n, last).0) == StepUnits(held, n, last)
  {
    if !IsSurrogate(n) {
      UnitsJoin([REPLACEMENT], [n]);
    } else if held.Some? && IsTrail(n) {
      PairRoundTrip(held.value, n);
    }
  }

  /** The repaired text, with what is held back before it. */
  function Pending(held: Held, s: seq<CodeUnit>): seq<CodeUnit> {
    if held.None? then Repaired(s, false) else Repaired([held.value] + s, true)
  }

  lemma StepRepairs(held: Held, s: seq<CodeUnit>, next: Held)
    requires s != [] && next == Step(held, s[0], |s| == 1).1
    ensures Pending(held, s) == StepUnits(held, s[0], |s| == 1) + Pending(next, s[1..])
  {
    if held.Some? {
      HeldRepairs(held.value, s);
    } else {
      FreshRepairs(s);
    }
  }

  /** What s is repaired to after nothing. */
  lemma FreshRepairs(s: seq<CodeUnit>)
    requires s != []
    ensures Repaired(s, false) ==
            if !IsSurrogate(s[0]) then [s[0]] + Repaired(s[1..], false)
            else if IsTrail(s[0]) || |s| == 1 then [REPLACEMENT] + Repaired(s[1..], false)
            else [] + Repaired([s[0]] + s[1..], true)
  {
    assert [s[0]] + s[1..] == s;
    if |s| == 1 {
      assert s[1..] == [];
    } else {
      LeadInside(s);
      assert [] + Repaired(s, true) == Repaired(s, true);
    }
  }

  /** What a lead surrogate before s is repaired to. */
  lemma HeldRepairs(lead: CodeUnit, s: seq<CodeUnit>)
    requires s != [] && IsLead(lead)
    ensures Repaired([lead] + s, true) ==
            if IsTrail(s[0]) then [lead, s[0]] + Repaired(s[1..], false)
            else if IsLead(s[0]) then [REPLACEMENT] + Repaired([s[0]] + s[1..], true)
            else [REPLACEMENT] + [s[0]] + Repaired(s[1..], false)
  {
    var w := [lead] + s;
    assert w[1..] == s && w[2..] == s[1..] && [s[0]] + s[1..] == s;
    if IsTrail(s[0]) {
      assert w[..2] == [lead, s[0]];
    } else {
      LoneRepairs(w, true);
      if !IsLead(s[0]) {
        PlainRepairs(s, true);
        JoinThree([REPLACEMENT], [s[0]], Repaired(s[1..], false));
      }
    }
  }

  lemma LoneRepairs(w: seq<CodeUnit>, afterLead: bool)
    requires |w| > 1 && IsLead(w[0]) && !IsTrail(w[1])
    ensures Repaired(w, afterLead) == [REPLACEMENT] + Repaired(w[1..], true)
  {}

  lemma PlainRepairs(s: seq<CodeUnit>, afterLead: bool)
    requires s != [] && !IsSurrogate(s[0])
    ensures Repaired(s, afterLead) == [s[0]] + Repaired(s[1..], false)
  {}

  /** What came before matters only for a last surrogate. */
  lemma LeadInside(s: seq<CodeUnit>)
    requires |s| > 1
    ensures Repaired(s, false) == Repaired(s, true)
  {}

  /** The code points of s, with what is held back, stand for the repaired text. */
  lemma {:induction false} CodesRepair(held: Held, s: seq<CodeUnit>)
    ensures AllUnits(Codes(held, s)) == Pending(held, s)
    decreases |s|
  {
    if s != [] {
      var n, last := s[0], |s| == 1;
      var codes, next := Step(held, n, last).0, Step(held, n, last).1;
      UnitsJoin(codes, Codes(next, s[1..]));
      StepMeans(held, n, last);
      CodesRepair(next, s[1..]);
      StepRepairs(held, s, next);
    }
  }

  /** Decoding an encoding repairs the text. */
  lemma DecodeEncode(s: seq<CodeUnit>)
    ensures Decode(Encode(s)) == Repaired(s, false)
  {
    CodesDecode(Codes(None, s), Encode(s), 0);
    CodesRepair(None, s);
  }

  /** Round trip: it gives the text back exactly when the text is well formed. */
  lemma RoundTripIff(s: seq<CodeUnit>)
    ensures Decode(Encode(s)) == s <==> WellFormed(s)
  {
    DecodeEncode(s);
    RepairedIff(s, false);
  }

  lemma AllUnitsPrefix(cs: seq<Code>, m: nat)
    requires m <= |cs|
    ensures AllUnits(cs[..m]) <= AllUnits(cs)
  {
    assert cs == cs[..m] + cs[m..];
    UnitsJoin(cs[..m], cs[m..]);
  }

  /** A limit cuts no character in two: what fits decodes to a prefix of the
      repaired text, and to all of it without a limit. */
  lemma DecodeEncodeWithin(s: seq<CodeUnit>, units: int)
    ensures Decode(EncodeWithin(s, units)) <= Repaired(s, false)
    ensures units > 0 ==> |EncodeWithin(s, units)| <= units
    ensures units == 0 ==> EncodeWithin(s, units) == Encode(s)
  {
    var cs := Codes(None, s);
    CodesRepair(None, s);
    if units < 0 {
      WithinNothing(cs, units);
    } else {
      var m := WithinMeans(cs, Limit(units));
      CodesDecode(cs[..m], EncodeWithin(s, units), 0);
      AllUnitsPrefix(cs, m);
    }
    WithinAll(cs);
  }

  // ---- Decoding anything ----

  lemma JoinWellFormed(a: nat, s: seq<CodeUnit>)
    requires a < 0x11_0000 && !IsSurrogate(a) && WellFormed(s)
    ensures WellFormed(UnitsOf(a) + s)
  {
    var w := UnitsOf(a) + s;
    assert w[|UnitsOf(a)|..] == s;
  }

  /** Whatever the bytes, the decoded text is well formed. */
  lemma {:induction false} DecodedIsWellFormed(t: seq<Byte>, i: nat)
    requires i <= |t|
    ensures WellFormed(DecodeFrom(t, i))
    decreases |t| - i
  {
    if i < |t| {
      match CodeAt(t, i)
      case None =>
        DecodedIsWellFormed(t, i + 1);
        JoinWellFormed(REPLACEMENT, DecodeFrom(t, i + 1));
      case Some(a) =>
        DecodedIsWellFormed(t, i + LengthOf(t[i]));
        JoinWellFormed(a, DecodeFrom(t, i + LengthOf(t[i])));
    }
  }

  /** So decoding once settles a text. */
  lemma DecodeSettles(t: seq<Byte>)
    ensures WellFormed(Decode(t)) && Decode(Encode(Decode(t))) == Decode(t)
  {
    DecodedIsWellFormed(t, 0);
    RoundTripIff(Decode(t));
  }
}
