/** The YAML writer's double-quoted scalars: every code unit that is not printable
    is escaped (YAML 1.2, section 5.7).
 */
module YamlEscape {
  import opened Options
  import opened Units

  const QUOTE: CodeUnit := 34
  const BACKSLASH: CodeUnit := 92

  /** The letter of a short escape. */
  function ShortEscape(c: int): Option<CodeUnit> {
    if c == 0 then Some(48)
    else if c == 7 then Some(97)
    else if c == 8 then Some(98)
    else if c == 9 then Some(116)
    else if c == 10 then Some(110)
    else if c == 11 then Some(118)
    else if c == 12 then Some(102)
    else if c == 13 then Some(114)
    else if c == 27 then Some(101)
    else if c == QUOTE then Some(QUOTE)
    else if c == BACKSLASH then Some(BACKSLASH)
    else if c == 133 then Some(78)
    else if c == 160 then Some(95)
    else if c == 8232 then Some(76)
    else if c == 8233 then Some(80)
    else None
  }

  predicate IsPrintable(c: int) {
    || 32 <= c <= 126
    || (161 <= c <= 55295 && c != 8232 && c != 8233)
    || (57344 <= c <= 65533 && c != 65279)
    || 65536 <= c <= 1114111
  }

  function Digit(d: int): CodeUnit
    requires 0 <= d < 16
  {
    if d < 10 then 48 + d else 55 + d
  }

  /** A number in upper-case hexadecimal. */
  function ToHex(v: nat): (r: seq<CodeUnit>)
    ensures r != []
  {
    if v < 16 then [Digit(v)] else ToHex(v / 16) + [Digit(v % 16)]
  }

  function Repeat(c: CodeUnit, n: int): seq<CodeUnit> { if n <= 0 then [] else seq(n, i => c) }

  /** The numeric escape of a code point. */
  function EncodeHex(v: nat): seq<CodeUnit> {
    var digits := ToHex(v);
    if v <= 255 then [BACKSLASH, 120] + Repeat(48, 2 - |digits|) + digits
    else if v <= 65535 then [BACKSLASH, 117] + Repeat(48, 4 - |digits|) + digits
    else [BACKSLASH, 85] + Repeat(48, 8 - |digits|) + digits
  }

  /** The text for the first code unit, or for a surrogate pair. */
  function EscapeFirst(s: seq<CodeUnit>): seq<CodeUnit>
    requires s != []
  {
    if Width(s) == 2 then EncodeHex(CodePoint(s[0], s[1]))
    else
      match ShortEscape(s[0])
      case Some(e) => [BACKSLASH, e]
      case None => if IsPrintable(s[0]) then [s[0]] else EncodeHex(s[0])
  }

  function Escape(s: seq<CodeUnit>): seq<CodeUnit> {
    if s == [] then [] else EscapeFirst(s) + Escape(s[Width(s)..])
  }

  function Quoted(s: seq<CodeUnit>): seq<CodeUnit> { [QUOTE] + Escape(s) + [QUOTE] }

  lemma EscapeFrom(t: seq<CodeUnit>, o: nat)
    requires o < |t|
    ensures o + Width(t[o..]) <= |t|
    ensures Escape(t[o..]) == EscapeFirst(t[o..]) + Escape(t[o + Width(t[o..])..])
  {
    assert t[o..][Width(t[o..])..] == t[o + Width(t[o..])..];
  }

  /** The text for what stands at o, and where the rest starts. */
  method EscapeNext(t: seq<CodeUnit>, o: nat) returns (chunk: seq<CodeUnit>, next: nat)
    requires o < |t|
    ensures chunk == EscapeFirst(t[o..]) && next == o + Width(t[o..]) <= |t|
  {
    var e := t[o];
    next := o + 1;
    if IsLead(e) && o + 1 < |t| && IsTrail(t[o + 1]) {
      chunk, next := EncodeHex(CodePoint(e, t[o + 1])), o + 2;
    } else {
      match ShortEscape(e) {
        case Some(letter) => chunk := [BACKSLASH, letter];
        case None => chunk := if IsPrintable(e) then [e] else EncodeHex(e);
      }
    }
  }

  lemma JoinLater(a: seq<CodeUnit>, b: seq<CodeUnit>, c: seq<CodeUnit>)
    ensures a + (b + c) == a + b + c
  {}

  method EscapeString(t: seq<CodeUnit>) returns (r: seq<CodeUnit>)
    ensures r == Escape(t)
  {
    r := [];
    var o := 0;
    assert t[0..] == t;
    while o < |t|
      invariant 0 <= o <= |t|
      invariant r + Escape(t[o..]) == Escape(t)
    {
      var chunk, next := EscapeNext(t, o);
      EscapeFrom(t, o);
      JoinLater(r, chunk, Escape(t[next..]));
      r, o := r + chunk, next;
    }
  }

  // ---- Numbers in hexadecimal ----

  /** The last n digits of a number. */
  function Digits(v: nat, n: nat): seq<CodeUnit> {
    if n == 0 then [] else Digits(v / 16, n - 1) + [Digit(v % 16)]
  }

  function Power16(n: nat): nat { if n == 0 then 1 else 16 * Power16(n - 1) }

  lemma {:induction false} ZeroDigits(n: nat)
    ensures Digits(0, n) == Repeat(48, n)
  {
    if n > 0 {
      ZeroDigits(n - 1);
      assert Repeat(48, n) == Repeat(48, n - 1) + [48];
    }
  }

  /** Padded with zeros, a number has exactly the digits asked for. */
  lemma {:induction false} PaddedIsDigits(v: nat, n: nat)
    requires v < Power16(n) && n > 0
    ensures |ToHex(v)| <= n && Repeat(48, n - |ToHex(v)|) + ToHex(v) == Digits(v, n)
  {
    if v < 16 {
      ZeroDigits(n - 1);
    } else {
      assert n > 1;
      PaddedIsDigits(v / 16, n - 1);
      assert n - |ToHex(v)| == n - 1 - |ToHex(v / 16)|;
      assert Repeat(48, n - |ToHex(v)|) + ToHex(v) ==
             (Repeat(48, n - 1 - |ToHex(v / 16)|) + ToHex(v / 16)) + [Digit(v % 16)];
    }
  }

  function HexLength(v: nat): nat { if v <= 255 then 2 else if v <= 65535 then 4 else 8 }

  function HexLetter(v: nat): CodeUnit { if v <= 255 then 120 else if v <= 65535 then 117 else 85 }

  lemma PowersCover(v: nat)
    requires v <= 0x10FFFF
    ensures v < Power16(HexLength(v))
  {
    assert Power16(2) == 256 && Power16(4) == 65536;
    assert Power16(8) == 16 * Power16(7) && Power16(7) == 16 * Power16(6);
    assert Power16(6) == 16 * Power16(5) == 256 * Power16(4);
  }

  lemma EncodeHexIs(v: nat)
    requires v <= 0x10FFFF
    ensures EncodeHex(v) == [BACKSLASH, HexLetter(v)] + Digits(v, HexLength(v))
  {
    PowersCover(v);
    PaddedIsDigits(v, HexLength(v));
  }

  // ---- What is written ----

  /** No control, no surrogate, no special space or separator. */
  predicate Visible(c: CodeUnit) {
    && 32 <= c < 65534 && !(127 <= c <= 160) && !(55296 <= c <= 57343)
    && c != 0x2028 && c != 0x2029 && c != 0xFEFF
  }

  lemma {:induction false} DigitsAreVisible(v: nat, n: nat)
    ensures forall c | c in Digits(v, n) :: Visible(c)
  {
    if n > 0 {
      DigitsAreVisible(v / 16, n - 1);
    }
  }

  lemma HexIsVisible(v: nat)
    requires v <= 0x10FFFF
    ensures forall c | c in EncodeHex(v) :: Visible(c)
  {
    EncodeHexIs(v);
    DigitsAreVisible(v, HexLength(v));
  }

  lemma FirstIsVisible(s: seq<CodeUnit>)
    requires s != []
    ensures forall c | c in EscapeFirst(s) :: Visible(c)
  {
    if Width(s) == 2 {
      HexIsVisible(CodePoint(s[0], s[1]));
    } else if ShortEscape(s[0]).None? && !IsPrintable(s[0]) {
      HexIsVisible(s[0]);
    }
  }

  /** Only visible code units are written, whatever the text. */
  lemma {:induction false} WrittenIsVisible(s: seq<CodeUnit>)
    ensures forall c | c in Escape(s) :: Visible(c)
  {
    if s != [] {
      FirstIsVisible(s);
      WrittenIsVisible(s[Width(s)..]);
    }
  }

  /** Visible text is written as it is, but for the quote and the backslash. */
  lemma {:induction false} VisibleIsKept(s: seq<CodeUnit>)
    requires forall i | 0 <= i < |s| :: Visible(s[i]) && s[i] != QUOTE && s[i] != BACKSLASH
    ensures Escape(s) == s
  {
    if s != [] {
      assert Width(s) == 1;
      VisibleIsKept(s[1..]);
    }
  }
}
