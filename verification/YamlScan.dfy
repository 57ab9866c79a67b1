/** The YAML reader's double-quoted scalars: escapes, folded line breaks and the
    check for a document marker at the start of a line.
 */
module YamlScan {
  import opened Options
  import opened Units
  import opened YamlEscape

  /** What a scan gives: the text and the position after the closing quote. */
  datatype Scanned = Scanned(text: seq<CodeUnit>, next: nat) | Bad

  /** The input is followed by a zero, and a zero ends it. */
  function At(input: seq<CodeUnit>, p: nat): CodeUnit { if p < |input| then input[p] else 0 }

  predicate IsBreak(c: int) { c == 10 || c == 13 }

  predicate IsBlank(c: int) { c == 9 || c == 32 }

  predicate IsBlankOrBreak(c: int) { IsBlank(c) || IsBreak(c) }

  // ---- Line breaks ----

  function SkipBlanks(input: seq<CodeUnit>, p: nat): (q: nat)
    ensures p <= q && (p <= |input| ==> q <= |input|)
    decreases |input| - p
  {
    if p < |input| && IsBlank(input[p]) then SkipBlanks(input, p + 1) else p
  }

  function SkipSpaces(input: seq<CodeUnit>, p: nat): (q: nat)
    ensures p <= q && (p <= |input| ==> q <= |input|)
    decreases |input| - p
  {
    if p < |input| && input[p] == 32 then SkipSpaces(input, p + 1) else p
  }

  /** A carriage return and a line feed are one break. */
  function AfterBreak(input: seq<CodeUnit>, p: nat): (q: nat)
    requires IsBreak(At(input, p))
    ensures p < q <= |input|
  {
    if At(input, p) == 13 && At(input, p + 1) == 10 then p + 2 else p + 1
  }

  /** Skips blanks, breaks and indentation: the position after them, the start of
      the last line, and the number of breaks. */
  function SkipBreaks(input: seq<CodeUnit>, p: nat, lineStart: nat): (r: (nat, nat, nat))
    ensures r.0 >= p && (p <= |input| ==> r.0 <= |input|)
    ensures r.2 == 0 ==> r.1 == lineStart
    ensures IsBreak(At(input, p)) ==> r.0 > p
    decreases |input| - p
  {
    var q := SkipBlanks(input, p);
    if !IsBreak(At(input, q)) then (q, lineStart, 0)
    else
      var line := AfterBreak(input, q);
      var (next, start, breaks) := SkipBreaks(input, SkipSpaces(input, line), line);
      (next, start, breaks + 1)
  }

  function AddBreaks(r: (nat, nat, nat), n: nat): (nat, nat, nat) { (r.0, r.1, r.2 + n) }

  /** Skipping blanks first makes no difference. */
  lemma {:induction false} BlanksFirst(input: seq<CodeUnit>, p: nat, lineStart: nat)
    ensures SkipBlanks(input, SkipBlanks(input, p)) == SkipBlanks(input, p)
    ensures SkipBreaks(input, SkipBlanks(input, p), lineStart) == SkipBreaks(input, p, lineStart)
    decreases |input| - p
  {
    if p < |input| && IsBlank(input[p]) {
      BlanksFirst(input, p + 1, lineStart);
    }
  }

  /** A break, the indentation of the next line, and its blanks. */
  lemma OneLine(input: seq<CodeUnit>, p: nat, lineStart: nat)
    requires IsBreak(At(input, p)) && SkipBlanks(input, p) == p
    ensures var line := AfterBreak(input, p);
            var q := SkipBlanks(input, SkipSpaces(input, line));
            && p < q && SkipBlanks(input, q) == q
            && SkipBreaks(input, p, lineStart) == AddBreaks(SkipBreaks(input, q, line), 1)
  {
    var line := AfterBreak(input, p);
    BlanksFirst(input, SkipSpaces(input, line), line);
  }

  /** One break folds into a space, and of more the first is dropped. */
  function Folded(breaks: nat): seq<CodeUnit> { if breaks == 1 then [32] else Repeat(10, breaks - 1) }

  predicate IsMarker(input: seq<CodeUnit>, p: nat) {
    var c := At(input, p);
    && (c == 45 || c == 46) && At(input, p + 1) == c && At(input, p + 2) == c
    && (At(input, p + 3) == 0 || IsBlankOrBreak(At(input, p + 3)))
  }

  // ---- Escapes ----

  /** The code unit of a short escape. */
  function ShortUnit(c: int): Option<CodeUnit> {
    if c == 48 then Some(0)
    else if c == 97 then Some(7)
    else if c == 98 then Some(8)
    else if c == 116 || c == 9 then Some(9)
    else if c == 110 then Some(10)
    else if c == 118 then Some(11)
    else if c == 102 then Some(12)
    else if c == 114 then Some(13)
    else if c == 101 then Some(27)
    else if c == 32 then Some(32)
    else if c == 34 then Some(34)
    else if c == 47 then Some(47)
    else if c == 92 then Some(92)
    else if c == 78 then Some(133)
    else if c == 95 then Some(160)
    else if c == 76 then Some(8232)
    else if c == 80 then Some(8233)
    else None
  }

  function EscapeLength(c: int): nat { if c == 120 then 2 else if c == 117 then 4 else if c == 85 then 8 else 0 }

  function HexDigit(c: int): Option<nat> {
    if 48 <= c <= 57 then Some(c - 48)
    else if 65 <= c <= 70 then Some(c - 55)
    else if 97 <= c <= 102 then Some(c - 87)
    else None
  }

  /** A 32-bit shift by one digit. */
  function ShiftDigit(v: int): int { (v * 16 + 0x8000_0000) % 0x1_0000_0000 - 0x8000_0000 }

  function HexValue(ds: seq<CodeUnit>): Option<int> {
    if ds == [] then Some(0)
    else
      match HexValue(ds[..|ds| - 1])
      case None => None
      case Some(v) =>
        match HexDigit(ds[|ds| - 1])
        case None => None
        case Some(d) => Some(ShiftDigit(v) + d)
  }

  function Peek(input: seq<CodeUnit>, p: nat, n: nat): seq<CodeUnit> {
    seq<CodeUnit>(n, i requires 0 <= i => At(input, p + i))
  }

  /** The code units of a number, each cut to 16 bits. */
  function FromCode(v: int): seq<CodeUnit> {
    if v <= 65535 then [v % 0x1_0000]
    else [(55296 + (v - 65536) / 1024) % 0x1_0000, 56320 + (v - 65536) % 1024]
  }

  /** What follows a backslash that stands before p: the units it means, and the
      position after it. */
  function ReadEscape(input: seq<CodeUnit>, p: nat): (r: Option<(seq<CodeUnit>, nat)>)
    ensures r.Some? ==> p < r.value.1
    ensures r.Some? && p <= |input| ==> r.value.1 <= |input|
  {
    var c, n := At(input, p), EscapeLength(At(input, p));
    if ShortUnit(c).Some? && p < |input| then Some(([ShortUnit(c).value], p + 1))
    else if n > 0 && HexValue(Peek(input, p + 1, n)).Some? then
      HexNeedsInput(input, p + 1, n);
      Some((FromCode(HexValue(Peek(input, p + 1, n)).value), p + 1 + n))
    else None
  }

  lemma HexNeedsInput(input: seq<CodeUnit>, p: nat, n: nat)
    requires n > 0 && HexValue(Peek(input, p, n)).Some?
    ensures p + n <= |input|
  {
    var ds := Peek(input, p, n);
    assert ds[n - 1] == At(input, p + (n - 1));
  }

  // ---- The scalar ----

  predicate IsJson(c: int) { c == 9 || 32 <= c }

  predicate AllJson(s: seq<CodeUnit>) { forall i | 0 <= i < |s| :: IsJson(s[i]) }

  /** Scans on from p; input[start..p] is read but not yet part of the text. */
  function Scan(input: seq<CodeUnit>, p: nat, start: nat, lineStart: nat, text: seq<CodeUnit>): Scanned
    requires start <= p <= |input|
    decreases |input| - p, 1
  {
    var c := At(input, p);
    if c == 0 then Bad
    else if c == QUOTE then if AllJson(input[start..p]) then Scanned(text + input[start..p], p + 1) else Bad
    else if c == BACKSLASH then ScanBackslash(input, p, start, lineStart, text)
    else if IsBreak(c) then ScanBreak(input, p, start, lineStart, text)
    else if p == lineStart && IsMarker(input, p) then Bad
    else Scan(input, p + 1, start, lineStart, text)
  }

  /** A continued line or an escape. */
  function ScanBackslash(input: seq<CodeUnit>, p: nat, start: nat, lineStart: nat, text: seq<CodeUnit>): Scanned
    requires start <= p < |input|
    decreases |input| - p, 0
  {
    if !AllJson(input[start..p]) then Bad
    else if IsBreak(At(input, p + 1)) then
      var (next, line, _) := SkipBreaks(input, p + 1, lineStart);
      Scan(input, next, next, line, text + input[start..p])
    else
      match ReadEscape(input, p + 1)
      case None => Bad
      case Some((units, next)) => Scan(input, next, next, lineStart, text + input[start..p] + units)
  }

  /** Line breaks, which are folded. */
  function ScanBreak(input: seq<CodeUnit>, p: nat, start: nat, lineStart: nat, text: seq<CodeUnit>): Scanned
    requires start <= p < |input| && IsBreak(At(input, p))
    decreases |input| - p, 0
  {
    if !AllJson(input[start..p]) then Bad
    else
      var (next, line, breaks) := SkipBreaks(input, p, lineStart);
      Scan(input, next, next, line, text + input[start..p] + Folded(breaks))
  }

  /** The scan of a double-quoted scalar that opens at p. */
  function ScanQuoted(input: seq<CodeUnit>, p: nat, lineStart: nat): Scanned
    requires p < |input| && input[p] == QUOTE
  {
    Scan(input, p + 1, p + 1, lineStart, [])
  }

  /** The reader's state. */
  class Scanner {
    const input: seq<CodeUnit>
    var position: nat
    var lineStart: nat
    var result: seq<CodeUnit>

    constructor (input: seq<CodeUnit>, position: nat, lineStart: nat)
      requires position <= |input|
      ensures this.input == input && this.position == position && this.lineStart == lineStart
    {
      this.input, this.position, this.lineStart, this.result := input, position, lineStart, [];
    }

    /** Adds a segment to the result if it has valid characters only. */
    method CaptureSegment(start: nat, end: nat) returns (ok: bool)
      requires start <= end <= |input|
      modifies this`result
      ensures ok == AllJson(input[start..end])
      ensures result == old(result) + if ok then input[start..end] else []
    {
      var i := start;
      while i < end
        invariant start <= i <= end
        invariant forall j | start <= j < i :: IsJson(input[j])
      {
        if !IsJson(input[i]) {
          assert input[start..end][i - start] == input[i];
          return false;
        }
        i := i + 1;
      }
      result := result + input[start..end];
      return true;
    }

    method ReadLineBreak()
      requires IsBreak(At(input, position))
      modifies this`position, this`lineStart
      ensures position == lineStart == AfterBreak(input, old(position))
    {
      if At(input, position) == 10 {
        position := position + 1;
      } else {
        position := position + 1;
        if At(input, position) == 10 {
          position := position + 1;
        }
      }
      lineStart := position;
    }

    method SkipBlanksHere()
      requires position <= |input|
      modifies this`position
      ensures position == SkipBlanks(input, old(position)) && !IsBlank(At(input, position))
    {
      while IsBlank(At(input, position))
        invariant position <= |input| && SkipBlanks(input, position) == SkipBlanks(input, old(position))
        decreases |input| - position
      {
        position := position + 1;
      }
    }

    method SkipIndent()
      requires position <= |input|
      modifies this`position
      ensures position == SkipSpaces(input, old(position))
    {
      while At(input, position) == 32
        invariant position <= |input| && SkipSpaces(input, position) == SkipSpaces(input, old(position))
        decreases |input| - position
      {
        position := position + 1;
      }
    }

    method SkipSeparationSpace() returns (breaks: nat)
      requires position <= |input|
      modifies this`position, this`lineStart
      ensures (position, lineStart, breaks) == SkipBreaks(input, old(position), old(lineStart))
    {
      breaks := 0;
      BlanksFirst(input, position, lineStart);
      SkipBlanksHere();
      while IsBreak(At(input, position))
        invariant old(position) <= position <= |input| && SkipBlanks(input, position) == position
        invariant AddBreaks(SkipBreaks(input, position, lineStart), breaks) ==
                  SkipBreaks(input, old(position), old(lineStart))
        decreases |input| - position
      {
        OneLine(input, position, lineStart);
        ReadLineBreak();
        breaks := breaks + 1;
        SkipIndent();
        SkipBlanksHere();
      }
    }

    method WriteFoldedLines(breaks: nat)
      modifies this`result
      ensures result == old(result) + Folded(breaks)
    {
      if breaks == 1 {
        result := result + [32];
      } else if breaks > 1 {
        result := result + Repeat(10, breaks - 1);
      }
    }

    /** The digits of a numeric escape. */
    method ReadHex(n: nat) returns (v: Option<int>)
      requires position <= |input|
      modifies this`position
      ensures v == HexValue(Peek(input, old(position), n))
      ensures v.Some? ==> position == old(position) + n <= |input|
    {
      var o := 0;
      var i := 0;
      ghost var ds := Peek(input, position, n);
      while i < n
        invariant 0 <= i <= n && position == old(position) + i <= |input|
        invariant HexValue(ds[..i]) == Some(o)
      {
        assert ds[..i + 1][..i] == ds[..i] && ds[i] == At(input, position);
        var d := HexDigit(At(input, position));
        if d.None? {
          NoHex(ds, i + 1);
          return None;
        }
        o := ShiftDigit(o) + d.value;
        position := position + 1;
        i := i + 1;
      }
      assert ds[..n] == ds;
      v := Some(o);
    }

    /** What follows a backslash. */
    method ReadEscapeSequence() returns (ok: bool)
      requires position <= |input|
      modifies this`position, this`result
      ensures ok <==> ReadEscape(input, old(position)).Some?
      ensures ok ==> (result, position) == (old(result) + ReadEscape(input, old(position)).value.0,
                                            ReadEscape(input, old(position)).value.1)
    {
      var c := At(input, position);
      if ShortUnit(c).Some? {
        result := result + [ShortUnit(c).value];
        position := position + 1;
        return true;
      }
      var n := EscapeLength(c);
      if n == 0 {
        return false;
      }
      position := position + 1;
      var v := ReadHex(n);
      if v.None? {
        return false;
      }
      result := result + FromCode(v.value);
      return true;
    }

    /** A backslash ends the segment and begins an escape or a continued line. */
    method ReadBackslash(start: nat) returns (ok: bool)
      requires start <= position < |input| && input[position] == BACKSLASH
      modifies this
      ensures ok ==> old(position) < position <= |input|
      ensures ScanBackslash(input, old(position), start, old(lineStart), old(result)) ==
              if ok then Scan(input, position, position, lineStart, result) else Bad
    {
      ok := CaptureSegment(start, position);
      if !ok {
        return;
      }
      position := position + 1;
      if IsBreak(At(input, position)) {
        var breaks := SkipSeparationSpace();
      } else {
        ok := ReadEscapeSequence();
      }
    }

    /** A line break ends the segment and is folded. */
    method ReadFoldedBreak(start: nat) returns (ok: bool)
      requires start <= position < |input| && IsBreak(input[position])
      modifies this
      ensures ok ==> old(position) < position <= |input|
      ensures ScanBreak(input, old(position), start, old(lineStart), old(result)) ==
              if ok then Scan(input, position, position, lineStart, result) else Bad
    {
      ok := CaptureSegment(start, position);
      if !ok {
        return;
      }
      var breaks := SkipSeparationSpace();
      WriteFoldedLines(breaks);
    }

    /** Reads a double-quoted scalar; without success the document is refused. */
    method ReadDoubleQuotedScalar() returns (ok: bool)
      requires position < |input| && input[position] == QUOTE
      modifies this
      ensures ScanQuoted(input, old(position), old(lineStart)) == if ok then Scanned(result, position) else Bad
    {
      result := [];
      position := position + 1;
      var start: nat := position;
      while At(input, position) != 0
        invariant start <= position <= |input|
        invariant Scan(input, position, start, lineStart, result) == ScanQuoted(input, old(position), old(lineStart))
        decreases |input| - position
      {
        var c := At(input, position);
        if c == QUOTE {
          ok := CaptureSegment(start, position);
          position := position + 1;
          return;
        } else if c == BACKSLASH {
          ok := ReadBackslash(start);
          if !ok {
            return;
          }
          start := position;
        } else if IsBreak(c) {
          ok := ReadFoldedBreak(start);
          if !ok {
            return;
          }
          start := position;
        } else if position == lineStart && IsMarker(input, position) {
          return false;
        } else {
          position := position + 1;
        }
      }
      return false;
    }
  }

  lemma {:induction false} NoHex(ds: seq<CodeUnit>, n: nat)
    requires n <= |ds| && HexValue(ds[..n]).None?
    ensures HexValue(ds).None?
  {
    if n < |ds| {
      assert ds[..|ds| - 1][..n] == ds[..n];
      NoHex(ds[..|ds| - 1], n);
    } else {
      assert ds[..n] == ds;
    }
  }
}
