/** Reading a written double-quoted scalar gives back the text, whatever code
    units it has, lone surrogates included.
 */
module YamlRoundTrip {
  import opened Options
  import opened Units
  import opened YamlEscape
  import opened YamlScan

  // ---- The tables ----

  /** The letters of the short escapes and the code units they stand for. */
  const LETTERS := "0abt\tnvfre \"/\\N_LP"
  const MEANINGS: seq<CodeUnit> := [0, 7, 8, 9, 9, 10, 11, 12, 13, 27, 32, 34, 47, 92, 133, 160, 8232, 8233]

  /** The reader knows the short escapes of YAML 1.2, section 5.7, and no others. */
  lemma ShortUnitMeans(letter: CodeUnit)
    ensures forall i | 0 <= i < |LETTERS| && LETTERS[i] as int == letter :: ShortUnit(letter) == Some(MEANINGS[i])
    ensures (forall i | 0 <= i < |LETTERS| :: LETTERS[i] as int != letter) ==> ShortUnit(letter) == None
  {
    forall i | 0 <= i < |LETTERS| && LETTERS[i] as int == letter ensures ShortUnit(letter) == Some(MEANINGS[i]) {
      LetterAt(i);
    }
    if ShortUnit(letter).Some? { LetterIs(letter); }
  }

  lemma LetterAt(i: nat)
    requires i < |LETTERS|
    ensures ShortUnit(LETTERS[i] as int) == Some(MEANINGS[i])
  {}

  lemma LetterIs(letter: CodeUnit)
    requires ShortUnit(letter).Some?
    ensures exists i | 0 <= i < |LETTERS| :: LETTERS[i] as int == letter
  {
    var t := LETTERS;
    assert t[0] == '0' && t[1] == 'a' && t[2] == 'b' && t[3] == 't' && t[4] == '\t' && t[5] == 'n';
    assert t[6] == 'v' && t[7] == 'f' && t[8] == 'r' && t[9] == 'e' && t[10] == ' ' && t[11] == '"';
    assert t[12] == '/' && t[13] == '\\' && t[14] == 'N' && t[15] == '_' && t[16] == 'L' && t[17] == 'P';
  }

  /** The writer uses a short escape wherever there is one, except for the space
      and the slash, and a letter t for the tab. */
  lemma ShortEscapeMeans(c: CodeUnit, letter: CodeUnit)
    ensures ShortEscape(c) == Some(letter) <==> ShortUnit(letter) == Some(c) && c != 32 && c != 47 && letter != 9
  {}

  const UPPER := "0123456789ABCDEF"
  const LOWER := "0123456789abcdef"

  /** Hexadecimal digits of either case are read, and nothing else. */
  lemma HexDigitMeans(c: CodeUnit, d: nat)
    ensures HexDigit(c) == Some(d) <==> d < 16 && (UPPER[d] as int == c || LOWER[d] as int == c)
  {}

  /** The number that digits stand for. */
  function Number(ds: seq<CodeUnit>): nat {
    if ds == [] then 0
    else
      16 * Number(ds[..|ds| - 1]) + match HexDigit(ds[|ds| - 1]) case None => 0 case Some(d) => d
  }

  /** Digits are read as a signed 32-bit number. */
  lemma {:induction false} HexValueIs(ds: seq<CodeUnit>, v: int)
    requires HexValue(ds) == Some(v)
    ensures -0x8000_0000 <= v < 0x8000_0000 && (Number(ds) - v) % 0x1_0000_0000 == 0
  {
    if ds != [] {
      var u := HexValue(ds[..|ds| - 1]).value;
      HexValueIs(ds[..|ds| - 1], u);
      ShiftIs(Number(ds[..|ds| - 1]), u, HexDigit(ds[|ds| - 1]).value);
    }
  }

  lemma ShiftIs(n: int, u: int, d: nat)
    requires d < 16 && (n - u) % 0x1_0000_0000 == 0
    ensures -0x8000_0000 <= ShiftDigit(u) + d < 0x8000_0000
    ensures (16 * n + d - (ShiftDigit(u) + d)) % 0x1_0000_0000 == 0
  {
    var k, j := (n - u) / 0x1_0000_0000, (u * 16 + 0x8000_0000) / 0x1_0000_0000;
    assert ShiftDigit(u) == u * 16 - j * 0x1_0000_0000;
    assert 16 * n - ShiftDigit(u) == (16 * k + j) * 0x1_0000_0000;
  }

  // ---- One escape ----

  /** A short escape is read as what it was written for. */
  lemma ShortRoundTrip(c: CodeUnit)
    requires ShortEscape(c).Some?
    ensures ShortUnit(ShortEscape(c).value) == Some(c) && !IsBreak(ShortEscape(c).value)
  {}

  lemma {:induction false} DigitsRoundTrip(v: nat, n: nat)
    requires v < Power16(n) && v <= 0x10FFFF
    ensures |Digits(v, n)| == n && HexValue(Digits(v, n)) == Some(v)
  {
    if n > 0 {
      DigitsRoundTrip(v / 16, n - 1);
      var ds := Digits(v, n);
      assert ds[..n - 1] == Digits(v / 16, n - 1) && ds[n - 1] == Digit(v % 16);
      OneDigit(v);
    }
  }

  lemma OneDigit(v: nat)
    requires v <= 0x10FFFF
    ensures HexDigit(Digit(v % 16)) == Some(v % 16) && ShiftDigit(v / 16) + v % 16 == v
  {}

  lemma PairRoundTrip(lead: int, trail: int)
    requires IsLead(lead) && IsTrail(trail)
    ensures 65536 <= CodePoint(lead, trail) <= 0x10FFFF && FromCode(CodePoint(lead, trail)) == [lead, trail]
  {
    var v := CodePoint(lead, trail) - 65536;
    assert v == 1024 * (lead - 55296) + (trail - 56320);
    assert v / 1024 == lead - 55296 && v % 1024 == trail - 56320;
  }

  /** The code units that a number is read as, where one was written. */
  lemma CodeRoundTrip(s: seq<CodeUnit>)
    requires s != []
    ensures Width(s) == 2 ==> CodePoint(s[0], s[1]) <= 0x10FFFF && FromCode(CodePoint(s[0], s[1])) == s[..2]
    ensures FromCode(s[0]) == s[..1]
  {
    if Width(s) == 2 {
      PairRoundTrip(s[0], s[1]);
    }
  }

  lemma ReadsNumber(input: seq<CodeUnit>, p: nat, letter: CodeUnit, ds: seq<CodeUnit>)
    requires Reads(input, p, [BACKSLASH, letter] + ds)
    ensures At(input, p) == BACKSLASH && At(input, p + 1) == letter && Peek(input, p + 2, |ds|) == ds
  {
    var e := [BACKSLASH, letter] + ds;
    ReadsItem(input, p, e, 0);
    ReadsItem(input, p, e, 1);
    forall i | 0 <= i < |ds| ensures At(input, p + 2 + i) == ds[i] { ReadsItem(input, p, e, 2 + i); }
  }

  /** A numeric escape in the input, as the reader finds it after the backslash. */
  lemma NumberRoundTrip(v: nat, input: seq<CodeUnit>, p: nat)
    requires v <= 0x10FFFF
    requires Reads(input, p, EncodeHex(v))
    ensures |EncodeHex(v)| == 2 + HexLength(v) && !IsBreak(At(input, p + 1)) && At(input, p) == BACKSLASH
    ensures ReadEscape(input, p + 1) == Some((FromCode(v), p + 2 + HexLength(v)))
  {
    var n, ds := HexLength(v), Digits(v, HexLength(v));
    EncodeHexIs(v);
    PowersCover(v);
    DigitsRoundTrip(v, n);
    ReadsNumber(input, p, HexLetter(v), ds);
    NumberIsRead(input, p + 1, ds, v);
  }

  lemma NumberIsRead(input: seq<CodeUnit>, p: nat, ds: seq<CodeUnit>, v: int)
    requires |ds| > 0 && EscapeLength(At(input, p)) == |ds| && Peek(input, p + 1, |ds|) == ds && HexValue(ds) == Some(v)
    ensures ReadEscape(input, p) == Some((FromCode(v), p + 1 + |ds|))
  {}

  // ---- The scalar ----

  /** A written escape is read in one step. */
  lemma ScanEscape(
    input: seq<CodeUnit>, p: nat, start: nat, lineStart: nat, text: seq<CodeUnit>, s: seq<CodeUnit>, next: nat)
    requires s != [] && Reads(input, p, EscapeFirst(s)) && next == p + |EscapeFirst(s)|
    requires start <= p && AllJson(input[start..p])
    requires !IsPlain(s)
    ensures Scan(input, p, start, lineStart, text) ==
            Scan(input, next, next, lineStart, text + input[start..p] + s[..Width(s)])
    ensures EscapeFirst(s) != [s[0]]
  {
    var e := EscapeFirst(s);
    CodeRoundTrip(s);
    if Width(s) == 1 && ShortEscape(s[0]).Some? {
      ShortRoundTrip(s[0]);
      assert input[p..p + 2] == e;
      assert input[p] == e[0] && input[p + 1] == e[1];
      assert s[..1] == [s[0]];
    } else {
      NumberRoundTrip(if Width(s) == 2 then CodePoint(s[0], s[1]) else s[0], input, p);
    }
  }

  /** A printable code unit is written and read as itself. */
  lemma ScanPlain(
    input: seq<CodeUnit>, p: nat, start: nat, lineStart: nat, text: seq<CodeUnit>, s: seq<CodeUnit>)
    requires s != [] && Reads(input, p, EscapeFirst(s))
    requires start <= p && lineStart < p && AllJson(input[start..p])
    requires IsPlain(s)
    ensures EscapeFirst(s) == [s[0]] && p < |input|
    ensures Scan(input, p, start, lineStart, text) == Scan(input, p + 1, start, lineStart, text)
    ensures AllJson(input[start..p + 1]) && input[start..p + 1] == input[start..p] + s[..1]
  {
    assert input[p..p + 1][0] == s[0];
    Longer(input, start, p);
  }

  lemma Longer(input: seq<CodeUnit>, start: nat, p: nat)
    requires start <= p < |input|
    ensures input[start..p + 1] == input[start..p] + [input[p]]
  {}

  lemma ScanEnd(input: seq<CodeUnit>, p: nat, start: nat, lineStart: nat, text: seq<CodeUnit>)
    requires Reads(input, p, [QUOTE]) && start <= p && AllJson(input[start..p])
    ensures Scan(input, p, start, lineStart, text) == Scanned(text + input[start..p], p + 1)
  {
    assert input[p..p + 1][0] == QUOTE;
  }

  lemma EscapeSplits(input: seq<CodeUnit>, p: nat, s: seq<CodeUnit>)
    requires s != [] && Reads(input, p, Escape(s) + [QUOTE])
    ensures Reads(input, p, EscapeFirst(s)) && Reads(input, p + |EscapeFirst(s)|, Escape(s[Width(s)..]) + [QUOTE])
    ensures |Escape(s)| == |EscapeFirst(s)| + |Escape(s[Width(s)..])|
  {
    hide EscapeFirst, Reads;
    ReadsBefore(input, p, EscapeFirst(s), Escape(s[Width(s)..]), Escape(s));
  }

  lemma ReadsBefore(input: seq<CodeUnit>, p: nat, e: seq<CodeUnit>, rest: seq<CodeUnit>, all: seq<CodeUnit>)
    requires all == e + rest && Reads(input, p, all + [QUOTE])
    ensures Reads(input, p, e) && Reads(input, p + |e|, rest + [QUOTE])
  {
    JoinLater(e, rest, [QUOTE]);
    ReadsPart(input, p, e, rest + [QUOTE]);
  }

  lemma JoinPlain(text: seq<CodeUnit>, segment: seq<CodeUnit>, longer: seq<CodeUnit>, s: seq<CodeUnit>, n: nat)
    requires n <= |s| && longer == segment + s[..n]
    ensures text + longer + s[n..] == text + segment + s
  {
    assert s == s[..n] + s[n..];
  }

  lemma JoinEscape(read: seq<CodeUnit>, s: seq<CodeUnit>, n: nat)
    requires n <= |s|
    ensures read + s == read + s[..n] + s[n..]
  {
    assert s == s[..n] + s[n..];
  }

  predicate IsPlain(s: seq<CodeUnit>)
    requires s != []
  {
    Width(s) == 1 && ShortEscape(s[0]).None? && IsPrintable(s[0])
  }

  /** The scan stands at p in a written scalar, of which s is still to come; all
      is what has been read, whether or not it is text yet, and s. */
  ghost predicate Midway(
    input: seq<CodeUnit>, p: nat, start: nat, text: seq<CodeUnit>, s: seq<CodeUnit>, all: seq<CodeUnit>)
  {
    && Reads(input, p, Escape(s) + [QUOTE])
    && start <= p && AllJson(input[start..p])
    && all == text + input[start..p] + s
  }

  lemma MidwayPlain(
    input: seq<CodeUnit>, p: nat, start: nat, lineStart: nat, text: seq<CodeUnit>, s: seq<CodeUnit>, all: seq<CodeUnit>)
    requires Midway(input, p, start, text, s, all) && s != [] && lineStart < p && IsPlain(s)
    ensures Midway(input, p + 1, start, text, s[1..], all) && |Escape(s)| == 1 + |Escape(s[1..])|
    ensures Scan(input, p, start, lineStart, text) == Scan(input, p + 1, start, lineStart, text)
  {
    hide Escape, EscapeFirst, Scan, AllJson;
    EscapeSplits(input, p, s);
    ScanPlain(input, p, start, lineStart, text, s);
    JoinPlain(text, input[start..p], input[start..p + 1], s, 1);
  }

  lemma MidwayEscape(
    input: seq<CodeUnit>, p: nat, start: nat, text: seq<CodeUnit>, s: seq<CodeUnit>, all: seq<CodeUnit>,
    next: nat, longer: seq<CodeUnit>)
    requires Midway(input, p, start, text, s, all) && s != []
    requires next == p + |EscapeFirst(s)| && longer == text + input[start..p] + s[..Width(s)]
    ensures Midway(input, next, next, longer, s[Width(s)..], all) && Reads(input, p, EscapeFirst(s))
    ensures p + |Escape(s)| == next + |Escape(s[Width(s)..])|
  {
    hide Escape, EscapeFirst, AllJson;
    EscapeSplits(input, p, s);
    JoinEscape(text + input[start..p], s, Width(s));
    MidwayAt(input, next, longer, s[Width(s)..], all);
  }

  /** At the end of a segment. */
  lemma MidwayAt(input: seq<CodeUnit>, p: nat, text: seq<CodeUnit>, s: seq<CodeUnit>, all: seq<CodeUnit>)
    requires Reads(input, p, Escape(s) + [QUOTE]) && all == text + s
    ensures Midway(input, p, p, text, s, all)
  {
    assert text + input[p..p] == text;
  }

  /** From the middle of a written scalar, the scan gives all of it. */
  lemma {:induction false} ScanWritten(
    input: seq<CodeUnit>, p: nat, start: nat, lineStart: nat, text: seq<CodeUnit>, s: seq<CodeUnit>, all: seq<CodeUnit>)
    requires Midway(input, p, start, text, s, all) && lineStart < p
    ensures Scan(input, p, start, lineStart, text) == Scanned(all, p + |Escape(s)| + 1)
    decreases |s|
  {
    hide EscapeFirst, Scan, IsPlain;
    if s == [] {
      assert Escape(s) + [QUOTE] == [QUOTE];
      ScanEnd(input, p, start, lineStart, text);
    } else if IsPlain(s) {
      MidwayPlain(input, p, start, lineStart, text, s, all);
      ScanWritten(input, p + 1, start, lineStart, text, s[1..], all);
    } else {
      var next, longer := p + |EscapeFirst(s)|, text + input[start..p] + s[..Width(s)];
      MidwayEscape(input, p, start, text, s, all, next, longer);
      ScanEscape(input, p, start, lineStart, text, s, next);
      ScanWritten(input, next, next, lineStart, longer, s[Width(s)..], all);
    }
  }

  /** Round trip: wherever a written scalar stands in a document, the reader takes
      back exactly the text, and goes on right after it. */
  lemma RoundTrip(input: seq<CodeUnit>, p: nat, s: seq<CodeUnit>, lineStart: nat)
    requires Reads(input, p, Quoted(s)) && lineStart <= p
    ensures input[p] == QUOTE && ScanQuoted(input, p, lineStart) == Scanned(s, p + |Quoted(s)|)
  {
    var rest := Escape(s) + [QUOTE];
    JoinLater([QUOTE], Escape(s), [QUOTE]);
    ReadsPart(input, p, [QUOTE], rest);
    ReadsItem(input, p, [QUOTE], 0);
    MidwayAt(input, p + 1, [], s, s);
    ScanWritten(input, p + 1, p + 1, lineStart, [], s, s);
  }
}
