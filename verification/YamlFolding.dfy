/** What a double-quoted scalar means, whatever it is made of: plain text, escapes,
    folded line breaks and continued lines (YAML 1.2, sections 5.7 and 7.3.1).
 */
module YamlFolding {
  import opened Options
  import opened Units
  import opened YamlEscape
  import opened YamlScan
  import opened YamlRoundTrip

  datatype Newline = LF | CR | CRLF

  /** Line breaks, each with the blanks at the start of the next line. */
  datatype Lines =
    | Last(newline: Newline, blanks: seq<CodeUnit>)
    | More(newline: Newline, blanks: seq<CodeUnit>, rest: Lines)

  /** What a scalar is made of. An escape has a letter, and digits if it is
      numeric. */
  datatype Scalar =
    | End
    | Plain(text: seq<CodeUnit>, rest: Scalar)
    | Fold(lines: Lines, rest: Scalar)
    | Continue(lines: Lines, rest: Scalar)
    | Short(letter: CodeUnit, rest: Scalar)
    | Numeric(letter: CodeUnit, digits: seq<CodeUnit>, rest: Scalar)

  // ---- How it is written ----

  function NewlineText(n: Newline): (r: seq<CodeUnit>)
    ensures r != []
  {
    match n case LF => [10] case CR => [13] case CRLF => [13, 10]
  }

  function LinesText(ls: Lines): seq<CodeUnit> {
    match ls
    case Last(n, bs) => NewlineText(n) + bs
    case More(n, bs, rest) => NewlineText(n) + bs + LinesText(rest)
  }

  /** The text up to the closing quote, and that quote. */
  function Written(s: Scalar): seq<CodeUnit> {
    match s
    case End => [QUOTE]
    case Plain(text, rest) => text + Written(rest)
    case Fold(ls, rest) => LinesText(ls) + Written(rest)
    case Continue(ls, rest) => [BACKSLASH] + (LinesText(ls) + Written(rest))
    case Short(letter, rest) => [BACKSLASH, letter] + Written(rest)
    case Numeric(letter, digits, rest) => [BACKSLASH, letter] + digits + Written(rest)
  }

  predicate AllBlank(s: seq<CodeUnit>) { forall i | 0 <= i < |s| :: s[i] == 9 || s[i] == 32 }

  /** Blanks are blanks, and a carriage return that is a break of its own is not
      followed by a line feed. */
  predicate LinesOk(ls: Lines) {
    match ls
    case Last(_, bs) => AllBlank(bs)
    case More(n, bs, rest) => AllBlank(bs) && !(n.CR? && bs == [] && rest.newline.LF?) && LinesOk(rest)
  }

  /** A character that stands for itself. */
  predicate Ordinary(c: CodeUnit) { c != QUOTE && c != BACKSLASH && (c == 9 || 32 <= c) }

  predicate AllOrdinary(s: seq<CodeUnit>) { forall i | 0 <= i < |s| :: Ordinary(s[i]) }

  /** What follows a break and its blanks does not start with more of them. */
  predicate NoLead(s: Scalar) { !s.Fold? && (s.Plain? ==> s.text != [] && s.text[0] != 9 && s.text[0] != 32) }

  predicate Ok(s: Scalar) {
    match s
    case End => true
    case Plain(text, rest) => AllOrdinary(text) && Ok(rest)
    case Fold(ls, rest) => LinesOk(ls) && NoLead(rest) && Ok(rest)
    case Continue(ls, rest) => LinesOk(ls) && NoLead(rest) && Ok(rest)
    case Short(letter, rest) => ShortUnit(letter).Some? && Ok(rest)
    case Numeric(letter, digits, rest) =>
      digits != [] && EscapeLength(letter) == |digits| && HexValue(digits).Some? && Ok(rest)
  }

  // ---- What it means ----

  function Breaks(ls: Lines): nat { match ls case Last(_, _) => 1 case More(_, _, rest) => 1 + Breaks(rest) }

  /** One break is a space, of more the first is dropped, and a continued line is
      joined to the one before. */
  function Value(s: Scalar): seq<CodeUnit>
    requires Ok(s)
  {
    match s
    case End => []
    case Plain(text, rest) => text + Value(rest)
    case Fold(ls, rest) => (if Breaks(ls) == 1 then [32] else seq(Breaks(ls) - 1, i => 10)) + Value(rest)
    case Continue(_, rest) => Value(rest)
    case Short(letter, rest) => [ShortUnit(letter).value] + Value(rest)
    case Numeric(_, digits, rest) => FromCode(HexValue(digits).value) + Value(rest)
  }

  function LastBlanks(ls: Lines): seq<CodeUnit> {
    match ls case Last(_, bs) => bs case More(_, _, rest) => LastBlanks(rest)
  }

  /** Three dashes or dots, and then a blank, a break, or a zero, which counts as the
      end. */
  predicate StartsMarker(w: seq<CodeUnit>) {
    && |w| > 3 && (w[..3] == [45, 45, 45] || w[..3] == [46, 46, 46])
    && (w[3] == 0 || w[3] == 9 || w[3] == 10 || w[3] == 13 || w[3] == 32)
  }

  /** Somewhere a line starts with a document marker. */
  predicate HasMarker(s: Scalar) {
    match s
    case End => false
    case Plain(_, rest) => HasMarker(rest)
    case Fold(ls, rest) => (LastBlanks(ls) == [] && StartsMarker(Written(rest))) || HasMarker(rest)
    case Continue(ls, rest) => (LastBlanks(ls) == [] && StartsMarker(Written(rest))) || HasMarker(rest)
    case Short(_, rest) => HasMarker(rest)
    case Numeric(_, _, rest) => HasMarker(rest)
  }

  // ---- Lines ----

  lemma {:induction false} BlanksSkipped(input: seq<CodeUnit>, p: nat, bs: seq<CodeUnit>)
    requires Reads(input, p, bs) && AllBlank(bs) && !IsBlank(At(input, p + |bs|))
    ensures SkipBlanks(input, p) == p + |bs| && SkipBlanks(input, SkipSpaces(input, p)) == p + |bs|
    decreases |bs|
  {
    if bs != [] {
      FirstOf(input, p, bs);
      BlanksSkipped(input, p + 1, bs[1..]);
    }
  }

  lemma FirstOf(input: seq<CodeUnit>, p: nat, x: seq<CodeUnit>)
    requires x != [] && Reads(input, p, x)
    ensures p < |input| && At(input, p) == input[p] == x[0] && Reads(input, p + 1, x[1..])
  {
    ReadsItem(input, p, x, 0);
    assert x == [x[0]] + x[1..];
    ReadsPart(input, p, [x[0]], x[1..]);
  }

  /** The first break ends where its text ends. */
  lemma NewlineEnds(input: seq<CodeUnit>, p: nat, n: Newline)
    requires Reads(input, p, NewlineText(n)) && (n.CR? ==> At(input, p + 1) != 10)
    ensures IsBreak(At(input, p)) && AfterBreak(input, p) == p + |NewlineText(n)|
  {
    ReadsItem(input, p, NewlineText(n), 0);
    if n.CRLF? { ReadsItem(input, p, NewlineText(n), 1); }
  }

  lemma ReadsThree(input: seq<CodeUnit>, p: nat, a: seq<CodeUnit>, b: seq<CodeUnit>, c: seq<CodeUnit>)
    requires Reads(input, p, a + b + c)
    ensures Reads(input, p, a) && Reads(input, p + |a|, b) && Reads(input, p + |a| + |b|, c)
  {
    ReadsPart(input, p, a + b, c);
    ReadsPart(input, p, a, b);
  }

  /** Lines start with a break. */
  lemma LinesStart(input: seq<CodeUnit>, p: nat, ls: Lines)
    requires Reads(input, p, LinesText(ls))
    ensures p < |input| && At(input, p) == if ls.newline.LF? then 10 else 13
  {
    var n := NewlineText(ls.newline);
    match ls
    case Last(_, bs) =>
      ReadsPart(input, p, n, bs);
      FirstOf(input, p, n);
    case More(_, bs, rest) =>
      ReadsThree(input, p, n, bs, LinesText(rest));
      FirstOf(input, p, n);
  }

  /** The line break at p ends at line, and that line's blanks end at next. */
  ghost predicate LineAt(input: seq<CodeUnit>, p: nat, line: nat, next: nat) {
    IsBreak(At(input, p)) && AfterBreak(input, p) == line && SkipBlanks(input, SkipSpaces(input, line)) == next
  }

  ghost predicate LinesAt(input: seq<CodeUnit>, p: nat, ls: Lines, q: nat)
    decreases ls
  {
    var line := p + |NewlineText(ls.newline)|;
    && LineAt(input, p, line, line + |ls.blanks|)
    && match ls
       case Last(_, bs) => q == line + |bs|
       case More(_, bs, rest) => LinesAt(input, line + |bs|, rest, q)
  }

  lemma LineEnds(input: seq<CodeUnit>, p: nat, n: Newline, bs: seq<CodeUnit>, line: nat)
    requires line == p + |NewlineText(n)| && Reads(input, p, NewlineText(n)) && Reads(input, line, bs)
    requires AllBlank(bs) && !IsBlank(At(input, line + |bs|)) && (n.CR? && bs == [] ==> At(input, line) != 10)
    ensures LineAt(input, p, line, line + |bs|)
  {
    if n.CR? && bs != [] { FirstOf(input, line, bs); }
    NewlineEnds(input, p, n);
    BlanksSkipped(input, line, bs);
  }

  lemma FirstLine(input: seq<CodeUnit>, p: nat, n: Newline, bs: seq<CodeUnit>, rest: Lines, line: nat)
    requires LinesOk(More(n, bs, rest)) && Reads(input, p, NewlineText(n) + bs + LinesText(rest))
    requires line == p + |NewlineText(n)|
    ensures LineAt(input, p, line, line + |bs|) && Reads(input, line + |bs|, LinesText(rest))
  {
    ReadsThree(input, p, NewlineText(n), bs, LinesText(rest));
    LinesStart(input, line + |bs|, rest);
    LineEnds(input, p, n, bs, line);
  }

  lemma {:induction false} LinesPlace(input: seq<CodeUnit>, p: nat, ls: Lines, q: nat)
    requires LinesOk(ls) && Reads(input, p, LinesText(ls)) && q == p + |LinesText(ls)|
    requires !IsBlankOrBreak(At(input, q))
    ensures LinesAt(input, p, ls, q)
    decreases ls
  {
    hide Reads, LineAt;
    var line := p + |NewlineText(ls.newline)|;
    match ls
    case Last(n, bs) =>
      ReadsPart(input, p, NewlineText(n), bs);
      LineEnds(input, p, n, bs, line);
    case More(n, bs, rest) =>
      FirstLine(input, p, n, bs, rest, line);
      LinesPlace(input, line + |bs|, rest, q);
  }

  ghost predicate Skips(input: seq<CodeUnit>, p: nat, lineStart: nat, q: nat, last: nat, k: nat) {
    SkipBreaks(input, p, lineStart) == (q, last, k)
  }

  /** One line is skipped. */
  lemma LineSkipped(input: seq<CodeUnit>, p: nat, line: nat, next: nat, lineStart: nat, q: nat, last: nat, k: nat)
    requires LineAt(input, p, line, next) && Skips(input, next, line, q, last, k)
    ensures Skips(input, p, lineStart, q, last, k + 1)
  {
    OneLine(input, p, lineStart);
  }

  lemma NothingToSkip(input: seq<CodeUnit>, p: nat, lineStart: nat)
    requires !IsBlankOrBreak(At(input, p))
    ensures Skips(input, p, lineStart, p, lineStart, 0)
  {}

  /** All lines are skipped and counted; the last one starts after its break. */
  lemma {:induction false} LinesSkipped(input: seq<CodeUnit>, p: nat, ls: Lines, lineStart: nat, q: nat)
    requires LinesAt(input, p, ls, q) && !IsBlankOrBreak(At(input, q))
    ensures |LastBlanks(ls)| <= q && Skips(input, p, lineStart, q, q - |LastBlanks(ls)|, Breaks(ls))
    decreases ls
  {
    hide SkipBreaks, SkipBlanks, SkipSpaces, AfterBreak, At;
    var line := p + |NewlineText(ls.newline)|;
    match ls
    case Last(n, bs) =>
      NothingToSkip(input, q, line);
      LineSkipped(input, p, line, q, lineStart, q, line, 0);
    case More(n, bs, rest) =>
      LinesSkipped(input, line + |bs|, rest, line, q);
      LineSkipped(input, p, line, line + |bs|, lineStart, q, q - |LastBlanks(rest)|, Breaks(rest));
  }

  // ---- Plain text ----

  lemma SegmentGrows(input: seq<CodeUnit>, start: nat, p: nat, x: seq<CodeUnit>)
    requires start <= p < |input| && x != [] && input[p] == x[0] && AllJson(input[start..p]) && IsJson(x[0])
    ensures input[start..p + 1] + x[1..] == input[start..p] + x && AllJson(input[start..p + 1])
  {
    assert input[start..p + 1] == input[start..p] + [x[0]];
  }

  lemma PlainStep(input: seq<CodeUnit>, p: nat, start: nat, lineStart: nat, text: seq<CodeUnit>)
    requires start <= p < |input| && Ordinary(input[p]) && (p == lineStart ==> !IsMarker(input, p))
    ensures Scan(input, p, start, lineStart, text) == Scan(input, p + 1, start, lineStart, text)
  {}

  lemma {:induction false} PlainScanned(
    input: seq<CodeUnit>, p: nat, start: nat, lineStart: nat, text: seq<CodeUnit>, x: seq<CodeUnit>)
    requires Reads(input, p, x) && AllOrdinary(x) && start <= p && AllJson(input[start..p]) && lineStart <= p
    requires x != [] && p == lineStart ==> !IsMarker(input, p)
    ensures Scan(input, p, start, lineStart, text) == Scan(input, p + |x|, start, lineStart, text)
    ensures input[start..p + |x|] == input[start..p] + x && AllJson(input[start..p + |x|])
    decreases |x|
  {
    if x != [] {
      FirstOf(input, p, x);
      SegmentGrows(input, start, p, x);
      PlainStep(input, p, start, lineStart, text);
      PlainScanned(input, p + 1, start, lineStart, text, x[1..]);
    }
  }

  // ---- What follows a break ----

  lemma WrittenEnds(s: Scalar)
    ensures |Written(s)| > 0 && Written(s)[|Written(s)| - 1] == QUOTE
  {}

  /** A marker is seen in the text alone, since the closing quote ends it. */
  lemma MarkerAt(input: seq<CodeUnit>, p: nat, s: Scalar)
    requires Reads(input, p, Written(s))
    ensures IsMarker(input, p) <==> StartsMarker(Written(s))
  {
    hide Written;
    var w := Written(s);
    WrittenEnds(s);
    forall i | 0 <= i < |w| ensures At(input, p + i) == w[i] { ReadsItem(input, p, w, i); }
    assert At(input, p + (|w| - 1)) == QUOTE && At(w, |w| - 1) == QUOTE;
    if |w| > 3 {
      assert At(input, p) == w[0] && At(input, p + 1) == w[1] && At(input, p + 2) == w[2] && At(input, p + 3) == w[3];
      assert w[..3] == [w[0], w[1], w[2]];
    }
  }

  lemma NoLeadStarts(input: seq<CodeUnit>, p: nat, s: Scalar)
    requires Reads(input, p, Written(s)) && Ok(s) && NoLead(s)
    ensures !IsBlankOrBreak(At(input, p))
  {
    WrittenEnds(s);
    FirstOf(input, p, Written(s));
    if s.Plain? { assert Written(s)[0] == s.text[0] && Ordinary(s.text[0]); }
  }

  lemma FoldedIs(n: nat)
    requires n >= 1
    ensures Folded(n) == if n == 1 then [32] else seq(n - 1, i => 10)
  {}

  // ---- One part of a scalar ----

  /** The scan stands at p, having read what is before it. */
  ghost predicate Scanning(
    input: seq<CodeUnit>, p: nat, start: nat, lineStart: nat, before: seq<CodeUnit>, text: seq<CodeUnit>)
  {
    start <= p <= |input| && lineStart <= p && AllJson(input[start..p]) && before == text + input[start..p]
  }

  /** Lines are skipped up to what follows them. */
  lemma RestSkipped(input: seq<CodeUnit>, p: nat, lineStart: nat, ls: Lines, rest: Scalar, q: nat)
    requires LinesOk(ls) && NoLead(rest) && Ok(rest)
    requires Reads(input, p, LinesText(ls)) && q == p + |LinesText(ls)| && Reads(input, q, Written(rest))
    ensures p < |input| && IsBreak(input[p]) && |LastBlanks(ls)| <= q
    ensures Skips(input, p, lineStart, q, q - |LastBlanks(ls)|, Breaks(ls))
  {
    LinesStart(input, p, ls);
    NoLeadStarts(input, q, rest);
    LinesPlace(input, p, ls, q);
    LinesSkipped(input, p, ls, lineStart, q);
  }

  lemma BreakScanned(
    input: seq<CodeUnit>, p: nat, start: nat, lineStart: nat, text: seq<CodeUnit>, q: nat, last: nat, k: nat)
    requires start <= p < |input| && IsBreak(input[p]) && AllJson(input[start..p])
    requires Skips(input, p, lineStart, q, last, k)
    ensures q <= |input|
    ensures Scan(input, p, start, lineStart, text) == Scan(input, q, q, last, text + input[start..p] + Folded(k))
  {}

  lemma BackslashScanned(
    input: seq<CodeUnit>, p: nat, start: nat, lineStart: nat, text: seq<CodeUnit>, q: nat, last: nat, k: nat)
    requires start <= p < |input| && input[p] == BACKSLASH && AllJson(input[start..p])
    requires p + 1 < |input| && IsBreak(input[p + 1]) && Skips(input, p + 1, lineStart, q, last, k)
    ensures q <= |input|
    ensures Scan(input, p, start, lineStart, text) == Scan(input, q, q, last, text + input[start..p])
  {
    assert Scan(input, p, start, lineStart, text) == ScanBackslash(input, p, start, lineStart, text);
  }

  lemma FoldScanned(
    input: seq<CodeUnit>, p: nat, start: nat, lineStart: nat, text: seq<CodeUnit>, ls: Lines, rest: Scalar, q: nat,
    before: seq<CodeUnit>)
    requires LinesOk(ls) && NoLead(rest) && Ok(rest)
    requires Reads(input, p, LinesText(ls)) && q == p + |LinesText(ls)| && Reads(input, q, Written(rest))
    requires Scanning(input, p, start, lineStart, before, text)
    ensures |LastBlanks(ls)| <= q
    ensures Scan(input, p, start, lineStart, text) ==
            Scan(input, q, q, q - |LastBlanks(ls)|, before + Folded(Breaks(ls)))
  {
    hide Scan, Reads, Written, LinesText, Skips;
    RestSkipped(input, p, lineStart, ls, rest, q);
    BreakScanned(input, p, start, lineStart, text, q, q - |LastBlanks(ls)|, Breaks(ls));
  }

  lemma TextScanned(
    input: seq<CodeUnit>, p: nat, start: nat, lineStart: nat, text: seq<CodeUnit>, x: seq<CodeUnit>,
    before: seq<CodeUnit>)
    requires Reads(input, p, x) && AllOrdinary(x) && (p == lineStart ==> !IsMarker(input, p))
    requires Scanning(input, p, start, lineStart, before, text)
    ensures Scanning(input, p + |x|, start, lineStart, before + x, text)
    ensures Scan(input, p, start, lineStart, text) == Scan(input, p + |x|, start, lineStart, text)
  {
    PlainScanned(input, p, start, lineStart, text, x);
    JoinLater(text, input[start..p], x);
  }

  lemma ContinueScanned(
    input: seq<CodeUnit>, p: nat, start: nat, lineStart: nat, text: seq<CodeUnit>, ls: Lines, rest: Scalar, q: nat,
    before: seq<CodeUnit>)
    requires LinesOk(ls) && NoLead(rest) && Ok(rest)
    requires p < |input| && input[p] == BACKSLASH && Reads(input, p + 1, LinesText(ls))
    requires q == p + 1 + |LinesText(ls)| && Reads(input, q, Written(rest))
    requires Scanning(input, p, start, lineStart, before, text)
    ensures |LastBlanks(ls)| <= q
    ensures Scan(input, p, start, lineStart, text) ==
            Scan(input, q, q, q - |LastBlanks(ls)|, before)
  {
    hide Scan, Reads, Written, LinesText, Skips;
    RestSkipped(input, p + 1, lineStart, ls, rest, q);
    BackslashScanned(input, p, start, lineStart, text, q, q - |LastBlanks(ls)|, Breaks(ls));
  }

  lemma ShortScanned(
    input: seq<CodeUnit>, p: nat, start: nat, lineStart: nat, text: seq<CodeUnit>, letter: CodeUnit,
    before: seq<CodeUnit>)
    requires Reads(input, p, [BACKSLASH, letter]) && ShortUnit(letter).Some?
    requires Scanning(input, p, start, lineStart, before, text)
    ensures Scan(input, p, start, lineStart, text) ==
            Scan(input, p + 2, p + 2, lineStart, before + [ShortUnit(letter).value])
  {
    ReadsItem(input, p, [BACKSLASH, letter], 0);
    ReadsItem(input, p, [BACKSLASH, letter], 1);
  }

  lemma NumericScanned(
    input: seq<CodeUnit>, p: nat, start: nat, lineStart: nat, text: seq<CodeUnit>,
    letter: CodeUnit, ds: seq<CodeUnit>, v: int, before: seq<CodeUnit>)
    requires Reads(input, p, [BACKSLASH, letter] + ds)
    requires ds != [] && EscapeLength(letter) == |ds| && HexValue(ds) == Some(v)
    requires Scanning(input, p, start, lineStart, before, text)
    ensures Scan(input, p, start, lineStart, text) ==
            Scan(input, p + 2 + |ds|, p + 2 + |ds|, lineStart, before + FromCode(v))
  {
    ReadsNumber(input, p, letter, ds);
    NumberIsRead(input, p + 1, ds, v);
  }

  // ---- The whole ----

  /** The scan refuses what is to come. */
  predicate Refused(s: Scalar, atLineStart: bool) { HasMarker(s) || (atLineStart && StartsMarker(Written(s))) }

  function Outcome(s: Scalar, atLineStart: bool, before: seq<CodeUnit>, next: nat): Scanned
    requires Ok(s)
  {
    if Refused(s, atLineStart) then Bad else Scanned(before + Value(s), next)
  }

  lemma MarkerRefused(input: seq<CodeUnit>, p: nat, start: nat, text: seq<CodeUnit>)
    requires start <= p <= |input| && IsMarker(input, p)
    ensures Scan(input, p, start, p, text) == Bad
  {}

  /** From any place of a written scalar. */
  lemma {:induction false} RestScanned(
    input: seq<CodeUnit>, p: nat, start: nat, lineStart: nat, text: seq<CodeUnit>, s: Scalar, next: nat,
    before: seq<CodeUnit>)
    requires Ok(s) && Reads(input, p, Written(s)) && next == p + |Written(s)|
    requires Scanning(input, p, start, lineStart, before, text)
    ensures Scan(input, p, start, lineStart, text) == Outcome(s, p == lineStart, before, next)
    decreases s, 2
  {
    hide Written, Scan, Value, HasMarker, Ok, StartsMarker, IsMarker;
    MarkerAt(input, p, s);
    if p == lineStart && IsMarker(input, p) {
      MarkerRefused(input, p, start, text);
    } else {
      BodyScanned(input, p, start, lineStart, text, s, next, before);
    }
  }

  lemma {:induction false} BodyScanned(
    input: seq<CodeUnit>, p: nat, start: nat, lineStart: nat, text: seq<CodeUnit>, s: Scalar, next: nat,
    before: seq<CodeUnit>)
    requires Ok(s) && Reads(input, p, Written(s)) && next == p + |Written(s)|
    requires Scanning(input, p, start, lineStart, before, text) && (p == lineStart ==> !IsMarker(input, p))
    ensures Scan(input, p, start, lineStart, text) == Outcome(s, false, before, next)
    decreases s, 1
  {
    hide Scan, Reads, IsMarker, Scanning, LinesOk, NoLead;
    match s
    case End =>
      EndScanned(input, p, start, lineStart, text, before);
    case Plain(x, rest) =>
      PlainRest(input, p, start, lineStart, text, before, x, rest, next);
    case Fold(ls, rest) =>
      FoldRest(input, p, start, lineStart, text, before, ls, rest, next);
    case Continue(ls, rest) =>
      ContinueRest(input, p, start, lineStart, text, before, ls, rest, next);
    case Short(letter, rest) =>
      ShortRest(input, p, start, lineStart, text, before, letter, rest, next);
    case Numeric(letter, ds, rest) =>
      NumericRest(input, p, start, lineStart, text, before, letter, ds, rest, next);
  }

  lemma EndScanned(
    input: seq<CodeUnit>, p: nat, start: nat, lineStart: nat, text: seq<CodeUnit>, before: seq<CodeUnit>)
    requires Reads(input, p, Written(End)) && Scanning(input, p, start, lineStart, before, text)
    ensures Scan(input, p, start, lineStart, text) == Outcome(End, false, before, p + 1)
  {
    ScanEnd(input, p, start, lineStart, text);
    assert before + [] == before;
  }

  lemma {:induction false} PlainRest(
    input: seq<CodeUnit>, p: nat, start: nat, lineStart: nat, text: seq<CodeUnit>, before: seq<CodeUnit>,
    x: seq<CodeUnit>, rest: Scalar, next: nat)
    requires AllOrdinary(x) && Ok(rest) && Reads(input, p, x + Written(rest)) && next == p + |x + Written(rest)|
    requires Scanning(input, p, start, lineStart, before, text) && (p == lineStart ==> !IsMarker(input, p))
    ensures Scan(input, p, start, lineStart, text) == Outcome(Plain(x, rest), false, before, next)
    decreases rest, 4
  {
    hide Scan, Reads, IsMarker, StartsMarker, AllOrdinary;
    var q := p + |x|;
    ReadsPart(input, p, x, Written(rest));
    TextScanned(input, p, start, lineStart, text, x, before);
    RestScanned(input, q, start, lineStart, text, rest, next, before + x);
    MarkerAt(input, q, rest);
    if x == [] { assert q == p; } else { assert q != lineStart; }
    JoinLater(before, x, Value(rest));
  }

  lemma {:induction false} FoldRest(
    input: seq<CodeUnit>, p: nat, start: nat, lineStart: nat, text: seq<CodeUnit>, before: seq<CodeUnit>,
    ls: Lines, rest: Scalar, next: nat)
    requires LinesOk(ls) && NoLead(rest) && Ok(rest)
    requires Reads(input, p, LinesText(ls) + Written(rest)) && next == p + |LinesText(ls) + Written(rest)|
    requires Scanning(input, p, start, lineStart, before, text)
    ensures Scan(input, p, start, lineStart, text) == Outcome(Fold(ls, rest), false, before, next)
    decreases rest, 4
  {
    hide Scan, Reads, StartsMarker, LinesText, LinesOk, NoLead, Folded;
    var q, k, atLineStart := p + |LinesText(ls)|, Breaks(ls), LastBlanks(ls) == [];
    ReadsPart(input, p, LinesText(ls), Written(rest));
    FoldScanned(input, p, start, lineStart, text, ls, rest, q, before);
    Resume(input, q, q - |LastBlanks(ls)|, before + Folded(k), rest, next, atLineStart);
    FoldedIs(k);
    JoinLater(before, Folded(k), Value(rest));
  }

  lemma {:induction false} ContinueRest(
    input: seq<CodeUnit>, p: nat, start: nat, lineStart: nat, text: seq<CodeUnit>, before: seq<CodeUnit>,
    ls: Lines, rest: Scalar, next: nat)
    requires LinesOk(ls) && NoLead(rest) && Ok(rest)
    requires Reads(input, p, Written(Continue(ls, rest))) && next == p + |Written(Continue(ls, rest))|
    requires Scanning(input, p, start, lineStart, before, text)
    ensures Scan(input, p, start, lineStart, text) == Outcome(Continue(ls, rest), false, before, next)
    decreases rest, 4
  {
    hide Scan, StartsMarker, LinesText, LinesOk, NoLead;
    var q, atLineStart := p + 1 + |LinesText(ls)|, LastBlanks(ls) == [];
    ReadsPart(input, p, [BACKSLASH], LinesText(ls) + Written(rest));
    ReadsItem(input, p, [BACKSLASH], 0);
    ReadsPart(input, p + 1, LinesText(ls), Written(rest));
    ContinueScanned(input, p, start, lineStart, text, ls, rest, q, before);
    Resume(input, q, q - |LastBlanks(ls)|, before, rest, next, atLineStart);
  }

  lemma {:induction false} ShortRest(
    input: seq<CodeUnit>, p: nat, start: nat, lineStart: nat, text: seq<CodeUnit>, before: seq<CodeUnit>,
    letter: CodeUnit, rest: Scalar, next: nat)
    requires ShortUnit(letter).Some? && Ok(rest)
    requires Reads(input, p, [BACKSLASH, letter] + Written(rest)) && next == p + |[BACKSLASH, letter] + Written(rest)|
    requires Scanning(input, p, start, lineStart, before, text)
    ensures Scan(input, p, start, lineStart, text) == Outcome(Short(letter, rest), false, before, next)
    decreases rest, 4
  {
    hide Scan, StartsMarker, ShortUnit;
    var c := ShortUnit(letter).value;
    ReadsPart(input, p, [BACKSLASH, letter], Written(rest));
    ShortScanned(input, p, start, lineStart, text, letter, before);
    Resume(input, p + 2, lineStart, before + [c], rest, next, false);
    JoinLater(before, [c], Value(rest));
  }

  lemma {:induction false} NumericRest(
    input: seq<CodeUnit>, p: nat, start: nat, lineStart: nat, text: seq<CodeUnit>, before: seq<CodeUnit>,
    letter: CodeUnit, ds: seq<CodeUnit>, rest: Scalar, next: nat)
    requires Ok(Numeric(letter, ds, rest))
    requires Reads(input, p, Written(Numeric(letter, ds, rest))) && next == p + |Written(Numeric(letter, ds, rest))|
    requires Scanning(input, p, start, lineStart, before, text)
    ensures Scan(input, p, start, lineStart, text) == Outcome(Numeric(letter, ds, rest), false, before, next)
    decreases rest, 4
  {
    hide Scan, StartsMarker, HexValue, FromCode, EscapeLength;
    var v := HexValue(ds).value;
    ReadsPart(input, p, [BACKSLASH, letter] + ds, Written(rest));
    NumericScanned(input, p, start, lineStart, text, letter, ds, v, before);
    Resume(input, p + 2 + |ds|, lineStart, before + FromCode(v), rest, next, false);
    JoinLater(before, FromCode(v), Value(rest));
  }

  /** After a break or an escape nothing is held back. */
  lemma {:induction false} Resume(
    input: seq<CodeUnit>, q: nat, lineStart: nat, text: seq<CodeUnit>, rest: Scalar, next: nat, atLineStart: bool)
    requires lineStart <= q && Ok(rest) && Reads(input, q, Written(rest)) && next == q + |Written(rest)|
    requires atLineStart == (q == lineStart)
    ensures Scan(input, q, q, lineStart, text) == Outcome(rest, atLineStart, text, next)
    decreases rest, 3
  {
    assert text + input[q..q] == text;
    RestScanned(input, q, q, lineStart, text, rest, next, text);
  }

  /** Whatever a scalar is made of, and wherever it stands in a document, the
      reader takes its meaning, or refuses it exactly if one of its lines starts
      with a document marker. */
  lemma ScalarIsRead(input: seq<CodeUnit>, p: nat, s: Scalar, lineStart: nat)
    requires Ok(s) && Reads(input, p, [QUOTE] + Written(s)) && lineStart <= p
    ensures input[p] == QUOTE
    ensures ScanQuoted(input, p, lineStart) ==
            if HasMarker(s) then Bad else Scanned(Value(s), p + |[QUOTE] + Written(s)|)
  {
    ReadsPart(input, p, [QUOTE], Written(s));
    ReadsItem(input, p, [QUOTE], 0);
    Resume(input, p + 1, lineStart, [], s, p + 1 + |Written(s)|, false);
    assert [] + Value(s) == Value(s);
  }

  // ---- Nothing else is read ----

  lemma {:induction false} BlanksBetween(input: seq<CodeUnit>, p: nat)
    requires p <= |input|
    ensures var q := SkipBlanks(input, p);
            p <= q <= |input| && AllBlank(input[p..q]) && !IsBlank(At(input, q))
    decreases |input| - p
  {
    if p < |input| && IsBlank(input[p]) {
      BlanksBetween(input, p + 1);
      assert input[p..SkipBlanks(input, p)] == [input[p]] + input[p + 1..SkipBlanks(input, p)];
    }
  }

  /** Spaces are blanks. */
  lemma {:induction false} SpacesAreBlanks(input: seq<CodeUnit>, p: nat)
    ensures SkipBlanks(input, SkipSpaces(input, p)) == SkipBlanks(input, p)
    decreases |input| - p
  {
    if p < |input| && input[p] == 32 {
      SpacesAreBlanks(input, p + 1);
    }
  }

  function NewlineAt(input: seq<CodeUnit>, p: nat): Newline {
    if At(input, p) == 10 then LF else if At(input, p + 1) == 10 then CRLF else CR
  }

  lemma NewlineIs(input: seq<CodeUnit>, p: nat, n: Newline, line: nat)
    requires IsBreak(At(input, p)) && n == NewlineAt(input, p) && line == AfterBreak(input, p)
    ensures Reads(input, p, NewlineText(n)) && line == p + |NewlineText(n)|
  {}

  /** One line as it stands in the input. */
  lemma LineIs(input: seq<CodeUnit>, p: nat, lineStart: nat, line: nat, next: nat, n: Newline, bs: seq<CodeUnit>)
    requires IsBreak(At(input, p)) && line == AfterBreak(input, p) && next == SkipBlanks(input, line)
    requires n == NewlineAt(input, p) && bs == input[line..next]
    ensures SkipBreaks(input, p, lineStart) == AddBreaks(SkipBreaks(input, next, line), 1)
    ensures Reads(input, p, NewlineText(n) + bs) && next == p + |NewlineText(n) + bs| && AllBlank(bs)
    ensures !IsBlank(At(input, next)) && (n.CR? && bs == [] ==> At(input, next) != 10)
  {
    hide SkipBreaks, SkipSpaces;
    OneLine(input, p, lineStart);
    SpacesAreBlanks(input, line);
    BlanksBetween(input, line);
    NewlineIs(input, p, n, line);
    assert input[p..next] == input[p..line] + bs;
  }

  lemma ReadsBoth(input: seq<CodeUnit>, p: nat, a: seq<CodeUnit>, b: seq<CodeUnit>)
    requires Reads(input, p, a) && Reads(input, p + |a|, b)
    ensures Reads(input, p, a + b)
  {
    assert input[p..p + |a + b|] == input[p..p + |a|] + input[p + |a|..p + |a + b|];
  }

  /** The lines that are skipped from p on end at q. */
  ghost predicate AreLines(input: seq<CodeUnit>, p: nat, lineStart: nat, ls: Lines, q: nat) {
    && LinesOk(ls) && Reads(input, p, LinesText(ls)) && q == p + |LinesText(ls)| && |LastBlanks(ls)| <= q
    && Skips(input, p, lineStart, q, q - |LastBlanks(ls)|, Breaks(ls)) && !IsBlankOrBreak(At(input, q))
    && (ls.newline.LF? <==> At(input, p) == 10)
  }

  lemma LastLine(input: seq<CodeUnit>, p: nat, lineStart: nat, n: Newline, bs: seq<CodeUnit>, line: nat, q: nat)
    requires Reads(input, p, NewlineText(n) + bs) && q == p + |NewlineText(n) + bs| && AllBlank(bs)
    requires !IsBlankOrBreak(At(input, q)) && (n.LF? <==> At(input, p) == 10) && line == q - |bs|
    requires SkipBreaks(input, p, lineStart) == AddBreaks(SkipBreaks(input, q, line), 1)
    ensures AreLines(input, p, lineStart, Last(n, bs), q)
  {
    hide At;
    NothingToSkip(input, q, line);
  }

  lemma MoreLines(
    input: seq<CodeUnit>, p: nat, lineStart: nat, n: Newline, bs: seq<CodeUnit>, line: nat, next: nat, rest: Lines,
    q: nat)
    requires Reads(input, p, NewlineText(n) + bs) && next == p + |NewlineText(n) + bs| && AllBlank(bs)
    requires (n.LF? <==> At(input, p) == 10) && (n.CR? && bs == [] ==> At(input, next) != 10)
    requires SkipBreaks(input, p, lineStart) == AddBreaks(SkipBreaks(input, next, line), 1)
    requires AreLines(input, next, line, rest, q)
    ensures AreLines(input, p, lineStart, More(n, bs, rest), q)
  {
    hide At, Reads, SkipBreaks, NewlineText;
    ReadsBoth(input, p, NewlineText(n) + bs, LinesText(rest));
  }

  /** What is skipped are lines. */
  lemma {:induction false} SkippedAreLines(input: seq<CodeUnit>, p: nat, lineStart: nat) returns (ls: Lines, q: nat)
    requires IsBreak(At(input, p))
    ensures AreLines(input, p, lineStart, ls, q)
    decreases |input| - p
  {
    hide AreLines, Reads, SkipBreaks, AddBreaks, SkipBlanks;
    var line := AfterBreak(input, p);
    var next := SkipBlanks(input, line);
    var n, bs := NewlineAt(input, p), input[line..next];
    LineIs(input, p, lineStart, line, next, n, bs);
    if IsBreak(At(input, next)) {
      var rest;
      rest, q := SkippedAreLines(input, next, line);
      ls := More(n, bs, rest);
      MoreLines(input, p, lineStart, n, bs, line, next, rest, q);
    } else {
      ls, q := Last(n, bs), next;
      LastLine(input, p, lineStart, n, bs, line, q);
    }
  }

  /** The scan from p on, which succeeded, read the scalar. */
  ghost predicate Took(
    input: seq<CodeUnit>, p: nat, start: nat, lineStart: nat, before: seq<CodeUnit>, text: seq<CodeUnit>, s: Scalar)
  {
    && Scanning(input, p, start, lineStart, before, text)
    && Ok(s) && Reads(input, p, Written(s)) && !Refused(s, p == lineStart)
    && Scan(input, p, start, lineStart, text) == Scanned(before + Value(s), p + |Written(s)|)
    && (!IsBlankOrBreak(At(input, p)) ==> NoLead(s))
  }

  lemma TookEnd(
    input: seq<CodeUnit>, p: nat, start: nat, lineStart: nat, before: seq<CodeUnit>, text: seq<CodeUnit>)
    requires start <= p < |input| && lineStart <= p && before == text + input[start..p] && input[p] == QUOTE
    requires Scan(input, p, start, lineStart, text).Scanned?
    ensures Took(input, p, start, lineStart, before, text, End)
  {
    assert before + [] == before;
  }

  lemma JsonSoFar(input: seq<CodeUnit>, start: nat, p: nat)
    requires start <= p < |input| && AllJson(input[start..p + 1])
    ensures AllJson(input[start..p]) && IsJson(input[p])
  {
    var all := input[start..p + 1];
    assert all[p - start] == input[p];
    forall i | 0 <= i < p - start ensures IsJson(input[start..p][i]) { assert all[i] == input[start..p][i]; }
  }

  lemma TookPlain(
    input: seq<CodeUnit>, p: nat, start: nat, lineStart: nat, before: seq<CodeUnit>, text: seq<CodeUnit>, s: Scalar)
    requires start <= p < |input| && lineStart <= p && before == text + input[start..p]
    requires input[p] != QUOTE && input[p] != BACKSLASH && !(p == lineStart && IsMarker(input, p))
    requires Took(input, p + 1, start, lineStart, before + [input[p]], text, s)
    requires Scan(input, p, start, lineStart, text) == Scan(input, p + 1, start, lineStart, text)
    ensures Took(input, p, start, lineStart, before, text, Plain([input[p]], s))
  {
    hide Scan, IsMarker, StartsMarker;
    var c := input[p];
    JsonSoFar(input, start, p);
    Longer(input, start, p);
    ReadsBoth(input, p, [c], Written(s));
    MarkerAt(input, p, Plain([c], s));
    JoinLater(before, [c], Value(s));
  }

  lemma TookFold(
    input: seq<CodeUnit>, p: nat, start: nat, lineStart: nat, before: seq<CodeUnit>, text: seq<CodeUnit>, ls: Lines,
    q: nat, rest: Scalar)
    requires Scanning(input, p, start, lineStart, before, text) && p < |input| && IsBreak(input[p])
    requires AreLines(input, p, lineStart, ls, q)
    requires Took(input, q, q, q - |LastBlanks(ls)|, before + Folded(Breaks(ls)), before + Folded(Breaks(ls)), rest)
    ensures Took(input, p, start, lineStart, before, text, Fold(ls, rest))
  {
    hide Scan, SkipBreaks, StartsMarker, LinesText, AllJson;
    var k := Breaks(ls);
    BreakScanned(input, p, start, lineStart, text, q, q - |LastBlanks(ls)|, k);
    ReadsBoth(input, p, LinesText(ls), Written(rest));
    FoldedIs(k);
    JoinLater(before, Folded(k), Value(rest));
    NoMarker(input, p, Fold(ls, rest));
  }

  /** A marker starts with a dash or a dot. */
  lemma NoMarker(input: seq<CodeUnit>, p: nat, s: Scalar)
    requires p < |input| && input[p] != 45 && input[p] != 46 && Reads(input, p, Written(s))
    ensures !StartsMarker(Written(s))
  {
    hide Written;
    WrittenEnds(s);
    FirstOf(input, p, Written(s));
  }

  lemma TookContinue(
    input: seq<CodeUnit>, p: nat, start: nat, lineStart: nat, before: seq<CodeUnit>, text: seq<CodeUnit>, ls: Lines,
    q: nat, rest: Scalar)
    requires Scanning(input, p, start, lineStart, before, text) && p < |input| && input[p] == BACKSLASH
    requires p + 1 < |input| && IsBreak(input[p + 1]) && AreLines(input, p + 1, lineStart, ls, q)
    requires Took(input, q, q, q - |LastBlanks(ls)|, before, before, rest)
    ensures Took(input, p, start, lineStart, before, text, Continue(ls, rest))
  {
    hide Scan, SkipBreaks, StartsMarker, LinesText, AllJson;
    BackslashScanned(input, p, start, lineStart, text, q, q - |LastBlanks(ls)|, Breaks(ls));
    ReadsBoth(input, p + 1, LinesText(ls), Written(rest));
    ReadsBoth(input, p, [BACKSLASH], LinesText(ls) + Written(rest));
    NoMarker(input, p, Continue(ls, rest));
  }

  lemma TookShort(
    input: seq<CodeUnit>, p: nat, start: nat, lineStart: nat, before: seq<CodeUnit>, text: seq<CodeUnit>,
    letter: CodeUnit, c: CodeUnit, rest: Scalar)
    requires Scanning(input, p, start, lineStart, before, text) && p + 1 < |input| && input[p] == BACKSLASH
    requires input[p + 1] == letter && ShortUnit(letter) == Some(c)
    requires Took(input, p + 2, p + 2, lineStart, before + [c], before + [c], rest)
    ensures Took(input, p, start, lineStart, before, text, Short(letter, rest))
  {
    hide Scan, StartsMarker, AllJson, ShortUnit;
    ReadsBoth(input, p, [BACKSLASH, letter], Written(rest));
    ShortScanned(input, p, start, lineStart, text, letter, before);
    JoinLater(before, [c], Value(rest));
    NoMarker(input, p, Short(letter, rest));
  }

  lemma TookNumeric(
    input: seq<CodeUnit>, p: nat, start: nat, lineStart: nat, before: seq<CodeUnit>, text: seq<CodeUnit>,
    letter: CodeUnit, ds: seq<CodeUnit>, v: int, q: nat, rest: Scalar)
    requires Scanning(input, p, start, lineStart, before, text) && q == p + 2 + |ds|
    requires Reads(input, p, [BACKSLASH, letter] + ds)
    requires ds != [] && EscapeLength(letter) == |ds| && HexValue(ds) == Some(v)
    requires Took(input, q, q, lineStart, before + FromCode(v), before + FromCode(v), rest)
    ensures Took(input, p, start, lineStart, before, text, Numeric(letter, ds, rest))
  {
    hide Scan, StartsMarker, AllJson, FromCode, HexValue, EscapeLength, IsBlankOrBreak;
    ReadsBoth(input, p, [BACKSLASH, letter] + ds, Written(rest));
    NumericScanned(input, p, start, lineStart, text, letter, ds, v, before);
    JoinLater(before, FromCode(v), Value(rest));
    ReadsItem(input, p, [BACKSLASH, letter] + ds, 0);
    NoMarker(input, p, Numeric(letter, ds, rest));
  }

  /** A scan that succeeds has read a scalar. */
  lemma {:induction false} ScannedIsWritten(
    input: seq<CodeUnit>, p: nat, start: nat, lineStart: nat, before: seq<CodeUnit>, text: seq<CodeUnit>)
    returns (s: Scalar)
    requires start <= p <= |input| && lineStart <= p && before == text + input[start..p]
    requires Scan(input, p, start, lineStart, text).Scanned?
    ensures Took(input, p, start, lineStart, before, text, s)
    decreases |input| - p, 2
  {
    hide Took, IsMarker, AllJson, ScanBackslash, ScanBreak;
    var c := At(input, p);
    if c == QUOTE {
      TookEnd(input, p, start, lineStart, before, text);
      s := End;
    } else if c == BACKSLASH {
      s := BackslashIsWritten(input, p, start, lineStart, before, text);
    } else if IsBreak(c) {
      s := BreakIsWritten(input, p, start, lineStart, before, text);
    } else {
      Longer(input, start, p);
      var rest := ScannedIsWritten(input, p + 1, start, lineStart, before + [c], text);
      TookPlain(input, p, start, lineStart, before, text, rest);
      s := Plain([c], rest);
    }
  }

  lemma {:induction false} BreakIsWritten(
    input: seq<CodeUnit>, p: nat, start: nat, lineStart: nat, before: seq<CodeUnit>, text: seq<CodeUnit>)
    returns (s: Scalar)
    requires start <= p < |input| && lineStart <= p && before == text + input[start..p] && IsBreak(input[p])
    requires ScanBreak(input, p, start, lineStart, text).Scanned?
    ensures Took(input, p, start, lineStart, before, text, s)
    decreases |input| - p, 0
  {
    hide Took, Scan, AllJson, SkipBreaks;
    var ls, q := SkippedAreLines(input, p, lineStart);
    var rest := ResumedIsWritten(input, q, q - |LastBlanks(ls)|, before + Folded(Breaks(ls)));
    TookFold(input, p, start, lineStart, before, text, ls, q, rest);
    s := Fold(ls, rest);
  }

  lemma {:induction false} BackslashIsWritten(
    input: seq<CodeUnit>, p: nat, start: nat, lineStart: nat, before: seq<CodeUnit>, text: seq<CodeUnit>)
    returns (s: Scalar)
    requires start <= p < |input| && lineStart <= p && before == text + input[start..p] && input[p] == BACKSLASH
    requires ScanBackslash(input, p, start, lineStart, text).Scanned?
    ensures Took(input, p, start, lineStart, before, text, s)
    decreases |input| - p, 1
  {
    hide Took, Scan, AllJson, SkipBreaks;
    if IsBreak(At(input, p + 1)) {
      var ls, q := SkippedAreLines(input, p + 1, lineStart);
      var rest := ResumedIsWritten(input, q, q - |LastBlanks(ls)|, before);
      TookContinue(input, p, start, lineStart, before, text, ls, q, rest);
      s := Continue(ls, rest);
    } else {
      s := EscapeIsWritten(input, p, start, lineStart, before, text);
    }
  }

  lemma {:induction false} EscapeIsWritten(
    input: seq<CodeUnit>, p: nat, start: nat, lineStart: nat, before: seq<CodeUnit>, text: seq<CodeUnit>)
    returns (s: Scalar)
    requires Scanning(input, p, start, lineStart, before, text) && p < |input| && input[p] == BACKSLASH
    requires var e := ReadEscape(input, p + 1);
             e.Some? && Scan(input, e.value.1, e.value.1, lineStart, before + e.value.0).Scanned?
    ensures Took(input, p, start, lineStart, before, text, s)
    decreases |input| - p, 0
  {
    hide Took, Scan, AllJson, ShortUnit, FromCode, HexValue, EscapeLength;
    var letter := At(input, p + 1);
    if ShortUnit(letter).Some? && p + 1 < |input| {
      var c := ShortUnit(letter).value;
      var rest := ResumedIsWritten(input, p + 2, lineStart, before + [c]);
      TookShort(input, p, start, lineStart, before, text, letter, c, rest);
      s := Short(letter, rest);
    } else {
      var ds := Peek(input, p + 2, EscapeLength(letter));
      HexNeedsInput(input, p + 2, |ds|);
      NumberInInput(input, p, letter, ds);
      var v := HexValue(ds).value;
      var rest := ResumedIsWritten(input, p + 2 + |ds|, lineStart, before + FromCode(v));
      TookNumeric(input, p, start, lineStart, before, text, letter, ds, v, p + 2 + |ds|, rest);
      s := Numeric(letter, ds, rest);
    }
  }

  lemma NumberInInput(input: seq<CodeUnit>, p: nat, letter: CodeUnit, ds: seq<CodeUnit>)
    requires p + 2 + |ds| <= |input| && input[p] == BACKSLASH && input[p + 1] == letter
    requires ds == Peek(input, p + 2, |ds|)
    ensures Reads(input, p, [BACKSLASH, letter] + ds)
  {
    forall i | 0 <= i < |ds| ensures input[p + 2 + i] == ds[i] { assert ds[i] == At(input, p + 2 + i); }
  }

  lemma {:induction false} ResumedIsWritten(input: seq<CodeUnit>, q: nat, lineStart: nat, text: seq<CodeUnit>)
    returns (s: Scalar)
    requires lineStart <= q <= |input| && Scan(input, q, q, lineStart, text).Scanned?
    ensures Took(input, q, q, lineStart, text, text, s)
    decreases |input| - q, 3
  {
    hide Scan, Took;
    assert text == text + input[q..q];
    s := ScannedIsWritten(input, q, q, lineStart, text, text);
  }

  /** A scalar without a marker, its text, and the end of it. */
  ghost predicate IsScalarAt(input: seq<CodeUnit>, p: nat, s: Scalar, r: Scanned) {
    && Ok(s) && !HasMarker(s) && Reads(input, p, [QUOTE] + Written(s))
    && r == Scanned(Value(s), p + |[QUOTE] + Written(s)|)
  }

  /** The reader succeeds exactly on the scalars, with their meaning. */
  lemma ReadsExactlyScalars(input: seq<CodeUnit>, p: nat, lineStart: nat, r: Scanned)
    requires p < |input| && input[p] == QUOTE && lineStart <= p
    ensures r.Scanned? && ScanQuoted(input, p, lineStart) == r <==> exists s :: IsScalarAt(input, p, s, r)
  {
    hide Scan, StartsMarker, Written, Value, HasMarker, Ok;
    if s :| IsScalarAt(input, p, s, r) {
      ScalarIsRead(input, p, s, lineStart);
    }
    if r.Scanned? && ScanQuoted(input, p, lineStart) == r {
      var s := ResumedIsWritten(input, p + 1, lineStart, []);
      assert [] + Value(s) == Value(s);
      ReadsBoth(input, p, [QUOTE], Written(s));
      assert IsScalarAt(input, p, s, r);
    }
  }
}
