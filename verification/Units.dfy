/** Bytes, UTF-16 code units, and texts at a place in an input. */
module Units {
  type Byte = b: int | 0 <= b < 256

  type CodeUnit = c: int | 0 <= c < 0x1_0000

  // ---- Surrogates ----

  predicate IsLead(c: int) { 55296 <= c <= 56319 }

  predicate IsTrail(c: int) { 56320 <= c <= 57343 }

  /** The code point of a surrogate pair. */
  function CodePoint(lead: int, trail: int): int { 1024 * (lead - 55296) + trail - 56320 + 65536 }

  /** How many code units stand for the first character. */
  function Width(s: seq<CodeUnit>): (n: nat)
    requires s != []
    ensures 1 <= n <= |s|
  {
    if IsLead(s[0]) && |s| > 1 && IsTrail(s[1]) then 2 else 1
  }

  // ---- Texts ----

  /** The input reads t at p. */
  ghost predicate Reads<T>(input: seq<T>, p: nat, t: seq<T>) {
    p + |t| <= |input| && input[p..p + |t|] == t
  }

  lemma ReadsPart<T>(input: seq<T>, p: nat, a: seq<T>, b: seq<T>)
    requires Reads(input, p, a + b)
    ensures Reads(input, p, a) && Reads(input, p + |a|, b)
  {
    var t := a + b;
    assert input[p..p + |a|] == t[..|a|];
    assert input[p + |a|..p + |t|] == t[|a|..];
  }

  lemma ReadsItem<T>(input: seq<T>, p: nat, t: seq<T>, i: nat)
    requires Reads(input, p, t) && i < |t|
    ensures input[p + i] == t[i]
  {
    assert input[p..p + |t|][i] == t[i];
  }
}
