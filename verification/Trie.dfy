/** The persistent hash trie behind the immutable Map: five kinds of node, with
    lookups and the update that stores or removes one key. Nodes are values;
    the update of a missing owner id builds new nodes along one path.
 */
module Trie {
  import opened Bits
  import opened Options
  import opened Entries

  datatype Node<V> =
    | Leaf(hash: Hash, entry: Entry<V>)
    | Collision(hash: Hash, entries: seq<Entry<V>>)
    | Bitmap(bits: nat, nodes: seq<Node<V>>)
    | HashArray(count: nat, slots: seq<Option<Node<V>>>)

  const MAX_ENTRIES := 8
  const MAX_BITMAP := 16
  const MIN_ARRAY := 8

  /** Nodes that a parent with no other child gives way to. */
  predicate IsLeaf<V>(n: Node<V>) { n.Leaf? || n.Collision? }

  function Occupied<V>(s: seq<Option<Node<V>>>): nat {
    if s == [] then 0 else (if s[0].Some? then 1 else 0) + Occupied(s[1..])
  }

  /** The shape of a node that is reached by the digits of path. */
  ghost predicate WF<V>(n: Node<V>, path: seq<Digit>)
    decreases n
  {
    match n
    case Leaf(h, e) => h == e.key.hash && Matches(h, path)
    case Collision(h, es) =>
      |es| >= 2 && Distinct(es) && (forall e | e in es :: e.key.hash == h) && Matches(h, path)
    case Bitmap(b, ns) =>
      && |path| < 7 && |ns| == Count(b) && 1 <= |ns| <= MAX_BITMAP
      && (|ns| == 1 ==> !IsLeaf(ns[0]))
      && forall d: nat | Has(b, d) :: d < 32 && Rank(b, d) < |ns| && WF(ns[Rank(b, d)], path + [d])
    case HashArray(c, ss) =>
      && |path| < 7 && |ss| == 32 && c == Occupied(ss) && c >= MIN_ARRAY
      && forall d: nat | d < 32 && ss[d].Some? :: WF(ss[d].value, path + [d])
  }

  ghost predicate WFOpt<V>(o: Option<Node<V>>, path: seq<Digit>) { o.Some? ==> WF(o.value, path) }

  /** The child under digit d of a compressed array. */
  function SlotOf<V>(b: nat, ns: seq<Node<V>>, d: nat): Option<Node<V>> {
    if Has(b, d) && Rank(b, d) < |ns| then Some(ns[Rank(b, d)]) else None
  }

  /** The child under digit d of an inner node. */
  function Child<V>(n: Node<V>, d: Digit): Option<Node<V>>
    requires !IsLeaf(n)
  {
    match n
    case Bitmap(b, ns) => SlotOf(b, ns, d)
    case HashArray(_, ss) => if d < |ss| then ss[d] else None
  }

  /** Looks k up in the node reached by path. The code is given five times the
      length of path as a shift amount. */
  function Get<V>(n: Node<V>, path: seq<Digit>, k: Key): Option<V>
    requires WF(n, path)
    decreases n
  {
    match n
    case Leaf(_, e) => if k == e.key then Some(e.value) else None
    case Collision(_, es) => Lookup(es, k)
    case Bitmap(b, ns) =>
      var d := Frag(k.hash, |path|);
      if Has(b, d) then Get(ns[Rank(b, d)], path + [d], k) else None
    case HashArray(_, ss) =>
      var d := Frag(k.hash, |path|);
      if ss[d].Some? then Get(ss[d].value, path + [d], k) else None
  }

  function GetOpt<V>(o: Option<Node<V>>, path: seq<Digit>, k: Key): Option<V>
    requires WFOpt(o, path)
  {
    if o.Some? then Get(o.value, path, k) else None
  }

  // ---- Update ----

  /** The updated node, if one remains, with the flags that the code passes
      along: did anything change, and did the number of keys change. */
  datatype Update<V> = Update(node: Option<Node<V>>, altered: bool, resized: bool)

  /** Splits a leaf against a new key, level by level, down to the first digit
      in which their hashes differ. */
  function Merge<V>(n: Node<V>, path: seq<Digit>, k: Key, x: V): Node<V>
    requires IsLeaf(n) && WF(n, path) && Matches(k.hash, path)
    requires n.Leaf? || n.hash != k.hash
    decreases 7 - |path|
  {
    if n.hash == k.hash then Collision(k.hash, [n.entry, Entry(k, x)])
    else
      assert |path| < 7 by { if |path| >= 7 { DigitsDetermine(n.hash, k.hash, path); } }
      var d, e := Frag(n.hash, |path|), Frag(k.hash, |path|);
      var leaf := Leaf(k.hash, Entry(k, x));
      if d == e then Bitmap(Bit(d), [Merge(n, path + [d], k, x)])
      else Bitmap(Bit(d) + Bit(e), if d < e then [n, leaf] else [leaf, n])
  }

  function Without<T>(s: seq<T>, i: nat): seq<T>
    requires i < |s|
  {
    s[..i] + s[i + 1..]
  }

  function With<T>(s: seq<T>, i: nat, x: T): seq<T>
    requires i <= |s|
  {
    s[..i] + [x] + s[i..]
  }

  /** The 32 slots of a bitmap node that outgrows its compressed array. */
  function Expand<V>(b: nat, ns: seq<Node<V>>, d: Digit, child: Node<V>): (ss: seq<Option<Node<V>>>)
    ensures |ss| == 32
  {
    seq(32, i requires 0 <= i < 32 => if i == d then Some(child) else SlotOf(b, ns, i))
  }

  /** The bitmap and the compressed array of a slot array. */
  function Marks<V>(ss: seq<Option<Node<V>>>): nat {
    if ss == [] then 0 else (if ss[0].Some? then 1 else 0) + 2 * Marks(ss[1..])
  }

  function Packed<V>(ss: seq<Option<Node<V>>>): seq<Node<V>> {
    if ss == [] then [] else (if ss[0].Some? then [ss[0].value] else []) + Packed(ss[1..])
  }

  /** The loop that spreads a compressed array over the slots, shifting the
      bitmap right; the count of the new node is the number of pairs moved plus
      the added one. */
  method ExpandNodes<V(==)>(ns: seq<Node<V>>, b: nat, d: Digit, child: Node<V>)
    returns (count: nat, ss: array<Option<Node<V>>>)
    requires |ns| == Count(b) && !Has(b, d) && forall e: nat | Has(b, e) :: e < 32
    ensures ss[..] == Expand(b, ns, d, child) && count == |ns| + 1
  {
    ss := new Option<Node<V>>[32](_ => None);
    var o, s, n := 0, 0, b;
    while n != 0
      invariant n == Shr(b, s) && o == Rank(b, s) <= |ns|
      invariant n == 0 ==> o == |ns|
      invariant forall i | 0 <= i < 32 :: ss[i] == if i < s then SlotOf(b, ns, i) else None
    {
      ShrDone(b, s);
      ShrStep(b, s);
      ShrStep(b, s + 1);
      if n % 2 == 1 {
        ss[s] := Some(ns[o]);
        o := o + 1;
      }
      s, n := s + 1, n / 2;
    }
    forall i | s <= i < 32 ensures SlotOf(b, ns, i) == None {
      ShrZero(b, s, i);
    }
    ss[d] := Some(child);
    count := o + 1;
  }

  lemma DoubleStep(a: nat, m: nat)
    ensures a * (1 + 2 * m) == a + (a + a) * m && a * (0 + 2 * m) == (a + a) * m
  {}

  /** The loop that packs the slots other than r into a bitmap and an array. */
  method PackNodes<V>(ss: array<Option<Node<V>>>, r: nat) returns (b: nat, ns: seq<Node<V>>)
    requires r < ss.Length
    ensures b == Marks(ss[..][r := None]) && ns == Packed(ss[..][r := None])
  {
    ghost var rest := ss[..][r := None];
    var s, a := 0, 1;
    b, ns := 0, [];
    while s < ss.Length
      invariant s <= ss.Length && a > 0
      invariant b + a * Marks(rest[s..]) == Marks(rest)
      invariant ns + Packed(rest[s..]) == Packed(rest)
    {
      assert rest[s..][1..] == rest[s + 1..];
      ghost var m := Marks(rest[s + 1..]);
      DoubleStep(a, m);
      if ss[s].Some? && s != r {
        assert ns + ([ss[s].value] + Packed(rest[s + 1..])) == ns + [ss[s].value] + Packed(rest[s + 1..]);
        b, ns := b + a, ns + [ss[s].value];
      }
      s, a := s + 1, a + a;
    }
  }

  /** The node that replaces bitmap node (b, ns) when the child under digit d,
      which may have been missing, becomes c. */
  function BitmapWith<V>(b: nat, ns: seq<Node<V>>, d: Digit, c: Option<Node<V>>): Node<V>
    requires |ns| == Count(b)
    requires Has(b, d) || c.Some?
    requires Has(b, d) ==> Rank(b, d) < |ns|
    requires Has(b, d) && c.None? ==> |ns| > 1 && Bit(d) <= b
    requires Rank(b, d) <= |ns|
  {
    var i := Rank(b, d);
    if !Has(b, d) then
      if |ns| >= MAX_BITMAP then HashArray(|ns| + 1, Expand(b, ns, d, c.value))
      else Bitmap(b + Bit(d), With(ns, i, c.value))
    else if c.None? then
      if |ns| == 2 && IsLeaf(ns[1 - i]) then ns[1 - i] else Bitmap(b - Bit(d), Without(ns, i))
    else if |ns| == 1 && IsLeaf(c.value) then c.value
    else Bitmap(b, ns[i := c.value])
  }

  /** The node that replaces hash-array node (count, ss) likewise. */
  function HashArrayWith<V>(count: nat, ss: seq<Option<Node<V>>>, d: Digit, c: Option<Node<V>>): Node<V>
    requires |ss| == 32 && (ss[d].Some? ==> count > 0)
  {
    if ss[d].Some? then
      if c.None? then
        if count - 1 < MIN_ARRAY then var rest := ss[d := None]; Bitmap(Marks(rest), Packed(rest))
        else HashArray(count - 1, ss[d := None])
      else HashArray(count, ss[d := c])
    else HashArray(count + 1, ss[d := c])
  }

  /** The update of an empty slot. */
  function UpdateEmpty<V>(k: Key, v: Option<V>): Update<V> {
    if v.None? then Update(None, false, false) else Update(Some(Leaf(k.hash, Entry(k, v.value))), true, true)
  }

  function Unaltered<V>(n: Node<V>): Update<V> { Update(Some(n), false, false) }

  /** Stores v under k below node n, or removes k when v is None. */
  function UpdateNode<V(==)>(n: Node<V>, path: seq<Digit>, k: Key, v: Option<V>): (u: Update<V>)
    requires WF(n, path) && Matches(k.hash, path)
    ensures u.node.None? ==> n.Leaf?
    ensures !u.altered ==> u.node == Some(n) && !u.resized
    decreases n
  {
    match n
    case Leaf(h, e) =>
      if k == e.key then
        if v == Some(e.value) then Unaltered(n)
        else if v.None? then Update(None, true, true)
        else Update(Some(Leaf(h, Entry(k, v.value))), true, false)
      else if v.None? then Unaltered(n)
      else Update(Some(Merge(n, path, k, v.value)), true, true)
    case Collision(h, es) =>
      if k.hash != h then
        if v.None? then Unaltered(n) else Update(Some(Merge(n, path, k, v.value)), true, true)
      else
        var c := IndexOf(es, k);
        var found := c < |es|;
        if (if found then Some(es[c].value) == v else v.None?) then Unaltered(n)
        else if v.None? && |es| == 2 then Update(Some(Leaf(h, es[1 - c])), true, true)
        else Update(Some(Collision(h, Edit(es, k, v))), true, v.None? || !found)
    case Bitmap(b, ns) =>
      var d := Frag(k.hash, |path|);
      if !Has(b, d) && v.None? then Unaltered(n)
      else
        MatchesChild(k.hash, path);
        var u := if Has(b, d) then UpdateNode(ns[Rank(b, d)], path + [d], k, v) else UpdateEmpty(k, v);
        if !u.altered then Unaltered(n)
        else
          RankAtMost(b, d);
          assert Has(b, d) ==> Bit(d) <= b by { if Has(b, d) { ClearBit(b, d); } }
          Update(Some(BitmapWith(b, ns, d, u.node)), true, u.resized)
    case HashArray(c, ss) =>
      var d := Frag(k.hash, |path|);
      if ss[d].None? && v.None? then Unaltered(n)
      else
        MatchesChild(k.hash, path);
        var u := if ss[d].Some? then UpdateNode(ss[d].value, path + [d], k, v) else UpdateEmpty(k, v);
        if !u.altered then Unaltered(n)
        else Update(Some(HashArrayWith(c, ss, d, u.node)), true, u.resized)
  }
}
