/** The update of a node keeps the trie's shape and changes the lookup of one
    key: every node kind, with growth, packing and collapse.
 */
module TrieProofs {
  import opened Bits
  import opened Options
  import opened Entries
  import opened Trie

  /** Inner node m has the children of n, except that digit d has child c. */
  ghost predicate Replaces<V>(n: Node<V>, m: Node<V>, d: Digit, c: Option<Node<V>>) {
    && !IsLeaf(n) && !IsLeaf(m)
    && forall e: Digit :: Child(m, e) == if e == d then c else Child(n, e)
  }

  lemma GetIsChildGet<V>(n: Node<V>, path: seq<Digit>, q: Key)
    requires WF(n, path) && !IsLeaf(n)
    ensures var d := Frag(q.hash, |path|);
            WFOpt(Child(n, d), path + [d]) && Get(n, path, q) == GetOpt(Child(n, d), path + [d], q)
  {}

  lemma GetReplaced<V>(n: Node<V>, m: Node<V>, path: seq<Digit>, d: Digit, c: Option<Node<V>>, q: Key)
    requires WF(n, path) && WF(m, path) && WFOpt(c, path + [d]) && Replaces(n, m, d, c)
    ensures Get(m, path, q) == if Frag(q.hash, |path|) == d then GetOpt(c, path + [d], q) else Get(n, path, q)
  {
    GetIsChildGet(n, path, q);
    GetIsChildGet(m, path, q);
  }

  /** A leaf below digit d is a leaf above it, and finds no key of another digit. */
  lemma LeafMovesUp<V>(n: Node<V>, path: seq<Digit>, d: Digit, q: Key)
    requires IsLeaf(n) && WF(n, path + [d])
    ensures WF(n, path)
    ensures Get(n, path, q) == if Frag(q.hash, |path|) == d then Get(n, path + [d], q) else None
  {
    MatchesParent(n.hash, path, d);
    if n.Collision? {
      var i := IndexOf(n.entries, q);
      assert i < |n.entries| ==> n.entries[i] in n.entries;
    }
  }

  lemma LeafMovesDown<V>(n: Node<V>, path: seq<Digit>)
    requires IsLeaf(n) && WF(n, path)
    ensures WF(n, path + [Frag(n.hash, |path|)])
  {
    MatchesChild(n.hash, path);
  }

  /** A leaf finds only keys with its own hash. */
  lemma LeafFinds<V>(n: Node<V>, path: seq<Digit>, q: Key)
    requires IsLeaf(n) && WF(n, path) && Get(n, path, q).Some?
    ensures q.hash == n.hash
  {
    if n.Collision? {
      assert n.entries[IndexOf(n.entries, q)] in n.entries;
    }
  }

  // ---- Bitmap nodes ----

  lemma BitmapReplace<V>(b: nat, ns: seq<Node<V>>, path: seq<Digit>, d: Digit, c: Node<V>)
    requires WF(Bitmap(b, ns), path) && WF(c, path + [d]) && Has(b, d)
    requires |ns| == 1 ==> !IsLeaf(c)
    ensures var m := Bitmap(b, ns[Rank(b, d) := c]);
            WF(m, path) && Replaces(Bitmap(b, ns), m, d, Some(c))
  {
    var m := Bitmap(b, ns[Rank(b, d) := c]);
    forall e: nat | Has(b, e) && e != d ensures m.nodes[Rank(b, e)] == ns[Rank(b, e)] {
      RankInjective(b, d, e);
    }
  }

  lemma BitmapInsert<V>(b: nat, b': nat, ns: seq<Node<V>>, path: seq<Digit>, d: Digit, c: Node<V>)
    requires WF(Bitmap(b, ns), path) && WF(c, path + [d]) && |ns| < MAX_BITMAP
    requires Inserted(b, b', d)
    ensures var m := Bitmap(b', With(ns, Rank(b, d), c));
            WF(m, path) && Replaces(Bitmap(b, ns), m, d, Some(c))
  {
    var m := Bitmap(b', With(ns, Rank(b, d), c));
    forall e: nat | Has(b', e)
      ensures Rank(b', e) < |m.nodes| && m.nodes[Rank(b', e)] == if e == d then c else ns[Rank(b, e)]
    {}
  }

  lemma BitmapDelete<V>(b: nat, b': nat, ns: seq<Node<V>>, path: seq<Digit>, d: Digit)
    requires WF(Bitmap(b, ns), path) && |ns| > 1
    requires Inserted(b', b, d)
    requires |ns| == 2 ==> !IsLeaf(ns[1 - Rank(b, d)])
    ensures var m := Bitmap(b', Without(ns, Rank(b, d)));
            WF(m, path) && Replaces(Bitmap(b, ns), m, d, None)
  {
    var m := Bitmap(b', Without(ns, Rank(b, d)));
    forall e: nat | Has(b', e)
      ensures Rank(b', e) < |m.nodes| && m.nodes[Rank(b', e)] == ns[Rank(b, e)]
    {}
  }

  /** A node with a child under digit e, and another only under digit d. */
  ghost predicate OnlyChildren<V>(n: Node<V>, path: seq<Digit>, d: Digit, e: Digit) {
    && WF(n, path) && !IsLeaf(n) && d != e && Child(n, e).Some?
    && forall f: Digit | f != d && f != e :: Child(n, f).None?
  }

  /** When one of two children goes, the other may take the node's place. */
  lemma Collapse<V>(n: Node<V>, path: seq<Digit>, d: Digit, e: Digit, q: Key)
    requires OnlyChildren(n, path, d, e) && IsLeaf(Child(n, e).value)
    ensures var m := Child(n, e).value;
            WF(m, path) && Get(m, path, q) == if Frag(q.hash, |path|) == d then None else Get(n, path, q)
  {
    GetIsChildGet(n, path, q);
    LeafMovesUp(Child(n, e).value, path, e, q);
  }

  lemma TwoChildren<V>(n: Node<V>, path: seq<Digit>, d: Digit) returns (e: Digit)
    requires WF(n, path) && n.Bitmap? && |n.nodes| == 2 && Has(n.bits, d)
    ensures OnlyChildren(n, path, d, e) && Child(n, e) == Some(n.nodes[1 - Rank(n.bits, d)])
  {
    e := DigitAt(n.bits, 1 - Rank(n.bits, d));
    forall f: Digit | f != d && f != e ensures Child(n, f).None? {
      if Has(n.bits, f) {
        TwoDigits(n.bits, d, e, f);
      }
    }
  }

  // ---- Slot arrays ----

  lemma {:induction false} OccupiedUpdate<V>(ss: seq<Option<Node<V>>>, i: nat, c: Option<Node<V>>)
    requires i < |ss|
    ensures Occupied(ss[i := c]) + (if ss[i].Some? then 1 else 0) == Occupied(ss) + (if c.Some? then 1 else 0)
  {
    if i > 0 {
      assert ss[i := c][1..] == ss[1..][i - 1 := c];
      OccupiedUpdate(ss[1..], i - 1, c);
    } else {
      assert ss[i := c][1..] == ss[1..];
    }
  }

  lemma HashArrayReplace<V>(count: nat, ss: seq<Option<Node<V>>>, path: seq<Digit>, d: Digit, c: Option<Node<V>>)
    requires WF(HashArray(count, ss), path) && WFOpt(c, path + [d])
    requires Occupied(ss[d := c]) >= MIN_ARRAY
    ensures var m := HashArray(Occupied(ss[d := c]), ss[d := c]);
            WF(m, path) && Replaces(HashArray(count, ss), m, d, c)
  {}

  lemma {:induction false} MarksAndPacked<V>(ss: seq<Option<Node<V>>>, e: nat)
    ensures Has(Marks(ss), e) <==> e < |ss| && ss[e].Some?
    ensures e < |ss| && ss[e].Some? ==>
            Rank(Marks(ss), e) < |Packed(ss)| && Packed(ss)[Rank(Marks(ss), e)] == ss[e].value
    ensures Count(Marks(ss)) == |Packed(ss)| == Occupied(ss)
  {
    if ss == [] {
      NoBits(e);
    } else {
      MarksAndPacked(ss[1..], if e > 0 then e - 1 else 0);
      BitsNext(Marks(ss), Marks(ss[1..]), if ss[0].Some? then 1 else 0, e);
    }
  }

  /** A bitmap with one more digit below the others. */
  lemma BitsNext(b: nat, m: nat, bit: nat, e: nat)
    requires bit < 2 && b == bit + 2 * m
    ensures Has(b, e) <==> if e == 0 then bit == 1 else Has(m, e - 1)
    ensures Rank(b, e) == if e == 0 then 0 else bit + Rank(m, e - 1)
    ensures Count(b) == bit + Count(m)
  {
    assert b / 2 == m && b % 2 == bit;
  }

  /** A slot array with few children packs into a bitmap node. */
  lemma PackReplaces<V>(count: nat, ss: seq<Option<Node<V>>>, path: seq<Digit>, d: Digit)
    requires WF(HashArray(count, ss), path) && ss[d].Some? && count == MIN_ARRAY
    ensures var rest := ss[d := None];
            var m := Bitmap(Marks(rest), Packed(rest));
            WF(m, path) && Replaces(HashArray(count, ss), m, d, None)
  {
    var rest := ss[d := None];
    OccupiedUpdate(ss, d, None);
    MarksAndPacked(rest, 0);
    forall e: nat
      ensures Has(Marks(rest), e) <==> e < 32 && rest[e].Some?
      ensures e < 32 && rest[e].Some? ==>
              Rank(Marks(rest), e) < |Packed(rest)| && Packed(rest)[Rank(Marks(rest), e)] == rest[e].value
    {
      MarksAndPacked(rest, e);
    }
  }

  /** A slot array spread out of a bitmap holds each marked digit's child. */
  lemma {:induction false} OccupiedExpand<V>(ss: seq<Option<Node<V>>>, b: nat)
    requires forall e: nat :: Has(b, e) ==> e < |ss|
    requires forall e: nat | e < |ss| :: Has(b, e) <==> ss[e].Some?
    ensures Occupied(ss) == Count(b)
  {
    if ss == [] {
      if b > 0 {
        var d := SomeBit(b);
      }
    } else {
      assert Has(b, 0) <==> ss[0].Some?;
      forall e: nat
        ensures Has(b / 2, e) ==> e < |ss[1..]|
        ensures e < |ss[1..]| ==> (Has(b / 2, e) <==> ss[1..][e].Some?)
      {
        assert Has(b / 2, e) <==> Has(b, e + 1);
      }
      OccupiedExpand(ss[1..], b / 2);
    }
  }

  lemma ExpandReplaces<V>(b: nat, b': nat, ns: seq<Node<V>>, path: seq<Digit>, d: Digit, c: Node<V>)
    requires WF(Bitmap(b, ns), path) && WF(c, path + [d]) && |ns| == MAX_BITMAP
    requires Inserted(b, b', d)
    ensures var m := HashArray(|ns| + 1, Expand(b, ns, d, c));
            WF(m, path) && Replaces(Bitmap(b, ns), m, d, Some(c))
  {
    var ss := Expand(b, ns, d, c);
    assert forall e: nat | Has(b', e) :: e < |ss|;
    OccupiedExpand(ss, b');
  }

  // ---- One update ----

  /** Splitting a leaf yields a well-formed node that holds the leaf's keys and
      the new one. */
  lemma {:induction false} MergeCorrect<V>(n: Node<V>, path: seq<Digit>, k: Key, x: V, q: Key)
    requires IsLeaf(n) && WF(n, path) && Matches(k.hash, path)
    requires n.Leaf? || n.hash != k.hash
    requires Get(n, path, k).None?
    ensures var m := Merge(n, path, k, x);
            && WF(m, path) && (n.hash != k.hash ==> !IsLeaf(m))
            && Get(m, path, q) == if q == k then Some(x) else Get(n, path, q)
    decreases 7 - |path|
  {
    var m := Merge(n, path, k, x);
    if n.hash == k.hash {
      assert m.entries[0] == n.entry && m.entries[1] == Entry(k, x);
    } else {
      if |path| >= 7 { DigitsDetermine(n.hash, k.hash, path); }
      MergeSplits(n, path, k, x, q);
    }
  }

  lemma {:induction false} MergeSplits<V>(n: Node<V>, path: seq<Digit>, k: Key, x: V, q: Key)
    requires IsLeaf(n) && WF(n, path) && Matches(k.hash, path) && n.hash != k.hash && |path| < 7
    ensures var m := Merge(n, path, k, x);
            && WF(m, path) && !IsLeaf(m)
            && Get(m, path, q) == if q == k then Some(x) else Get(n, path, q)
    decreases 7 - |path|, 0
  {
    var d, e := Frag(n.hash, |path|), Frag(k.hash, |path|);
    LeafMovesDown(n, path);
    MatchesChild(k.hash, path);
    LeafMovesUp(n, path, d, q);
    if d == e {
      if |path| == 6 { DigitsDetermine(n.hash, k.hash, path + [d]); }
      MergeSplits(n, path + [d], k, x, q);
      OneChild(Merge(n, path + [d], k, x), path, d, q);
    } else {
      var m, leaf := Merge(n, path, k, x), Leaf(k.hash, Entry(k, x));
      LeafGets(k, x, path, e, q);
      if d < e {
        PairNode(m, n, leaf, path, d, e, q);
      } else {
        PairNode(m, leaf, n, path, e, d, q);
      }
    }
  }

  /** A node with one child that is no leaf. */
  lemma OneChild<V>(c: Node<V>, path: seq<Digit>, d: Digit, q: Key)
    requires WF(c, path + [d]) && !IsLeaf(c)
    ensures var m := Bitmap(Bit(d), [c]);
            WF(m, path) && Get(m, path, q) == if Frag(q.hash, |path|) == d then Get(c, path + [d], q) else None
  {
    OneBit(d);
  }

  /** A node with two leaves. */
  lemma PairNode<V>(m: Node<V>, lo: Node<V>, hi: Node<V>, path: seq<Digit>, d: Digit, e: Digit, q: Key)
    requires d < e && m == Bitmap(Bit(d) + Bit(e), [lo, hi])
    requires WF(lo, path + [d]) && WF(hi, path + [e]) && |path| < 7
    ensures var f := Frag(q.hash, |path|);
            && WF(m, path)
            && Get(m, path, q) ==
               if f == d then Get(lo, path + [d], q) else if f == e then Get(hi, path + [e], q) else None
  {
    TwoBits(m.bits, d, e);
  }

  lemma LeafGets<V>(k: Key, x: V, path: seq<Digit>, e: Digit, q: Key)
    requires Matches(k.hash, path + [e])
    ensures var leaf := Leaf(k.hash, Entry(k, x));
            WF(leaf, path + [e]) && Get(leaf, path + [e], q) == if q == k then Some(x) else None
    ensures Frag(k.hash, |path|) == e
  {
    MatchesParent(k.hash, path, e);
  }

  lemma {:induction false} OneBit(d: nat)
    ensures forall f: nat :: Has(Bit(d), f) <==> f == d
    ensures Rank(Bit(d), d) == 0 && Count(Bit(d)) == 1
  {
    NoBitsRank(d);
    SetInserts(0, d);
  }

  lemma {:induction false} NoBitsRank(d: nat)
    ensures !Has(0, d) && Rank(0, d) == 0 && forall f: nat :: !Has(0, f)
  {
    if d > 0 {
      NoBitsRank(d - 1);
    }
    forall f: nat ensures !Has(0, f) { NoBits(f); }
  }

  lemma TwoBits(b: nat, d: nat, e: nat)
    requires d < e && b == Bit(d) + Bit(e)
    ensures forall f: nat :: Has(b, f) <==> f == d || f == e
    ensures Rank(b, d) == 0 && Rank(b, e) == 1 && Count(b) == 2
  {
    OneBit(d);
    SetInserts(Bit(d), e);
    RankAfterSet(Bit(d), e, d);
    NoBitsRank(d);
    RankAfterSet(0, d, e);
    NoBitsRank(e);
  }

  /** Node m is well-formed, sends digit d's lookups to c, and answers for the
      other digits as n does. */
  ghost predicate Routes<V>(n: Node<V>, m: Node<V>, path: seq<Digit>, d: Digit, c: Option<Node<V>>, q: Key) {
    && WF(n, path) && WFOpt(c, path + [d]) && WF(m, path)
    && Get(m, path, q) == if Frag(q.hash, |path|) == d then GetOpt(c, path + [d], q) else Get(n, path, q)
  }

  lemma BitmapGains<V>(b: nat, ns: seq<Node<V>>, path: seq<Digit>, d: Digit, c: Node<V>, q: Key)
    requires WF(Bitmap(b, ns), path) && WF(c, path + [d]) && !Has(b, d) && Rank(b, d) <= |ns|
    ensures Routes(Bitmap(b, ns), BitmapWith(b, ns, d, Some(c)), path, d, Some(c), q)
  {
    var m := BitmapWith(b, ns, d, Some(c));
    if |ns| >= MAX_BITMAP {
      FullBitmapGains(b, ns, path, d, c, m);
    } else {
      SlotGained(b, ns, path, d, c, m);
    }
    GetReplaced(Bitmap(b, ns), m, path, d, Some(c), q);
  }

  lemma SlotGained<V>(b: nat, ns: seq<Node<V>>, path: seq<Digit>, d: Digit, c: Node<V>, m: Node<V>)
    requires WF(Bitmap(b, ns), path) && WF(c, path + [d]) && !Has(b, d) && |ns| < MAX_BITMAP
    requires Rank(b, d) <= |ns| && m == Bitmap(b + Bit(d), With(ns, Rank(b, d), c))
    ensures WF(m, path) && Replaces(Bitmap(b, ns), m, d, Some(c))
  {
    SetInserts(b, d);
    BitmapInsert(b, b + Bit(d), ns, path, d, c);
  }

  lemma FullBitmapGains<V>(b: nat, ns: seq<Node<V>>, path: seq<Digit>, d: Digit, c: Node<V>, m: Node<V>)
    requires WF(Bitmap(b, ns), path) && WF(c, path + [d]) && !Has(b, d) && |ns| >= MAX_BITMAP
    requires m == HashArray(|ns| + 1, Expand(b, ns, d, c))
    ensures WF(m, path) && Replaces(Bitmap(b, ns), m, d, Some(c))
  {
    SetInserts(b, d);
    ExpandReplaces(b, b + Bit(d), ns, path, d, c);
  }

  lemma BitmapLoses<V>(b: nat, ns: seq<Node<V>>, path: seq<Digit>, d: Digit, q: Key)
    requires WF(Bitmap(b, ns), path) && Has(b, d) && |ns| > 1 && Bit(d) <= b
    ensures Routes(Bitmap(b, ns), BitmapWith(b, ns, d, None), path, d, None, q)
  {
    var n := Bitmap(b, ns);
    if |ns| == 2 && IsLeaf(ns[1 - Rank(b, d)]) {
      var e := TwoChildren(n, path, d);
      Collapse(n, path, d, e, q);
    } else {
      ClearInserts(b, d);
      BitmapDelete(b, b - Bit(d), ns, path, d);
      GetReplaced(n, BitmapWith(b, ns, d, None), path, d, None, q);
    }
  }

  lemma BitmapChanges<V>(b: nat, ns: seq<Node<V>>, path: seq<Digit>, d: Digit, c: Node<V>, q: Key)
    requires WF(Bitmap(b, ns), path) && WF(c, path + [d]) && Has(b, d)
    ensures Routes(Bitmap(b, ns), BitmapWith(b, ns, d, Some(c)), path, d, Some(c), q)
  {
    var n := Bitmap(b, ns);
    if |ns| == 1 && IsLeaf(c) {
      OnlyChild(n, path, d);
      GetIsChildGet(n, path, q);
      LeafMovesUp(c, path, d, q);
    } else {
      BitmapReplace(b, ns, path, d, c);
      GetReplaced(n, BitmapWith(b, ns, d, Some(c)), path, d, Some(c), q);
    }
  }

  /** Whatever form the new node takes, digit d's lookups go to c and the others
      are as before. */
  lemma BitmapRoutes<V>(b: nat, ns: seq<Node<V>>, path: seq<Digit>, d: Digit, c: Option<Node<V>>, q: Key)
    requires WF(Bitmap(b, ns), path) && WFOpt(c, path + [d])
    requires Has(b, d) || c.Some?
    requires Has(b, d) && c.None? ==> |ns| > 1 && Bit(d) <= b
    requires Rank(b, d) <= |ns|
    ensures Routes(Bitmap(b, ns), BitmapWith(b, ns, d, c), path, d, c, q)
  {
    if !Has(b, d) {
      BitmapGains(b, ns, path, d, c.value, q);
    } else if c.None? {
      BitmapLoses(b, ns, path, d, q);
    } else {
      BitmapChanges(b, ns, path, d, c.value, q);
    }
  }

  lemma OnlyChild<V>(n: Node<V>, path: seq<Digit>, d: Digit)
    requires WF(n, path) && n.Bitmap? && |n.nodes| == 1 && Has(n.bits, d)
    ensures forall f: Digit | f != d :: Child(n, f).None?
  {
    forall f: Digit | f != d ensures Child(n, f).None? {
      if Has(n.bits, f) {
        RankInRange(n.bits, f);
        RankInRange(n.bits, d);
        RankInjective(n.bits, f, d);
      }
    }
  }

  lemma HashArrayRoutes<V>(count: nat, ss: seq<Option<Node<V>>>, path: seq<Digit>, d: Digit, c: Option<Node<V>>, q: Key)
    requires WF(HashArray(count, ss), path) && WFOpt(c, path + [d])
    requires ss[d].Some? || c.Some?
    ensures Routes(HashArray(count, ss), HashArrayWith(count, ss, d, c), path, d, c, q)
  {
    var n, m := HashArray(count, ss), HashArrayWith(count, ss, d, c);
    OccupiedUpdate(ss, d, c);
    if c.None? && count - 1 < MIN_ARRAY {
      PackReplaces(count, ss, path, d);
    } else {
      HashArrayReplace(count, ss, path, d, c);
    }
    GetReplaced(n, m, path, d, c, q);
  }

  /** One update keeps the shape, answers for k with v, leaves every other key
      alone, and reports exactly whether anything and whether the size changed. */
  lemma {:induction false} UpdateCorrect<V>(n: Node<V>, path: seq<Digit>, k: Key, v: Option<V>, q: Key)
    requires WF(n, path) && Matches(k.hash, path)
    ensures var u := UpdateNode(n, path, k, v);
            && WFOpt(u.node, path)
            && GetOpt(u.node, path, q) == (if q == k then v else Get(n, path, q))
            && (u.altered <==> Get(n, path, k) != v)
            && (u.resized <==> Get(n, path, k).Some? != v.Some?)
    decreases n, 1
  {
    match n
    case Leaf(h, e) =>
      if k != e.key && v.Some? { MergeCorrect(n, path, k, v.value, q); }
    case Collision(_, _) => CollisionCorrect(n, path, k, v, q);
    case Bitmap(b, ns) => BitmapCorrect(n, b, ns, path, k, v, q);
    case HashArray(c, ss) => HashArrayCorrect(n, c, ss, path, k, v, q);
  }

  lemma {:induction false} BitmapCorrect<V>(
    n: Node<V>, b: nat, ns: seq<Node<V>>, path: seq<Digit>, k: Key, v: Option<V>, q: Key)
    requires n == Bitmap(b, ns) && WF(n, path) && Matches(k.hash, path)
    ensures var u := UpdateNode(n, path, k, v);
            && WFOpt(u.node, path)
            && GetOpt(u.node, path, q) == (if q == k then v else Get(n, path, q))
            && (u.altered <==> Get(n, path, k) != v)
            && (u.resized <==> Get(n, path, k).Some? != v.Some?)
    decreases n, 0
  {
    var d := Frag(k.hash, |path|);
    MatchesChild(k.hash, path);
    if Has(b, d) { UpdateCorrect(ns[Rank(b, d)], path + [d], k, v, q); }
    if Has(b, d) || v.Some? {
      var u := if Has(b, d) then UpdateNode(ns[Rank(b, d)], path + [d], k, v) else UpdateEmpty(k, v);
      if u.altered {
        RankAtMost(b, d);
        if Has(b, d) { ClearBit(b, d); }
        BitmapRoutes(b, ns, path, d, u.node, q);
      }
    }
  }

  lemma {:induction false} HashArrayCorrect<V>(
    n: Node<V>, c: nat, ss: seq<Option<Node<V>>>, path: seq<Digit>, k: Key, v: Option<V>, q: Key)
    requires n == HashArray(c, ss) && WF(n, path) && Matches(k.hash, path)
    ensures var u := UpdateNode(n, path, k, v);
            && WFOpt(u.node, path)
            && GetOpt(u.node, path, q) == (if q == k then v else Get(n, path, q))
            && (u.altered <==> Get(n, path, k) != v)
            && (u.resized <==> Get(n, path, k).Some? != v.Some?)
    decreases n, 0
  {
    var d := Frag(k.hash, |path|);
    MatchesChild(k.hash, path);
    if ss[d].Some? { UpdateCorrect(ss[d].value, path + [d], k, v, q); }
    if ss[d].Some? || v.Some? {
      var u := if ss[d].Some? then UpdateNode(ss[d].value, path + [d], k, v) else UpdateEmpty(k, v);
      if u.altered {
        HashArrayRoutes(c, ss, path, d, u.node, q);
      }
    }
  }

  lemma CollisionCorrect<V>(n: Node<V>, path: seq<Digit>, k: Key, v: Option<V>, q: Key)
    requires WF(n, path) && Matches(k.hash, path) && n.Collision?
    ensures var u := UpdateNode(n, path, k, v);
            && WFOpt(u.node, path)
            && GetOpt(u.node, path, q) == (if q == k then v else Get(n, path, q))
            && (u.altered <==> Get(n, path, k) != v)
            && (u.resized <==> Get(n, path, k).Some? != v.Some?)
  {
    var es := n.entries;
    var c := IndexOf(es, k);
    if c < |es| { assert es[c] in es; }
    if k.hash != n.hash {
      if v.Some? { MergeCorrect(n, path, k, v.value, q); }
    } else {
      EditCorrect(es, k, v, q);
      EditKeys(es, k, v);
      if v.None? && |es| == 2 && c < 2 {
        assert es[1 - c] in es;
        var i := IndexOf(es, q);
        assert i < 2 && q != k ==> i == 1 - c;
        if q == es[1 - c].key { LookupIs(es, 1 - c); }
      }
    }
  }
}
