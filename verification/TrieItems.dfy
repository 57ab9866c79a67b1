/** Iteration: walking the trie visits exactly the pairs that lookups find, each
    once, so the number of visits is the recorded size.
 */
module TrieItems {
  import opened Bits
  import opened Options
  import opened Entries
  import opened Trie
  import opened TrieProofs
  import opened ImmutableMap

  /** The pairs below a node in the order in which iterate visits them. */
  function Items<V>(n: Node<V>): seq<Entry<V>>
    decreases n, 0
  {
    match n
    case Leaf(_, e) => [e]
    case Collision(_, es) => es
    case Bitmap(_, ns) => NodeItems(ns)
    case HashArray(_, ss) => SlotItems(ss)
  }

  function NodeItems<V>(ns: seq<Node<V>>): seq<Entry<V>>
    decreases ns
  {
    if ns == [] then [] else Items(ns[0]) + NodeItems(ns[1..])
  }

  /** Empty slots are skipped. */
  function SlotItems<V>(ss: seq<Option<Node<V>>>): seq<Entry<V>>
    decreases ss
  {
    if ss == [] then [] else OptionItems(ss[0]) + SlotItems(ss[1..])
  }

  function OptionItems<V>(o: Option<Node<V>>): seq<Entry<V>>
    decreases o
  {
    if o.Some? then Items(o.value) else []
  }

  lemma LookupConcat<V>(a: seq<Entry<V>>, b: seq<Entry<V>>, q: Key)
    ensures Lookup(a + b, q) == if Lookup(a, q).Some? then Lookup(a, q) else Lookup(b, q)
  {
    var i, j, l := IndexOf(a + b, q), IndexOf(a, q), IndexOf(b, q);
    if j < |a| {
      assert (a + b)[j] == a[j];
    } else {
      assert l < |b| ==> (a + b)[|a| + l] == b[l];
      assert |a| <= i < |a + b| ==> (a + b)[i] == b[i - |a|];
    }
  }

  lemma DistinctConcat<V>(a: seq<Entry<V>>, b: seq<Entry<V>>)
    requires Distinct(a) && Distinct(b)
    requires forall q: Key :: Lookup(a, q).None? || Lookup(b, q).None?
    ensures Distinct(a + b)
  {
    forall i, j | 0 <= i < |a| && 0 <= j < |b| ensures a[i].key != b[j].key {
      LookupIs(a, i);
      LookupIs(b, j);
    }
  }

  /** A key that a node finds starts with the node's path. */
  lemma {:induction false} FoundMatches<V>(n: Node<V>, path: seq<Digit>, q: Key)
    requires WF(n, path) && Get(n, path, q).Some?
    ensures Matches(q.hash, path)
    decreases n
  {
    if IsLeaf(n) {
      LeafFinds(n, path, q);
    } else {
      var d := Frag(q.hash, |path|);
      GetIsChildGet(n, path, q);
      FoundMatches(Child(n, d).value, path + [d], q);
      MatchesParent(q.hash, path, d);
    }
  }

  /** What the slots from digit i on find. */
  ghost function FindFrom<V>(ss: seq<Option<Node<V>>>, path: seq<Digit>, i: nat, q: Key): Option<V>
    requires |ss| == 32
    requires forall d: nat | d < 32 && ss[d].Some? :: WF(ss[d].value, path + [d])
  {
    var d := Frag(q.hash, |path|);
    if d >= i then GetOpt(ss[d], path + [d], q) else None
  }

  lemma {:induction false} SlotItemsList<V(!new)>(n: Node<V>, path: seq<Digit>, i: nat)
    requires WF(n, path) && n.HashArray? && i <= 32
    ensures Distinct(SlotItems(n.slots[i..]))
    ensures forall q: Key :: Lookup(SlotItems(n.slots[i..]), q) == FindFrom(n.slots, path, i, q)
    decreases n, 0, 32 - i
  {
    var ss := n.slots;
    if i < 32 {
      SlotItemsList(n, path, i + 1);
      assert ss[i..][1..] == ss[i + 1..];
      var a, b := OptionItems(ss[i]), SlotItems(ss[i + 1..]);
      if ss[i].Some? {
        ItemsList(ss[i].value, path + [i]);
      }
      forall q: Key
        ensures Lookup(a, q).Some? ==> Frag(q.hash, |path|) == i
        ensures Lookup(a + b, q) == FindFrom(ss, path, i, q)
      {
        LookupConcat(a, b, q);
        if Lookup(a, q).Some? {
          assert Lookup(a, q) == Get(ss[i].value, path + [i], q);
          FoundMatches(ss[i].value, path + [i], q);
          MatchesParent(q.hash, path, i);
        }
      }
      DistinctConcat(a, b);
    }
  }

  /** Walking a node visits what lookups in it find. */
  lemma {:induction false} ItemsList<V(!new)>(n: Node<V>, path: seq<Digit>)
    requires WF(n, path)
    ensures Distinct(Items(n))
    ensures forall q: Key :: Lookup(Items(n), q) == Get(n, path, q)
    decreases n, 1, 0
  {
    match n
    case Leaf(_, _) =>
    case Collision(_, _) =>
    case HashArray(_, ss) =>
      SlotItemsList(n, path, 0);
      assert ss[0..] == ss;
    case Bitmap(b, ns) =>
      NodeItemsList(b, ns, path, 0, 0);
      assert ns[0..] == ns;
  }

  ghost function FindAbove<V>(b: nat, ns: seq<Node<V>>, path: seq<Digit>, d: nat, q: Key): Option<V>
    requires forall e: nat | Has(b, e) :: e < 32 && Rank(b, e) < |ns| && WF(ns[Rank(b, e)], path + [e])
  {
    var f := Frag(q.hash, |path|);
    if f >= d && Has(b, f) then Get(ns[Rank(b, f)], path + [f], q) else None
  }

  /** A child's items, and then those of the children above it. */
  lemma OneNodeFurther<V(!new)>(b: nat, ns: seq<Node<V>>, path: seq<Digit>, d: Digit, c: Node<V>, r: seq<Entry<V>>)
    requires forall e: nat | Has(b, e) :: e < 32 && Rank(b, e) < |ns| && WF(ns[Rank(b, e)], path + [e])
    requires Has(b, d) && c == ns[Rank(b, d)] && Distinct(Items(c)) && Distinct(r)
    requires forall q: Key :: Lookup(Items(c), q) == Get(c, path + [d], q)
    requires forall q: Key :: Lookup(r, q) == FindAbove(b, ns, path, d + 1, q)
    ensures Distinct(Items(c) + r) && forall q: Key :: Lookup(Items(c) + r, q) == FindAbove(b, ns, path, d, q)
  {
    var a := Items(c);
    forall q: Key
      ensures Lookup(a, q).Some? ==> Frag(q.hash, |path|) == d
      ensures Lookup(a + r, q) == FindAbove(b, ns, path, d, q)
    {
      LookupConcat(a, r, q);
      assert Lookup(a, q) == Get(c, path + [d], q);
      if Lookup(a, q).Some? {
        FoundMatches(c, path + [d], q);
        MatchesParent(q.hash, path, d);
      }
    }
    DistinctConcat(a, r);
  }

  /** The compressed array is walked digit by digit. */
  lemma {:induction false} NodeItemsList<V(!new)>(b: nat, ns: seq<Node<V>>, path: seq<Digit>, d: nat, i: nat)
    requires |ns| == Count(b) && d <= 32 && i == Rank(b, d) <= |ns|
    requires forall e: nat | Has(b, e) :: e < 32 && Rank(b, e) < |ns| && WF(ns[Rank(b, e)], path + [e])
    ensures Distinct(NodeItems(ns[i..]))
    ensures forall q: Key :: Lookup(NodeItems(ns[i..]), q) == FindAbove(b, ns, path, d, q)
    decreases ns, 0, 32 - d
  {
    if d == 32 {
      if i < |ns| {
        var e := DigitAt(b, i);
        RankOrder(b, e, d);
        RankMonotone(b, e, d);
      }
      assert NodeItems(ns[i..]) == [];
    } else {
      ShrStep(b, d);
      if Has(b, d) {
        NodeItemsList(b, ns, path, d + 1, i + 1);
        assert ns[i..][1..] == ns[i + 1..];
        ItemsList(ns[i], path + [d]);
        OneNodeFurther(b, ns, path, d, ns[i], NodeItems(ns[i + 1..]));
      } else {
        NodeItemsList(b, ns, path, d + 1, i);
      }
    }
  }

  // ---- The whole map ----

  function MapItems<V>(m: Map<V>): seq<Entry<V>> {
    match m.root
    case Empty => []
    case ArrayMap(es) => es
    case Top(n) => Items(n)
  }

  ghost function KeySet<V>(es: seq<Entry<V>>): set<Key> { set i | 0 <= i < |es| :: es[i].key }

  lemma {:induction false} KeySetSize<V>(es: seq<Entry<V>>)
    requires Distinct(es)
    ensures |KeySet(es)| == |es|
  {
    if es != [] {
      var t := es[..|es| - 1];
      KeySetSize(t);
      assert KeySet(es) == KeySet(t) + {es[|es| - 1].key};
    }
  }

  /** Iterating over a map that represents a finite map visits each of its pairs
      once and nothing else; the size is the number of visits. */
  lemma MapItemsAre<V(!new)>(m: Map<V>, spec: map<Key, V>)
    requires Represents(m, spec)
    ensures Distinct(MapItems(m))
    ensures forall k: Key, x: V :: Entry(k, x) in MapItems(m) <==> k in spec && spec[k] == x
    ensures |MapItems(m)| == m.size
  {
    var es := MapItems(m);
    if m.root.Top? {
      ItemsList(m.root.node, []);
    }
    assert forall q: Key :: Lookup(es, q) == Find(m.root, q) == At(spec, q);
    forall k: Key, x: V ensures Entry(k, x) in es <==> k in spec && spec[k] == x {
      assert Lookup(es, k) == At(spec, k);
      if Entry(k, x) in es {
        var i :| 0 <= i < |es| && es[i] == Entry(k, x);
        LookupIs(es, i);
      }
    }
    forall k: Key ensures k in KeySet(es) <==> k in spec.Keys {
      assert Lookup(es, k) == At(spec, k);
    }
    assert KeySet(es) == spec.Keys;
    KeySetSize(es);
  }
}
