/** The immutable Map: a size and a root that is empty, a short entry list, or
    a trie. Every run of sets and removes agrees with a plain finite map.
 */
module ImmutableMap {
  import opened Options
  import opened Entries
  import opened Trie
  import opened TrieProofs

  datatype Root<V> = Empty | ArrayMap(entries: seq<Entry<V>>) | Top(node: Node<V>)

  datatype Map<V> = Map(size: int, root: Root<V>)

  ghost predicate Valid<V>(r: Root<V>) {
    match r
    case Empty => true
    case ArrayMap(es) => 1 <= |es| <= MAX_ENTRIES && Distinct(es)
    case Top(n) => WF(n, [])
  }

  function Find<V>(r: Root<V>, k: Key): Option<V>
    requires Valid(r)
  {
    match r
    case Empty => None
    case ArrayMap(es) => Lookup(es, k)
    case Top(n) => Get(n, [], k)
  }

  /** Adds pairs to a trie one after another. */
  function AddAll<V(==)>(n: Node<V>, es: seq<Entry<V>>): Node<V>
    requires WF(n, [])
    decreases |es|
  {
    if es == [] then n
    else
      UpdateCorrect(n, [], es[0].key, Some(es[0].value), es[0].key);
      AddAll(UpdateNode(n, [], es[0].key, Some(es[0].value)).node.value, es[1..])
  }

  /** The changed root, with the flags for a change and for a change of size. */
  datatype RootUpdate<V> = RootUpdate(root: Root<V>, altered: bool, resized: bool)

  function UpdateRoot<V(==)>(r: Root<V>, k: Key, v: Option<V>): RootUpdate<V>
    requires Valid(r)
  {
    match r
    case Empty =>
      if v.None? then RootUpdate(r, false, false)
      else RootUpdate(ArrayMap([Entry(k, v.value)]), true, true)
    case ArrayMap(es) =>
      var c := IndexOf(es, k);
      var found := c < |es|;
      if (if found then Some(es[c].value) == v else v.None?) then RootUpdate(r, false, false)
      else if v.None? && |es| == 1 then RootUpdate(Empty, true, true)
      else if v.Some? && !found && |es| >= MAX_ENTRIES then
        RootUpdate(Top(AddAll(Leaf(k.hash, Entry(k, v.value)), es)), true, true)
      else RootUpdate(ArrayMap(Edit(es, k, v)), true, v.None? || !found)
    case Top(n) =>
      var u := UpdateNode(n, [], k, v);
      RootUpdate(if u.node.Some? then Top(u.node.value) else Empty, u.altered, u.resized)
  }

  function Store<V(==)>(m: Map<V>, k: Key, v: Option<V>): Map<V>
    requires Valid(m.root)
  {
    var u := UpdateRoot(m.root, k, v);
    if !u.altered then m
    else if !u.resized then Map(m.size, u.root)
    else Map(if v.Some? then m.size + 1 else m.size - 1, u.root)
  }

  // ---- Refinement of a finite map ----

  ghost function At<V>(spec: map<Key, V>, k: Key): Option<V> {
    if k in spec then Some(spec[k]) else None
  }

  /** Map m and the finite map agree on every lookup and on the size. */
  ghost predicate Represents<V(!new)>(m: Map<V>, spec: map<Key, V>) {
    && Valid(m.root) && m.size == |spec|
    && forall q: Key :: Find(m.root, q) == At(spec, q)
  }

  lemma {:induction false} AddAllCorrect<V>(n: Node<V>, es: seq<Entry<V>>, q: Key)
    requires WF(n, []) && Distinct(es)
    ensures WF(AddAll(n, es), [])
    ensures Get(AddAll(n, es), [], q) == if Lookup(es, q).Some? then Lookup(es, q) else Get(n, [], q)
    decreases |es|
  {
    if es != [] {
      var e := es[0];
      UpdateCorrect(n, [], e.key, Some(e.value), q);
      var t := es[1..];
      AddAllCorrect(UpdateNode(n, [], e.key, Some(e.value)).node.value, t, q);
      assert Distinct(t);
      if Lookup(t, q).Some? {
        assert t[IndexOf(t, q)] == es[1 + IndexOf(t, q)];
      }
    }
  }

  lemma UpdateRootCorrect<V>(r: Root<V>, k: Key, v: Option<V>, q: Key)
    requires Valid(r)
    ensures var u := UpdateRoot(r, k, v);
            && Valid(u.root)
            && Find(u.root, q) == (if q == k then v else Find(r, q))
            && (!u.altered ==> u.root == r && !u.resized)
            && (u.resized <==> Find(r, k).Some? != v.Some?)
  {
    match r
    case Empty =>
    case ArrayMap(es) =>
      EditCorrect(es, k, v, q);
      EditKeys(es, k, v);
      if v.Some? && IndexOf(es, k) == |es| >= MAX_ENTRIES {
        AddAllCorrect(Leaf(k.hash, Entry(k, v.value)), es, q);
      }
    case Top(n) =>
      UpdateCorrect(n, [], k, v, q);
  }

  /** One set or remove changes the lookup of its key alone, and the recorded
      size by the key that came or went. */
  lemma StoreCorrect<V(!new)>(m: Map<V>, k: Key, v: Option<V>)
    requires Valid(m.root)
    ensures var m' := Store(m, k, v);
            && Valid(m'.root)
            && (forall q: Key :: Find(m'.root, q) == if q == k then v else Find(m.root, q))
            && m'.size == m.size + (if v.Some? && Find(m.root, k).None? then 1 else 0)
                                 - (if v.None? && Find(m.root, k).Some? then 1 else 0)
  {
    var m' := Store(m, k, v);
    UpdateRootCorrect(m.root, k, v, k);
    forall q: Key ensures Find(m'.root, q) == if q == k then v else Find(m.root, q) {
      UpdateRootCorrect(m.root, k, v, q);
    }
  }

  function Stored<V>(spec: map<Key, V>, k: Key, v: Option<V>): map<Key, V> {
    match v
    case Some(x) => spec[k := x]
    case None => spec - {k}
  }

  /** One set or remove does to the trie what it does to the finite map. */
  lemma StoreRefines<V(!new)>(m: Map<V>, spec: map<Key, V>, k: Key, v: Option<V>)
    requires Represents(m, spec)
    ensures Represents(Store(m, k, v), Stored(spec, k, v))
  {
    StoreCorrect(m, k, v);
    assert Find(m.root, k) == At(spec, k);
    SizeAfter(spec, k, v);
    forall q: Key ensures Find(Store(m, k, v).root, q) == At(Stored(spec, k, v), q) {
      assert Find(m.root, q) == At(spec, q);
    }
  }

  lemma SizeAfter<V>(spec: map<Key, V>, k: Key, v: Option<V>)
    ensures |Stored(spec, k, v)| ==
            |spec| + (if k !in spec && v.Some? then 1 else 0) - (if k in spec && v.None? then 1 else 0)
  {
    match v
    case Some(x) =>
      assert spec[k := x].Keys == spec.Keys + {k};
    case None =>
      assert (spec - {k}).Keys == spec.Keys - {k};
  }

  /** A request on the map: store a value, or remove the key. */
  datatype Request<V> = Request(key: Key, value: Option<V>)

  function SpecRun<V>(rs: seq<Request<V>>): map<Key, V> {
    if rs == [] then map[] else Stored(SpecRun(rs[..|rs| - 1]), rs[|rs| - 1].key, rs[|rs| - 1].value)
  }

  /** The map after a run of requests on the empty map. */
  ghost function Run<V(!new)>(rs: seq<Request<V>>): (m: Map<V>)
    ensures Represents(m, SpecRun(rs))
  {
    if rs == [] then Map(0, Empty)
    else
      var r := rs[|rs| - 1];
      var m := Run(rs[..|rs| - 1]);
      StoreRefines(m, SpecRun(rs[..|rs| - 1]), r.key, r.value);
      Store(m, r.key, r.value)
  }
}
