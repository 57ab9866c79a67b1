/** The insertion-ordered map: an immutable Map from keys to positions in a list
    of pairs. Removed pairs leave holes, and a list that is at least half holes
    is compacted.
 */
module OrderedMap {
  import opened Options
  import opened Entries
  import ImmutableMap

  datatype Ordered<V> = Ordered(index: ImmutableMap.Map<nat>, list: seq<Option<Entry<V>>>)

  const COMPACT_FROM := 32

  /** The pairs of a list in order, holes left out: what iteration visits. */
  function Live<V>(list: seq<Option<Entry<V>>>): seq<Entry<V>> {
    if list == [] then []
    else Live(list[..|list| - 1]) + (if list[|list| - 1].Some? then [list[|list| - 1].value] else [])
  }

  function Filled<V>(es: seq<Entry<V>>): seq<Option<Entry<V>>> {
    seq(|es|, i requires 0 <= i < |es| => Some(es[i]))
  }

  /** The index of a list without holes, built by setting its keys in order. */
  function BuildIndex<V>(es: seq<Entry<V>>): (m: ImmutableMap.Map<nat>)
    ensures ImmutableMap.Valid(m.root)
  {
    if es == [] then ImmutableMap.Map(0, ImmutableMap.Empty)
    else
      var m := BuildIndex(es[..|es| - 1]);
      ImmutableMap.StoreCorrect(m, es[|es| - 1].key, Some(|es| - 1));
      ImmutableMap.Store(m, es[|es| - 1].key, Some(|es| - 1))
  }

  /** The index finds exactly the keys of the list, at their positions. */
  ghost predicate Indexed<V>(index: ImmutableMap.Map<nat>, list: seq<Option<Entry<V>>>) {
    && ImmutableMap.Valid(index.root)
    && (forall q: Key :: var p := ImmutableMap.Find(index.root, q);
          p.Some? ==> p.value < |list| && list[p.value].Some? && list[p.value].value.key == q)
    && (forall i | 0 <= i < |list| && list[i].Some? ::
          ImmutableMap.Find(index.root, list[i].value.key) == Some(i))
    && index.size == |Live(list)|
  }

  ghost predicate Valid<V>(t: Ordered<V>) {
    && Indexed(t.index, t.list)
    && |t.list| <= Bound(t.index.size)
  }

  /** The longest list for m live keys. */
  function Bound(m: int): int { if m + 31 >= 2 * m + 1 then m + 31 else 2 * m + 1 }

  function Get<V>(t: Ordered<V>, k: Key): Option<V>
    requires Valid(t)
  {
    var p := ImmutableMap.Find(t.index.root, k);
    if p.None? then None else Some(t.list[p.value].value.value)
  }

  /** Stores v under k, or removes k when v is None. */
  function Update<V(==)>(t: Ordered<V>, k: Key, v: Option<V>): Ordered<V>
    requires Valid(t)
  {
    var p := ImmutableMap.Find(t.index.root, k);
    if v.None? then
      if p.None? then t
      else if |t.list| >= COMPACT_FROM && |t.list| >= 2 * t.index.size then
        var es := Live(t.list[p.value := None]);
        Ordered(BuildIndex(es), Filled(es))
      else
        Ordered(ImmutableMap.Store(t.index, k, None),
                if p.value == |t.list| - 1 then t.list[..p.value] else t.list[p.value := None])
    else if p.Some? then
      if v.value == t.list[p.value].value.value then t
      else Ordered(t.index, t.list[p.value := Some(Entry(k, v.value))])
    else Ordered(ImmutableMap.Store(t.index, k, Some(|t.list|)), t.list + [Some(Entry(k, v.value))])
  }

  // ---- Refinement of an association list in insertion order ----

  /** Updating an association list: a known key keeps its place, a new one goes
      to the end, a removed one closes the gap. */
  function Assoc<V>(es: seq<Entry<V>>, k: Key, v: Option<V>): seq<Entry<V>> {
    var i := IndexOf(es, k);
    match v
    case Some(x) => if i < |es| then es[i := Entry(k, x)] else es + [Entry(k, x)]
    case None => if i < |es| then es[..i] + es[i + 1..] else es
  }

  lemma {:induction false} LiveConcat<V>(a: seq<Option<Entry<V>>>, b: seq<Option<Entry<V>>>)
    ensures Live(a + b) == Live(a) + Live(b)
    decreases |b|
  {
    if b == [] {
      assert a + b == a;
    } else {
      var b' := b[..|b| - 1];
      assert (a + b)[..|a + b| - 1] == a + b';
      LiveConcat(a, b');
    }
  }

  /** The list cut at position p. */
  lemma LiveSplit<V>(list: seq<Option<Entry<V>>>, p: nat)
    requires p < |list|
    ensures Live(list) == Live(list[..p]) + Live([list[p]]) + Live(list[p + 1..])
  {
    CutAt(list, p);
    LiveThree(list[..p], [list[p]], list[p + 1..]);
  }

  lemma CutAt<T>(list: seq<T>, p: nat)
    requires p < |list|
    ensures list == list[..p] + [list[p]] + list[p + 1..]
  {}

  lemma LiveThree<V>(a: seq<Option<Entry<V>>>, e: seq<Option<Entry<V>>>, b: seq<Option<Entry<V>>>)
    ensures Live(a + e + b) == Live(a) + Live(e) + Live(b)
  {
    LiveConcat(a + e, b);
    LiveConcat(a, e);
  }

  lemma {:induction false} LiveMember<V>(list: seq<Option<Entry<V>>>, e: Entry<V>)
    ensures e in Live(list) <==> Some(e) in list
  {
    if list != [] {
      LiveMember(list[..|list| - 1], e);
      assert list == list[..|list| - 1] + [list[|list| - 1]];
    }
  }

  lemma {:induction false} LiveFilled<V>(es: seq<Entry<V>>)
    ensures Live(Filled(es)) == es
  {
    if es != [] {
      assert Filled(es)[..|es| - 1] == Filled(es[..|es| - 1]);
      LiveFilled(es[..|es| - 1]);
    }
  }

  lemma LiveAppend<V>(list: seq<Option<Entry<V>>>, e: Entry<V>)
    ensures Live(list + [Some(e)]) == Live(list) + [e]
  {
    assert (list + [Some(e)])[..|list|] == list;
  }

  /** A new pair at the end, found there. */
  lemma IndexAppend<V>(index: ImmutableMap.Map<nat>, list: seq<Option<Entry<V>>>, e: Entry<V>)
    requires Indexed(index, list) && ImmutableMap.Find(index.root, e.key).None?
    ensures Live(list + [Some(e)]) == Live(list) + [e]
    ensures Indexed(ImmutableMap.Store(index, e.key, Some(|list|)), list + [Some(e)])
  {
    LiveAppend(list, e);
    ImmutableMap.StoreCorrect(index, e.key, Some(|list|));
    IndexedLonger(index, ImmutableMap.Store(index, e.key, Some(|list|)), list, e, list + [Some(e)]);
  }

  lemma IndexedLonger<V>(
    index: ImmutableMap.Map<nat>, index': ImmutableMap.Map<nat>, list: seq<Option<Entry<V>>>, e: Entry<V>,
    list': seq<Option<Entry<V>>>)
    requires Indexed(index, list) && ImmutableMap.Find(index.root, e.key).None? && ImmutableMap.Valid(index'.root)
    requires forall q: Key ::
               ImmutableMap.Find(index'.root, q) ==
               if q == e.key then Some(|list|) else ImmutableMap.Find(index.root, q)
    requires |list'| == |list| + 1 && list'[|list|] == Some(e) && forall i | 0 <= i < |list| :: list'[i] == list[i]
    requires index'.size == index.size + 1 == |Live(list')|
    ensures Indexed(index', list')
  {}

  lemma FilledLast<V>(es: seq<Entry<V>>)
    requires es != []
    ensures Filled(es) == Filled(es[..|es| - 1]) + [Some(es[|es| - 1])]
  {}

  lemma LastIsNew<V>(index: ImmutableMap.Map<nat>, es: seq<Entry<V>>)
    requires es != [] && Distinct(es) && Indexed(index, Filled(es[..|es| - 1]))
    ensures ImmutableMap.Find(index.root, es[|es| - 1].key).None?
  {}

  lemma {:induction false} BuildIndexCorrect<V>(es: seq<Entry<V>>)
    requires Distinct(es)
    ensures Indexed(BuildIndex(es), Filled(es))
  {
    if es != [] {
      var t, e := es[..|es| - 1], es[|es| - 1];
      BuildIndexCorrect(t);
      LastIsNew(BuildIndex(t), es);
      IndexAppend(BuildIndex(t), Filled(t), e);
      FilledLast(es);
    }
  }

  /** No two pairs of an indexed list share a key. */
  lemma {:induction false} LiveDistinct<V>(index: ImmutableMap.Map<nat>, list: seq<Option<Entry<V>>>, n: nat)
    requires n <= |list|
    requires ImmutableMap.Valid(index.root)
    requires forall i | 0 <= i < |list| && list[i].Some? ::
               ImmutableMap.Find(index.root, list[i].value.key) == Some(i)
    ensures Distinct(Live(list[..n]))
  {
    if n > 0 {
      LiveDistinct(index, list, n - 1);
      assert list[..n][..n - 1] == list[..n - 1];
      forall e | e in Live(list[..n - 1]) && list[n - 1].Some? ensures e.key != list[n - 1].value.key {
        LiveMember(list[..n - 1], e);
      }
    }
  }

  /** An association list edited at the one pair with the key. */
  lemma AssocAt<V>(a: seq<Entry<V>>, e: Entry<V>, b: seq<Entry<V>>, v: Option<V>)
    requires Distinct(a + [e] + b)
    ensures IndexOf(a + [e] + b, e.key) == |a|
    ensures Assoc(a + [e] + b, e.key, v) == a + (if v.Some? then [Entry(e.key, v.value)] else []) + b
  {
    assert (a + [e] + b)[|a|] == e;
  }

  function Slot<V>(k: Key, v: Option<V>): Option<Entry<V>> {
    if v.Some? then Some(Entry(k, v.value)) else None
  }

  /** Changing the pair at a key's position edits the association list there. */
  lemma LiveEdit<V>(list: seq<Option<Entry<V>>>, p: nat, k: Key, v: Option<V>)
    requires Distinct(Live(list)) && p < |list| && list[p].Some? && list[p].value.key == k
    ensures IndexOf(Live(list), k) == |Live(list[..p])| < |Live(list)|
    ensures Live(list)[|Live(list[..p])|] == list[p].value
    ensures Live(list[p := Slot(k, v)]) == Assoc(Live(list), k, v)
  {
    var list' := list[p := Slot(k, v)];
    var a, e, b := Live(list[..p]), list[p].value, Live(list[p + 1..]);
    LiveSplit(list, p);
    assert Live(list) == a + [e] + b;
    AssocAt(a, e, b, v);
    LiveSplit(list', p);
    assert list'[..p] == list[..p] && list'[p + 1..] == list[p + 1..];
    assert Live([list'[p]]) == if v.Some? then [Entry(k, v.value)] else [];
  }

  lemma IndexedDistinct<V>(t: Ordered<V>)
    requires Indexed(t.index, t.list)
    ensures Distinct(Live(t.list))
  {
    LiveDistinct(t.index, t.list, |t.list|);
    assert t.list[..|t.list|] == t.list;
  }

  lemma NotLive<V>(t: Ordered<V>, k: Key)
    requires Indexed(t.index, t.list) && ImmutableMap.Find(t.index.root, k).None?
    ensures IndexOf(Live(t.list), k) == |Live(t.list)|
  {
    var i := IndexOf(Live(t.list), k);
    if i < |Live(t.list)| {
      LiveMember(t.list, Live(t.list)[i]);
    }
  }

  /** Lookups agree with the association list. */
  lemma GetCorrect<V>(t: Ordered<V>, k: Key)
    requires Valid(t)
    ensures Get(t, k) == Lookup(Live(t.list), k)
  {
    var p := ImmutableMap.Find(t.index.root, k);
    if p.None? {
      NotLive(t, k);
    } else {
      IndexedDistinct(t);
      LiveEdit(t.list, p.value, k, None);
    }
  }

  /** Compacting leaves exactly the other live pairs, with a fresh index. */
  lemma CompactCorrect<V>(t: Ordered<V>, k: Key, p: nat)
    requires Valid(t) && ImmutableMap.Find(t.index.root, k) == Some(p)
    ensures var es := Live(t.list[p := None]);
            && es == Assoc(Live(t.list), k, None)
            && Indexed(BuildIndex(es), Filled(es)) && Live(Filled(es)) == es && |es| == t.index.size - 1
  {
    IndexedDistinct(t);
    LiveEdit(t.list, p, k, None);
    var es := Live(t.list[p := None]);
    DistinctWithout(Live(t.list), IndexOf(Live(t.list), k));
    LiveFilled(es);
    BuildIndexCorrect(es);
  }

  lemma DistinctWithout<V>(es: seq<Entry<V>>, i: nat)
    requires Distinct(es) && i < |es|
    ensures Distinct(es[..i] + es[i + 1..])
  {}

  /** Otherwise a hole stays behind, or the list loses its last pair. */
  lemma HoleCorrect<V>(t: Ordered<V>, k: Key, p: nat)
    requires Valid(t) && ImmutableMap.Find(t.index.root, k) == Some(p)
    ensures var list := if p == |t.list| - 1 then t.list[..p] else t.list[p := None];
            && Live(list) == Assoc(Live(t.list), k, None) && |Live(list)| == t.index.size - 1
            && Indexed(ImmutableMap.Store(t.index, k, None), list)
  {
    IndexedDistinct(t);
    LiveEdit(t.list, p, k, None);
    var list := if p == |t.list| - 1 then t.list[..p] else t.list[p := None];
    if p == |t.list| - 1 {
      assert t.list[p := None][..p] == t.list[..p];
    }
    assert Live(list) == Live(t.list[p := None]);
    HoleIndexed(t.index, t.list, k, p, list);
  }

  lemma HoleIndexed<V>(
    index: ImmutableMap.Map<nat>, list: seq<Option<Entry<V>>>, k: Key, p: nat, list': seq<Option<Entry<V>>>)
    requires Indexed(index, list) && ImmutableMap.Find(index.root, k) == Some(p)
    requires |list| - 1 <= |list'| <= |list| && (p < |list'| ==> list'[p].None?)
    requires forall i | 0 <= i < |list| && i != p :: i < |list'| && list'[i] == list[i]
    requires |Live(list')| == |Live(list)| - 1
    ensures Indexed(ImmutableMap.Store(index, k, None), list')
  {
    ImmutableMap.StoreCorrect(index, k, None);
  }

  lemma RemoveCorrect<V>(t: Ordered<V>, k: Key, p: nat)
    requires Valid(t) && ImmutableMap.Find(t.index.root, k) == Some(p)
    ensures var t' := Update(t, k, None);
            Valid(t') && Live(t'.list) == Assoc(Live(t.list), k, None)
  {
    if |t.list| >= COMPACT_FROM && |t.list| >= 2 * t.index.size {
      CompactCorrect(t, k, p);
    } else {
      HoleCorrect(t, k, p);
    }
  }

  lemma AddCorrect<V>(t: Ordered<V>, k: Key, x: V)
    requires Valid(t) && ImmutableMap.Find(t.index.root, k).None?
    ensures var t' := Update(t, k, Some(x));
            Valid(t') && Live(t'.list) == Assoc(Live(t.list), k, Some(x))
  {
    NotLive(t, k);
    IndexAppend(t.index, t.list, Entry(k, x));
  }

  lemma ChangeCorrect<V>(t: Ordered<V>, k: Key, p: nat, x: V)
    requires Valid(t) && ImmutableMap.Find(t.index.root, k) == Some(p)
    ensures var t' := Update(t, k, Some(x));
            Valid(t') && Live(t'.list) == Assoc(Live(t.list), k, Some(x))
  {
    IndexedDistinct(t);
    LiveEdit(t.list, p, k, Some(x));
  }

  /** One update does to the index and the holed list what it does to the
      association list, and keeps the list's length within the bound. */
  lemma UpdateRefines<V>(t: Ordered<V>, k: Key, v: Option<V>)
    requires Valid(t)
    ensures Valid(Update(t, k, v))
    ensures Live(Update(t, k, v).list) == Assoc(Live(t.list), k, v)
  {
    var p := ImmutableMap.Find(t.index.root, k);
    if p.None? && v.None? {
      NotLive(t, k);
    } else if v.None? {
      RemoveCorrect(t, k, p.value);
    } else if p.None? {
      AddCorrect(t, k, v.value);
    } else {
      ChangeCorrect(t, k, p.value, v.value);
    }
  }

  function AssocRun<V>(rs: seq<ImmutableMap.Request<V>>): seq<Entry<V>> {
    if rs == [] then [] else Assoc(AssocRun(rs[..|rs| - 1]), rs[|rs| - 1].key, rs[|rs| - 1].value)
  }

  /** The ordered map after a run of requests on the empty one: it iterates in
      the association list's order. */
  ghost function Run<V>(rs: seq<ImmutableMap.Request<V>>): (t: Ordered<V>)
    ensures Valid(t) && Live(t.list) == AssocRun(rs)
  {
    if rs == [] then Ordered(ImmutableMap.Map(0, ImmutableMap.Empty), [])
    else
      var r := rs[|rs| - 1];
      var t := Run(rs[..|rs| - 1]);
      UpdateRefines(t, r.key, r.value);
      Update(t, r.key, r.value)
  }

  /** Every run: lookups, size and list length. */
  lemma RunRefines<V>(rs: seq<ImmutableMap.Request<V>>, k: Key)
    ensures var t := Run(rs);
            && Get(t, k) == Lookup(AssocRun(rs), k)
            && t.index.size == |AssocRun(rs)|
            && |t.list| <= Bound(|AssocRun(rs)|)
  {
    GetCorrect(Run(rs), k);
  }
}
