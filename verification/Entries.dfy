/** The entry arrays of the trie: unordered lists of key-value pairs with
    distinct keys, searched from the front and shortened by moving the last
    pair into the gap. The root of a small map and every hash-collision node is
    such a list.
 */
module Entries {
  import opened Bits
  import opened Options

  /** A key with its 32-bit hash: equal keys have equal hashes. */
  datatype Key = Key(id: string, hash: Hash)

  datatype Entry<V> = Entry(key: Key, value: V)

  /** The position of the first pair with this key, or the length. */
  function IndexOf<V>(s: seq<Entry<V>>, k: Key): (i: nat)
    ensures i <= |s|
    ensures i < |s| ==> s[i].key == k
    ensures forall j | 0 <= j < i :: s[j].key != k
  {
    if s == [] then 0 else if s[0].key == k then 0 else 1 + IndexOf(s[1..], k)
  }

  /** The linear search as the code runs it. */
  method FindIndex<V>(s: seq<Entry<V>>, k: Key) returns (c: nat)
    ensures c == IndexOf(s, k)
  {
    c := 0;
    while c < |s| && s[c].key != k
      invariant c <= |s|
      invariant forall j | 0 <= j < c :: s[j].key != k
    {
      c := c + 1;
    }
  }

  function Lookup<V>(s: seq<Entry<V>>, k: Key): Option<V> {
    var i := IndexOf(s, k);
    if i < |s| then Some(s[i].value) else None
  }

  ghost predicate Distinct<V>(s: seq<Entry<V>>) {
    forall i, j | 0 <= i < j < |s| :: s[i].key != s[j].key
  }

  /** The new list for storing v under k, or for removing k when v is None. */
  function Edit<V>(s: seq<Entry<V>>, k: Key, v: Option<V>): seq<Entry<V>> {
    var c := IndexOf(s, k);
    match v
    case Some(x) => if c < |s| then s[c := Entry(k, x)] else s + [Entry(k, x)]
    case None =>
      if c == |s| then s
      else if c == |s| - 1 then s[..c]
      else s[..|s| - 1][c := s[|s| - 1]]
  }

  lemma LookupIs<V>(s: seq<Entry<V>>, i: nat)
    requires Distinct(s) && i < |s|
    ensures Lookup(s, s[i].key) == Some(s[i].value)
  {}

  /** An edit keeps the keys distinct and changes the lookup of k alone. */
  lemma EditCorrect<V>(s: seq<Entry<V>>, k: Key, v: Option<V>, q: Key)
    requires Distinct(s)
    ensures Distinct(Edit(s, k, v))
    ensures Lookup(Edit(s, k, v), q) == if q == k then v else Lookup(s, q)
  {
    var t := Edit(s, k, v);
    var j := IndexOf(s, q);
    if q != k && j < |s| {
      var j' := if v.None? && IndexOf(s, k) < |s| && j == |s| - 1 then IndexOf(s, k) else j;
      assert t[j'] == s[j];
      LookupIs(t, j');
    } else if q == k && v.Some? {
      LookupIs(t, IndexOf(s, k));
    }
  }

  lemma EditKeys<V>(s: seq<Entry<V>>, k: Key, v: Option<V>)
    ensures forall e | e in Edit(s, k, v) :: e.key == k || e in s
    ensures |Edit(s, k, v)| ==
            |s| + (if v.Some? && Lookup(s, k).None? then 1 else 0) - (if v.None? && Lookup(s, k).Some? then 1 else 0)
  {}
}
