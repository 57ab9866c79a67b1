/** What the controllers' stores have in common. */
module Objects {
  datatype Key = Key(ns: string, name: string)

  /** Every write gives an object a new version. */
  datatype Versioned<T> = Versioned(version: nat, data: T)

  /** A call succeeds, fails without effect, or takes effect and its answer is
      lost. */
  datatype Fault = Fine | Refused | AnswerLost

  // ---- Finalizer lists ----

  function AddFinalizer(fs: seq<string>, f: string): seq<string> { if f in fs then fs else fs + [f] }

  function RemoveFinalizer(fs: seq<string>, f: string): seq<string> {
    if fs == [] then [] else (if fs[0] == f then [] else [fs[0]]) + RemoveFinalizer(fs[1..], f)
  }

  lemma {:induction false} RemoveFromParts(a: seq<string>, b: seq<string>, f: string)
    ensures RemoveFinalizer(a + b, f) == RemoveFinalizer(a, f) + RemoveFinalizer(b, f)
  {
    if a == [] {
      assert a + b == b;
    } else {
      assert (a + b)[1..] == a[1..] + b;
      RemoveFromParts(a[1..], b, f);
    }
  }

  lemma DropItem(r: seq<string>, i: nat, f: string)
    requires i < |r| && r[i] == f
    ensures RemoveFinalizer(r[..i] + r[i + 1..], f) == RemoveFinalizer(r, f)
    ensures (r[..i] + r[i + 1..])[..i] == r[..i]
  {
    var item, rest := [r[i]], r[i + 1..];
    assert r == r[..i] + (item + rest) && (item + rest)[1..] == rest;
    RemoveFromParts(r[..i], item + rest, f);
    RemoveFromParts(r[..i], rest, f);
  }

  lemma KeepItem(r: seq<string>, i: nat, f: string)
    requires i < |r| && r[i] != f && RemoveFinalizer(r[..i], f) == r[..i]
    ensures RemoveFinalizer(r[..i + 1], f) == r[..i + 1]
  {
    assert r[..i + 1] == r[..i] + [r[i]];
    RemoveFromParts(r[..i], [r[i]], f);
  }

  /** Removal in place, item by item. */
  method RemoveString(fs: seq<string>, f: string) returns (r: seq<string>)
    ensures r == RemoveFinalizer(fs, f)
  {
    r := fs;
    var i := 0;
    while i < |r|
      invariant 0 <= i <= |r| && RemoveFinalizer(r[..i], f) == r[..i]
      invariant RemoveFinalizer(r, f) == RemoveFinalizer(fs, f)
      decreases |r| - i
    {
      if r[i] == f {
        DropItem(r, i, f);
        r := r[..i] + r[i + 1..];
      } else {
        KeepItem(r, i, f);
        i := i + 1;
      }
    }
    assert r[..i] == r;
  }

  /** Removal takes every occurrence of one finalizer and nothing else. */
  lemma {:induction false} RemovedIsGone(fs: seq<string>, f: string)
    ensures f !in RemoveFinalizer(fs, f)
    ensures forall g | g != f :: g in RemoveFinalizer(fs, f) <==> g in fs
  {
    if fs != [] {
      RemovedIsGone(fs[1..], f);
      assert fs == [fs[0]] + fs[1..];
    }
  }
}
