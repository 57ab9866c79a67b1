/** The least-recently-used queue behind bounded memoization. Each hit gives an
    id the next index; two maps between ids and indices and the index of the
    oldest live entry stand for the order.
 */
module LruQueue {
  import opened Options

  // ---- The recency list that the queue stands for: oldest first ----

  function Without(q: seq<string>, id: string): seq<string> {
    if q == [] then [] else (if q[0] == id then [] else [q[0]]) + Without(q[1..], id)
  }

  function MoveToEnd(q: seq<string>, id: string): seq<string> { Without(q, id) + [id] }

  /** A hit moves the id to the end and drops the oldest id over the limit. */
  function AfterHit(q: seq<string>, id: string, limit: nat): seq<string> {
    var r := MoveToEnd(q, id);
    if |r| > limit then r[1..] else r
  }

  function Evicted(q: seq<string>, id: string, limit: nat): Option<string> {
    var r := MoveToEnd(q, id);
    if |r| > limit then Some(r[0]) else None
  }

  lemma {:induction false} WithoutMembers(q: seq<string>, id: string)
    ensures forall x :: x in Without(q, id) <==> x in q && x != id
    ensures |Without(q, id)| <= |q|
  {
    if q != [] {
      WithoutMembers(q[1..], id);
      assert q == [q[0]] + q[1..];
    }
  }

  lemma {:induction false} WithoutAbsent(q: seq<string>, id: string)
    requires id !in q
    ensures Without(q, id) == q
  {
    if q != [] {
      WithoutAbsent(q[1..], id);
    }
  }

  lemma {:induction false} WithoutConcat(a: seq<string>, b: seq<string>, id: string)
    ensures Without(a + b, id) == Without(a, id) + Without(b, id)
  {
    if a == [] {
      assert a + b == b;
    } else {
      assert (a + b)[1..] == a[1..] + b;
      WithoutConcat(a[1..], b, id);
    }
  }

  ghost predicate Unique(q: seq<string>) { forall i, j | 0 <= i < j < |q| :: q[i] != q[j] }

  /** Dropping a listed id shortens a list of distinct ids by one. */
  lemma {:induction false} WithoutLength(q: seq<string>, id: string)
    requires Unique(q) && id in q
    ensures |Without(q, id)| == |q| - 1
  {
    if q[0] == id {
      WithoutAbsent(q[1..], id);
    } else {
      WithoutLength(q[1..], id);
    }
  }

  // ---- Reading the order off the index map ----

  /** The ids of the indices lo, ..., hi in order. */
  function Ids(s: map<nat, string>, lo: nat, hi: nat): seq<string>
    decreases hi + 1 - lo
  {
    if lo > hi then [] else (if lo in s then [s[lo]] else []) + Ids(s, lo + 1, hi)
  }

  /** Ids at distinct indices are distinct. */
  ghost predicate Injective(s: map<nat, string>) { forall i, j | i in s && j in s && s[i] == s[j] :: i == j }

  lemma {:induction false} IdsMembers(s: map<nat, string>, lo: nat, hi: nat)
    ensures forall x :: x in Ids(s, lo, hi) <==> exists i | lo <= i <= hi :: i in s && s[i] == x
    decreases hi + 1 - lo
  {
    if lo <= hi {
      IdsMembers(s, lo + 1, hi);
    }
  }

  lemma {:induction false} IdsUnique(s: map<nat, string>, lo: nat, hi: nat)
    requires Injective(s)
    ensures Unique(Ids(s, lo, hi))
    decreases hi + 1 - lo
  {
    if lo <= hi {
      IdsUnique(s, lo + 1, hi);
      IdsMembers(s, lo + 1, hi);
      if lo in s {
        var rest := Ids(s, lo + 1, hi);
        assert s[lo] !in rest;
        forall i, j | 0 <= i < j < |[s[lo]] + rest| ensures ([s[lo]] + rest)[i] != ([s[lo]] + rest)[j] {
          assert ([s[lo]] + rest)[j] == rest[j - 1];
          if i > 0 { assert ([s[lo]] + rest)[i] == rest[i - 1]; }
        }
      }
    }
  }

  lemma {:induction false} IdsAppend(s: map<nat, string>, lo: nat, hi: nat, x: string)
    requires lo <= hi + 1
    ensures Ids(s[hi + 1 := x], lo, hi + 1) == Ids(s, lo, hi) + [x]
    decreases hi + 1 - lo
  {
    if lo <= hi {
      IdsAppend(s, lo + 1, hi, x);
    }
  }

  lemma {:induction false} IdsRemove(s: map<nat, string>, lo: nat, hi: nat, i: nat)
    requires Injective(s) && i in s
    ensures Ids(s - {i}, lo, hi) == Without(Ids(s, lo, hi), s[i])
    decreases hi + 1 - lo
  {
    if lo <= hi {
      IdsRemove(s, lo + 1, hi, i);
      WithoutConcat(if lo in s then [s[lo]] else [], Ids(s, lo + 1, hi), s[i]);
    }
  }

  // ---- The two maps ----

  /** Maps from indices to ids and back undo each other. */
  ghost predicate Inverse(s: map<nat, string>, a: map<string, nat>) {
    && (forall i | i in s :: s[i] in a && a[s[i]] == i)
    && (forall id | id in a :: a[id] in s && s[a[id]] == id)
  }

  /** Every live index lies in the range, so the list is empty only with the map. */
  lemma IdsEmpty(s: map<nat, string>, lo: nat, hi: nat)
    requires forall i | i in s :: lo <= i <= hi
    ensures Ids(s, lo, hi) == [] <==> s == map[]
  {
    IdsMembers(s, lo, hi);
    if s != map[] {
      var i :| i in s;
      assert s[i] in Ids(s, lo, hi);
    }
    if Ids(s, lo, hi) != [] {
      var x := Ids(s, lo, hi)[0];
      assert x in Ids(s, lo, hi);
      var i :| lo <= i <= hi && i in s && s[i] == x;
    }
  }

  /** A first hit puts the id at the end. */
  lemma AddAtEnd(s: map<nat, string>, a: map<string, nat>, lo: nat, hi: nat, id: string)
    requires Inverse(s, a) && id !in a && lo <= hi + 1 && forall i | i in s :: lo <= i <= hi
    ensures var t := s[hi + 1 := id];
            && Inverse(t, a[id := hi + 1])
            && Ids(t, lo, hi + 1) == MoveToEnd(Ids(s, lo, hi), id)
            && |Ids(t, lo, hi + 1)| == |Ids(s, lo, hi)| + 1
            && (forall i | i in t :: lo <= i <= hi + 1)
            && (lo in s || lo == hi + 1 ==> lo in t)
  {
    IdsMembers(s, lo, hi);
    WithoutAbsent(Ids(s, lo, hi), id);
    IdsAppend(s, lo, hi, id);
  }

  /** Forgetting an index takes its id out of the list. */
  lemma TakeOut(s: map<nat, string>, a: map<string, nat>, lo: nat, hi: nat, id: string)
    requires Inverse(s, a) && id in a && forall i | i in s :: lo <= i <= hi
    ensures var t := s - {a[id]};
            && Inverse(t, a - {id})
            && Ids(t, lo, hi) == Without(Ids(s, lo, hi), id)
            && |Ids(t, lo, hi)| == |Ids(s, lo, hi)| - 1
  {
    IdsRemove(s, lo, hi, a[id]);
    IdsUnique(s, lo, hi);
    IdsMembers(s, lo, hi);
    WithoutLength(Ids(s, lo, hi), id);
  }

  /** The id at the base is the first of the list. */
  lemma FirstOut(s: map<nat, string>, a: map<string, nat>, lo: nat, hi: nat)
    requires Inverse(s, a) && lo in s && lo <= hi
    ensures var q := Ids(s, lo, hi);
            q != [] && q[0] == s[lo] && Without(q, s[lo]) == q[1..]
  {
    IdsUnique(s, lo, hi);
    var q := Ids(s, lo, hi);
    assert q[0] == s[lo];
    forall j | 0 <= j < |q[1..]| ensures q[1..][j] != q[0] { assert q[1..][j] == q[j + 1]; }
    WithoutAbsent(q[1..], q[0]);
  }

  /** A repeated hit moves the id to the end. */
  lemma PutAtEnd(s: map<nat, string>, a: map<string, nat>, lo: nat, hi: nat, id: string)
    requires Inverse(s, a) && id in a && lo <= hi && forall i | i in s :: lo <= i <= hi
    ensures var t := s[hi + 1 := id] - {a[id]};
            && Inverse(t, a[id := hi + 1])
            && Ids(t, lo, hi + 1) == MoveToEnd(Ids(s, lo, hi), id)
            && |Ids(t, lo, hi + 1)| == |Ids(s, lo, hi)|
            && hi + 1 in t
            && (forall i | i in t :: lo <= i <= hi + 1 && (lo == a[id] ==> lo < i))
            && (lo != a[id] && lo in s ==> lo in t)
  {
    TakeOut(s, a, lo, hi, id);
    IdsAppend(s - {a[id]}, lo, hi, id);
    assert s[hi + 1 := id] - {a[id]} == (s - {a[id]})[hi + 1 := id];
  }

  class Queue {
    const limit: nat
    var size: nat
    var base: nat
    var queue: map<nat, string>
    var positions: map<string, nat>
    var index: nat

    /** The two maps are mutually inverse and the base is the least live index. */
    ghost predicate Valid()
      reads this
    {
      && Inverse(queue, positions)
      && (forall i | i in queue :: base <= i <= index)
      && size == |Ids(queue, base, index)| && base >= 1
      && (if size == 0 then base == 1 && index == 0 else base in queue)
    }

    /** The ids from the least to the most recently hit. */
    ghost function Order(): seq<string>
      reads this
    {
      Ids(queue, base, index)
    }

    constructor (limit: nat)
      ensures Valid() && Order() == [] && this.limit == limit
    {
      this.limit := limit;
      size, base, queue, positions, index := 0, 1, map[], map[], 0;
    }

    /** Moves the base up to the next live index. */
    method Advance()
      requires queue != map[] && forall i | i in queue :: base < i <= index
      modifies this`base
      ensures base > old(base) && base in queue && forall i | i in queue :: base <= i
      ensures Ids(queue, base, index) == Ids(queue, old(base), index)
    {
      ghost var live :| live in queue;
      base := base + 1;
      while base !in queue
        invariant old(base) < base <= index
        invariant forall i | i in queue :: base <= i
        invariant Ids(queue, base, index) == Ids(queue, old(base), index)
        decreases index - base
      {
        assert base < live;
        base := base + 1;
      }
    }

    method Delete(id: string)
      requires Valid()
      modifies this
      ensures Valid() && Order() == Without(old(Order()), id)
    {
      if id !in positions {
        IdsMembers(queue, base, index);
        WithoutAbsent(Order(), id);
        return;
      }
      var e := positions[id];
      TakeOut(queue, positions, base, index, id);
      queue, positions, size := queue - {e}, positions - {id}, size - 1;
      IdsEmpty(queue, base, index);
      if base == e {
        if size == 0 {
          index, base := 0, 1;
          return;
        }
        Advance();
      }
    }

    /** Gives a listed id the newest index. */
    method Renew(id: string)
      requires Inverse(queue, positions) && id in positions
      requires index > 0 && base >= 1 && size == |Ids(queue, base, index - 1)| > 0
      requires (forall i | i in queue :: base <= i <= index - 1) && base in queue
      modifies this`queue, this`positions, this`base
      ensures Valid() && Order() == MoveToEnd(old(Ids(queue, base, index - 1)), id)
    {
      var i := positions[id];
      PutAtEnd(queue, positions, base, index - 1, id);
      queue, positions := queue[index := id] - {i}, positions[id := index];
      if base == i {
        Advance();
      }
    }

    /** Gives a new id the newest index. */
    method Add(id: string)
      requires Inverse(queue, positions) && id !in positions && index > 0 && base >= 1
      requires size == |Ids(queue, base, index - 1)| && forall i | i in queue :: base <= i <= index - 1
      requires if size == 0 then base == 1 && index == 1 else base in queue
      modifies this`queue, this`positions, this`size
      ensures Valid() && size == old(size) + 1 && Order() == MoveToEnd(old(Ids(queue, base, index - 1)), id)
    {
      if size > 0 { IdsEmpty(queue, base, index - 1); }
      AddAtEnd(queue, positions, base, index - 1, id);
      queue, positions, size := queue[index := id], positions[id := index], size + 1;
    }

    /** Marks an id as used now; returns the id pushed out, if any. */
    method Hit(id: string) returns (evicted: Option<string>)
      requires Valid() && size <= limit && limit >= 1
      modifies this
      ensures Valid() && size <= limit
      ensures Order() == AfterHit(old(Order()), id, limit)
      ensures evicted == Evicted(old(Order()), id, limit)
    {
      evicted := None;
      index := index + 1;
      if id !in positions {
        Add(id);
        if size <= limit {
          return;
        }
        evicted := Some(queue[base]);
        FirstOut(queue, positions, base, index);
        Delete(queue[base]);
      } else {
        IdsMembers(queue, base, index - 1);
        assert queue[positions[id]] in old(Order());
        Renew(id);
      }
    }

    method Clear()
      modifies this
      ensures Valid() && Order() == []
    {
      size, base, queue, positions, index := 0, 1, map[], map[], 0;
    }
  }

  // ---- The order is recency ----

  datatype Op = Hit(id: string) | Delete(id: string) | Clear

  /** What one operation does to the order. */
  function After(q: seq<string>, op: Op, limit: nat): seq<string> {
    match op
    case Hit(id) => AfterHit(q, id, limit)
    case Delete(id) => Without(q, id)
    case Clear => []
  }

  /** The order after a run of operations on an empty queue. */
  function Run(ops: seq<Op>, limit: nat): seq<string> {
    if ops == [] then [] else After(Run(ops[..|ops| - 1], limit), ops[|ops| - 1], limit)
  }

  /** The position of the last hit on an id that no deletion has undone, or -1. */
  function LastHit(ops: seq<Op>, id: string): int {
    if ops == [] then -1
    else
      match ops[|ops| - 1]
      case Hit(x) => if x == id then |ops| - 1 else LastHit(ops[..|ops| - 1], id)
      case Delete(x) => if x == id then -1 else LastHit(ops[..|ops| - 1], id)
      case Clear => -1
  }

  /** A list of hit ids in the order of their last hits. */
  ghost predicate ByRecency(q: seq<string>, ops: seq<Op>) {
    && (forall i | 0 <= i < |q| :: LastHit(ops, q[i]) >= 0)
    && forall i, j | 0 <= i < j < |q| :: LastHit(ops, q[i]) < LastHit(ops, q[j])
  }

  lemma {:induction false} LastHitBound(ops: seq<Op>, id: string)
    ensures -1 <= LastHit(ops, id) < |ops|
  {
    if ops != [] {
      LastHitBound(ops[..|ops| - 1], id);
    }
  }

  lemma {:induction false} WithoutByRecency(q: seq<string>, ops: seq<Op>, id: string)
    requires ByRecency(q, ops)
    ensures ByRecency(Without(q, id), ops)
  {
    if q != [] {
      RestByRecency(q, ops);
      WithoutByRecency(q[1..], ops, id);
      WithoutMembers(q[1..], id);
      if q[0] != id {
        FirstByRecency(q[0], Without(q[1..], id), ops);
      }
    }
  }

  lemma RestByRecency(q: seq<string>, ops: seq<Op>)
    requires ByRecency(q, ops) && q != []
    ensures ByRecency(q[1..], ops) && forall x | x in q[1..] :: LastHit(ops, q[0]) < LastHit(ops, x)
  {}

  lemma FirstByRecency(x: string, w: seq<string>, ops: seq<Op>)
    requires ByRecency(w, ops) && LastHit(ops, x) >= 0 && forall y | y in w :: LastHit(ops, x) < LastHit(ops, y)
    ensures ByRecency([x] + w, ops)
  {}

  /** One more operation: a hit renews its id alone, a deletion undoes its id's
      hits alone. */
  lemma LastHitStep(h: seq<Op>, op: Op)
    ensures forall id :: LastHit(h + [op], id) ==
                         match op
                         case Hit(x) => if id == x then |h| else LastHit(h, id)
                         case Delete(x) => if id == x then -1 else LastHit(h, id)
                         case Clear => -1
    ensures forall id :: LastHit(h, id) < |h|
  {
    assert (h + [op])[..|h|] == h;
    forall id ensures LastHit(h, id) < |h| { LastHitBound(h, id); }
  }

  /** Ids that the operation does not name keep their order. */
  lemma OthersByRecency(w: seq<string>, h: seq<Op>, op: Op)
    requires ByRecency(w, h) && !op.Clear? && op.id !in w
    ensures ByRecency(w, h + [op])
  {
    LastHitStep(h, op);
    forall i | 0 <= i < |w| ensures LastHit(h + [op], w[i]) == LastHit(h, w[i]) { assert w[i] in w; }
  }

  lemma AppendByRecency(w: seq<string>, h: seq<Op>, x: string)
    requires ByRecency(w, h) && x !in w
    ensures ByRecency(w + [x], h + [Hit(x)])
  {
    LastHitStep(h, Hit(x));
    OthersByRecency(w, h, Hit(x));
    forall i, j | 0 <= i < j < |w + [x]|
      ensures LastHit(h + [Hit(x)], (w + [x])[i]) < LastHit(h + [Hit(x)], (w + [x])[j])
    {
      assert (w + [x])[i] == w[i] && w[i] in w;
    }
  }

  lemma StepByRecency(p: seq<string>, h: seq<Op>, op: Op, limit: nat)
    requires limit >= 1 && ByRecency(p, h) && |p| <= limit
    ensures ByRecency(After(p, op, limit), h + [op]) && |After(p, op, limit)| <= limit
  {
    if !op.Clear? {
      WithoutByRecency(p, h, op.id);
      WithoutMembers(p, op.id);
      if op.Hit? {
        AppendByRecency(Without(p, op.id), h, op.id);
      } else {
        OthersByRecency(Without(p, op.id), h, op);
      }
    }
  }

  /** After any run of hits, deletions and clearings the queue holds at most the
      limit, in the order of the last hits. */
  lemma {:induction false} RunIsByRecency(ops: seq<Op>, limit: nat)
    requires limit >= 1
    ensures ByRecency(Run(ops, limit), ops) && |Run(ops, limit)| <= limit
  {
    if ops != [] {
      var h, op := ops[..|ops| - 1], ops[|ops| - 1];
      assert ops == h + [op];
      RunIsByRecency(h, limit);
      StepByRecency(Run(h, limit), h, op, limit);
    }
  }

  /** The hit on id was last, is not undone, and lies before the last hits of a
      full queue. */
  ghost predicate PushedOut(ops: seq<Op>, limit: nat, id: string, n: nat)
    requires n <= |ops|
  {
    var h := ops[..n];
    && LastHit(h, id) == LastHit(ops, id) >= 0 && |Run(h, limit)| == limit
    && forall x | x in Run(h, limit) :: LastHit(h, id) < LastHit(h, x)
  }

  /** An id whose last hit is not undone is held, unless at some moment the queue
      was full of ids that were all hit after it. */
  lemma {:induction false} RunKeepsMostRecent(ops: seq<Op>, limit: nat, id: string)
    requires limit >= 1 && LastHit(ops, id) >= 0 && id !in Run(ops, limit)
    ensures exists n | 0 <= n <= |ops| :: PushedOut(ops, limit, id, n)
  {
    var h, op := ops[..|ops| - 1], ops[|ops| - 1];
    var p := Run(h, limit);
    assert ops == h + [op];
    LastHitStep(h, op);
    RunIsByRecency(h, limit);
    if op != Hit(id) && id !in p {
      RunKeepsMostRecent(h, limit, id);
      var n :| 0 <= n <= |h| && PushedOut(h, limit, id, n);
      assert ops[..n] == h[..n];
      assert PushedOut(ops, limit, id, n);
    } else {
      StepDrops(p, h, op, limit, id);
      RunIsByRecency(ops, limit);
      assert ops[..|ops|] == ops;
      assert PushedOut(ops, limit, id, |ops|);
    }
  }

  /** Only a hit on another id drops an id, the oldest of a full queue. */
  lemma StepDrops(p: seq<string>, h: seq<Op>, op: Op, limit: nat, id: string)
    requires limit >= 1 && ByRecency(p, h) && |p| <= limit
    requires LastHit(h + [op], id) >= 0 && (op == Hit(id) || id in p) && id !in After(p, op, limit)
    ensures var q := After(p, op, limit);
            |q| == limit && forall x | x in q :: LastHit(h + [op], id) < LastHit(h + [op], x)
  {
    LastHitStep(h, op);
    WithoutMembers(p, op.id);
    WithoutByRecency(p, h, op.id);
    assert op.Hit?;
    var r := MoveToEnd(p, op.id);
    assert r[|r| - 1] == op.id;
    assert id in r;
    AppendByRecency(Without(p, op.id), h, op.id);
    var i :| 0 <= i < |r| && r[i] == id;
    assert |r| > limit && i == 0;
  }

  lemma RepeatedHit(p: seq<string>, id: string, limit: nat)
    requires Unique(p) && |p| <= limit && id in p
    ensures Evicted(p, id, limit) == None && forall x | x in p :: x in AfterHit(p, id, limit)
  {
    WithoutLength(p, id);
    WithoutMembers(p, id);
  }

  lemma FirstHit(p: seq<string>, id: string, limit: nat)
    requires limit >= 1 && |p| <= limit && id !in p
    ensures if |p| < limit then Evicted(p, id, limit) == None && AfterHit(p, id, limit) == p + [id]
            else Evicted(p, id, limit) == Some(p[0]) && AfterHit(p, id, limit) == p[1..] + [id]
  {
    WithoutAbsent(p, id);
    if |p| == limit { assert (p + [id])[1..] == p[1..] + [id]; }
  }

  lemma FirstLeaves(p: seq<string>, id: string)
    requires Unique(p) && p != [] && id !in p
    ensures forall x | x in p :: x !in p[1..] + [id] <==> x == p[0]
  {
    var q := p[1..];
    assert p == [p[0]] + q;
    forall i | 0 <= i < |q| ensures q[i] != p[0] { assert q[i] == p[i + 1]; }
  }

  /** A hit returns the id that it pushed out: of the ids that were held it is the
      one hit longest ago, and it alone has left. It returns none exactly if no id
      has left. */
  lemma HitReturnsOldest(h: seq<Op>, id: string, limit: nat, p: seq<string>, q: seq<string>, out: Option<string>)
    requires limit >= 1 && p == Run(h, limit) && q == Run(h + [Hit(id)], limit) && out == Evicted(p, id, limit)
    ensures forall x :: x in p && x !in q <==> out == Some(x)
    ensures out.Some? ==> forall x | x in p && x != out.value :: LastHit(h, out.value) < LastHit(h, x)
  {
    assert (h + [Hit(id)])[..|h|] == h;
    RunIsByRecency(h, limit);
    assert Unique(p);
    if id in p {
      RepeatedHit(p, id, limit);
    } else {
      FirstHit(p, id, limit);
      if |p| == limit { FirstLeaves(p, id); }
    }
  }
}
