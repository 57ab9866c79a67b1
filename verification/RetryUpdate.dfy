/** Retried updates: read an object, change it, write it back, and start over on
    a conflict, while other writers are at work between any two calls.
 */
module RetryUpdate {
  import opened Objects
  import opened Options

  /** A write in the store's history; deleting writes None. */
  datatype Write<T> = Write(ours: bool, value: Option<T>)

  /** One object's place in the store, with the history of its writes. */
  datatype Place<T> = Place(stored: Option<Versioned<T>>, clock: nat, log: seq<Write<T>>)

  /** What happens around one call: the other writers' writes before it, and how
      it fares. */
  datatype Around<T> = Around(writes: seq<Option<T>>, fault: Fault)

  /** What a change makes of the object it read: a crash, or what the store is
      to hold, which is nothing for a marked object without finalizers. */
  datatype Change<T> = Crash | Hold(value: Option<T>)

  datatype Outcome = Done | Conflict | Failed | Unknown

  function Value<T>(p: Place<T>): Option<T> { if p.stored.Some? then Some(p.stored.value.data) else None }

  /** A write gets a new version unless it changes nothing. */
  function Put<T(==)>(p: Place<T>, w: Write<T>): Place<T> {
    if Value(p) == w.value then p.(log := p.log + [w])
    else Place(if w.value.Some? then Some(Versioned(p.clock + 1, w.value.value)) else None, p.clock + 1, p.log + [w])
  }

  function Others<T(==)>(p: Place<T>, writes: seq<Option<T>>): Place<T> {
    if writes == [] then p
    else Put(Others(p, writes[..|writes| - 1]), Write(false, writes[|writes| - 1]))
  }

  /** The write of one attempt, against the version that it read. */
  function Update<T(==)>(p: Place<T>, got: Versioned<T>, f: T -> Change<T>, u: Around<T>): (Place<T>, Outcome) {
    var p1 := Others(p, u.writes);
    if f(got.data).Crash? || u.fault == Refused || p1.stored.None? then (p1, Failed)
    else if p1.stored.value.version != got.version then (p1, Conflict)
    else (Put(p1, Write(true, f(got.data).value)), if u.fault == AnswerLost then Unknown else Done)
  }

  function Attempt<T(==)>(p: Place<T>, f: T -> Change<T>, g: Around<T>, u: Around<T>): (Place<T>, Outcome) {
    var p1 := Others(p, g.writes);
    if g.fault != Fine || p1.stored.None? then (p1, Failed) else Update(p1, p1.stored.value, f, u)
  }

  /** As many attempts as there are steps, until one does not end in a conflict. */
  function Retry<T(==)>(p: Place<T>, f: T -> Change<T>, steps: seq<(Around<T>, Around<T>)>): (Place<T>, Outcome)
    decreases |steps|
  {
    if steps == [] then (p, Conflict)
    else
      var (p1, o) := Attempt(p, f, steps[0].0, steps[0].1);
      if o == Conflict then Retry(p1, f, steps[1..]) else (p1, o)
  }

  class Client<T(==)> {
    var place: Place<T>

    constructor (place: Place<T>)
      ensures this.place == place
    {
      this.place := place;
    }

    method OtherWriters(writes: seq<Option<T>>)
      modifies this
      ensures place == Others(old(place), writes)
    {
      for i := 0 to |writes|
        invariant place == Others(old(place), writes[..i])
      {
        assert writes[..i + 1][..i] == writes[..i];
        place := Put(place, Write(false, writes[i]));
      }
      assert writes[..|writes|] == writes;
    }

    method RetryOnConflict(f: T -> Change<T>, steps: seq<(Around<T>, Around<T>)>) returns (o: Outcome)
      modifies this
      ensures (place, o) == Retry(old(place), f, steps)
    {
      o := Conflict;
      var i := 0;
      while i < |steps| && o == Conflict
        invariant 0 <= i <= |steps|
        invariant o == Conflict ==> Retry(place, f, steps[i..]) == Retry(old(place), f, steps)
        invariant o != Conflict ==> (place, o) == Retry(old(place), f, steps)
      {
        var (g, u) := steps[i];
        assert steps[i..][1..] == steps[i + 1..];
        OtherWriters(g.writes);
        if g.fault != Fine || place.stored.None? {
          return Failed;
        }
        var got := place.stored.value;
        var change := f(got.data);
        OtherWriters(u.writes);
        if change.Crash? || u.fault == Refused || place.stored.None? {
          return Failed;
        }
        if place.stored.value.version == got.version {
          place := Put(place, Write(true, change.value));
          return if u.fault == AnswerLost then Unknown else Done;
        }
        i := i + 1;
      }
    }
  }

  // ---- The history ----

  /** What a history leaves in the store. */
  function After<T>(first: Option<T>, log: seq<Write<T>>): Option<T> {
    if log == [] then first else log[|log| - 1].value
  }

  /** The store holds what its history says, and versions are never from the
      future. */
  ghost predicate Coherent<T>(first: Option<T>, p: Place<T>) {
    Value(p) == After(first, p.log) && (p.stored.Some? ==> p.stored.value.version <= p.clock)
  }

  ghost predicate NotOurs<T>(log: seq<Write<T>>) { forall i | 0 <= i < |log| :: !log[i].ours }

  /** The history is longer by other writers' writes, and an object still of the
      version v still has the data d. */
  ghost predicate OnlyOthers<T>(p: Place<T>, p': Place<T>, v: nat, d: T) {
    && p.log <= p'.log && NotOurs(p'.log[|p.log|..])
    && p.clock <= p'.clock
    && (p'.stored.Some? && p'.stored.value.version == v ==> p'.stored.value.data == d)
  }

  lemma {:induction false} OthersOnly<T>(first: Option<T>, p: Place<T>, writes: seq<Option<T>>, v: nat, d: T)
    requires Coherent(first, p) && v <= p.clock
    requires p.stored.Some? && p.stored.value.version == v ==> p.stored.value.data == d
    ensures Coherent(first, Others(p, writes)) && OnlyOthers(p, Others(p, writes), v, d)
  {
    if writes != [] {
      OthersOnly(first, p, writes[..|writes| - 1], v, d);
    }
  }

  /** What the store held just before the last write. */
  function Theirs<T>(first: Option<T>, p: Place<T>): Option<T> {
    if p.log == [] then None else After(first, p.log[..|p.log| - 1])
  }

  /** The history got one write of ours, and that last. */
  ghost predicate OneWrite<T>(p: Place<T>, p': Place<T>) {
    var n := |p'.log| - 1;
    |p.log| <= n && p.log <= p'.log[..n] && NotOurs(p'.log[|p.log|..n]) && p'.log[n].ours
  }

  /** Our one write was made to the object exactly as the writes before it had
      left it. */
  ghost predicate Committed<T>(first: Option<T>, p: Place<T>, p': Place<T>, f: T -> Change<T>) {
    && OneWrite(p, p')
    && Theirs(first, p').Some? && f(Theirs(first, p').value).Hold?
    && Value(p') == f(Theirs(first, p').value).value
  }

  ghost predicate NothingWritten<T>(p: Place<T>, p': Place<T>) {
    p.log <= p'.log && NotOurs(p'.log[|p.log|..])
  }

  /** Read-change-write is atomic under retries: when the client is told that it
      is done, or its answer was lost, its change was applied once, to the object
      as it stood at that moment; otherwise it wrote nothing. */
  lemma {:induction false} RetryIsAtomic<T>(
    first: Option<T>, p: Place<T>, f: T -> Change<T>, steps: seq<(Around<T>, Around<T>)>)
    requires Coherent(first, p)
    ensures var (p', o) := Retry(p, f, steps);
            && Coherent(first, p')
            && (o == Done || o == Unknown ==> Committed(first, p, p', f))
            && (o == Conflict || o == Failed ==> NothingWritten(p, p'))
    decreases |steps|
  {
    if steps != [] {
      var (p1, o) := Attempt(p, f, steps[0].0, steps[0].1);
      AttemptIsAtomic(first, p, f, steps[0].0, steps[0].1);
      if o == Conflict {
        RetryIsAtomic(first, p1, f, steps[1..]);
        var (p', o') := Retry(p1, f, steps[1..]);
        if o' == Done || o' == Unknown {
          OneWriteLater(p, p1, p');
        } else {
          NothingTwice(p, p1, p');
        }
      }
    }
  }

  lemma NothingTwice<T>(p: Place<T>, p1: Place<T>, p2: Place<T>)
    requires NothingWritten(p, p1) && NothingWritten(p1, p2)
    ensures NothingWritten(p, p2)
  {
    forall i | |p.log| <= i < |p2.log| ensures !p2.log[i].ours {
      assert i < |p1.log| ==> !p1.log[|p.log|..][i - |p.log|].ours;
      assert i >= |p1.log| ==> !p2.log[|p1.log|..][i - |p1.log|].ours;
    }
  }

  lemma OneWriteLater<T>(p: Place<T>, p1: Place<T>, p2: Place<T>)
    requires NothingWritten(p, p1) && OneWrite(p1, p2)
    ensures OneWrite(p, p2)
  {
    var n := |p2.log| - 1;
    forall i | |p.log| <= i < n ensures !p2.log[i].ours {
      assert i < |p1.log| ==> !p1.log[|p.log|..][i - |p.log|].ours && p2.log[..n][i] == p1.log[i];
      assert i >= |p1.log| ==> !p2.log[|p1.log|..n][i - |p1.log|].ours;
    }
  }

  /** The write of an attempt: the version proves that what was read is what is
      stored. */
  lemma UpdateIsAtomic<T>(first: Option<T>, p: Place<T>, f: T -> Change<T>, u: Around<T>)
    requires Coherent(first, p) && p.stored.Some?
    ensures var (p', o) := Update(p, p.stored.value, f, u);
            && Coherent(first, p')
            && (o == Done || o == Unknown ==> Committed(first, p, p', f))
            && (o == Conflict || o == Failed ==> NothingWritten(p, p'))
  {
    var got := p.stored.value;
    var p1 := Others(p, u.writes);
    OthersOnly(first, p, u.writes, got.version, got.data);
    var (p', o) := Update(p, got, f, u);
    if o == Done || o == Unknown {
      assert p'.log[..|p'.log| - 1] == p1.log;
    }
  }

  lemma AttemptIsAtomic<T>(first: Option<T>, p: Place<T>, f: T -> Change<T>, g: Around<T>, u: Around<T>)
    requires Coherent(first, p)
    ensures var (p', o) := Attempt(p, f, g, u);
            && Coherent(first, p')
            && (o == Done || o == Unknown ==> Committed(first, p, p', f))
            && (o == Conflict || o == Failed ==> NothingWritten(p, p'))
  {
    var p1 := Others(p, g.writes);
    OthersCoherent(first, p, g.writes);
    if g.fault == Fine && p1.stored.Some? {
      UpdateIsAtomic(first, p1, f, u);
      var (p', o) := Update(p1, p1.stored.value, f, u);
      if o == Done || o == Unknown {
        OneWriteLater(p, p1, p');
      } else {
        NothingTwice(p, p1, p');
      }
    }
  }

  lemma {:induction false} OthersCoherent<T>(first: Option<T>, p: Place<T>, writes: seq<Option<T>>)
    requires Coherent(first, p)
    ensures Coherent(first, Others(p, writes)) && NothingWritten(p, Others(p, writes))
  {
    if writes != [] {
      OthersCoherent(first, p, writes[..|writes| - 1]);
    }
  }

  // ---- Attempts that nobody gets in between ----

  /** An attempt conflicts only if others write between its read and its write, so
      the retry ends at the latest with an attempt in which nobody does. */
  lemma {:induction false} QuietAttemptEnds<T>(
    p: Place<T>, f: T -> Change<T>, steps: seq<(Around<T>, Around<T>)>, i: nat)
    requires i < |steps| && steps[i].1.writes == []
    ensures Retry(p, f, steps).1 != Conflict
    decreases |steps|
  {
    var (p1, o) := Attempt(p, f, steps[0].0, steps[0].1);
    if o == Conflict {
      assert i > 0;
      QuietAttemptEnds(p1, f, steps[1..], i - 1);
    }
  }

  /** Nothing is in the way of an update but others' writes. */
  ghost predicate Unhindered<T(!new)>(f: T -> Change<T>, steps: seq<(Around<T>, Around<T>)>) {
    && (forall d :: f(d).Hold?)
    && forall s | s in steps ::
         s.0.fault == Fine && s.1.fault == Fine && (forall w | w in s.0.writes + s.1.writes :: w.Some?)
  }

  lemma {:induction false} OthersLeaveIt<T>(p: Place<T>, writes: seq<Option<T>>)
    requires p.stored.Some? && forall w | w in writes :: w.Some?
    ensures Others(p, writes).stored.Some?
  {
    if writes != [] {
      OthersLeaveIt(p, writes[..|writes| - 1]);
      assert writes[|writes| - 1] in writes;
    }
  }

  /** Without faults, crashes and deletions it ends in success, or else every
      attempt met a conflict; with one attempt undisturbed it ends in success. */
  lemma {:induction false} UnhinderedSucceeds<T(!new)>(
    p: Place<T>, f: T -> Change<T>, steps: seq<(Around<T>, Around<T>)>)
    requires p.stored.Some? && Unhindered(f, steps)
    ensures Retry(p, f, steps).1 in {Done, Conflict}
    ensures (exists i | 0 <= i < |steps| :: steps[i].1.writes == []) ==> Retry(p, f, steps).1 == Done
    decreases |steps|
  {
    if steps != [] {
      var (g, u) := steps[0];
      assert steps[0] in steps;
      OthersLeaveIt(p, g.writes);
      OthersLeaveIt(Others(p, g.writes), u.writes);
      if Attempt(p, f, g, u).1 == Conflict {
        UnhinderedSucceeds(Attempt(p, f, g, u).0, f, steps[1..]);
      }
    }
    if i :| 0 <= i < |steps| && steps[i].1.writes == [] {
      QuietAttemptEnds(p, f, steps, i);
    }
  }
}
