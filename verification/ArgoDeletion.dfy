/** Deleting an Application, one API call at a time: any number of passes, users
    and other writers interleave, and a pass may end at any point. The passes
    that are followed are those over the marked Application; what live passes
    write, like a newly recorded name, is among the edits.
 */
module ArgoDeletion {
  import opened Options
  import opened ArgoStore
  import opened Objects
  import opened ArgoApplication
  import opened ArgoNaming
  import opened RetryUpdate

  /** The attempts of one retried update. */
  const STEPS := 5

  /** The next call of a pass over a marked Application; t names the Argo CD
      application and fs are the finalizers to copy. */
  datatype Pc =
    | GetArgo(t: Key, fs: seq<string>)
    | CopyGet(t: Key, fs: seq<string>, left: nat)
    | CopyUpdate(t: Key, fs: seq<string>, left: nat, argo: Versioned<Argo>)
    | Delete(t: Key, fs: seq<string>)
    | ReleaseGet(left: nat)
    | ReleaseUpdate(left: nat, app: Versioned<App>)

  /** What has been seen while the marked Application named one object: the object
      absent; the object holding the Application's cascade finalizers; and after
      that, the object gone or marked. */
  datatype Seen = Seen(absent: bool, copied: bool, condemned: bool)

  const NOTHING := Seen(false, false, false)

  datatype State = State(
    app: Option<Versioned<App>>, argos: map<Key, Versioned<Argo>>, clock: nat, workers: map<nat, Pc>, seen: Seen)

  // ---- What the states show ----

  predicate Marked(s: State) { s.app.Some? && s.app.value.data.deleting }

  predicate Absent(s: State, t: Key) { Marked(s) && t !in s.argos }

  predicate Holds(s: State, t: Key) {
    && Marked(s) && t in s.argos
    && forall f | f in ArgoFinalizers(s.app.value.data.finalizers) :: f in s.argos[t].data.finalizers
  }

  predicate Doomed(s: State, t: Key) { Marked(s) && (t !in s.argos || s.argos[t].data.deleting) }

  /** The Argo CD application that the Application names. */
  function Aim(s: State, k: Key): Key { if s.app.Some? then Target(k, s.app.value.data) else k }

  function Observe(s: State, t: Key): State {
    var copied := s.seen.copied || Holds(s, t);
    s.(seen := Seen(s.seen.absent || Absent(s, t), copied, s.seen.condemned || (copied && Doomed(s, t))))
  }

  // ---- The calls ----

  function WriteApp(s: State, app: App): State {
    if app.deleting && app.finalizers == [] then s.(app := None)
    else if s.app.Some? && s.app.value.data == app then s
    else s.(app := Some(Versioned(s.clock + 1, app)), clock := s.clock + 1)
  }

  function WriteArgo(s: State, t: Key, argo: Argo): State {
    if argo.deleting && argo.finalizers == [] then s.(argos := s.argos - {t})
    else if t in s.argos && s.argos[t].data == argo then s
    else s.(argos := s.argos[t := Versioned(s.clock + 1, argo)], clock := s.clock + 1)
  }

  function Goto(s: State, w: nat, pc: Pc): State { s.(workers := s.workers[w := pc]) }

  function Stop(s: State, w: nat): State { s.(workers := s.workers - {w}) }

  /** A pass reads the Application; only the pass over a marked one is followed. */
  function Begin(s: State, w: nat, k: Key): State {
    if s.app.None? then s
    else
      var app := s.app.value.data;
      if app.argo.None? || Label(app.labels, LOCATION) == "" || !app.deleting then s
      else Goto(s, w, GetArgo(Target(k, app), ArgoFinalizers(app.finalizers)))
  }

  /** The next call of pass w, answered from the store as it is. */
  function Call(s: State, w: nat): State
    requires w in s.workers
  {
    match s.workers[w]
    case GetArgo(t, fs) =>
      if t !in s.argos then Goto(s, w, ReleaseGet(STEPS))
      else if fs != [] then Goto(s, w, CopyGet(t, fs, STEPS))
      else Goto(s, w, Delete(t, fs))
    case CopyGet(t, fs, left) =>
      if left == 0 || t !in s.argos then Stop(s, w) else Goto(s, w, CopyUpdate(t, fs, left, s.argos[t]))
    case CopyUpdate(t, fs, left, got) =>
      if t !in s.argos then Stop(s, w)
      else if s.argos[t].version != got.version then Goto(s, w, CopyGet(t, fs, left - if left > 0 then 1 else 0))
      else Goto(WriteArgo(s, t, got.data.(finalizers := fs)), w, Delete(t, fs))
    case Delete(t, fs) =>
      if t !in s.argos then Stop(s, w)
      else Goto(WriteArgo(s, t, s.argos[t].data.(deleting := true)), w, ReleaseGet(STEPS))
    case ReleaseGet(left) =>
      if left == 0 || s.app.None? then Stop(s, w) else Goto(s, w, ReleaseUpdate(left, s.app.value))
    case ReleaseUpdate(left, got) =>
      if s.app.None? then Stop(s, w)
      else if s.app.value.version != got.version then Goto(s, w, ReleaseGet(left - if left > 0 then 1 else 0))
      else
        var fs := RemoveFinalizer(RemoveFinalizer(got.data.finalizers, FINALIZER), CASCADE);
        Stop(WriteApp(s, got.data.(finalizers := fs)), w)
  }

  datatype Step =
    | Start(w: nat)
    | Answer(w: nat)
    | Crash(w: nat)
    | EditApp(edited: App)
    | Mark
    | SetArgo(t: Key, argo: Argo)
    | DropArgo(t: Key)

  /** Users keep the controller's finalizer, and the API server lets nobody add
      finalizers to a marked object. The recorded name and the location stay
      while a pass over the marked Application is under way. Argo CD applications
      may be written and dropped freely. */
  predicate Allowed(s: State, k: Key, st: Step) {
    match st
    case Start(w) => w !in s.workers
    case Answer(w) => w in s.workers
    case Crash(_) => true
    case EditApp(app) =>
      && s.app.Some?
      && var now := s.app.value.data;
         && app.deleting == now.deleting && (s.workers == map[] || Target(k, app) == Target(k, now))
         && (FINALIZER in now.finalizers ==> FINALIZER in app.finalizers)
         && (now.deleting ==> forall f | f in app.finalizers :: f in now.finalizers)
    case Mark => s.app.Some?
    case SetArgo(_, _) => true
    case DropArgo(_) => true
  }

  function Effect(s: State, k: Key, st: Step): State
    requires Allowed(s, k, st)
  {
    match st
    case Start(w) => Begin(s, w, k)
    case Answer(w) => Call(s, w)
    case Crash(w) => Stop(s, w)
    case EditApp(app) => WriteApp(s, app)
    case Mark => WriteApp(s, s.app.value.data.(deleting := true))
    case SetArgo(a, argo) => WriteArgo(s, a, argo)
    case DropArgo(a) => s.(argos := s.argos - {a})
  }

  /** A new target is observed from nothing. */
  function Next(s: State, k: Key, st: Step): State
    requires Allowed(s, k, st)
  {
    var s1 := Effect(s, k, st);
    Observe(if s1.app.Some? && Aim(s1, k) != Aim(s, k) then s1.(seen := NOTHING) else s1, Aim(s1, k))
  }

  // ---- The invariant ----

  /** A read that is not out of date agrees with the store. */
  predicate Current<T(==)>(clock: nat, now: Option<Versioned<T>>, got: Versioned<T>) {
    got.version <= clock && (now.Some? && now.value.version == got.version ==> now.value == got)
  }

  function ArgoAt(s: State, t: Key): Option<Versioned<Argo>> { if t in s.argos then Some(s.argos[t]) else None }

  /** Every cascade finalizer still on the Application is in fs. */
  predicate Covers(s: State, fs: seq<string>) {
    s.app.Some? ==> forall f | f in ArgoFinalizers(s.app.value.data.finalizers) :: f in fs
  }

  predicate Gone(seen: Seen) { seen.absent || seen.condemned }

  /** Where a pass may be; nothing matters once the Application is gone. */
  ghost predicate PcOk(s: State, t: Key, pc: Pc) {
    s.app.Some? ==>
      && s.app.value.data.deleting
      && match pc
         case GetArgo(a, fs) => a == t && Covers(s, fs)
         case CopyGet(a, fs, _) => a == t && fs != [] && Covers(s, fs)
         case CopyUpdate(a, fs, _, got) => a == t && fs != [] && Covers(s, fs) && Current(s.clock, ArgoAt(s, t), got)
         case Delete(a, fs) => a == t && Covers(s, fs) && (fs != [] ==> s.seen.copied)
         case ReleaseGet(_) => Gone(s.seen)
         case ReleaseUpdate(_, got) => Gone(s.seen) && Current(s.clock, s.app, got)
  }

  /** Every state has been observed, versions are from the past, and every pass
      is where its record of what was seen allows it. */
  ghost predicate InvAt(s: State, k: Key, t: Key) {
    && Observe(s, t) == s
    && (s.app.Some? ==> Target(k, s.app.value.data) == t && s.app.value.version <= s.clock)
    && (forall a | a in s.argos :: s.argos[a].version <= s.clock)
    && forall w | w in s.workers :: PcOk(s, t, s.workers[w])
  }

  ghost predicate Inv(s: State, k: Key) { InvAt(s, k, Aim(s, k)) }

  /** What one step may do to the store without disturbing a pass. */
  ghost predicate Calm(s: State, s': State, t: Key) {
    && s.clock <= s'.clock
    && (s.seen.absent ==> s'.seen.absent) && (s.seen.copied ==> s'.seen.copied)
    && (s.seen.condemned ==> s'.seen.condemned)
    && (s'.app.Some? ==> s.app.Some? && (s'.app == s.app || s'.app.value.version > s.clock))
    && (s'.app.Some? && s.app.value.data.deleting ==>
          s'.app.value.data.deleting &&
          forall f | f in s'.app.value.data.finalizers :: f in s.app.value.data.finalizers)
    && (t in s'.argos ==> (t in s.argos && s'.argos[t] == s.argos[t]) || s'.argos[t].version > s.clock)
  }

  /** Other passes stay where they may be. */
  lemma CalmKeeps(s: State, s': State, t: Key, pc: Pc)
    requires Calm(s, s', t) && PcOk(s, t, pc)
    ensures PcOk(s', t, pc)
  {
    if s'.app.Some? {
      forall f ensures f in ArgoFinalizers(s'.app.value.data.finalizers) ==>
                       f in ArgoFinalizers(s.app.value.data.finalizers) {
        ArgoFinalizersIn(s'.app.value.data.finalizers, f);
        ArgoFinalizersIn(s.app.value.data.finalizers, f);
      }
    }
  }

  /** A step that disturbs no other pass and puts its own where it may be keeps
      the invariant. */
  lemma StepKeeps(s: State, s1: State, k: Key, t: Key, w: nat)
    requires InvAt(s, k, t) && Calm(s, Observe(s1, t), t)
    requires s1.app.Some? ==> Target(k, s1.app.value.data) == t && s1.app.value.version <= s1.clock
    requires forall a | a in s1.argos :: s1.argos[a].version <= s1.clock
    requires forall v | v in s1.workers && v != w :: v in s.workers && s1.workers[v] == s.workers[v]
    requires w in s1.workers ==> PcOk(Observe(s1, t), t, s1.workers[w])
    ensures InvAt(Observe(s1, t), k, t)
  {
    var s' := Observe(s1, t);
    forall v | v in s'.workers ensures PcOk(s', t, s'.workers[v]) {
      if v != w { CalmKeeps(s, s', t, s.workers[v]); }
    }
  }

  /** A step of somebody else, or the end of a pass. */
  lemma OtherKeeps(s: State, s1: State, k: Key, t: Key)
    requires InvAt(s, k, t) && Calm(s, Observe(s1, t), t)
    requires s1.app.Some? ==> Target(k, s1.app.value.data) == t && s1.app.value.version <= s1.clock
    requires forall a | a in s1.argos :: s1.argos[a].version <= s1.clock
    requires forall v | v in s1.workers :: v in s.workers && s1.workers[v] == s.workers[v]
    ensures InvAt(Observe(s1, t), k, t)
  {
    var s' := Observe(s1, t);
    forall v | v in s'.workers ensures PcOk(s', t, s'.workers[v]) {
      CalmKeeps(s, s', t, s.workers[v]);
    }
  }

  lemma EditKeeps(s: State, k: Key, t: Key, app: App)
    requires InvAt(s, k, t) && Allowed(s, k, Step.EditApp(app)) && Target(k, app) == t
    ensures InvAt(Observe(WriteApp(s, app), t), k, t)
  {
    OtherKeeps(s, WriteApp(s, app), k, t);
  }

  lemma MarkKeeps(s: State, k: Key, t: Key)
    requires InvAt(s, k, t) && s.app.Some?
    ensures InvAt(Observe(WriteApp(s, s.app.value.data.(deleting := true)), t), k, t)
  {
    OtherKeeps(s, WriteApp(s, s.app.value.data.(deleting := true)), k, t);
  }

  lemma SetArgoKeeps(s: State, k: Key, t: Key, a: Key, argo: Argo)
    requires InvAt(s, k, t)
    ensures InvAt(Observe(WriteArgo(s, a, argo), t), k, t)
  {
    OtherKeeps(s, WriteArgo(s, a, argo), k, t);
  }

  /** A new target, which no pass is about. */
  lemma RetargetKeeps(s: State, k: Key, t: Key, app: App)
    requires InvAt(s, k, t) && Allowed(s, k, Step.EditApp(app)) && Target(k, app) != t
    ensures Inv(Next(s, k, Step.EditApp(app)), k)
  {}

  lemma BeginKeeps(s: State, k: Key, t: Key, w: nat)
    requires InvAt(s, k, t) && w !in s.workers
    ensures InvAt(Observe(Begin(s, w, k), t), k, t)
  {
    StepKeeps(s, Begin(s, w, k), k, t, w);
  }

  lemma ReleasedSubset(fs: seq<string>)
    ensures forall f | f in RemoveFinalizer(RemoveFinalizer(fs, FINALIZER), CASCADE) :: f in fs
  {
    RemovedIsGone(fs, FINALIZER);
    RemovedIsGone(RemoveFinalizer(fs, FINALIZER), CASCADE);
  }

  lemma ReleaseGetKeeps(s: State, k: Key, t: Key, w: nat)
    requires InvAt(s, k, t) && w in s.workers && s.workers[w].ReleaseGet?
    ensures InvAt(Observe(Call(s, w), t), k, t)
  {
    assert PcOk(s, t, s.workers[w]);
    StepKeeps(s, Call(s, w), k, t, w);
  }

  lemma ReleaseUpdateKeeps(s: State, k: Key, t: Key, w: nat)
    requires InvAt(s, k, t) && w in s.workers && s.workers[w].ReleaseUpdate?
    ensures InvAt(Observe(Call(s, w), t), k, t)
  {
    var pc := s.workers[w];
    assert PcOk(s, t, pc);
    if s.app.Some? && s.app.value.version == pc.app.version {
      assert pc.app == s.app.value;
      Released(s, k, t, w);
    } else {
      StepKeeps(s, Call(s, w), k, t, w);
    }
  }

  lemma Released(s: State, k: Key, t: Key, w: nat)
    requires InvAt(s, k, t) && s.app.Some? && s.app.value.data.deleting
    ensures var app := s.app.value.data;
            var fs := RemoveFinalizer(RemoveFinalizer(app.finalizers, FINALIZER), CASCADE);
            InvAt(Observe(Stop(WriteApp(s, app.(finalizers := fs)), w), t), k, t)
  {
    var app := s.app.value.data;
    var fs := RemoveFinalizer(RemoveFinalizer(app.finalizers, FINALIZER), CASCADE);
    ReleasedSubset(app.finalizers);
    OtherKeeps(s, Stop(WriteApp(s, app.(finalizers := fs)), w), k, t);
  }

  lemma CopyGetKeeps(s: State, k: Key, t: Key, w: nat)
    requires InvAt(s, k, t) && w in s.workers && s.workers[w].CopyGet?
    ensures InvAt(Observe(Call(s, w), t), k, t)
  {
    assert PcOk(s, t, s.workers[w]);
    StepKeeps(s, Call(s, w), k, t, w);
  }

  lemma CopyUpdateKeeps(s: State, k: Key, t: Key, w: nat)
    requires InvAt(s, k, t) && w in s.workers && s.workers[w].CopyUpdate?
    ensures InvAt(Observe(Call(s, w), t), k, t)
  {
    var s1, pc := Call(s, w), s.workers[w];
    assert PcOk(s, t, pc);
    if s.app.Some? && t in s.argos && s.argos[t].version == pc.argo.version {
      assert s1.argos[t].data.finalizers == pc.fs;
      assert Holds(s1, t);
    }
    StepKeeps(s, s1, k, t, w);
  }

  lemma GetArgoKeeps(s: State, k: Key, t: Key, w: nat)
    requires InvAt(s, k, t) && w in s.workers && s.workers[w].GetArgo?
    ensures InvAt(Observe(Call(s, w), t), k, t)
  {
    assert PcOk(s, t, s.workers[w]);
    StepKeeps(s, Call(s, w), k, t, w);
  }

  lemma DeleteKeeps(s: State, k: Key, t: Key, w: nat)
    requires InvAt(s, k, t) && w in s.workers && s.workers[w].Delete?
    ensures InvAt(Observe(Call(s, w), t), k, t)
  {
    var s1, pc := Call(s, w), s.workers[w];
    assert PcOk(s, t, pc);
    if s.app.Some? && t in s.argos {
      assert pc.fs == [] ==> Holds(s, t);
      assert Doomed(s1, t);
    }
    StepKeeps(s, s1, k, t, w);
  }

  lemma CallKeeps(s: State, k: Key, t: Key, w: nat)
    requires InvAt(s, k, t) && w in s.workers
    ensures InvAt(Observe(Call(s, w), t), k, t)
  {
    match s.workers[w]
    case GetArgo(_, _) => GetArgoKeeps(s, k, t, w);
    case Delete(_, _) => DeleteKeeps(s, k, t, w);
    case CopyGet(_, _, _) => CopyGetKeeps(s, k, t, w);
    case CopyUpdate(_, _, _, _) => CopyUpdateKeeps(s, k, t, w);
    case ReleaseGet(_) => ReleaseGetKeeps(s, k, t, w);
    case ReleaseUpdate(_, _) => ReleaseUpdateKeeps(s, k, t, w);
  }

  /** What happens around the Application and its passes, the target aside. */
  lemma EffectKeeps(s: State, k: Key, t: Key, st: Step)
    requires InvAt(s, k, t) && Allowed(s, k, st) && (st.EditApp? ==> Target(k, st.edited) == t)
    ensures InvAt(Observe(Effect(s, k, st), t), k, t)
  {
    match st
    case Start(w) => BeginKeeps(s, k, t, w);
    case Answer(w) => CallKeeps(s, k, t, w);
    case EditApp(app) => EditKeeps(s, k, t, app);
    case Mark => MarkKeeps(s, k, t);
    case Crash(w) => OtherKeeps(s, Stop(s, w), k, t);
    case SetArgo(a, argo) => SetArgoKeeps(s, k, t, a, argo);
    case DropArgo(a) => OtherKeeps(s, s.(argos := s.argos - {a}), k, t);
  }

  lemma NextKeeps(s: State, k: Key, st: Step)
    requires Inv(s, k) && Allowed(s, k, st)
    ensures Inv(Next(s, k, st), k)
  {
    var t := Aim(s, k);
    if st.EditApp? && Target(k, st.edited) != t {
      RetargetKeeps(s, k, t, st.edited);
    } else {
      EffectKeeps(s, k, t, st);
    }
  }

  // ---- Runs ----

  ghost predicate IsRun(ss: seq<State>, sts: seq<Step>, k: Key) {
    && |ss| == |sts| + 1
    && forall i | 0 <= i < |sts| :: Allowed(ss[i], k, sts[i]) && ss[i + 1] == Next(ss[i], k, sts[i])
  }

  /** Any Application, live or marked, before any pass over it. */
  ghost predicate Initial(s: State, k: Key) {
    && (s.app.Some? ==> s.app.value.version <= s.clock) && (forall a | a in s.argos :: s.argos[a].version <= s.clock)
    && s.workers == map[] && s == Observe(s.(seen := NOTHING), Aim(s, k))
  }

  predicate HasFinalizer(s: State) { s.app.Some? && FINALIZER in s.app.value.data.finalizers }

  /** At some state up to n the marked Application's object was absent, or it held
      the cascade finalizers and then, at a state up to n, was gone or marked. */
  ghost predicate InOrder(ss: seq<State>, t: Key, n: nat)
    requires n < |ss|
  {
    || (exists i | 0 <= i <= n :: Absent(ss[i], t))
    || (exists i, j | 0 <= i <= j <= n :: Holds(ss[i], t) && Doomed(ss[j], t))
  }

  ghost predicate HeldBy(ss: seq<State>, t: Key, n: nat)
    requires n < |ss|
  {
    exists i | 0 <= i <= n :: Holds(ss[i], t)
  }

  /** The record of what was seen of t tells the truth. */
  ghost predicate Truthful(ss: seq<State>, t: Key, n: nat)
    requires n < |ss|
  {
    (ss[n].seen.copied ==> HeldBy(ss, t, n)) && (Gone(ss[n].seen) ==> InOrder(ss, t, n))
  }

  /** One state further, the record goes on or starts from nothing. */
  lemma SeenStep(ss: seq<State>, t: Key, n: nat, s1: State)
    requires n < |ss| && ss[n] == Observe(s1, t)
    requires s1.seen == NOTHING || (n > 0 && s1.seen == ss[n - 1].seen && Truthful(ss, t, n - 1))
    ensures Truthful(ss, t, n)
  {
    var s := ss[n];
    assert Holds(s, t) ==> HeldBy(ss, t, n);
    assert Absent(s, t) ==> InOrder(ss, t, n);
    if s.seen.copied && Doomed(s, t) {
      var i :| 0 <= i <= n && Holds(ss[i], t);
      assert Holds(ss[i], t) && Doomed(ss[n], t);
    }
  }

  lemma EffectUnseen(s: State, k: Key, st: Step)
    requires Allowed(s, k, st)
    ensures Effect(s, k, st).seen == s.seen && (Effect(s, k, st).app.Some? ==> s.app.Some?)
  {}

  lemma {:induction false} SeenIsTrue(ss: seq<State>, sts: seq<Step>, k: Key, n: nat)
    requires IsRun(ss, sts, k) && Initial(ss[0], k) && n < |ss|
    ensures ss[n].app.Some? ==> Truthful(ss, Aim(ss[n], k), n)
    ensures Inv(ss[n], k)
  {
    if n == 0 {
      SeenStep(ss, Aim(ss[0], k), 0, ss[0].(seen := NOTHING));
    } else {
      SeenIsTrue(ss, sts, k, n - 1);
      assert ss[n - 1 + 1] == Next(ss[n - 1], k, sts[n - 1]);
      NextKeeps(ss[n - 1], k, sts[n - 1]);
      SeenNext(ss, k, n, sts[n - 1]);
    }
  }

  lemma SeenNext(ss: seq<State>, k: Key, n: nat, st: Step)
    requires 0 < n < |ss| && Allowed(ss[n - 1], k, st) && ss[n] == Next(ss[n - 1], k, st)
    requires ss[n - 1].app.Some? ==> Truthful(ss, Aim(ss[n - 1], k), n - 1)
    ensures ss[n].app.Some? ==> Truthful(ss, Aim(ss[n], k), n)
  {
    var s, s1 := ss[n - 1], Effect(ss[n - 1], k, st);
    EffectUnseen(s, k, st);
    if s1.app.Some? {
      SeenStep(ss, Aim(s1, k), n, if Aim(s1, k) != Aim(s, k) then s1.(seen := NOTHING) else s1);
    }
  }

  /** Only a pass that has seen the object off removes the finalizer. */
  lemma ReleaseNeedsGone(s: State, k: Key, st: Step)
    requires Inv(s, k) && Allowed(s, k, st) && HasFinalizer(s) && !HasFinalizer(Next(s, k, st))
    ensures Marked(s) && Gone(s.seen)
  {
    match st
    case Answer(w) => assert PcOk(s, Aim(s, k), s.workers[w]);
    case _ =>
  }

  /** Deletion ordering: in every run, the step that takes the controller's
      finalizer off the Application comes after the deletion request, and after
      the object that it names was absent, or held the cascade finalizers and was
      then gone or marked. */
  lemma DeletionOrdering(ss: seq<State>, sts: seq<Step>, k: Key, n: nat)
    requires IsRun(ss, sts, k) && Initial(ss[0], k) && n < |sts|
    requires HasFinalizer(ss[n]) && !HasFinalizer(ss[n + 1])
    ensures Marked(ss[n]) && InOrder(ss, Target(k, ss[n].app.value.data), n)
  {
    SeenIsTrue(ss, sts, k, n);
    ReleaseNeedsGone(ss[n], k, sts[n]);
  }

  // ---- An undisturbed pass ----

  /** The store of the one-step pass: the same objects without their versions. */
  ghost predicate Shows(c: Cluster, s: State, k: Key) {
    && c.apps == (if s.app.Some? then map[k := s.app.value.data] else map[])
    && c.argos.Keys == s.argos.Keys && forall a | a in s.argos :: c.argos[a] == s.argos[a].data
  }

  /** The state after n more calls of a pass. */
  function Calls(s: State, w: nat, n: nat): State
    decreases n
  {
    if n == 0 || w !in s.workers then s else Calls(Call(s, w), w, n - 1)
  }

  ghost predicate Reaches(s: State, w: nat, s': State) { exists n :: Calls(s, w, n) == s' }

  lemma ReachesNext(s: State, w: nat)
    requires w in s.workers
    ensures Reaches(s, w, Call(s, w))
  {
    assert Calls(s, w, 1) == Calls(Call(s, w), w, 0);
  }

  lemma {:induction false} CallsAdd(s: State, w: nat, m: nat, n: nat)
    ensures Calls(s, w, m + n) == Calls(Calls(s, w, m), w, n)
    decreases m
  {
    if m > 0 && w in s.workers {
      CallsAdd(Call(s, w), w, m - 1, n);
    }
  }

  lemma ReachesOn(s: State, w: nat, s1: State, s2: State)
    requires Reaches(s, w, s1) && Reaches(s1, w, s2)
    ensures Reaches(s, w, s2)
  {
    var m :| Calls(s, w, m) == s1;
    var n :| Calls(s1, w, n) == s2;
    CallsAdd(s, w, m, n);
  }

  lemma ReachesTwo(s: State, w: nat)
    requires w in s.workers && w in Call(s, w).workers
    ensures Reaches(s, w, Call(Call(s, w), w))
  {
    ReachesNext(s, w);
    ReachesNext(Call(s, w), w);
    ReachesOn(s, w, Call(s, w), Call(Call(s, w), w));
  }

  lemma WriteArgoShows(c: Cluster, s: State, k: Key, t: Key, argo: Argo)
    requires Shows(c, s, k)
    ensures Shows(PutArgo(c, t, argo), WriteArgo(s, t, argo), k)
  {}

  lemma WriteAppShows(c: Cluster, s: State, k: Key, app: App)
    requires Shows(c, s, k)
    ensures Shows(PutApp(c, k, app), WriteApp(s, app), k)
  {}

  /** The two calls that copy the finalizers. */
  lemma CopyCalls(c: Cluster, s: State, k: Key, w: nat, t: Key, fs: seq<string>) returns (s': State)
    requires Shows(c, s, k) && w in s.workers && s.workers[w] == CopyGet(t, fs, STEPS) && t in s.argos
    ensures Reaches(s, w, s') && s'.app == s.app && w in s'.workers && s'.workers[w] == Delete(t, fs)
    ensures Shows(PutArgo(c, t, c.argos[t].(finalizers := fs)), s', k)
  {
    var s1 := Call(s, w);
    s' := Call(s1, w);
    ReachesTwo(s, w);
    WriteArgoShows(c, s1, k, t, s.argos[t].data.(finalizers := fs));
  }

  lemma DeleteCall(c: Cluster, s: State, k: Key, w: nat, t: Key, fs: seq<string>) returns (s': State)
    requires Shows(c, s, k) && w in s.workers && s.workers[w] == Delete(t, fs) && t in s.argos
    ensures Reaches(s, w, s') && s'.app == s.app && w in s'.workers && s'.workers[w] == ReleaseGet(STEPS)
    ensures Shows(DeleteArgo(c, t), s', k)
  {
    s' := Call(s, w);
    ReachesNext(s, w);
    WriteArgoShows(c, s, k, t, s.argos[t].data.(deleting := true));
  }

  lemma ReleaseCalls(c: Cluster, s: State, k: Key, w: nat) returns (s': State)
    requires Shows(c, s, k) && w in s.workers && s.workers[w] == ReleaseGet(STEPS) && s.app.Some?
    ensures Reaches(s, w, s') && w !in s'.workers && Shows(ReleaseApp(c, k), s', k)
  {
    var s1, app := Call(s, w), s.app.value.data;
    s' := Call(s1, w);
    ReachesTwo(s, w);
    WriteAppShows(c, s1, k, app.(finalizers := RemoveFinalizer(RemoveFinalizer(app.finalizers, FINALIZER), CASCADE)));
  }

  /** The calls from the deletion of the object on. */
  lemma DeleteCalls(c: Cluster, s: State, k: Key, w: nat, t: Key, fs: seq<string>) returns (s': State)
    requires Shows(c, s, k) && w in s.workers && s.workers[w] == Delete(t, fs) && t in s.argos && s.app.Some?
    ensures Reaches(s, w, s') && w !in s'.workers && Shows(ReleaseApp(DeleteArgo(c, t), k), s', k)
  {
    var s1 := DeleteCall(c, s, k, w, t, fs);
    s' := ReleaseCalls(DeleteArgo(c, t), s1, k, w);
    ReachesOn(s, w, s1, s');
  }

  /** The calls after the object was found. */
  lemma FoundCalls(c: Cluster, s: State, k: Key, w: nat, t: Key, fs: seq<string>, c1: Cluster) returns (s': State)
    requires Shows(c, s, k) && s.app.Some? && w in s.workers && t in s.argos
    requires s.workers[w] == if fs == [] then Delete(t, fs) else CopyGet(t, fs, STEPS)
    requires c1 == if fs == [] then c else PutArgo(c, t, c.argos[t].(finalizers := fs))
    ensures Reaches(s, w, s') && w !in s'.workers && t in c1.argos && Shows(ReleaseApp(DeleteArgo(c1, t), k), s', k)
  {
    if fs == [] {
      s' := DeleteCalls(c, s, k, w, t, fs);
    } else {
      var s1 := CopyCalls(c, s, k, w, t, fs);
      assert t in c1.argos;
      s' := DeleteCalls(c1, s1, k, w, t, fs);
      ReachesOn(s, w, s1, s');
    }
  }

  /** A pass over a marked Application that nobody disturbs does what it does in
      one go. */
  lemma WholePassDeletes(c: Cluster, s: State, w: nat, k: Key, suffix: string) returns (s': State)
    requires Shows(c, s, k) && w !in s.workers && Marked(s) && s.app.value.data.argo.Some?
    requires Label(s.app.value.data.labels, LOCATION) != ""
    ensures Reaches(Begin(s, w, k), w, s') && w !in s'.workers && Shows(Reconcile(c, k, suffix, ALL), s', k)
  {
    var app := s.app.value.data;
    var t, fs := Target(k, app), ArgoFinalizers(app.finalizers);
    var s0 := Begin(s, w, k);
    var s1 := Call(s0, w);
    ReachesNext(s0, w);
    assert c.apps[k] == app;
    if t in s.argos {
      var c1 := if fs == [] then c else PutArgo(c, t, c.argos[t].(finalizers := fs));
      s' := FoundCalls(c, s1, k, w, t, fs, c1);
    } else {
      s' := ReleaseCalls(c, s1, k, w);
    }
    ReachesOn(s0, w, s1, s');
    PassOnCluster(c, k, suffix);
  }

  lemma PassOnCluster(c: Cluster, k: Key, suffix: string)
    requires k in c.apps && c.apps[k].argo.Some? && c.apps[k].deleting && Label(c.apps[k].labels, LOCATION) != ""
    ensures var t, fs := Target(k, c.apps[k]), ArgoFinalizers(c.apps[k].finalizers);
            var c1 := if fs == [] || t !in c.argos then c else PutArgo(c, t, c.argos[t].(finalizers := fs));
            Reconcile(c, k, suffix, ALL) ==
            if t !in c.argos then ReleaseApp(c, k)
            else if t in c1.argos then ReleaseApp(DeleteArgo(c1, t), k)
            else c1
  {}
}
