/** Naming safety over every run: passes of the controller that may stop between
    writes, user edits, and other writers of Argo CD applications.
 */
module ArgoNaming {
  import opened Options
  import opened CommaList
  import opened ArgoStore
  import opened Objects
  import opened ArgoApplication

  predicate Recorded(app: App) { APP_NAME in app.labels }

  /** The Argo CD application that a recorded name stands for. */
  function Named(app: App): Key { Key(Label(app.labels, LOCATION), Label(app.labels, APP_NAME)) }

  /** An Argo CD application that belongs to Application k. */
  predicate BelongsTo(argo: Argo, k: Key) {
    && Label(argo.labels, BACK_NAMESPACE) == k.ns && Label(argo.labels, BACK_NAME) == k.name
    && argo.spec.project == k.ns && !argo.deleting
    && (argo.spec.destination.name == "" || argo.spec.destination.server == "")
  }

  predicate OnlyKnown(fs: seq<string>) { forall f | f in fs :: f == FINALIZER || f == CASCADE }

  ghost predicate AppOk(c: Cluster, k: Key, app: App) {
    && k.ns != "" && k.name != "" && OnlyKnown(app.finalizers)
    && (app.finalizers != [] ==> Recorded(app))
    && (app.deleting ==> app.finalizers != [])
    && (Recorded(app) ==>
          && Named(app).ns != "" && Named(app).name != ""
          && Named(app) in c.argos && BelongsTo(c.argos[Named(app)], k))
  }

  /** What holds in every reachable state. */
  ghost predicate Inv(c: Cluster) { forall k | k in c.apps :: AppOk(c, k, c.apps[k]) }

  /** No two Applications record one name in one Argo CD namespace, and each
      recorded object points back, has its owner's project and at most one kind
      of destination. */
  lemma NamesAreUnique(c: Cluster, j: Key, k: Key)
    requires Inv(c) && j in c.apps && k in c.apps && Recorded(c.apps[j]) && Recorded(c.apps[k])
    requires Named(c.apps[j]) == Named(c.apps[k])
    ensures j == k
  {
    assert AppOk(c, j, c.apps[j]) && AppOk(c, k, c.apps[k]);
  }

  // ---- The steps ----

  datatype Step =
    | Pass(key: Key, suffix: string, writes: nat)
    | CreateApp(key: Key, app: App)
    | EditApp(key: Key, app: App)
    | RequestDelete(key: Key)
    | AddArgo(key: Key, argo: Argo)
    | EditArgo(key: Key, argo: Argo)

  /** A pass over a marked Application does not stop between deleting the Argo CD
      application and releasing the Application. */
  predicate NotTorn(c: Cluster, k: Key, writes: nat) {
    && k in c.apps && c.apps[k].argo.Some? && c.apps[k].deleting
    && Label(c.apps[k].labels, LOCATION) != "" && Target(k, c.apps[k]) in c.argos
    ==> writes != if ArgoFinalizers(c.apps[k].finalizers) == [] then 1 else 2
  }

  /** Users edit anything but the recorded name and, once there is one, its
      location; the finalizers they add are the cascade one and the
      controller's, and they add them only once a name is recorded. Others may
      create Argo CD applications, edit what is not the controller's, and finish
      deletions. */
  ghost predicate Allowed(c: Cluster, s: Step) {
    match s
    case Pass(k, _, writes) => NotTorn(c, k, writes)
    case CreateApp(k, app) =>
      k !in c.apps && k.ns != "" && k.name != "" && app.finalizers == [] && !app.deleting && !Recorded(app)
    case EditApp(k, app) =>
      && k in c.apps && app.deleting == c.apps[k].deleting
      && Recorded(app) == Recorded(c.apps[k])
      && (Recorded(app) ==> Named(app) == Named(c.apps[k]))
      && OnlyKnown(app.finalizers) && (app.finalizers != [] ==> Recorded(app))
    case RequestDelete(k) => k in c.apps
    case AddArgo(k, _) => k !in c.argos
    case EditArgo(k, argo) =>
      && k in c.argos && argo.deleting == c.argos[k].deleting
      && Label(argo.labels, BACK_NAMESPACE) == Label(c.argos[k].labels, BACK_NAMESPACE)
      && Label(argo.labels, BACK_NAME) == Label(c.argos[k].labels, BACK_NAME)
      && argo.spec.project == c.argos[k].spec.project && argo.spec.destination == c.argos[k].spec.destination
  }

  function Take(c: Cluster, s: Step): Cluster
    requires s.RequestDelete? ==> s.key in c.apps
  {
    match s
    case Pass(k, suffix, writes) => Reconcile(c, k, suffix, writes)
    case CreateApp(k, app) => PutApp(c, k, app)
    case EditApp(k, app) => PutApp(c, k, app)
    case RequestDelete(k) => DeleteApp(c, k)
    case AddArgo(k, argo) => PutArgo(c, k, argo)
    case EditArgo(k, argo) => PutArgo(c, k, argo)
  }

  // ---- Each kind of pass keeps the invariant ----

  lemma LabelsSurvive(own: map<string, string>, labels: map<string, string>)
    requires forall key | key in own :: !Contains(key, ARGO_DOMAIN)
    ensures forall key | key in own :: Label(own + ArgoEntries(labels), key) == own[key]
  {}

  lemma BuildLabels(k: Key, labels: map<string, string>)
    ensures Label(OwnLabels(k) + ArgoEntries(labels), BACK_NAMESPACE) == k.ns
    ensures Label(OwnLabels(k) + ArgoEntries(labels), BACK_NAME) == k.name
  {
    OwnKeys();
    KeysDiffer();
    LabelsSurvive(OwnLabels(k), labels);
  }

  lemma BuildBelongs(k: Key, app: App)
    requires app.argo.Some? && k.ns != ""
    ensures BelongsTo(Build(k, InOwnProject(k, app)), k)
  {
    var argo := Build(k, InOwnProject(k, app));
    BuildLabels(k, app.labels);
    assert argo.labels == OwnLabels(k) + ArgoEntries(app.labels);
  }

  lemma RefreshBelongs(current: Argo, k: Key, app: App)
    requires app.argo.Some? && k.ns != "" && BelongsTo(current, k)
    ensures BelongsTo(Refresh(current, Build(k, InOwnProject(k, app))), k)
  {
    var built := Build(k, InOwnProject(k, app));
    OwnKeys();
    OtherLabelStays(current.labels, built.labels, BACK_NAMESPACE);
    OtherLabelStays(current.labels, built.labels, BACK_NAME);
  }

  lemma OtherLabelStays(own: map<string, string>, labels: map<string, string>, key: string)
    requires !Contains(key, ARGO_DOMAIN)
    ensures Label(own + ArgoEntries(labels), key) == Label(own, key)
  {}

  /** Changing one Application leaves the others as they were. */
  lemma PutAppKeeps(c: Cluster, k: Key, app: App)
    requires Inv(c) && ((app.deleting && app.finalizers == []) || AppOk(c, k, app))
    ensures Inv(PutApp(c, k, app))
  {
    var c' := PutApp(c, k, app);
    forall j | j in c'.apps ensures AppOk(c', j, c'.apps[j]) {
      assert j != k ==> AppOk(c, j, c.apps[j]);
    }
  }

  lemma SetProjectKeeps(c: Cluster, k: Key)
    requires Inv(c) && (k in c.apps ==> Recorded(c.apps[k]))
    ensures Inv(SetProject(c, k))
  {
    if k in c.apps && c.apps[k].argo.Some? {
      var app := c.apps[k];
      var app' := InOwnProject(k, app).(finalizers := AddFinalizer(app.finalizers, FINALIZER));
      assert AppOk(c, k, app);
      assert AppOk(c, k, app');
      PutAppKeeps(c, k, app');
    }
  }

  lemma CreateKeeps(c: Cluster, k: Key, target: Key, argo: Argo, writes: nat)
    requires Inv(c) && k in c.apps && BelongsTo(argo, k) && !c.apps[k].deleting
    requires target.ns == Label(c.apps[k].labels, LOCATION) != "" && target.name != ""
    ensures Inv(CreateAs(c, k, target, argo, writes))
  {
    if target !in c.argos && writes > 0 {
      var c1 := c.(argos := c.argos[target := argo]);
      forall j | j in c1.apps ensures AppOk(c1, j, c1.apps[j]) { assert AppOk(c, j, c.apps[j]); }
      if writes > 1 {
        var app := c.apps[k].(labels := c.apps[k].labels[APP_NAME := target.name]);
        assert AppOk(c, k, c.apps[k]);
        assert Named(app) == target;
        PutAppKeeps(c1, k, app);
        if writes > 2 {
          SetProjectKeeps(RecordName(c1, k, target.name), k);
        }
      }
    }
  }

  /** Writing what belongs to k over what k's name stands for disturbs no other. */
  lemma PutOwnKeeps(c: Cluster, k: Key, argo: Argo)
    requires Inv(c) && k in c.apps && Recorded(c.apps[k]) && BelongsTo(argo, k)
    ensures Inv(PutArgo(c, Named(c.apps[k]), argo))
  {
    var target := Named(c.apps[k]);
    var c1 := PutArgo(c, target, argo);
    forall j | j in c1.apps ensures AppOk(c1, j, c1.apps[j]) {
      assert AppOk(c, j, c.apps[j]);
      if Recorded(c.apps[j]) && Named(c.apps[j]) == target { NamesAreUnique(c, j, k); }
    }
  }

  lemma UpdateKeeps(c: Cluster, k: Key, writes: nat)
    requires Inv(c) && k in c.apps && Recorded(c.apps[k]) && c.apps[k].argo.Some?
    ensures Named(c.apps[k]) in c.argos
    ensures Inv(UpdatePass(c, k, Named(c.apps[k]), Build(k, InOwnProject(k, c.apps[k])), writes))
  {
    var app, target := c.apps[k], Named(c.apps[k]);
    assert AppOk(c, k, app);
    RefreshBelongs(c.argos[target], k, app);
    UpdatePassKeeps(c, k, target, Build(k, InOwnProject(k, app)), writes);
  }

  lemma UpdatePassKeeps(c: Cluster, k: Key, target: Key, built: Argo, writes: nat)
    requires Inv(c) && k in c.apps && Recorded(c.apps[k]) && target == Named(c.apps[k]) && target in c.argos
    requires BelongsTo(Refresh(c.argos[target], built), k)
    ensures Inv(UpdatePass(c, k, target, built, writes))
  {
    if writes > 0 {
      var argo := Refresh(c.argos[target], built);
      PutOwnKeeps(c, k, argo);
      if writes > 1 {
        SetProjectKeeps(PutArgo(c, target, argo), k);
      }
    }
  }

  lemma ReleaseEmpties(fs: seq<string>)
    requires OnlyKnown(fs)
    ensures RemoveFinalizer(RemoveFinalizer(fs, FINALIZER), CASCADE) == []
  {
    var once := RemoveFinalizer(fs, FINALIZER);
    RemovedIsGone(fs, FINALIZER);
    RemovedIsGone(once, CASCADE);
    NoMembers(RemoveFinalizer(once, CASCADE));
  }

  lemma NoMembers(fs: seq<string>)
    ensures fs == [] || exists f :: f in fs
  {
    assert fs != [] ==> fs[0] in fs;
  }

  /** An Application whose Argo CD application goes with it leaves no trace. */
  lemma ReleaseKeeps(c: Cluster, c2: Cluster, k: Key)
    requires Inv(c) && k in c.apps && c.apps[k].deleting && Recorded(c.apps[k])
    requires c2.apps == c.apps
    requires forall a | a in c.argos && a != Named(c.apps[k]) :: a in c2.argos && c2.argos[a] == c.argos[a]
    ensures Inv(ReleaseApp(c2, k)) && k !in ReleaseApp(c2, k).apps
  {
    assert AppOk(c, k, c.apps[k]);
    ReleaseEmpties(c.apps[k].finalizers);
    var c3 := ReleaseApp(c2, k);
    forall j | j in c3.apps ensures AppOk(c3, j, c3.apps[j]) {
      assert AppOk(c, j, c.apps[j]);
      if Recorded(c.apps[j]) && Named(c.apps[j]) == Named(c.apps[k]) { NamesAreUnique(c, j, k); }
    }
  }

  /** A pass over a marked Application keeps the invariant exactly when it does
      not stop between the two writes. */
  lemma DeleteKeepsIff(c: Cluster, k: Key, writes: nat)
    requires Inv(c) && k in c.apps && c.apps[k].deleting
    ensures Named(c.apps[k]) in c.argos
    ensures Inv(DeletePass(c, k, Named(c.apps[k]), writes)) <==>
            writes != if ArgoFinalizers(c.apps[k].finalizers) == [] then 1 else 2
  {
    var app, target := c.apps[k], Named(c.apps[k]);
    assert AppOk(c, k, app);
    var fs := ArgoFinalizers(app.finalizers);
    var c1 := if fs == [] then c else PutArgo(c, target, c.argos[target].(finalizers := fs));
    var need := if fs == [] then 1 else 2;
    var c' := DeletePass(c, k, target, writes);
    if writes == 0 {
    } else if writes < need {
      forall j | j in c1.apps ensures AppOk(c1, j, c1.apps[j]) { assert AppOk(c, j, c.apps[j]); }
    } else if writes == need {
      assert c' == DeleteArgo(c1, target);
      assert !AppOk(c', k, c'.apps[k]);
    } else {
      ReleaseKeeps(c, DeleteArgo(c1, target), k);
    }
  }

  lemma PassKeepsIff(c: Cluster, k: Key, suffix: string, writes: nat)
    requires Inv(c)
    ensures Inv(Reconcile(c, k, suffix, writes)) <==> NotTorn(c, k, writes)
  {
    if k in c.apps && c.apps[k].argo.Some? && Label(c.apps[k].labels, LOCATION) != "" {
      var app, target := c.apps[k], Target(k, c.apps[k]);
      assert AppOk(c, k, app);
      if app.deleting {
        DeleteKeepsIff(c, k, writes);
      } else {
        var argo := Build(k, InOwnProject(k, app));
        BuildBelongs(k, app);
        if Recorded(app) {
          UpdateKeeps(c, k, writes);
        } else if target !in c.argos {
          CreateKeeps(c, k, Key(target.ns, k.name), argo, writes);
        } else {
          CreateKeeps(c, k, Key(target.ns, k.name + suffix), argo, writes);
        }
      }
    }
  }

  lemma OtherStepKeeps(c: Cluster, s: Step)
    requires Inv(c) && Allowed(c, s) && !s.Pass?
    ensures Inv(Take(c, s))
  {
    var c' := Take(c, s);
    match s
    case CreateApp(k, app) => PutAppKeeps(c, k, app);
    case EditApp(k, app) =>
      assert AppOk(c, k, c.apps[k]);
      PutAppKeeps(c, k, app);
    case RequestDelete(k) =>
      assert AppOk(c, k, c.apps[k]);
      PutAppKeeps(c, k, c.apps[k].(deleting := true));
    case AddArgo(_, _) | EditArgo(_, _) =>
      forall j | j in c'.apps ensures AppOk(c', j, c'.apps[j]) { assert AppOk(c, j, c.apps[j]); }
  }

  // ---- Runs ----

  ghost predicate IsRun(c: Cluster, ss: seq<Step>)
    decreases |ss|
  {
    ss == [] || (Allowed(c, ss[0]) && IsRun(Take(c, ss[0]), ss[1..]))
  }

  ghost function Final(c: Cluster, ss: seq<Step>): Cluster
    requires IsRun(c, ss)
    decreases |ss|
  {
    if ss == [] then c else Final(Take(c, ss[0]), ss[1..])
  }

  /** Naming safety: from a store without Applications, whatever Argo CD
      applications it holds, every run keeps the invariant. */
  lemma NamingSafety(c: Cluster, ss: seq<Step>)
    requires c.apps == map[] && IsRun(c, ss)
    ensures Inv(Final(c, ss))
  {
    RunKeeps(c, ss);
  }

  lemma {:induction false} RunKeeps(c: Cluster, ss: seq<Step>)
    requires Inv(c) && IsRun(c, ss)
    ensures Inv(Final(c, ss))
    decreases |ss|
  {
    if ss != [] {
      match ss[0] {
        case Pass(k, suffix, writes) => PassKeepsIff(c, k, suffix, writes);
        case _ => OtherStepKeeps(c, ss[0]);
      }
      RunKeeps(Take(c, ss[0]), ss[1..]);
    }
  }

  // ---- What torn deletions and early finalizers lead to ----

  ghost predicate Clash(c: Cluster, j: Key, k: Key) {
    && j != k && j in c.apps && k in c.apps && Recorded(c.apps[j]) && Recorded(c.apps[k])
    && Named(c.apps[j]) == Named(c.apps[k])
  }

  /** Application j owns the Argo CD application that k, with no recorded name,
      would take: the two share a name and a location. */
  ghost predicate Rivals(c: Cluster, j: Key, k: Key) {
    && Inv(c) && j in c.apps && k in c.apps && j != k
    && c.apps[j].argo.Some? && c.apps[k].argo.Some? && !c.apps[k].deleting
    && Recorded(c.apps[j]) && !Recorded(c.apps[k])
    && Named(c.apps[j]) == Key(Label(c.apps[k].labels, LOCATION), k.name)
  }

  /** The pass that deletes j stops after the Argo CD application is gone, and k
      takes its name while j still records it. */
  lemma TornDeletionClashes(c: Cluster, j: Key, k: Key)
    requires Rivals(c, j, k) && c.apps[j].deleting && ArgoFinalizers(c.apps[j].finalizers) == []
    requires c.argos[Named(c.apps[j])].finalizers == []
    ensures Clash(Reconcile(Reconcile(c, j, "", 1), k, "", ALL), j, k)
  {
    var t := Named(c.apps[j]);
    assert AppOk(c, j, c.apps[j]) && AppOk(c, k, c.apps[k]);
    assert Target(j, c.apps[j]) == t && Target(k, c.apps[k]) == t;
    var c1 := Reconcile(c, j, "", 1);
    assert c1 == DeletePass(c, j, t, 1) == DeleteArgo(c, t);
    assert c1.apps == c.apps && t !in c1.argos;
    var c2 := Reconcile(c1, k, "", ALL);
    var argo := Build(k, InOwnProject(k, c.apps[k]));
    assert c2 == CreateAs(c1, k, t, argo, ALL);
  }

  /** Somebody puts finalizers on k and marks it. */
  function MarkedWith(c: Cluster, k: Key, fs: seq<string>): Cluster
    requires k in c.apps
  {
    PutApp(c, k, c.apps[k].(finalizers := fs, deleting := true))
  }

  /** The Argo CD application of j after k has been marked, whatever its
      finalizers, and the pass over it has come to its end. */
  predicate SparedBy(c: Cluster, c': Cluster, j: Key)
    requires j in c.apps && Named(c.apps[j]) in c.argos
  {
    Named(c.apps[j]) in c'.argos && c'.argos[Named(c.apps[j])] == c.argos[Named(c.apps[j])]
  }

  /** Deleting k leaves the Argo CD application of j alone exactly when k has a
      recorded name, or the name it would take is not j's. */
  lemma DeletionSparesIff(c: Cluster, j: Key, k: Key, fs: seq<string>, suffix: string)
    requires Inv(c) && j in c.apps && k in c.apps && j != k && Recorded(c.apps[j])
    requires c.apps[k].argo.Some? && Label(c.apps[k].labels, LOCATION) != "" && fs != [] && OnlyKnown(fs)
    ensures Named(c.apps[j]) in c.argos
    ensures SparedBy(c, Reconcile(MarkedWith(c, k, fs), k, suffix, ALL), j) <==>
            Recorded(c.apps[k]) || Target(k, c.apps[k]) != Named(c.apps[j])
  {
    var app, t := c.apps[k].(finalizers := fs, deleting := true), Target(k, c.apps[k]);
    assert AppOk(c, j, c.apps[j]) && AppOk(c, k, c.apps[k]);
    var c1 := MarkedWith(c, k, fs);
    assert c1 == c.(apps := c.apps[k := app]) && Target(k, app) == t;
    if Recorded(c.apps[k]) && t == Named(c.apps[j]) { NamesAreUnique(c, j, k); }
    MarkedPass(c1, k, t);
    var c', n := Reconcile(c1, k, suffix, ALL), Named(c.apps[j]);
    assert c' == DeletePass(c1, k, t, ALL);
    if n != t {
      assert n in c'.argos - {t} && (c'.argos - {t})[n] == c'.argos[n];
    } else {
      assert !c.argos[n].deleting;
    }
  }

  /** So an early cascade finalizer deletes a rival's object. */
  lemma EarlyCascadeDeletesAnother(c: Cluster, j: Key, k: Key, suffix: string)
    requires Rivals(c, j, k)
    ensures var c' := Reconcile(MarkedWith(c, k, [CASCADE]), k, suffix, ALL);
            Named(c.apps[j]) in c'.argos ==> c'.argos[Named(c.apps[j])].deleting
  {
    var c1, t := MarkedWith(c, k, [CASCADE]), Named(c.apps[j]);
    assert AppOk(c, j, c.apps[j]) && AppOk(c, k, c.apps[k]);
    MarkedPass(c1, k, t);
    assert Reconcile(c1, k, suffix, ALL) == DeletePass(c1, k, t, ALL);
  }

  /** Two stores whose Argo CD applications differ in t at most. */
  predicate SameBut(c: Cluster, c': Cluster, t: Key) { c'.argos - {t} == c.argos - {t} }

  lemma PutSameBut(c: Cluster, t: Key, argo: Argo)
    ensures SameBut(c, PutArgo(c, t, argo), t)
  {}

  lemma MarkedPass(c: Cluster, k: Key, t: Key)
    requires k in c.apps
    ensures var c' := DeletePass(c, k, t, ALL);
            SameBut(c, c', t) && (t in c'.argos ==> c'.argos[t].deleting)
  {
    if t in c.argos {
      var fs := ArgoFinalizers(c.apps[k].finalizers);
      PutSameBut(c, t, c.argos[t].(finalizers := fs));
      var c1 := if fs == [] then c else PutArgo(c, t, c.argos[t].(finalizers := fs));
      PutSameBut(c1, t, c1.argos[t].(deleting := true));
    }
  }

  /** Such rivals exist: two Applications called "x". */
  lemma RivalsExist(wanted: Wanted) returns (c: Cluster, j: Key, k: Key)
    ensures Rivals(c, j, k) && c.apps[j].deleting && ArgoFinalizers(c.apps[j].finalizers) == []
    ensures c.argos[Named(c.apps[j])].finalizers == []
  {
    j, k := Key("a", "x"), Key("b", "x");
    var t := Key("argocd", "x");
    var gone := App(map[LOCATION := t.ns, APP_NAME := t.name], map[], [FINALIZER], true, Some(wanted));
    var live := App(map[LOCATION := t.ns], map[], [], false, Some(wanted));
    KeysDiffer();
    OwnFinalizer();
    assert Label(gone.labels, LOCATION) == t.ns;
    assert Named(gone) == t && Recorded(gone) && !Recorded(live);
    BuildBelongs(j, gone);
    var argo := Build(j, InOwnProject(j, gone)).(finalizers := []);
    c := Cluster(map[j := gone, k := live], map[t := argo]);
    TwoRivals(c, j, k, gone, live, t, argo);
  }

  lemma TwoRivals(c: Cluster, j: Key, k: Key, gone: App, live: App, t: Key, argo: Argo)
    requires c == Cluster(map[j := gone, k := live], map[t := argo])
    requires j != k && j.ns != "" && j.name != "" && k.ns != "" && k.name != "" && t.ns != "" && t.name != ""
    requires gone.finalizers == [FINALIZER] && gone.argo.Some? && Recorded(gone) && Named(gone) == t
    requires live.finalizers == [] && live.argo.Some? && !live.deleting && !Recorded(live)
    requires Key(Label(live.labels, LOCATION), k.name) == t && BelongsTo(argo, j)
    ensures Rivals(c, j, k)
  {
    assert AppOk(c, j, gone) && AppOk(c, k, live);
  }

  lemma OwnFinalizer()
    ensures ArgoFinalizers([FINALIZER]) == []
  {
    OwnKeys();
    assert [FINALIZER][..0] == [];
  }
}
