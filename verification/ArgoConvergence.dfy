/** Convergence: with nobody else writing, the passes over one live Application
    settle, and it is known exactly which stores a pass leaves alone.
 */
module ArgoConvergence {
  import opened Options
  import opened CommaList
  import opened ArgoStore
  import opened Objects
  import opened ArgoApplication
  import opened ArgoNaming

  predicate Live(c: Cluster, k: Key) {
    && k in c.apps && c.apps[k].argo.Some? && !c.apps[k].deleting
    && Label(c.apps[k].labels, LOCATION) != ""
  }

  function OwnName(c: Cluster, k: Key): Key
    requires Live(c, k)
  {
    Key(Label(c.apps[k].labels, LOCATION), k.name)
  }

  function Aim(c: Cluster, k: Key): Key
    requires Live(c, k)
  {
    Target(k, c.apps[k])
  }

  function Built(k: Key, app: App): Argo
    requires app.argo.Some?
  {
    Build(k, InOwnProject(k, app))
  }

  /** A generated name is unused. */
  predicate Fresh(c: Cluster, k: Key, suffix: string)
    requires Live(c, k)
  {
    Aim(c, k) in c.argos && !Recorded(c.apps[k]) ==> Key(Aim(c, k).ns, k.name + suffix) !in c.argos
  }

  /** The Application is in its project with the finalizer. */
  predicate AppSettled(k: Key, app: App) {
    app.argo.Some? && app.argo.value.spec.project == k.ns && FINALIZER in app.finalizers
  }

  /** What the Application wants is in the object: the project, at most one kind
      of destination, of which the name wins, the rest and the operation, and the
      finalizers that Argo CD understands. */
  predicate SpecWanted(k: Key, app: App, argo: Argo)
    requires app.argo.Some?
  {
    var want, to := app.argo.value, argo.spec.destination;
    && argo.spec.project == (if k.ns == "" then "default" else k.ns)
    && argo.spec.rest == want.spec.rest && argo.operation == want.operation
    && to.name == want.spec.destination.name
    && to.server == (if to.name != "" then "" else want.spec.destination.server)
    && argo.finalizers == ArgoFinalizers(app.finalizers)
  }

  /** The supported entries of a map are in another one. */
  ghost predicate Supported(m: map<string, string>, r: map<string, string>) {
    forall x {:trigger Contains(x, ARGO_DOMAIN)} | x in m && Contains(x, ARGO_DOMAIN) :: x in r && r[x] == m[x]
  }

  ghost predicate UpToDate(k: Key, app: App, argo: Argo)
    requires app.argo.Some?
  {
    SpecWanted(k, app, argo) && Supported(app.labels, argo.labels) && Supported(app.annotations, argo.annotations)
  }

  /** The named object exists and is up to date. */
  ghost predicate Settled(c: Cluster, k: Key)
    requires Live(c, k)
  {
    var app := c.apps[k];
    && Recorded(app) && AppSettled(k, app)
    && Aim(c, k) in c.argos
    && UpToDate(k, app, c.argos[Aim(c, k)])
    && (c.argos[Aim(c, k)].deleting ==> c.argos[Aim(c, k)].finalizers != [])
  }

  /** The named object is missing, and the Application's own name is taken. */
  predicate Blocked(c: Cluster, k: Key)
    requires Live(c, k)
  {
    Aim(c, k) !in c.argos && OwnName(c, k) in c.argos
  }

  /** The update takes away the last finalizer of an object that is marked for
      deletion, so it is gone after the pass. */
  predicate Vanishes(c: Cluster, k: Key)
    requires Live(c, k)
  {
    && Recorded(c.apps[k]) && Aim(c, k) in c.argos && c.argos[Aim(c, k)].deleting
    && ArgoFinalizers(c.apps[k].finalizers) == []
  }

  function Pass(c: Cluster, k: Key, suffix: string): Cluster { Reconcile(c, k, suffix, ALL) }

  // ---- A built object does not depend on what the pass writes ----

  lemma FinalizersIgnore(fs: seq<string>, f: string)
    requires !EndsWith(f, ARGO_SUFFIX)
    ensures ArgoFinalizers(AddFinalizer(fs, f)) == ArgoFinalizers(fs)
  {
    if f !in fs {
      assert (fs + [f])[..|fs|] == fs;
    }
  }

  /** The Application as a pass that records a name leaves it. */
  function Renamed(k: Key, app: App, name: string): App
    requires app.argo.Some?
  {
    Kept(k, app.(labels := app.labels[APP_NAME := name]))
  }

  /** The Application as a pass that updates leaves it. */
  function Kept(k: Key, app: App): App
    requires app.argo.Some?
  {
    InOwnProject(k, app).(finalizers := AddFinalizer(app.finalizers, FINALIZER))
  }

  lemma BuiltKept(k: Key, app: App)
    requires app.argo.Some?
    ensures Built(k, Kept(k, app)) == Built(k, app)
  {
    OwnKeys();
    FinalizersIgnore(app.finalizers, FINALIZER);
  }

  lemma EntriesIgnore(m: map<string, string>, key: string, value: string)
    requires forall x | x in {key} :: !Contains(x, ARGO_DOMAIN)
    ensures ArgoEntries(m[key := value]) == ArgoEntries(m)
  {}

  lemma BuiltNamed(k: Key, app: App, name: string)
    requires app.argo.Some?
    ensures Built(k, Renamed(k, app, name)) == Built(k, app)
  {
    var app1 := app.(labels := app.labels[APP_NAME := name]);
    BuiltKept(k, app1);
    NameIsOwnKey();
    EntriesIgnore(app.labels, APP_NAME, name);
  }

  lemma NameIsOwnKey()
    ensures forall key | key in {APP_NAME} :: !Contains(key, ARGO_DOMAIN)
  {
    OwnKeys();
  }

  // ---- What up to date means, independently of how an object is updated ----

  /** A built object is up to date, and so is an updated one. */
  lemma BuiltIsUpToDate(k: Key, app: App)
    requires app.argo.Some?
    ensures UpToDate(k, app, Built(k, app))
  {
    OwnKeys();
  }

  lemma MergedSupports(own: map<string, string>, m: map<string, string>, built: map<string, string>)
    requires forall x | Contains(x, ARGO_DOMAIN) :: (x in built <==> x in m) && (x in m ==> built[x] == m[x])
    ensures Supported(m, own + ArgoEntries(built))
    ensures own + ArgoEntries(built) == own <==> Supported(m, own)
  {
    var r := own + ArgoEntries(built);
    if Supported(m, own) {
      assert r == own;
    }
  }

  lemma BuiltEntries(k: Key, app: App)
    requires app.argo.Some?
    ensures var built := Built(k, app);
            forall x | Contains(x, ARGO_DOMAIN) ::
              && (x in built.labels <==> x in app.labels) && (x in app.labels ==> built.labels[x] == app.labels[x])
              && (x in built.annotations <==> x in app.annotations)
              && (x in app.annotations ==> built.annotations[x] == app.annotations[x])
  {
    BuildMetaMeans(k, InOwnProject(k, app), Built(k, app));
  }

  /** An object is left alone by an update exactly when it is up to date. */
  lemma RefreshedIff(k: Key, app: App, current: Argo)
    requires app.argo.Some?
    ensures UpToDate(k, app, Refresh(current, Built(k, app)))
    ensures Refresh(current, Built(k, app)) == current <==> UpToDate(k, app, current)
  {
    var built := Built(k, app);
    BuiltEntries(k, app);
    MergedSupports(current.labels, app.labels, built.labels);
    MergedSupports(current.annotations, app.annotations, built.annotations);
  }

  /** Nor does it depend on what the pass writes on the Application. */
  lemma UpToDateKept(k: Key, app: App, argo: Argo)
    requires app.argo.Some?
    ensures UpToDate(k, Kept(k, app), argo) <==> UpToDate(k, app, argo)
  {
    OwnKeys();
    FinalizersIgnore(app.finalizers, FINALIZER);
  }

  lemma UpToDateNamed(k: Key, app: App, name: string, argo: Argo)
    requires app.argo.Some?
    ensures UpToDate(k, Renamed(k, app, name), argo) <==> UpToDate(k, app, argo)
  {
    var app1 := app.(labels := app.labels[APP_NAME := name]);
    UpToDateKept(k, app1, argo);
    NameIsOwnKey();
    SupportedIgnores(app.labels, APP_NAME, name, argo.labels);
    assert SpecWanted(k, app1, argo) == SpecWanted(k, app, argo);
  }

  lemma SupportedIgnores(m: map<string, string>, key: string, value: string, r: map<string, string>)
    requires forall x | x in {key} :: !Contains(x, ARGO_DOMAIN)
    ensures Supported(m[key := value], r) <==> Supported(m, r)
  {
    if Supported(m[key := value], r) {
      forall x | x in m && Contains(x, ARGO_DOMAIN) ensures x in r && r[x] == m[x] {
        assert x in m[key := value] && m[key := value][x] == m[x];
      }
    }
  }

  lemma SettledAt(c: Cluster, k: Key, app: App, t: Key, argo: Argo)
    requires k in c.apps && c.apps[k] == app && t in c.argos && c.argos[t] == argo
    requires app.argo.Some? && !app.deleting && t == Target(k, app) && t.ns != "" && Recorded(app)
    requires AppSettled(k, app)
    ensures Live(c, k) && (Settled(c, k) <==> UpToDate(k, app, argo) && (argo.deleting ==> argo.finalizers != []))
  {}

  lemma KeptIsSettled(k: Key, app: App)
    requires app.argo.Some?
    ensures AppSettled(k, Kept(k, app)) && (Kept(k, app) == app <==> AppSettled(k, app))
  {
    var fs := AddFinalizer(app.finalizers, FINALIZER);
    assert FINALIZER in fs;
    assert FINALIZER !in app.finalizers ==> fs != app.finalizers;
  }

  // ---- What one pass does ----

  /** The pass creates an object: the Application records its name. */
  lemma CreateSettles(c: Cluster, k: Key, t: Key)
    requires Live(c, k) && t.ns == Label(c.apps[k].labels, LOCATION) && t !in c.argos && t.name != ""
    ensures var c' := CreateAs(c, k, t, Built(k, c.apps[k]), ALL);
            c' != c && Live(c', k) && Settled(c', k)
  {
    var app := c.apps[k];
    var argo := Built(k, app);
    var c' := CreateAs(c, k, t, argo, ALL);
    var app' := Renamed(k, app, t.name);
    KeptIsSettled(k, app.(labels := app.labels[APP_NAME := t.name]));
    UpToDateNamed(k, app, t.name, argo);
    BuiltIsUpToDate(k, app);
    RenamedTarget(k, app, t);
    assert c'.apps == c.apps[k := app'];
    assert c'.argos == c.argos[t := argo];
    SettledAt(c', k, app', t, argo);
  }

  lemma RenamedTarget(k: Key, app: App, t: Key)
    requires app.argo.Some? && t.ns == Label(app.labels, LOCATION) && t.name != ""
    ensures Target(k, Renamed(k, app, t.name)) == t
  {
    KeysDiffer();
    assert LOCATION != APP_NAME;
  }

  /** The pass updates an object that stays. */
  lemma UpdateSettles(c: Cluster, k: Key)
    requires Live(c, k) && Recorded(c.apps[k]) && Aim(c, k) in c.argos && !Vanishes(c, k)
    ensures var c' := UpdatePass(c, k, Aim(c, k), Built(k, c.apps[k]), ALL);
            Live(c', k) && Settled(c', k) && (c' == c <==> Settled(c, k))
  {
    var app, t := c.apps[k], Aim(c, k);
    var argo := Refresh(c.argos[t], Built(k, app));
    var c' := UpdatePass(c, k, t, Built(k, app), ALL);
    KeptIsSettled(k, app);
    UpToDateKept(k, app, argo);
    RefreshedIff(k, app, c.argos[t]);
    UpdateLeaves(c, k, t, Built(k, app), c');
    SettledAt(c', k, Kept(k, app), t, argo);
    if Kept(k, app) == app { SettledAt(c, k, app, t, c.argos[t]); }
  }

  lemma UpdateLeaves(c: Cluster, k: Key, t: Key, built: Argo, c': Cluster)
    requires k in c.apps && c.apps[k].argo.Some? && !c.apps[k].deleting && t in c.argos
    requires built.finalizers == [] ==> !c.argos[t].deleting
    requires c' == UpdatePass(c, k, t, built, ALL)
    ensures c'.apps == c.apps[k := Kept(k, c.apps[k])] && c'.argos == c.argos[t := Refresh(c.argos[t], built)]
    ensures c' == c <==> Kept(k, c.apps[k]) == c.apps[k] && Refresh(c.argos[t], built) == c.argos[t]
  {
    if c' == c {
      assert c'.argos[t] == c.argos[t] && c'.apps[k] == c.apps[k];
    }
  }

  /** The pass updates an object that vanishes. */
  lemma UpdateVanishes(c: Cluster, k: Key)
    requires Live(c, k) && Vanishes(c, k)
    ensures var c' := UpdatePass(c, k, Aim(c, k), Built(k, c.apps[k]), ALL);
            && c' != c && Live(c', k) && Aim(c', k) == Aim(c, k) && OwnName(c', k) == OwnName(c, k)
            && c'.argos == c.argos - {Aim(c, k)} && Recorded(c'.apps[k])
  {
    var app, t := c.apps[k], Aim(c, k);
    var c' := UpdatePass(c, k, t, Built(k, app), ALL);
    assert c'.apps == c.apps[k := Kept(k, app)];
    assert t !in c'.argos;
  }

  /** A pass changes nothing exactly when the Application is settled or its
      creation is blocked. */
  lemma FixedIff(c: Cluster, k: Key, suffix: string)
    requires Live(c, k) && Fresh(c, k, suffix) && k.name != ""
    ensures Pass(c, k, suffix) == c <==> Settled(c, k) || Blocked(c, k)
  {
    var app, t := c.apps[k], Aim(c, k);
    if t !in c.argos {
      if !Blocked(c, k) {
        CreateSettles(c, k, OwnName(c, k));
      }
    } else if !Recorded(app) {
      CreateSettles(c, k, Key(t.ns, k.name + suffix));
    } else if Vanishes(c, k) {
      UpdateVanishes(c, k);
      assert Built(k, app).finalizers == [];
    } else {
      UpdateSettles(c, k);
    }
  }

  /** One pass settles, except over an object that vanishes. */
  lemma PassSettles(c: Cluster, k: Key, suffix: string)
    requires Live(c, k) && Fresh(c, k, suffix) && k.name != ""
    ensures var c' := Pass(c, k, suffix);
            && Live(c', k)
            && (!Vanishes(c, k) ==> Settled(c', k) || Blocked(c', k))
            && (Vanishes(c, k) ==> c'.argos == c.argos - {Aim(c, k)} && Aim(c', k) == Aim(c, k) &&
                                   OwnName(c', k) == OwnName(c, k))
  {
    var app, t := c.apps[k], Aim(c, k);
    if t !in c.argos {
      if !Blocked(c, k) {
        CreateSettles(c, k, OwnName(c, k));
      }
    } else if !Recorded(app) {
      CreateSettles(c, k, Key(t.ns, k.name + suffix));
    } else if Vanishes(c, k) {
      UpdateVanishes(c, k);
    } else {
      UpdateSettles(c, k);
    }
  }

  /** After two passes every further one changes nothing, whichever branch the
      first took. */
  lemma TwoPassesConverge(c: Cluster, k: Key, s1: string, s2: string, s3: string)
    requires Live(c, k) && Fresh(c, k, s1) && k.name != ""
    ensures var c2 := Pass(Pass(c, k, s1), k, s2);
            Pass(c2, k, s3) == c2 && Live(c2, k) && (Settled(c2, k) || Blocked(c2, k))
  {
    var c1 := Pass(c, k, s1);
    PassSettles(c, k, s1);
    PassSettles(c1, k, s2);
    FixedIff(c1, k, s2);
    FixedIff(Pass(c1, k, s2), k, s3);
  }

  /** One pass is enough exactly when no object vanishes that the next pass would
      create again. */
  lemma OnePassConvergesIff(c: Cluster, k: Key, s1: string, s2: string)
    requires Live(c, k) && Fresh(c, k, s1) && k.name != ""
    ensures Pass(Pass(c, k, s1), k, s2) == Pass(c, k, s1) <==>
            !(Vanishes(c, k) && (OwnName(c, k) == Aim(c, k) || OwnName(c, k) !in c.argos))
  {
    var c1 := Pass(c, k, s1);
    PassSettles(c, k, s1);
    FixedIff(c1, k, s2);
  }

  // ---- What a pass puts on an existing object, and what it leaves alone ----

  /** The entries that are not supported stay as they were, and no supported one
      is added that is not wanted. */
  ghost predicate OthersStay(own: map<string, string>, m: map<string, string>, r: map<string, string>) {
    forall x {:trigger Contains(x, ARGO_DOMAIN)} | !(Contains(x, ARGO_DOMAIN) && x in m) ::
      (x in r <==> x in own) && (x in own ==> r[x] == own[x])
  }

  lemma MergedStay(own: map<string, string>, m: map<string, string>, built: map<string, string>)
    requires forall x | Contains(x, ARGO_DOMAIN) :: (x in built <==> x in m) && (x in m ==> built[x] == m[x])
    ensures OthersStay(own, m, own + ArgoEntries(built))
  {}

  /** An updated object is what the Application wants, and for the rest its own. */
  ghost predicate BroughtUpToDate(k: Key, app: App, current: Argo, r: Argo)
    requires app.argo.Some?
  {
    && UpToDate(k, app, r) && r.deleting == current.deleting
    && OthersStay(current.labels, app.labels, r.labels)
    && OthersStay(current.annotations, app.annotations, r.annotations)
  }

  lemma RefreshMeans(k: Key, app: App, current: Argo)
    requires app.argo.Some?
    ensures BroughtUpToDate(k, app, current, Refresh(current, Built(k, app)))
  {
    var built := Built(k, app);
    RefreshedIff(k, app, current);
    BuiltEntries(k, app);
    MergedStay(current.labels, app.labels, built.labels);
    MergedStay(current.annotations, app.annotations, built.annotations);
  }

  /** A pass over an Application whose object exists makes the object what the
      Application wants, keeps its other labels and annotations and its mark, and
      touches no other object. */
  lemma UpdatePutsWanted(c: Cluster, k: Key, suffix: string)
    requires Live(c, k) && Recorded(c.apps[k]) && Aim(c, k) in c.argos && !Vanishes(c, k)
    ensures var t, c' := Aim(c, k), Pass(c, k, suffix);
            && t in c'.argos && BroughtUpToDate(k, c.apps[k], c.argos[t], c'.argos[t])
            && c'.argos - {t} == c.argos - {t}
  {
    var t, built := Aim(c, k), Built(k, c.apps[k]);
    UpdateLeaves(c, k, t, built, UpdatePass(c, k, t, built, ALL));
    RefreshMeans(k, c.apps[k], c.argos[t]);
  }

  /** What a pass may write on its Application: the recorded name, the project and
      the controller's finalizer. */
  predicate OnlyOwnFields(k: Key, app: App, app': App) {
    && app'.labels - {APP_NAME} == app.labels - {APP_NAME} && app'.annotations == app.annotations
    && app'.deleting == app.deleting && app'.finalizers in {app.finalizers, app.finalizers + [FINALIZER]}
    && app.argo.Some? && app'.argo.Some?
    && app'.argo.value.(spec := app'.argo.value.spec.(project := app.argo.value.spec.project)) == app.argo.value
    && app'.argo.value.spec.project in {app.argo.value.spec.project, k.ns}
  }

  lemma OwnFieldsWritten(k: Key, app: App, name: string)
    requires app.argo.Some?
    ensures OnlyOwnFields(k, app, app) && OnlyOwnFields(k, app, Kept(k, app))
    ensures OnlyOwnFields(k, app, app.(labels := app.labels[APP_NAME := name]))
    ensures OnlyOwnFields(k, app, Renamed(k, app, name))
  {
    assert app.labels[APP_NAME := name] - {APP_NAME} == app.labels - {APP_NAME};
  }

  lemma AppsAfter(c: Cluster, c': Cluster, k: Key, app': App)
    requires Live(c, k) && c'.apps == c.apps[k := app'] && OnlyOwnFields(k, c.apps[k], app')
    ensures k in c'.apps && OnlyOwnFields(k, c.apps[k], c'.apps[k]) && c'.apps - {k} == c.apps - {k}
  {}

  lemma CreateWrites(c: Cluster, k: Key, t: Key, argo: Argo, writes: nat)
    requires Live(c, k) && t !in c.argos
    ensures var c', app := CreateAs(c, k, t, argo, writes), c.apps[k];
            c'.apps == c.apps[k := if writes < 2 then app
                                   else if writes == 2 then app.(labels := app.labels[APP_NAME := t.name])
                                   else Renamed(k, app, t.name)]
  {
    assert c.apps[k := c.apps[k]] == c.apps;
  }

  lemma UpdateWrites(c: Cluster, k: Key, t: Key, argo: Argo, writes: nat)
    requires Live(c, k) && t in c.argos
    ensures UpdatePass(c, k, t, argo, writes).apps == c.apps[k := if writes < 2 then c.apps[k] else Kept(k, c.apps[k])]
  {
    assert c.apps[k := c.apps[k]] == c.apps;
  }

  /** Wherever a pass over a live Application stops, it has written at most the
      fields of its own on it, and nothing on another one. */
  lemma PassKeepsApps(c: Cluster, k: Key, suffix: string, writes: nat)
    requires Live(c, k)
    ensures var c' := Reconcile(c, k, suffix, writes);
            k in c'.apps && OnlyOwnFields(k, c.apps[k], c'.apps[k]) && c'.apps - {k} == c.apps - {k}
  {
    var app, t, argo, c' := c.apps[k], Aim(c, k), Built(k, c.apps[k]), Reconcile(c, k, suffix, writes);
    var name := if t !in c.argos then k.name else k.name + suffix;
    OwnFieldsWritten(k, app, name);
    if t in c.argos && Recorded(app) {
      UpdateWrites(c, k, t, argo, writes);
    } else if Key(t.ns, name) !in c.argos {
      CreateWrites(c, k, Key(t.ns, name), argo, writes);
    } else {
      assert c' == c == c.(apps := c.apps[k := app]);
    }
    AppsAfter(c, c', k, c'.apps[k]);
  }
}
