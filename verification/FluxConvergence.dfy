/** What the passes of the Flux application controller guarantee: a release name
    is owned at most once, and a pass without an error leaves the store as the
    application wants it.
 */
module FluxConvergence {
  import opened FluxHelm
  import opened FluxNames
  import opened Objects
  import opened Options

  /** No application owns two releases of one name. */
  ghost predicate Unique(w: World) {
    forall j, k | j in w.releases && k in w.releases && j.ns == k.ns && w.releases[j].data.app.Some? &&
                  w.releases[j].data.app == w.releases[k].data.app &&
                  w.releases[j].data.name == w.releases[k].data.name ::
      j == k
  }

  /** Versions are from the past. */
  ghost predicate Dated(w: World) { forall k | k in w.releases :: w.releases[k].version <= w.clock }

  /** The deploys have pairwise distinct release names. */
  ghost predicate Distinct(ds: seq<Deploy>) {
    forall i, j | 0 <= i < j < |ds| :: ReleaseName(ds[i].destination) != ReleaseName(ds[j].destination)
  }

  /** Every name that occurs twice is in the index. */
  ghost predicate RepeatsIn(index: Index, ds: seq<Deploy>) {
    forall i, j | 0 <= i < j < |ds| && ReleaseName(ds[i].destination) == ReleaseName(ds[j].destination) ::
      ReleaseName(ds[i].destination) in index
  }

  lemma RepeatsInRest(index: Index, next: Index, ds: seq<Deploy>)
    requires ds != [] && RepeatsIn(index, ds) && next.Keys == index.Keys
    ensures RepeatsIn(next, ds[1..])
    ensures ReleaseName(ds[0].destination) !in index ==>
              forall e | e in ds[1..] :: ReleaseName(e.destination) != ReleaseName(ds[0].destination)
  {
    var rest := ds[1..];
    forall i, j | 0 <= i < j < |rest| && ReleaseName(rest[i].destination) == ReleaseName(rest[j].destination)
      ensures ReleaseName(rest[i].destination) in next
    {
      assert rest[i] == ds[i + 1] && rest[j] == ds[j + 1];
    }
  }

  /** An index entry is one of the application's releases under its name, and
      agrees with the store unless it is out of date. */
  ghost predicate Fits(w: World, app: Key, index: Index) {
    forall n | n in index ::
      var (k, got) := index[n];
      && k.ns == app.ns && got.data.app == Some(app.name) && got.data.name == n && got.version <= w.clock
      && (k in w.releases && w.releases[k].version == got.version ==> w.releases[k] == got)
  }

  /** Every deploy whose name is owned is in the index. */
  ghost predicate Covered(w: World, app: Key, index: Index, ds: seq<Deploy>) {
    forall k, d | k in Owned(w, app) && d in ds && w.releases[k].data.name == ReleaseName(d.destination) ::
      ReleaseName(d.destination) in index
  }

  ghost predicate MidPass(w: World, app: Key, index: Index, ds: seq<Deploy>) {
    Unique(w) && Dated(w) && Fits(w, app, index) && Covered(w, app, index, ds)
  }

  // ---- At most once ----

  lemma DisturbKeepsUnique(w: World, e: Env)
    requires Unique(w) && Dated(w)
    ensures Unique(Disturb(w, e)) && Dated(Disturb(w, e))
  {}

  lemma DisturbKeeps(w: World, e: Env, app: Key, index: Index, ds: seq<Deploy>)
    requires MidPass(w, app, index, ds)
    ensures MidPass(Disturb(w, e), app, index, ds)
  {
    var w1 := Disturb(w, e);
    DisturbKeepsUnique(w, e);
    forall k | k in Owned(w1, app) ensures k in Owned(w, app) && w.releases[k].data.name == w1.releases[k].data.name {}
  }

  lemma UpdateKeeps(w: World, app: Key, index: Index, ds: seq<Deploy>, name: string, spec: ReleaseSpec)
    requires MidPass(w, app, index, ds) && name in index
    requires var (k, got) := index[name]; k in w.releases && w.releases[k].version == got.version
    ensures var w' := PutRelease(w, index[name].0, index[name].1.data.(spec := spec));
            MidPass(w', app, Refreshed(index, w', name), ds)
  {
    var k, got := index[name].0, index[name].1;
    assert w.releases[k] == got;
  }

  lemma CreateKeeps(w: World, app: Key, index: Index, d: Deploy, ds: seq<Deploy>, k: Key, spec: ReleaseSpec)
    requires MidPass(w, app, index, [d] + ds) && ReleaseName(d.destination) !in index
    requires forall e | e in ds :: ReleaseName(e.destination) != ReleaseName(d.destination)
    requires k !in w.releases && k.ns == app.ns
    ensures MidPass(PutRelease(w, k, Release(Some(app.name), ReleaseName(d.destination), spec)), app, index, ds)
  {
    var name := ReleaseName(d.destination);
    assert d in [d] + ds && forall e | e in ds :: e in [d] + ds;
    var w' := PutRelease(w, k, Release(Some(app.name), name, spec));
    forall j | j in Owned(w', app) && j != k ensures j in Owned(w, app) && w.releases[j].data.name != name {}
  }

  /** The index after a deploy. */
  function NextIndex(w: World, app: Key, chart: ChartSpec, index: Index, d: Deploy, t: Turn): Index {
    Refreshed(index, DeployOne(w, app, chart, index, d, t).0, ReleaseName(d.destination))
  }

  /** A deploy that succeeds, or fails with effect or without, keeps the names
      unique; one that succeeds keeps the index true. */
  lemma DeployOneKeeps(w: World, app: Key, chart: ChartSpec, index: Index, ds: seq<Deploy>, t: Turn)
    requires MidPass(w, app, index, ds) && ds != [] && RepeatsIn(index, ds)
    ensures var (w', ok) := DeployOne(w, app, chart, index, ds[0], t);
            var index' := NextIndex(w, app, chart, index, ds[0], t);
            && Unique(w') && Dated(w')
            && (ok ==> MidPass(w', app, index', ds[1..]) && RepeatsIn(index', ds[1..]))
  {
    DisturbKeeps(w, t.env, app, index, ds);
    var w1, d, rest := Disturb(w, t.env), ds[0], ds[1..];
    assert ds == [d] + rest && forall e | e in rest :: e in ds;
    assert MidPass(w1, app, index, rest);
    RepeatsInRest(index, NextIndex(w, app, chart, index, d, t), ds);
    var name := ReleaseName(d.destination);
    if t.fault == Refused {
    } else if name in index {
      var (k, got) := index[name];
      if k in w1.releases && w1.releases[k].version == got.version {
        UpdateKeeps(w1, app, index, rest, name, BuildSpec(chart, d));
      }
    } else {
      var k := Key(app.ns, app.name + t.suffix);
      if k !in w1.releases {
        CreateKeeps(w1, app, index, d, rest, k, BuildSpec(chart, d));
      }
    }
  }

  lemma {:induction false} DeployAllKeeps(
    w: World, app: Key, chart: ChartSpec, index: Index, ds: seq<Deploy>, ts: seq<Turn>)
    requires MidPass(w, app, index, ds) && RepeatsIn(index, ds)
    ensures Unique(DeployAll(w, app, chart, index, ds, ts).0) && Dated(DeployAll(w, app, chart, index, ds, ts).0)
    decreases |ds|
  {
    if ds != [] {
      DeployOneKeeps(w, app, chart, index, ds, Head(ts));
      var (w1, ok) := DeployOne(w, app, chart, index, ds[0], Head(ts));
      if ok {
        DeployAllKeeps(w1, app, chart, NextIndex(w, app, chart, index, ds[0], Head(ts)), ds[1..], Tail(ts));
      }
    }
  }

  lemma {:induction false} IndexOfMeans(w: World, keys: seq<Key>)
    ensures forall n | n in IndexOf(w, keys) ::
              var k := IndexOf(w, keys)[n].0;
              k in keys && k in w.releases && IndexOf(w, keys)[n].1 == w.releases[k] && w.releases[k].data.name == n
    ensures forall k | k in keys && k in w.releases :: w.releases[k].data.name in IndexOf(w, keys)
  {
    if keys != [] {
      IndexOfMeans(w, keys[..|keys| - 1]);
      assert keys == keys[..|keys| - 1] + [keys[|keys| - 1]];
    }
  }

  lemma ListStartsPass(order: Order, w: World, app: Key, ds: seq<Deploy>)
    requires Unique(w) && Dated(w) && IsOrder(order)
    ensures MidPass(w, app, IndexOf(w, order(Owned(w, app))), ds)
    ensures forall k | k in Owned(w, app) :: w.releases[k].data.name in IndexOf(w, order(Owned(w, app)))
    ensures forall n | n in IndexOf(w, order(Owned(w, app))) ::
              var (k, got) := IndexOf(w, order(Owned(w, app)))[n]; k in Owned(w, app) && w.releases[k] == got
  {
    IndexOfMeans(w, order(Owned(w, app)));
  }

  lemma SameReleases(w: World, w': World)
    requires Unique(w) && Dated(w) && w'.releases == w.releases && w'.clock == w.clock
    ensures Unique(w') && Dated(w')
  {}

  lemma ChartForKeeps(w: World, app: FluxApp, ts: seq<Turn>)
    requires Unique(w) && Dated(w)
    ensures Unique(ChartFor(w, app, ts).0) && Dated(ChartFor(w, app, ts).0)
  {
    var w1 := Disturb(w, Head(ts).env);
    var w' := ChartFor(w, app, ts).0;
    if w' != w && w' != w1 {
      var w2 := Disturb(w1, Head(Tail(ts)).env);
      DisturbKeepsUnique(w, Head(ts).env);
      DisturbKeepsUnique(w1, Head(Tail(ts)).env);
      SameReleases(w2, w');
    } else if w' != w {
      DisturbKeepsUnique(w, Head(ts).env);
    }
  }

  lemma DistinctRepeatNothing(index: Index, ds: seq<Deploy>)
    requires Distinct(ds)
    ensures RepeatsIn(index, ds)
  {}

  lemma DeployingKeeps(order: Order, w: World, app: FluxApp, chart: ChartSpec, ts: seq<Turn>)
    requires Unique(w) && Dated(w) && IsOrder(order) && Distinct(app.deploys)
    ensures var w' := ListAndDeploy(order, w, app, chart, ts).0;
            Unique(w') && Dated(w')
  {
    var w1 := Disturb(w, Head(ts).env);
    DisturbKeepsUnique(w, Head(ts).env);
    ListStartsPass(order, w1, app.key, app.deploys);
    DistinctRepeatNothing(IndexOf(w1, order(Owned(w1, app.key))), app.deploys);
    DeployAllKeeps(w1, app.key, chart, IndexOf(w1, order(Owned(w1, app.key))), app.deploys, Tail(ts));
  }

  /** A pass keeps every application's release names unique, whatever the others
      do, whichever call fails, and whether or not it then took effect. */
  lemma PassKeepsUnique(order: Order, w: World, app: FluxApp, ts: seq<Turn>)
    requires Unique(w) && Dated(w) && IsOrder(order) && Distinct(app.deploys)
    ensures Unique(Pass(order, w, app, ts).0) && Dated(Pass(order, w, app, ts).0)
  {
    ChartForKeeps(w, app, ts);
    var (w1, chart, ts1) := ChartFor(w, app, ts);
    if chart.Some? {
      DeployingKeeps(order, w1, app, chart.value, ts1);
    }
  }

  /** A run: passes over any applications, and others between them. */
  datatype Event = PassOver(app: FluxApp, turns: seq<Turn>) | Others(env: Env)

  function Run(order: Order, w: World, es: seq<Event>): World
    decreases |es|
  {
    if es == [] then w
    else
      var next := match es[0] case PassOver(app, ts) => Pass(order, w, app, ts).0 case Others(e) => Disturb(w, e);
      Run(order, next, es[1..])
  }

  /** At most once, over every run. */
  lemma {:induction false} RunKeepsUnique(order: Order, w: World, es: seq<Event>)
    requires Unique(w) && Dated(w) && IsOrder(order)
    requires forall e | e in es && e.PassOver? :: Distinct(e.app.deploys)
    ensures Unique(Run(order, w, es)) && Dated(Run(order, w, es))
    decreases |es|
  {
    if es != [] {
      match es[0]
      case PassOver(app, ts) =>
        assert es[0] in es;
        PassKeepsUnique(order, w, app, ts);
        RunKeepsUnique(order, Pass(order, w, app, ts).0, es[1..]);
      case Others(e) =>
        DisturbKeepsUnique(w, e);
        RunKeepsUnique(order, Disturb(w, e), es[1..]);
    }
  }

  // ---- A pass without an error ----

  /** The chart that an application's releases are to be built from. */
  function EffectiveChart(w: World, app: FluxApp): Option<ChartSpec> {
    if app.template != "" then
      var k := Key(app.key.ns, app.template);
      if k in w.charts then Some(w.charts[k]) else None
    else if app.source.None? || app.chart.None? then None
    else if app.save && app.key in w.charts then Some(w.charts[app.key])
    else Some(BuildChart(app.source.value, app.chart.value))
  }

  /** Of its own the application has the source, name, version, strategy and
      values files that it gives, and an interval of ten minutes if it gives none. */
  predicate OwnChart(c: ChartSpec, source: Source, chart: AppChart) {
    && c.source == source && c.chart == chart.chart && c.version == chart.version
    && c.strategy == chart.strategy && c.valuesFiles == chart.valuesFiles
    && c.interval == match chart.interval case Some(seconds) => seconds case None => 10 * 60
  }

  /** The chart in effect: the template that is asked for, or else the one saved
      before, or else its own. */
  lemma EffectiveChartMeans(w: World, app: FluxApp)
    ensures var c := EffectiveChart(w, app);
            if app.template != "" then
              var t := Key(app.key.ns, app.template);
              (c.Some? <==> t in w.charts) && (t in w.charts ==> c.value == w.charts[t])
            else
              && (c.Some? <==> app.source.Some? && app.chart.Some?)
              && (c.Some? && app.save && app.key in w.charts ==> c.value == w.charts[app.key])
              && (c.Some? && !(app.save && app.key in w.charts) ==>
                    OwnChart(c.value, app.source.value, app.chart.value))
  {}

  /** The release of a deploy: its name, the chart, the cluster and namespace it
      goes to, and its settings. */
  predicate ReleaseOf(r: Release, chart: ChartSpec, d: Deploy) {
    && r.name == ReleaseName(d.destination) && r.spec.chart == chart
    && r.spec.destination == d.destination && r.spec.settings == d.settings
  }

  /** The application owns a release of the deploy, with the chart. */
  ghost predicate Applied(w: World, app: Key, chart: ChartSpec, d: Deploy) {
    exists k | k in Owned(w, app) :: ReleaseOf(w.releases[k].data, chart, d)
  }

  ghost predicate OneOf(name: string, ds: seq<Deploy>) { exists d | d in ds :: ReleaseName(d.destination) == name }

  /** Everything but the deploys' releases stays as it was. */
  ghost predicate Frame(w: World, w': World, app: Key, ds: seq<Deploy>) {
    && w'.charts == w.charts
    && (forall k | k in w.releases && !(k in Owned(w, app) && OneOf(w.releases[k].data.name, ds)) ::
          k in w'.releases && w'.releases[k] == w.releases[k])
    && (forall k | k in w'.releases && k !in w.releases :: k in Owned(w', app) && OneOf(w'.releases[k].data.name, ds))
    && (forall k | k in w.releases ::
          k in w'.releases && w'.releases[k].data.app == w.releases[k].data.app &&
          w'.releases[k].data.name == w.releases[k].data.name)
  }

  predicate Undisturbed(ts: seq<Turn>) { forall t | t in ts :: t.env == QUIET.env }

  lemma QuietChangesNothing(w: World, ts: seq<Turn>)
    requires Undisturbed(ts)
    ensures Disturb(w, Head(ts).env) == w.(clock := w.clock + 1) && Undisturbed(Tail(ts))
  {
    var w' := Disturb(w, Head(ts).env);
    assert w'.charts == w.charts && w'.releases == w.releases;
  }

  /** Writing a release under the deploy's name, with the rest left alone. */
  lemma PutApplies(w: World, app: Key, chart: ChartSpec, d: Deploy, k: Key)
    requires k.ns == app.ns
    requires k in w.releases ==>
               w.releases[k].data.app == Some(app.name) && w.releases[k].data.name == ReleaseName(d.destination)
    ensures var w' := PutRelease(w, k, Release(Some(app.name), ReleaseName(d.destination), BuildSpec(chart, d)));
            Applied(w', app, chart, d) && Frame(w, w', app, [d])
  {
    var w' := PutRelease(w, k, Release(Some(app.name), ReleaseName(d.destination), BuildSpec(chart, d)));
    assert d in [d];
    assert OneOf(ReleaseName(d.destination), [d]);
    assert k in Owned(w', app) && ReleaseOf(w'.releases[k].data, chart, d);
  }

  lemma DeployOneApplies(w: World, app: Key, chart: ChartSpec, index: Index, ds: seq<Deploy>, ts: seq<Turn>)
    requires Fits(w, app, index) && ds != [] && Undisturbed(ts)
    requires DeployOne(w, app, chart, index, ds[0], Head(ts)).1
    ensures var w' := DeployOne(w, app, chart, index, ds[0], Head(ts)).0;
            Applied(w', app, chart, ds[0]) && Frame(w, w', app, [ds[0]])
  {
    QuietChangesNothing(w, ts);
    var w1, name, d := Disturb(w, Head(ts).env), ReleaseName(ds[0].destination), ds[0];
    var k := if name in index then index[name].0 else Key(app.ns, app.name + Head(ts).suffix);
    PutApplies(w1, app, chart, d, k);
    var w' := PutRelease(w1, k, Release(Some(app.name), name, BuildSpec(chart, d)));
    assert name in index ==> w1.releases[k] == index[name].1;
    assert w' == DeployOne(w, app, chart, index, d, Head(ts)).0;
    assert Frame(w, w', app, [d]);
  }

  lemma FrameKeepsApplied(w: World, w': World, app: Key, chart: ChartSpec, d: Deploy, ds: seq<Deploy>)
    requires Frame(w, w', app, ds) && Applied(w, app, chart, d) && !OneOf(ReleaseName(d.destination), ds)
    ensures Applied(w', app, chart, d)
  {
    var k :| k in Owned(w, app) && ReleaseOf(w.releases[k].data, chart, d);
    assert k in Owned(w', app);
  }

  lemma OneOfSplit(n: string, ds: seq<Deploy>)
    requires ds != []
    ensures OneOf(n, ds) <==> OneOf(n, [ds[0]]) || OneOf(n, ds[1..])
  {
    assert ds == [ds[0]] + ds[1..];
    if OneOf(n, [ds[0]]) { assert ds[0] in ds; }
    if OneOf(n, ds[1..]) { var d :| d in ds[1..] && ReleaseName(d.destination) == n; assert d in ds; }
    if ReleaseName(ds[0].destination) == n { assert ds[0] in [ds[0]]; }
  }

  lemma FrameTwice(w: World, w1: World, w2: World, app: Key, ds: seq<Deploy>)
    requires ds != [] && Frame(w, w1, app, [ds[0]]) && Frame(w1, w2, app, ds[1..])
    ensures Frame(w, w2, app, ds)
  {
    forall n ensures OneOf(n, ds) <==> OneOf(n, [ds[0]]) || OneOf(n, ds[1..]) { OneOfSplit(n, ds); }
  }

  lemma {:induction false} DeployAllApplies(
    w: World, app: Key, chart: ChartSpec, index: Index, ds: seq<Deploy>, ts: seq<Turn>)
    requires MidPass(w, app, index, ds) && Distinct(ds) && Undisturbed(ts)
    requires DeployAll(w, app, chart, index, ds, ts).1
    ensures var w' := DeployAll(w, app, chart, index, ds, ts).0;
            Frame(w, w', app, ds) && forall d | d in ds :: Applied(w', app, chart, d)
    decreases |ds|
  {
    if ds != [] {
      var w1, rest := DeployOne(w, app, chart, index, ds[0], Head(ts)).0, ds[1..];
      DeployOneApplies(w, app, chart, index, ds, ts);
      DistinctRepeatNothing(index, ds);
      DeployOneKeeps(w, app, chart, index, ds, Head(ts));
      QuietChangesNothing(w, ts);
      var next := NextIndex(w, app, chart, index, ds[0], Head(ts));
      DeployAllApplies(w1, app, chart, next, rest, Tail(ts));
      var w' := DeployAll(w1, app, chart, next, rest, Tail(ts)).0;
      FrameTwice(w, w1, w', app, ds);
      NotInRest(ds);
      FrameKeepsApplied(w1, w', app, chart, ds[0], rest);
      forall d | d in ds ensures Applied(w', app, chart, d) { assert d == ds[0] || d in rest; }
    }
  }

  lemma NotInRest(ds: seq<Deploy>)
    requires ds != [] && Distinct(ds)
    ensures !OneOf(ReleaseName(ds[0].destination), ds[1..])
  {}

  /** The template is stored if the application asks for it. */
  predicate Saved(w: World, app: FluxApp, chart: ChartSpec) {
    app.template == "" && app.save ==> app.key in w.charts && w.charts[app.key] == chart
  }

  /** The store as the application wants it. */
  ghost predicate Settled(w: World, app: FluxApp) {
    && EffectiveChart(w, app).Some?
    && Saved(w, app, EffectiveChart(w, app).value)
    && forall d | d in app.deploys :: Applied(w, app.key, EffectiveChart(w, app).value, d)
  }

  lemma ChartForMeans(w: World, app: FluxApp, ts: seq<Turn>)
    requires Undisturbed(ts)
    ensures var (w1, chart, ts1) := ChartFor(w, app, ts);
            && w1.releases == w.releases && Undisturbed(ts1)
            && (chart.Some? ==>
                  && chart == EffectiveChart(w, app) == EffectiveChart(w1, app) && Saved(w1, app, chart.value)
                  && (forall k | k in w.charts :: k in w1.charts && w1.charts[k] == w.charts[k])
                  && w1.charts.Keys <= w.charts.Keys + {app.key})
  {
    QuietChangesNothing(w, ts);
    QuietChangesNothing(Disturb(w, Head(ts).env), Tail(ts));
  }

  /** A pass over an undisturbed store that returns without an error leaves every
      deploy with its release, built from the chart that was in effect before,
      and, since names stay unique, with no other. */
  lemma NilPassSettles(order: Order, w: World, app: FluxApp, ts: seq<Turn>)
    requires Unique(w) && Dated(w) && IsOrder(order) && Distinct(app.deploys) && Undisturbed(ts)
    requires Pass(order, w, app, ts).1
    ensures var w' := Pass(order, w, app, ts).0;
            && Unique(w') && EffectiveChart(w, app).Some?
            && EffectiveChart(w', app) == EffectiveChart(w, app) && Settled(w', app)
            && Frame(w.(charts := w'.charts), w', app.key, app.deploys)
            && (forall k | k in w.charts :: k in w'.charts && w'.charts[k] == w.charts[k])
  {
    PassKeepsUnique(order, w, app, ts);
    ChartForMeans(w, app, ts);
    ChartForKeeps(w, app, ts);
    var (w1, chart, ts1) := ChartFor(w, app, ts);
    DeployingApplies(order, w1, app, chart.value, ts1);
  }

  lemma DeployingApplies(order: Order, w: World, app: FluxApp, chart: ChartSpec, ts: seq<Turn>)
    requires Unique(w) && Dated(w) && IsOrder(order) && Distinct(app.deploys) && Undisturbed(ts)
    requires ListAndDeploy(order, w, app, chart, ts).1
    ensures var w' := ListAndDeploy(order, w, app, chart, ts).0;
            Frame(w, w', app.key, app.deploys) && forall d | d in app.deploys :: Applied(w', app.key, chart, d)
  {
    QuietChangesNothing(w, ts);
    var w1 := Disturb(w, Head(ts).env);
    ListStartsPass(order, w1, app.key, app.deploys);
    DeployAllApplies(w1, app.key, chart, IndexOf(w1, order(Owned(w1, app.key))), app.deploys, Tail(ts));
    assert Owned(w1, app.key) == Owned(w, app.key);
  }

  // ---- Passes without faults ----

  /** Nothing is in the way of the calls. */
  predicate Smooth(ts: seq<Turn>) { forall t | t in ts :: t.env == QUIET.env && t.fault == Fine }

  /** The index agrees with the store. */
  ghost predicate UpToDate(w: World, index: Index) {
    forall n | n in index :: index[n].0 in w.releases && w.releases[index[n].0] == index[n].1
  }

  lemma {:induction false} DeploySettled(
    w: World, app: Key, chart: ChartSpec, index: Index, ds: seq<Deploy>, ts: seq<Turn>)
    requires Smooth(ts) && UpToDate(w, index)
    requires forall d | d in ds :: ReleaseName(d.destination) in index &&
                                   index[ReleaseName(d.destination)].1.data.spec == BuildSpec(chart, d)
    ensures var (w', ok) := DeployAll(w, app, chart, index, ds, ts);
            ok && w'.charts == w.charts && w'.releases == w.releases
    decreases |ds|
  {
    if ds != [] {
      QuietChangesNothing(w, ts);
      assert ds[0] in ds;
      var (w1, ok) := DeployOne(w, app, chart, index, ds[0], Head(ts));
      assert w1 == w.(clock := w.clock + 1) && ok;
      assert NextIndex(w, app, chart, index, ds[0], Head(ts)) == index;
      DeploySettled(w1, app, chart, index, ds[1..], Tail(ts));
    }
  }

  lemma AppliedIsIndexed(order: Order, w: World, app: Key, chart: ChartSpec, d: Deploy)
    requires Unique(w) && Dated(w) && IsOrder(order) && Applied(w, app, chart, d)
    ensures var index := IndexOf(w, order(Owned(w, app)));
            ReleaseName(d.destination) in index &&
            index[ReleaseName(d.destination)].1.data.spec == BuildSpec(chart, d)
  {
    ListStartsPass(order, w, app, [d]);
    var k :| k in Owned(w, app) && ReleaseOf(w.releases[k].data, chart, d);
    var j := IndexOf(w, order(Owned(w, app)))[ReleaseName(d.destination)].0;
    assert j in Owned(w, app) && j == k;
  }

  lemma DeployingSettled(order: Order, w: World, app: FluxApp, chart: ChartSpec, ts: seq<Turn>)
    requires Unique(w) && Dated(w) && IsOrder(order) && Smooth(ts)
    requires forall d | d in app.deploys :: Applied(w, app.key, chart, d)
    ensures var (w', ok) := ListAndDeploy(order, w, app, chart, ts);
            ok && w'.charts == w.charts && w'.releases == w.releases
  {
    QuietChangesNothing(w, ts);
    var w1 := Disturb(w, Head(ts).env);
    var index := IndexOf(w1, order(Owned(w1, app.key)));
    ListStartsPass(order, w1, app.key, app.deploys);
    assert Owned(w1, app.key) == Owned(w, app.key);
    forall d | d in app.deploys ensures ReleaseName(d.destination) in index &&
                                        index[ReleaseName(d.destination)].1.data.spec == BuildSpec(chart, d) {
      assert Applied(w, app.key, chart, d);
      assert Applied(w1, app.key, chart, d);
      AppliedIsIndexed(order, w1, app.key, chart, d);
    }
    DeploySettled(w1, app.key, chart, index, app.deploys, Tail(ts));
  }

  lemma ChartForSmooth(w: World, app: FluxApp, ts: seq<Turn>)
    requires Smooth(ts)
    ensures var (w1, chart, ts1) := ChartFor(w, app, ts);
            && Smooth(ts1) && chart == EffectiveChart(w, app)
            && (chart.Some? && Saved(w, app, chart.value) ==> w1.charts == w.charts)
            && ts1 in {ts, Tail(ts), Tail(Tail(ts))}
  {
    QuietChangesNothing(w, ts);
    QuietChangesNothing(Disturb(w, Head(ts).env), Tail(ts));
  }

  /** Once settled, a smooth pass succeeds and changes nothing. */
  lemma SettledIsFixed(order: Order, w: World, app: FluxApp, ts: seq<Turn>)
    requires Unique(w) && Dated(w) && IsOrder(order) && Smooth(ts) && Settled(w, app)
    ensures var (w', ok) := Pass(order, w, app, ts);
            ok && w'.charts == w.charts && w'.releases == w.releases
  {
    var chart := EffectiveChart(w, app).value;
    ChartForSmooth(w, app, ts);
    ChartForMeans(w, app, ts);
    ChartForKeeps(w, app, ts);
    var (w1, c, ts1) := ChartFor(w, app, ts);
    assert Owned(w1, app.key) == Owned(w, app.key);
    forall d | d in app.deploys ensures Applied(w1, app.key, chart, d) { assert Applied(w, app.key, chart, d); }
    DeployingSettled(order, w1, app, chart, ts1);
  }

  /** The generated names are unused and distinct, and there are enough. */
  ghost predicate FreshNames(w: World, app: Key, ts: seq<Turn>, n: nat) {
    && |ts| >= n
    && (forall t | t in ts :: Key(app.ns, app.name + t.suffix) !in w.releases)
    && (forall i, j | 0 <= i < j < |ts| :: ts[i].suffix != ts[j].suffix)
  }

  lemma OnlyNameIsTaken(w: World, w': World, app: Key, ts: seq<Turn>, n: nat)
    requires ts != [] && FreshNames(w, app, ts, n + 1)
    requires w'.releases.Keys <= w.releases.Keys + {Key(app.ns, app.name + ts[0].suffix)}
    ensures FreshNames(w', app, ts[1..], n)
  {
    forall t | t in ts[1..] ensures Key(app.ns, app.name + t.suffix) !in w'.releases {
      var i :| 1 <= i < |ts| && ts[i] == t;
      assert ts[i] in ts;
      SuffixesDiffer(app.name, ts[0].suffix, t.suffix);
    }
  }

  /** Writing the release of one name leaves the index up to date. */
  lemma PutUpToDate(w: World, app: Key, index: Index, name: string, k: Key, spec: ReleaseSpec)
    requires Fits(w, app, index) && UpToDate(w, index) && k.ns == app.ns
    requires if name in index then k == index[name].0 else k !in w.releases
    ensures var w' := PutRelease(w, k, Release(Some(app.name), name, spec));
            var index' := Refreshed(index, w', name);
            Fits(w', app, index') && UpToDate(w', index')
  {
    forall n | n in index && n != name ensures index[n].0 != k {
      assert w.releases[index[n].0].data.name == n;
    }
  }

  lemma DeployOneSucceeds(w: World, app: Key, chart: ChartSpec, index: Index, ds: seq<Deploy>, ts: seq<Turn>)
    requires Fits(w, app, index) && ds != [] && Smooth(ts) && UpToDate(w, index) && FreshNames(w, app, ts, |ds|)
    ensures var (w', ok) := DeployOne(w, app, chart, index, ds[0], Head(ts));
            var index' := NextIndex(w, app, chart, index, ds[0], Head(ts));
            ok && Fits(w', app, index') && UpToDate(w', index') && FreshNames(w', app, ts[1..], |ds| - 1)
  {
    QuietChangesNothing(w, ts);
    assert ts[0] in ts;
    var w1, d, name := w.(clock := w.clock + 1), ds[0], ReleaseName(ds[0].destination);
    var k := if name in index then index[name].0 else Key(app.ns, app.name + ts[0].suffix);
    var w' := PutRelease(w1, k, Release(Some(app.name), name, BuildSpec(chart, d)));
    assert name in index ==> w1.releases[k] == index[name].1;
    assert DeployOne(w, app, chart, index, d, ts[0]) == (w', true);
    PutUpToDate(w1, app, index, name, k, BuildSpec(chart, d));
    OnlyNameIsTaken(w, w', app, ts, |ds| - 1);
  }

  lemma {:induction false} DeployAllSucceeds(
    w: World, app: Key, chart: ChartSpec, index: Index, ds: seq<Deploy>, ts: seq<Turn>)
    requires Fits(w, app, index) && Smooth(ts) && UpToDate(w, index) && FreshNames(w, app, ts, |ds|)
    ensures DeployAll(w, app, chart, index, ds, ts).1
    decreases |ds|
  {
    if ds != [] {
      DeployOneSucceeds(w, app, chart, index, ds, ts);
      DeployAllSucceeds(DeployOne(w, app, chart, index, ds[0], Head(ts)).0, app, chart,
                        NextIndex(w, app, chart, index, ds[0], Head(ts)), ds[1..], ts[1..]);
    }
  }

  lemma SuffixesDiffer(name: string, a: string, b: string)
    requires a != b
    ensures name + a != name + b
  {
    assert (name + a)[|name|..] == a && (name + b)[|name|..] == b;
  }

  lemma FreshTail(w: World, w': World, app: Key, ts: seq<Turn>, n: nat)
    requires w'.releases == w.releases && FreshNames(w, app, ts, n + 1)
    ensures FreshNames(w', app, ts, n) && FreshNames(w', app, Tail(ts), n)
  {
    assert forall t | t in ts[1..] :: t in ts;
  }

  lemma DeployingSucceeds(order: Order, w: World, app: FluxApp, chart: ChartSpec, ts: seq<Turn>)
    requires Unique(w) && Dated(w) && IsOrder(order)
    requires Smooth(ts) && FreshNames(w, app.key, ts, |app.deploys| + 1)
    ensures ListAndDeploy(order, w, app, chart, ts).1
  {
    QuietChangesNothing(w, ts);
    var w1 := Disturb(w, Head(ts).env);
    FreshTail(w, w1, app.key, ts, |app.deploys|);
    ListStartsPass(order, w1, app.key, app.deploys);
    DeployAllSucceeds(w1, app.key, chart, IndexOf(w1, order(Owned(w1, app.key))), app.deploys, Tail(ts));
  }

  /** A smooth pass fails only for want of a chart. */
  lemma SmoothPassSucceedsIff(order: Order, w: World, app: FluxApp, ts: seq<Turn>)
    requires Unique(w) && Dated(w) && IsOrder(order)
    requires Smooth(ts) && FreshNames(w, app.key, ts, |app.deploys| + 3)
    ensures Pass(order, w, app, ts).1 <==> EffectiveChart(w, app).Some?
  {
    ChartForSmooth(w, app, ts);
    ChartForMeans(w, app, ts);
    ChartForKeeps(w, app, ts);
    var (w1, chart, ts1) := ChartFor(w, app, ts);
    FreshTail(w, w1, app.key, ts, |app.deploys| + 2);
    FreshTail(w, w1, app.key, Tail(ts), |app.deploys| + 1);
    if chart.Some? {
      DeployingSucceeds(order, w1, app, chart.value, ts1);
    }
  }

  // ---- Names that occur twice ----

  /** What is owned stays owned under its name. */
  ghost predicate Persist(w: World, w': World, app: Key) {
    forall k | k in Owned(w, app) :: k in Owned(w', app) && w'.releases[k].data.name == w.releases[k].data.name
  }

  lemma DeployOnePersists(w: World, app: Key, chart: ChartSpec, index: Index, d: Deploy, ts: seq<Turn>)
    requires Dated(w) && Fits(w, app, index) && Undisturbed(ts)
    requires DeployOne(w, app, chart, index, d, Head(ts)).1
    ensures var w' := DeployOne(w, app, chart, index, d, Head(ts)).0;
            && Dated(w') && Fits(w', app, NextIndex(w, app, chart, index, d, Head(ts))) && Persist(w, w', app)
  {
    QuietChangesNothing(w, ts);
    var w1, name := w.(clock := w.clock + 1), ReleaseName(d.destination);
    var k := if name in index then index[name].0 else Key(app.ns, app.name + Head(ts).suffix);
    assert name in index ==> w1.releases[k] == index[name].1;
    assert DeployOne(w, app, chart, index, d, Head(ts)).0 ==
           PutRelease(w1, k, Release(Some(app.name), name, BuildSpec(chart, d)));
  }

  /** A deploy whose name is not in the index creates a release. */
  lemma DeployOneCreates(w: World, app: Key, chart: ChartSpec, index: Index, d: Deploy, ts: seq<Turn>) returns (k: Key)
    requires ReleaseName(d.destination) !in index && Undisturbed(ts)
    requires DeployOne(w, app, chart, index, d, Head(ts)).1
    ensures var w' := DeployOne(w, app, chart, index, d, Head(ts)).0;
            k !in w.releases && k in Owned(w', app) && w'.releases[k].data.name == ReleaseName(d.destination)
  {
    QuietChangesNothing(w, ts);
    k := Key(app.ns, app.name + Head(ts).suffix);
  }

  /** Deploys that all succeed, from w to w'. */
  ghost predicate Deployed(
    w: World, app: Key, chart: ChartSpec, index: Index, ds: seq<Deploy>, ts: seq<Turn>, w': World)
  {
    && Dated(w) && Fits(w, app, index) && Undisturbed(ts)
    && DeployAll(w, app, chart, index, ds, ts) == (w', true)
  }

  lemma FirstDeploy(w: World, app: Key, chart: ChartSpec, index: Index, ds: seq<Deploy>, ts: seq<Turn>, w': World)
    returns (w1: World, next: Index, k: Key)
    requires ds != [] && Deployed(w, app, chart, index, ds, ts, w')
    ensures Deployed(w1, app, chart, next, ds[1..], Tail(ts), w') && Persist(w, w1, app)
    ensures forall n :: n in next <==> n in index
    ensures ReleaseName(ds[0].destination) !in index ==>
              k !in w.releases && k in Owned(w1, app) && w1.releases[k].data.name == ReleaseName(ds[0].destination)
  {
    DeployOnePersists(w, app, chart, index, ds[0], ts);
    QuietChangesNothing(w, ts);
    w1 := DeployOne(w, app, chart, index, ds[0], Head(ts)).0;
    next := NextIndex(w, app, chart, index, ds[0], Head(ts));
    k := Key("", "");
    if ReleaseName(ds[0].destination) !in index {
      k := DeployOneCreates(w, app, chart, index, ds[0], ts);
    }
  }

  lemma {:induction false} DeployedPersists(
    w: World, app: Key, chart: ChartSpec, index: Index, ds: seq<Deploy>, ts: seq<Turn>, w': World)
    requires Deployed(w, app, chart, index, ds, ts, w')
    ensures Persist(w, w', app)
    decreases |ds|
  {
    if ds != [] {
      var w1, next, made := FirstDeploy(w, app, chart, index, ds, ts, w');
      DeployedPersists(w1, app, chart, next, ds[1..], Tail(ts), w');
    }
  }

  /** Two owned releases of one name persist. */
  lemma PersistingClash(w: World, w': World, app: Key, j: Key, k: Key)
    requires Persist(w, w', app) && j in Owned(w, app) && k in Owned(w, app)
    requires j != k && w.releases[j].data.name == w.releases[k].data.name
    ensures !Unique(w')
  {
    assert j in Owned(w', app) && k in Owned(w', app);
  }

  /** A name that is owned but not in the index is created again. */
  lemma {:induction false} CreatesAgain(
    w: World, app: Key, chart: ChartSpec, index: Index, ds: seq<Deploy>, ts: seq<Turn>, w': World,
    name: string, k: Key)
    requires Deployed(w, app, chart, index, ds, ts, w') && OneOf(name, ds) && name !in index
    requires k in Owned(w, app) && w.releases[k].data.name == name
    ensures !Unique(w')
    decreases |ds|
  {
    var w1, next, made := FirstDeploy(w, app, chart, index, ds, ts, w');
    assert k in Owned(w1, app) && w1.releases[k].data.name == name;
    if ReleaseName(ds[0].destination) == name {
      DeployedPersists(w1, app, chart, next, ds[1..], Tail(ts), w');
      PersistingClash(w1, w', app, k, made);
    } else {
      OneOfSplit(name, ds);
      CreatesAgain(w1, app, chart, next, ds[1..], Tail(ts), w', name, k);
    }
  }

  /** Two deploys have the name. */
  ghost predicate TwiceOf(name: string, ds: seq<Deploy>) {
    ds != [] && (TwiceOf(name, ds[1..]) || (ReleaseName(ds[0].destination) == name && OneOf(name, ds[1..])))
  }

  lemma {:induction false} TwiceOfMeans(name: string, ds: seq<Deploy>, i: nat, j: nat)
    requires i < j < |ds| && ReleaseName(ds[i].destination) == ReleaseName(ds[j].destination) == name
    ensures TwiceOf(name, ds)
  {
    assert ds[1..][j - 1] == ds[j];
    if i > 0 {
      TwiceOfMeans(name, ds[1..], i - 1, j - 1);
    }
  }

  /** So is a name that occurs twice and is not in the index. */
  lemma {:induction false} CreatesTwice(
    w: World, app: Key, chart: ChartSpec, index: Index, ds: seq<Deploy>, ts: seq<Turn>, w': World, name: string)
    requires Deployed(w, app, chart, index, ds, ts, w') && TwiceOf(name, ds) && name !in index
    ensures !Unique(w')
    decreases |ds|
  {
    var w1, next, made := FirstDeploy(w, app, chart, index, ds, ts, w');
    if TwiceOf(name, ds[1..]) {
      CreatesTwice(w1, app, chart, next, ds[1..], Tail(ts), w', name);
    } else {
      CreatesAgain(w1, app, chart, next, ds[1..], Tail(ts), w', name, made);
    }
  }

  /** Every name that occurs twice among the deploys is owned already. */
  ghost predicate RepeatsOwned(w: World, app: FluxApp) {
    forall i, j | 0 <= i < j < |app.deploys| &&
                  ReleaseName(app.deploys[i].destination) == ReleaseName(app.deploys[j].destination) ::
      exists k | k in Owned(w, app.key) :: w.releases[k].data.name == ReleaseName(app.deploys[i].destination)
  }

  lemma RepeatsIndexed(order: Order, w: World, app: FluxApp)
    requires Unique(w) && Dated(w) && IsOrder(order)
    ensures RepeatsIn(IndexOf(w, order(Owned(w, app.key))), app.deploys) <==> RepeatsOwned(w, app)
  {
    ListStartsPass(order, w, app.key, app.deploys);
    var index := IndexOf(w, order(Owned(w, app.key)));
    forall n ensures n in index <==> exists k | k in Owned(w, app.key) :: w.releases[k].data.name == n {
      if n in index {
        var k := index[n].0;
        assert k in Owned(w, app.key) && w.releases[k] == index[n].1;
      }
    }
  }

  lemma DeployingUniqueIff(order: Order, w: World, app: FluxApp, chart: ChartSpec, ts: seq<Turn>)
    requires Unique(w) && Dated(w) && IsOrder(order) && Undisturbed(ts)
    requires ListAndDeploy(order, w, app, chart, ts).1
    ensures Unique(ListAndDeploy(order, w, app, chart, ts).0) <==> RepeatsOwned(w, app)
  {
    QuietChangesNothing(w, ts);
    var w1 := Disturb(w, Head(ts).env);
    var index := IndexOf(w1, order(Owned(w1, app.key)));
    assert Owned(w1, app.key) == Owned(w, app.key);
    ListStartsPass(order, w1, app.key, app.deploys);
    RepeatsIndexed(order, w1, app);
    if RepeatsIn(index, app.deploys) {
      DeployAllKeeps(w1, app.key, chart, index, app.deploys, Tail(ts));
    } else {
      var i, j :| 0 <= i < j < |app.deploys| && ReleaseName(app.deploys[i].destination) !in index &&
                  ReleaseName(app.deploys[i].destination) == ReleaseName(app.deploys[j].destination);
      var w' := DeployAll(w1, app.key, chart, index, app.deploys, Tail(ts)).0;
      TwiceOfMeans(ReleaseName(app.deploys[i].destination), app.deploys, i, j);
      CreatesTwice(w1, app.key, chart, index, app.deploys, Tail(ts), w', ReleaseName(app.deploys[i].destination));
    }
    assert RepeatsOwned(w1, app) <==> RepeatsOwned(w, app);
  }

  /** A pass without an error keeps the names unique exactly when every name that
      occurs twice among the deploys was owned before it. */
  lemma PassUniqueIff(order: Order, w: World, app: FluxApp, ts: seq<Turn>)
    requires Unique(w) && Dated(w) && IsOrder(order) && Undisturbed(ts) && Pass(order, w, app, ts).1
    ensures Unique(Pass(order, w, app, ts).0) <==> RepeatsOwned(w, app)
  {
    ChartForMeans(w, app, ts);
    ChartForKeeps(w, app, ts);
    var (w1, chart, ts1) := ChartFor(w, app, ts);
    DeployingUniqueIff(order, w1, app, chart.value, ts1);
    assert Owned(w1, app.key) == Owned(w, app.key);
    assert RepeatsOwned(w1, app) <==> RepeatsOwned(w, app);
  }

  /** The application, the turns and the order that show it fail: two deploys to
      one namespace, and an empty store. */
  lemma SameNameIsCreatedTwice(order: Order, app: FluxApp, ts: seq<Turn>)
    requires IsOrder(order) && Smooth(ts) && |ts| == 5 && forall i, j | 0 <= i < j < 5 :: ts[i].suffix != ts[j].suffix
    requires app.template == "" && app.source.Some? && app.chart.Some?
    requires app.deploys == [Deploy(Destination(None, "prod"), "a"), Deploy(Destination(None, "prod"), "b")]
    ensures var (w', ok) := Pass(order, World(map[], map[], 0), app, ts);
            ok && !Unique(w')
  {
    var w := World(map[], map[], 0);
    SmoothPassSucceedsIff(order, w, app, ts);
    PassUniqueIff(order, w, app, ts);
    var i, j := 0, 1;
    assert ReleaseName(app.deploys[i].destination) == ReleaseName(app.deploys[j].destination);
    assert Owned(w, app.key) == {};
  }
}
