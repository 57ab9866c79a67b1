/** The Flux application controller's pass over an application's Helm releases:
    create or update, with the identity of a release in an annotation.

    Before every call others may act; a call may fail, with or without effect.
 */
module FluxHelm {
  import opened FluxNames
  import opened Objects
  import opened Options

  datatype Source = Source(apiVersion: string, kind: string, name: string)

  datatype ChartSpec = ChartSpec(
    source: Source, chart: string, version: string, interval: int, strategy: string, valuesFiles: seq<string>)

  /** The chart part of an application; an interval of seconds may be missing. */
  datatype AppChart = AppChart(
    chart: string, version: string, interval: Option<int>, strategy: string, valuesFiles: seq<string>)

  /** One deployment; settings is all that is only copied. */
  datatype Deploy = Deploy(destination: Destination, settings: string)

  /** A Flux application; save tells whether it is to be kept as a template. */
  datatype FluxApp = FluxApp(
    key: Key, save: bool, template: string, source: Option<Source>, chart: Option<AppChart>, deploys: seq<Deploy>)

  datatype ReleaseSpec = ReleaseSpec(chart: ChartSpec, destination: Destination, settings: string)

  /** A Helm release with its managing application's name and its own name, which
      are a label and an annotation. */
  datatype Release = Release(app: Option<string>, name: string, spec: ReleaseSpec)

  datatype World = World(charts: map<Key, ChartSpec>, releases: map<Key, Versioned<Release>>, clock: nat)

  const TEN_MINUTES := 600

  function BuildChart(source: Source, chart: AppChart): ChartSpec {
    var interval := if chart.interval.Some? then chart.interval.value else TEN_MINUTES;
    ChartSpec(source, chart.chart, chart.version, interval, chart.strategy, chart.valuesFiles)
  }

  function BuildSpec(chart: ChartSpec, d: Deploy): ReleaseSpec { ReleaseSpec(chart, d.destination, d.settings) }

  // ---- Others ----

  /** What others do: write charts, drop releases, and write releases. They keep
      a release's label and annotation and create none with the label, and what
      they write has the next version. */
  datatype Env = Env(charts: map<Key, ChartSpec>, drop: set<Key>, put: map<Key, Versioned<Release>>)

  predicate MayPut(w: World, k: Key, r: Versioned<Release>) {
    && r.version == w.clock + 1
    && if k in w.releases then r.data.app == w.releases[k].data.app && r.data.name == w.releases[k].data.name
       else r.data.app.None?
  }

  function Disturb(w: World, e: Env): World {
    var refused := set k | k in e.put && !MayPut(w, k, e.put[k]);
    World(w.charts + e.charts, w.releases - e.drop + (e.put - refused), w.clock + 1)
  }

  /** What happens around one call: the others, how it fares, and the suffix that
      the API server generates if it creates. */
  datatype Turn = Turn(env: Env, fault: Fault, suffix: string)

  const QUIET := Turn(Env(map[], {}, map[]), Fine, "")

  function Head(ts: seq<Turn>): Turn { if ts == [] then QUIET else ts[0] }

  function Tail(ts: seq<Turn>): seq<Turn> { if ts == [] then [] else ts[1..] }

  // ---- The pass ----

  function PutRelease(w: World, k: Key, r: Release): World {
    if k in w.releases && w.releases[k].data == r then w
    else w.(releases := w.releases[k := Versioned(w.clock + 1, r)], clock := w.clock + 1)
  }

  /** The chart that the releases are built from, and the calls left. An existing
      template overrides the application's own chart. */
  function ChartFor(w: World, app: FluxApp, ts: seq<Turn>): (World, Option<ChartSpec>, seq<Turn>) {
    if app.template != "" then
      var k, w1 := Key(app.key.ns, app.template), Disturb(w, Head(ts).env);
      (w1, if Head(ts).fault == Fine && k in w1.charts then Some(w1.charts[k]) else None, Tail(ts))
    else if app.source.None? || app.chart.None? then (w, None, ts)
    else
      var built := BuildChart(app.source.value, app.chart.value);
      if !app.save then (w, Some(built), ts)
      else
        var w1 := Disturb(w, Head(ts).env);
        if Head(ts).fault != Fine then (w1, None, Tail(ts))
        else if app.key in w1.charts then (w1, Some(w1.charts[app.key]), Tail(ts))
        else
          var t := Head(Tail(ts));
          var w2 := Disturb(w1, t.env);
          if t.fault == Refused || app.key in w2.charts then (w2, None, Tail(Tail(ts)))
          else
            (w2.(charts := w2.charts[app.key := built]), if t.fault == Fine then Some(built) else None, Tail(Tail(ts)))
  }

  function Owned(w: World, app: Key): set<Key> {
    set k | k in w.releases && k.ns == app.ns && w.releases[k].data.app == Some(app.name)
  }

  type Index = map<string, (Key, Versioned<Release>)>

  /** Listed releases by name; of several with one name the last counts. */
  function IndexOf(w: World, keys: seq<Key>): Index {
    if keys == [] then map[]
    else
      var k, r := keys[|keys| - 1], IndexOf(w, keys[..|keys| - 1]);
      if k in w.releases then r[w.releases[k].data.name := (k, w.releases[k])] else r
  }

  function DeployOne(w: World, app: Key, chart: ChartSpec, index: Index, d: Deploy, t: Turn): (World, bool) {
    var w1, name := Disturb(w, t.env), ReleaseName(d.destination);
    if t.fault == Refused then (w1, false)
    else if name in index then
      var (k, got) := index[name];
      if k !in w1.releases || w1.releases[k].version != got.version then (w1, false)
      else (PutRelease(w1, k, got.data.(spec := BuildSpec(chart, d))), t.fault == Fine)
    else
      var k := Key(app.ns, app.name + t.suffix);
      if k in w1.releases then (w1, false)
      else (PutRelease(w1, k, Release(Some(app.name), name, BuildSpec(chart, d))), t.fault == Fine)
  }

  /** An update refreshes the indexed release of its name. */
  function Refreshed(index: Index, w: World, name: string): Index {
    if name in index && index[name].0 in w.releases then
      index[name := (index[name].0, w.releases[index[name].0])]
    else index
  }

  function DeployAll(w: World, app: Key, chart: ChartSpec, index: Index, ds: seq<Deploy>, ts: seq<Turn>)
    : (World, bool)
    decreases |ds|
  {
    if ds == [] then (w, true)
    else
      var (w1, ok) := DeployOne(w, app, chart, index, ds[0], Head(ts));
      var index1 := Refreshed(index, w1, ReleaseName(ds[0].destination));
      if ok then DeployAll(w1, app, chart, index1, ds[1..], Tail(ts)) else (w1, false)
  }

  /** The order in which the API server lists a set of objects. */
  type Order = set<Key> -> seq<Key>

  ghost predicate IsOrder(order: Order) { forall s, k :: k in order(s) <==> k in s }

  /** The application's releases are listed, and then each deploy is handled. */
  function ListAndDeploy(order: Order, w: World, app: FluxApp, chart: ChartSpec, ts: seq<Turn>): (World, bool) {
    var w1 := Disturb(w, Head(ts).env);
    if Head(ts).fault != Fine then (w1, false)
    else DeployAll(w1, app.key, chart, IndexOf(w1, order(Owned(w1, app.key))), app.deploys, Tail(ts))
  }

  /** One pass; the second component tells whether it returned without an error. */
  function Pass(order: Order, w: World, app: FluxApp, ts: seq<Turn>): (World, bool) {
    var (w1, chart, ts1) := ChartFor(w, app, ts);
    if chart.None? then (w1, false) else ListAndDeploy(order, w1, app, chart.value, ts1)
  }

  /** The controller over a shared store, call by call. */
  class Controller {
    var world: World
    var turns: seq<Turn>
    const order: Order

    constructor (world: World, turns: seq<Turn>, order: Order)
      ensures this.world == world && this.turns == turns && this.order == order
    {
      this.world, this.turns, this.order := world, turns, order;
    }

    /** Others act before the next call. */
    method Wait() returns (t: Turn)
      modifies this
      ensures t == Head(old(turns)) && turns == Tail(old(turns)) && world == Disturb(old(world), t.env)
    {
      t, turns := Head(turns), Tail(turns);
      world := Disturb(world, t.env);
    }

    method SaveTemplate(k: Key, built: ChartSpec) returns (chart: Option<ChartSpec>)
      modifies this
      ensures forall app: FluxApp |
                app.key == k && app.save && app.template == "" && app.source.Some? && app.chart.Some? &&
                BuildChart(app.source.value, app.chart.value) == built ::
                (world, chart, turns) == ChartFor(old(world), app, old(turns))
    {
      var t := Wait();
      if t.fault != Fine {
        return None;
      }
      if k in world.charts {
        return Some(world.charts[k]);
      }
      t := Wait();
      if t.fault == Refused || k in world.charts {
        return None;
      }
      world := world.(charts := world.charts[k := built]);
      chart := if t.fault == Fine then Some(built) else None;
    }

    method CreateHelmRelease(app: Key, chart: ChartSpec, deploy: Deploy) returns (ok: bool)
      modifies this
      ensures turns == Tail(old(turns))
      ensures forall index: Index | ReleaseName(deploy.destination) !in index ::
                (world, ok) == DeployOne(old(world), app, chart, index, deploy, Head(old(turns)))
    {
      var t := Wait();
      var k := Key(app.ns, app.name + t.suffix);
      if t.fault == Refused || k in world.releases {
        return false;
      }
      world := PutRelease(world, k, Release(Some(app.name), ReleaseName(deploy.destination), BuildSpec(chart, deploy)));
      ok := t.fault == Fine;
    }

    /** The object passed in is refreshed by the update. */
    method UpdateHelmRelease(k: Key, hr: Versioned<Release>, chart: ChartSpec, deploy: Deploy)
      returns (ok: bool, updated: Versioned<Release>)
      modifies this
      ensures turns == Tail(old(turns)) && (ok ==> k in world.releases && updated == world.releases[k])
      ensures forall app: Key, index: Index |
                ReleaseName(deploy.destination) in index && index[ReleaseName(deploy.destination)] == (k, hr) ::
                (world, ok) == DeployOne(old(world), app, chart, index, deploy, Head(old(turns)))
    {
      updated := hr;
      var t := Wait();
      if t.fault == Refused || k !in world.releases || world.releases[k].version != hr.version {
        return false, hr;
      }
      world := PutRelease(world, k, hr.data.(spec := BuildSpec(chart, deploy)));
      ok, updated := t.fault == Fine, world.releases[k];
    }

    method ListReleases(items: seq<Key>) returns (index: Index)
      ensures index == IndexOf(world, items)
    {
      index := map[];
      for i := 0 to |items|
        invariant index == IndexOf(world, items[..i])
      {
        assert items[..i + 1][..i] == items[..i];
        var k := items[i];
        if k in world.releases {
          index := index[world.releases[k].data.name := (k, world.releases[k])];
        }
      }
      assert items[..|items|] == items;
    }

    method DeployReleases(app: Key, chart: ChartSpec, listed: Index, deploys: seq<Deploy>) returns (ok: bool)
      modifies this
      ensures (world, ok) == DeployAll(old(world), app, chart, listed, deploys, old(turns))
    {
      ok := true;
      var index := listed;
      var i := 0;
      while i < |deploys| && ok
        invariant 0 <= i <= |deploys|
        invariant ok ==> DeployAll(world, app, chart, index, deploys[i..], turns) ==
                         DeployAll(old(world), app, chart, listed, deploys, old(turns))
        invariant !ok ==> (world, false) == DeployAll(old(world), app, chart, listed, deploys, old(turns))
        decreases |deploys| - i
      {
        assert deploys[i..][1..] == deploys[i + 1..];
        var name := ReleaseName(deploys[i].destination);
        if name in index {
          var k, updated := index[name].0, index[name].1;
          ok, updated := UpdateHelmRelease(k, updated, chart, deploys[i]);
          if ok {
            index := index[name := (k, updated)];
          }
        } else {
          ok := CreateHelmRelease(app, chart, deploys[i]);
        }
        i := i + 1;
      }
    }

    method ReconcileHelmReleaseList(app: FluxApp, chart: ChartSpec) returns (ok: bool)
      modifies this
      ensures (world, ok) == ListAndDeploy(order, old(world), app, chart, old(turns))
    {
      var t := Wait();
      if t.fault != Fine {
        return false;
      }
      var index := ListReleases(order(Owned(world, app.key)));
      ok := DeployReleases(app.key, chart, index, app.deploys);
    }

    method ReconcileHelmRelease(app: FluxApp) returns (ok: bool)
      modifies this
      ensures (world, ok) == Pass(order, old(world), app, old(turns))
    {
      var chart: Option<ChartSpec>;
      if app.template != "" {
        var k := Key(app.key.ns, app.template);
        var t := Wait();
        chart := if t.fault == Fine && k in world.charts then Some(world.charts[k]) else None;
      } else {
        if app.source.None? || app.chart.None? {
          return false;
        }
        var built := BuildChart(app.source.value, app.chart.value);
        chart := Some(built);
        if app.save {
          chart := SaveTemplate(app.key, built);
        }
      }
      if chart.None? {
        return false;
      }
      ok := ReconcileHelmReleaseList(app, chart.value);
    }
  }
}
