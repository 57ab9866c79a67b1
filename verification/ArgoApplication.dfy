/** The Argo CD application controller: one reconcile pass over the store, first
    as a function and then as the code runs it, call by call.

    A call that fails ends the pass, and so does a crash, so a pass is given the
    number of writes that succeed before it stops.
 */
module ArgoApplication {
  import opened Options
  import opened CommaList
  import opened ArgoStore
  import opened Objects

  /** The most writes that one pass makes. */
  const ALL := 3

  function Label(m: map<string, string>, k: string): string { if k in m then m[k] else "" }

  /** The labels that point back to the Application. */
  function OwnLabels(k: Key): map<string, string> {
    map[CONTROL_BY := "ks-devops", BACK_NAMESPACE := k.ns, BACK_NAME := k.name]
  }

  /** The Argo CD application that an Application asks for. */
  function Build(k: Key, app: App): Argo
    requires app.argo.Some?
  {
    var want := app.argo.value;
    var project := if want.spec.project == "" then "default" else want.spec.project;
    var dest := want.spec.destination;
    var destination := if dest.name != "" && dest.server != "" then dest.(server := "") else dest;
    Argo(
      OwnLabels(k) + ArgoEntries(app.labels),
      ArgoEntries(app.annotations),
      ArgoFinalizers(app.finalizers),
      false,
      want.spec.(project := project, destination := destination),
      want.operation)
  }

  /** An existing Argo CD application brought up to date with a built one. */
  function Refresh(current: Argo, built: Argo): Argo {
    Argo(current.labels + ArgoEntries(built.labels), current.annotations + ArgoEntries(built.annotations),
         built.finalizers, current.deleting, built.spec, built.operation)
  }

  /** Own labels stay, and of the others exactly the supported ones are added. */
  lemma LabelsMean(own: map<string, string>, labels: map<string, string>)
    requires forall x | x in own :: !Contains(x, ARGO_DOMAIN)
    ensures var r := own + ArgoEntries(labels);
            forall x ::
              if Contains(x, ARGO_DOMAIN) then (x in r <==> x in labels) && (x in labels ==> r[x] == labels[x])
              else (x in r <==> x in own) && (x in own ==> r[x] == own[x])
  {}

  /** What is built: the labels that point back and those that Argo CD supports,
      its annotations and finalizers. */
  lemma BuildMetaMeans(k: Key, app: App, argo: Argo)
    requires app.argo.Some? && argo == Build(k, app)
    ensures forall x ::
              if Contains(x, ARGO_DOMAIN) then
                (x in argo.labels <==> x in app.labels) && (x in app.labels ==> argo.labels[x] == app.labels[x])
              else
                (x in argo.labels <==> x in OwnLabels(k)) && (x in OwnLabels(k) ==> argo.labels[x] == OwnLabels(k)[x])
    ensures forall x :: x in argo.annotations <==> x in app.annotations && Contains(x, ARGO_DOMAIN)
    ensures forall x | x in argo.annotations :: argo.annotations[x] == app.annotations[x]
    ensures forall f :: f in argo.finalizers <==> f in app.finalizers && EndsWith(f, ARGO_SUFFIX)
    ensures !argo.deleting
  {
    OwnKeys();
    LabelsMean(OwnLabels(k), app.labels);
    forall f ensures f in argo.finalizers <==> f in app.finalizers && EndsWith(f, ARGO_SUFFIX) {
      ArgoFinalizersIn(app.finalizers, f);
    }
  }

  /** Its specification: the project or the default, at most one kind of
      destination, of which the name wins, and the rest as it is wanted. */
  lemma BuildSpecMeans(k: Key, app: App)
    requires app.argo.Some?
    ensures var argo, want := Build(k, app), app.argo.value;
            var to, wanted := argo.spec.destination, want.spec.destination;
            && argo.spec.project != "" && (want.spec.project != "" ==> argo.spec.project == want.spec.project)
            && (to.name == "" || to.server == "") && to.name == wanted.name
            && (wanted.name == "" || wanted.server == "" ==> to == wanted)
            && argo.spec.rest == want.spec.rest && argo.operation == want.operation
  {}

  function InOwnProject(k: Key, app: App): App
    requires app.argo.Some?
  {
    app.(argo := Some(app.argo.value.(spec := app.argo.value.spec.(project := k.ns))))
  }

  function RecordName(c: Cluster, k: Key, name: string): Cluster {
    if k in c.apps then PutApp(c, k, c.apps[k].(labels := c.apps[k].labels[APP_NAME := name])) else c
  }

  /** Puts the Application into its own project and adds the finalizer. */
  function SetProject(c: Cluster, k: Key): Cluster {
    if k in c.apps && c.apps[k].argo.Some? then
      PutApp(c, k, InOwnProject(k, c.apps[k]).(finalizers := AddFinalizer(c.apps[k].finalizers, FINALIZER)))
    else c
  }

  function ReleaseApp(c: Cluster, k: Key): Cluster {
    if k in c.apps then
      PutApp(c, k, c.apps[k].(finalizers := RemoveFinalizer(RemoveFinalizer(c.apps[k].finalizers, FINALIZER), CASCADE)))
    else c
  }

  /** Creates the object under a name, records the name and sets the project. */
  function CreateAs(c: Cluster, k: Key, target: Key, argo: Argo, writes: nat): Cluster {
    if target in c.argos || writes == 0 then c
    else
      var c1 := c.(argos := c.argos[target := argo]);
      if writes == 1 then c1
      else
        var c2 := RecordName(c1, k, target.name);
        if writes == 2 then c2 else SetProject(c2, k)
  }

  function UpdatePass(c: Cluster, k: Key, target: Key, argo: Argo, writes: nat): Cluster
    requires target in c.argos
  {
    if writes == 0 then c
    else
      var c1 := PutArgo(c, target, Refresh(c.argos[target], argo));
      if writes == 1 then c1 else SetProject(c1, k)
  }

  /** The pass over an Application marked for deletion: the cascade finalizers go
      to the Argo CD application, which is deleted, and then the Application is
      released. */
  function DeletePass(c: Cluster, k: Key, target: Key, writes: nat): Cluster
    requires k in c.apps
  {
    if writes == 0 then c
    else if target !in c.argos then ReleaseApp(c, k)
    else
      var fs := ArgoFinalizers(c.apps[k].finalizers);
      var c1 := if fs == [] then c else PutArgo(c, target, c.argos[target].(finalizers := fs));
      var left := if fs == [] then writes else writes - 1;
      if left == 0 then c1
      else
        var c2 := DeleteArgo(c1, target);
        if left == 1 then c2 else ReleaseApp(c2, k)
  }

  /** The Argo CD application that an Application names: the recorded name, or
      its own. */
  function Target(k: Key, app: App): Key {
    var name := Label(app.labels, APP_NAME);
    Key(Label(app.labels, LOCATION), if name == "" then k.name else name)
  }

  /** One pass. A name that is taken is extended by the API server with a
      generated suffix. */
  function Reconcile(c: Cluster, k: Key, suffix: string, writes: nat): Cluster {
    if k !in c.apps || c.apps[k].argo.None? || Label(c.apps[k].labels, LOCATION) == "" then c
    else
      var app, target := c.apps[k], Target(k, c.apps[k]);
      if app.deleting then DeletePass(c, k, target, writes)
      else
        var argo := Build(k, InOwnProject(k, app));
        if target !in c.argos then CreateAs(c, k, Key(target.ns, k.name), argo, writes)
        else if APP_NAME !in app.labels then CreateAs(c, k, Key(target.ns, k.name + suffix), argo, writes)
        else UpdatePass(c, k, target, argo, writes)
  }

  /** The controller and its client. The client loses its connection after a
      number of writes. */
  class Controller {
    var cluster: Cluster
    var writes: nat

    constructor (cluster: Cluster, writes: nat)
      ensures this.cluster == cluster && this.writes == writes
    {
      this.cluster, this.writes := cluster, writes;
    }

    method CreateArgo(k: Key, argo: Argo) returns (ok: bool)
      modifies this
      ensures ok == (k !in old(cluster).argos && old(writes) > 0)
      ensures cluster == if ok then old(cluster).(argos := old(cluster).argos[k := argo]) else old(cluster)
      ensures writes == if ok then old(writes) - 1 else old(writes)
    {
      ok := k !in cluster.argos && writes > 0;
      if ok {
        cluster, writes := cluster.(argos := cluster.argos[k := argo]), writes - 1;
      }
    }

    /** A write that replaces the store's contents, if the client still can. */
    method Commit(next: Cluster) returns (ok: bool)
      modifies this
      ensures ok == (old(writes) > 0)
      ensures cluster == (if ok then next else old(cluster)) && writes == if ok then old(writes) - 1 else 0
    {
      ok := writes > 0;
      if ok {
        cluster, writes := next, writes - 1;
      }
    }

    /** Copies the entries that Argo CD supports, key by key in any order. */
    static method CopyArgoEntries(from: map<string, string>, to: map<string, string>) returns (r: map<string, string>)
      ensures r == to + ArgoEntries(from)
    {
      r := to;
      var rest := from.Keys;
      while rest != {}
        invariant rest <= from.Keys
        invariant r == to + ArgoEntries(from - rest)
        decreases rest
      {
        var k :| k in rest;
        OneEntryMore(from, rest, k);
        if Contains(k, ARGO_DOMAIN) {
          r := r[k := from[k]];
        }
        rest := rest - {k};
      }
      assert from - rest == from;
    }

    static method CopyArgoFinalizers(fs: seq<string>) returns (r: seq<string>)
      ensures r == ArgoFinalizers(fs)
    {
      r := [];
      for i := 0 to |fs|
        invariant r == ArgoFinalizers(fs[..i])
      {
        assert fs[..i + 1][..i] == fs[..i];
        if EndsWith(fs[i], ARGO_SUFFIX) {
          r := r + [fs[i]];
        }
      }
      assert fs[..|fs|] == fs;
    }

    static method CreateUnstructured(k: Key, app: App) returns (argo: Argo)
      requires app.argo.Some?
      ensures argo == Build(k, app)
    {
      var spec := app.argo.value.spec;
      if spec.project == "" {
        spec := spec.(project := "default");
      }
      if spec.destination.name != "" && spec.destination.server != "" {
        spec := spec.(destination := spec.destination.(server := ""));
      }
      var labels := CopyArgoEntries(app.labels, OwnLabels(k));
      var annotations := CopyArgoEntries(app.annotations, map[]);
      var finalizers := CopyArgoFinalizers(app.finalizers);
      argo := Argo(labels, annotations, finalizers, false, spec, app.argo.value.operation);
    }

    method CreateAndRecord(k: Key, target: Key, argo: Argo) returns (ok: bool)
      modifies this
      ensures var n := old(writes);
              && (ok <==> n >= 2 && target !in old(cluster).argos)
              && (ok ==> writes == n - 2)
              && cluster == CreateAs(old(cluster), k, target, argo, if n >= 2 then 2 else n)
    {
      ok := CreateArgo(target, argo);
      if ok {
        ok := Commit(RecordName(cluster, k, target.name));
      }
    }

    method DeleteArgoApp(k: Key, target: Key) returns (ok: bool)
      requires k in cluster.apps && target in cluster.argos
      modifies this
      ensures var fs, n := ArgoFinalizers(old(cluster).apps[k].finalizers), old(writes);
              var need := if fs == [] then 1 else 2;
              && ok == (n >= need)
              && (ok ==> writes == n - need)
              && cluster == DeletePass(old(cluster), k, target, if ok then need else n)
    {
      var fs := CopyArgoFinalizers(cluster.apps[k].finalizers);
      ok := true;
      if fs != [] {
        ok := Commit(PutArgo(cluster, target, cluster.argos[target].(finalizers := fs)));
      }
      if ok {
        ok := Commit(DeleteArgo(cluster, target));
      }
    }

    method Run(k: Key, suffix: string)
      modifies this
      ensures cluster == Reconcile(old(cluster), k, suffix, old(writes))
    {
      if k !in cluster.apps || cluster.apps[k].argo.None? {
        return;
      }
      var app := cluster.apps[k];
      var location := Label(app.labels, LOCATION);
      if location == "" {
        return;
      }
      var name := Label(app.labels, APP_NAME);
      if name == "" {
        name := k.name;
      }
      var target := Key(location, name);
      var ok := true;
      if app.deleting {
        if target in cluster.argos {
          ok := DeleteArgoApp(k, target);
        }
        if ok {
          ok := Commit(ReleaseApp(cluster, k));
        }
        return;
      }
      app := InOwnProject(k, app);
      var argo := CreateUnstructured(k, app);
      if target !in cluster.argos {
        ok := CreateAndRecord(k, Key(location, k.name), argo);
      } else if APP_NAME !in app.labels {
        ok := CreateAndRecord(k, Key(location, k.name + suffix), argo);
      } else {
        var current := cluster.argos[target];
        var labels := CopyArgoEntries(argo.labels, current.labels);
        var annotations := CopyArgoEntries(argo.annotations, current.annotations);
        ok := Commit(PutArgo(cluster, target,
          Argo(labels, annotations, argo.finalizers, current.deleting, argo.spec, argo.operation)));
      }
      if ok {
        ok := Commit(SetProject(cluster, k));
      }
    }
  }
}
