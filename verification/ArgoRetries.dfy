/** The retried updates of the Argo CD application controller: two keep every
    other writer's fields, and the third can overwrite a finalizer.
 */
module ArgoRetries {
  import opened Options
  import opened ArgoStore
  import opened Objects
  import opened RetryUpdate

  /** What the store holds after an Application is written back. */
  function Held(app: App): Option<App> { if app.deleting && app.finalizers == [] then None else Some(app) }

  function WithName(app: App, name: string): App { app.(labels := app.labels[APP_NAME := name]) }

  function WithoutFinalizers(app: App): App {
    app.(finalizers := RemoveFinalizer(RemoveFinalizer(app.finalizers, FINALIZER), CASCADE))
  }

  function NameRecorder(name: string): App -> Change<App> { (app: App) => Hold(Held(WithName(app, name))) }

  function Releaser(): App -> Change<App> { (app: App) => Hold(Held(WithoutFinalizers(app))) }

  /** Writes a project and a finalizer list that were computed before. */
  function Settler(project: string, finalizers: seq<string>): App -> Change<App> {
    (app: App) =>
      if app.argo.None? then Crash
      else
        var want := app.argo.value;
        Hold(Held(app.(argo := Some(want.(spec := want.spec.(project := project))), finalizers := finalizers)))
  }

  /** One call of setArgoProject: an earlier read, and an update if the project
      or the finalizer is missing. */
  function SetProjectCall(p: Place<App>, ns: string, first: Around<App>, steps: seq<(Around<App>, Around<App>)>)
    : (Place<App>, Outcome)
  {
    var p1 := Others(p, first.writes);
    if first.fault != Fine then (p1, Failed)
    else if p1.stored.None? then (p1, Done)
    else
      var app := p1.stored.value.data;
      if app.argo.None? then (p1, Failed)
      else if app.argo.value.spec.project == ns && FINALIZER in app.finalizers then (p1, Done)
      else Retry(p1, Settler(ns, AddFinalizer(app.finalizers, FINALIZER)), steps)
  }

  /** The controller's calls on one Application. */
  class AppClient {
    const client: Client<App>

    constructor (place: Place<App>)
      ensures fresh(client) && client.place == place
    {
      client := new Client<App>(place);
    }

    method AddArgoAppNameIntoLabels(name: string, steps: seq<(Around<App>, Around<App>)>) returns (o: Outcome)
      modifies client
      ensures (client.place, o) == Retry(old(client.place), NameRecorder(name), steps)
    {
      o := client.RetryOnConflict(NameRecorder(name), steps);
    }

    method RemoveAppFinalizer(steps: seq<(Around<App>, Around<App>)>) returns (o: Outcome)
      modifies client
      ensures (client.place, o) == Retry(old(client.place), Releaser(), steps)
    {
      o := client.RetryOnConflict(Releaser(), steps);
    }

    method SetArgoProject(ns: string, first: Around<App>, steps: seq<(Around<App>, Around<App>)>) returns (o: Outcome)
      modifies client
      ensures (client.place, o) == SetProjectCall(old(client.place), ns, first, steps)
    {
      client.OtherWriters(first.writes);
      if first.fault != Fine {
        return Failed;
      }
      if client.place.stored.None? {
        return Done;
      }
      var latest := client.place.stored.value.data;
      if latest.argo.None? {
        return Failed;
      }
      var needUpdate := latest.argo.value.spec.project != ns;
      var finalizers := latest.finalizers;
      if FINALIZER !in finalizers {
        finalizers := finalizers + [FINALIZER];
        needUpdate := true;
      }
      o := Done;
      if needUpdate {
        o := client.RetryOnConflict(Settler(ns, finalizers), steps);
      }
    }
  }

  // ---- Recording a name and releasing lose nothing ----

  /** A client that is told that its change is done, or is told nothing. */
  predicate Wrote(o: Outcome) { o == Done || o == Unknown }

  /** The name label is set, and everything else is the same. */
  predicate NamedFrom(theirs: App, now: App, name: string) {
    && now.(labels := theirs.labels) == theirs && now.labels - {APP_NAME} == theirs.labels - {APP_NAME}
    && APP_NAME in now.labels && now.labels[APP_NAME] == name
  }

  /** A recorded name goes onto the Application as the other writers left it:
      every other label, annotation, finalizer, the mark and the specification
      are theirs. Only one that was marked and had no finalizer is gone. */
  lemma RecordingLosesNothing(
    first: Option<App>, p: Place<App>, name: string, steps: seq<(Around<App>, Around<App>)>, p': Place<App>, o: Outcome)
    requires Coherent(first, p) && (p', o) == Retry(p, NameRecorder(name), steps)
    ensures if Wrote(o) then
              && OneWrite(p, p') && Theirs(first, p').Some?
              && var theirs := Theirs(first, p').value;
                 match Value(p')
                 case None => theirs.deleting && theirs.finalizers == []
                 case Some(now) => NamedFrom(theirs, now, name) && !(now.deleting && now.finalizers == [])
            else NothingWritten(p, p')
  {
    RetryIsAtomic(first, p, NameRecorder(name), steps);
    if Wrote(o) {
      WithNameMeans(Theirs(first, p').value, name);
    }
  }

  lemma WithNameMeans(app: App, name: string)
    ensures NamedFrom(app, WithName(app, name), name)
  {
    assert app.labels[APP_NAME := name] - {APP_NAME} == app.labels - {APP_NAME};
  }

  /** The finalizers left are the other writers' finalizers but for the two. */
  ghost predicate ReleasedFrom(now: seq<string>, theirs: seq<string>) {
    && FINALIZER !in now && CASCADE !in now
    && forall f | f != FINALIZER && f != CASCADE :: f in now <==> f in theirs
  }

  /** A released Application is as the other writers left it without the two
      finalizers, or gone if it was marked and held no others. */
  lemma ReleasingLosesNothing(
    first: Option<App>, p: Place<App>, steps: seq<(Around<App>, Around<App>)>, p': Place<App>, o: Outcome)
    requires Coherent(first, p) && (p', o) == Retry(p, Releaser(), steps)
    ensures if Wrote(o) then
              && OneWrite(p, p') && Theirs(first, p').Some?
              && var theirs := Theirs(first, p').value;
                 match Value(p')
                 case None => theirs.deleting && ReleasedFrom([], theirs.finalizers)
                 case Some(app) =>
                   && app.(finalizers := theirs.finalizers) == theirs && ReleasedFrom(app.finalizers, theirs.finalizers)
                   && !(app.deleting && app.finalizers == [])
            else NothingWritten(p, p')
  {
    RetryIsAtomic(first, p, Releaser(), steps);
    if Wrote(o) {
      WithoutFinalizersMeans(Theirs(first, p').value);
    }
  }

  lemma WithoutFinalizersMeans(app: App)
    ensures ReleasedFrom(WithoutFinalizers(app).finalizers, app.finalizers)
  {
    RemovedIsGone(app.finalizers, FINALIZER);
    RemovedIsGone(RemoveFinalizer(app.finalizers, FINALIZER), CASCADE);
  }

  // ---- Setting the project can lose a finalizer ----

  lemma AddSame(a: seq<string>, b: seq<string>, f: string)
    ensures AddFinalizer(a, f) == AddFinalizer(b, f) <==>
            a == b || (f !in a && b == a + [f]) || (f !in b && a == b + [f])
  {
    if f !in a && f !in b && a + [f] == b + [f] {
      assert a == (a + [f])[..|a|] == (b + [f])[..|b|] == b;
    }
  }

  /** Between two finalizer lists nothing changed but for the controller's own. */
  predicate SameButOwn(a: seq<string>, b: seq<string>) {
    a == b || (FINALIZER !in a && b == a + [FINALIZER]) || (FINALIZER !in b && a == b + [FINALIZER])
  }

  /** An Application in another project; finalizers aside, the rest is as it was. */
  predicate MovedTo(theirs: App, now: App, ns: string) {
    && now.(finalizers := theirs.finalizers, argo := theirs.argo) == theirs
    && theirs.argo.Some? && now.argo.Some?
    && now.argo.value.(spec := now.argo.value.spec.(project := theirs.argo.value.spec.project)) == theirs.argo.value
    && now.argo.value.spec.project == ns
  }

  /** The retried update writes the finalizers of the earlier read. */
  lemma SettlerKeepsIff(
    first: Option<App>, p: Place<App>, ns: string, read: seq<string>, steps: seq<(Around<App>, Around<App>)>,
    p': Place<App>, o: Outcome)
    requires Coherent(first, p) && (p', o) == Retry(p, Settler(ns, AddFinalizer(read, FINALIZER)), steps)
    ensures if Wrote(o) then
              && OneWrite(p, p') && Theirs(first, p').Some? && Value(p').Some?
              && var theirs, now := Theirs(first, p').value, Value(p').value;
                 && MovedTo(theirs, now, ns)
                 && (now.finalizers == AddFinalizer(theirs.finalizers, FINALIZER) <==>
                     SameButOwn(read, theirs.finalizers))
            else NothingWritten(p, p')
  {
    RetryIsAtomic(first, p, Settler(ns, AddFinalizer(read, FINALIZER)), steps);
    if Wrote(o) {
      HasOwn(read);
      AddSame(read, Theirs(first, p').value.finalizers, FINALIZER);
    }
  }

  /** An Application that needs no write. */
  predicate InPlace(app: App, ns: string) {
    app.argo.Some? && app.argo.value.spec.project == ns && FINALIZER in app.finalizers
  }

  /** The whole call writes at most once. If it writes nothing and reports
      success, the first read found no Application, or one in place. If it writes,
      it keeps the other writers' finalizers exactly when, but for the
      controller's own, nobody changed them since the first read; everything but
      the project stays theirs. */
  lemma SettingKeepsFinalizersIff(
    first: Option<App>, p: Place<App>, ns: string, g: Around<App>, steps: seq<(Around<App>, Around<App>)>,
    p': Place<App>, o: Outcome)
    requires Coherent(first, p) && (p', o) == SetProjectCall(p, ns, g, steps)
    ensures var read := Value(Others(p, g.writes));
            if OneWrite(p, p') then
              && Wrote(o) && read.Some? && !InPlace(read.value, ns)
              && Theirs(first, p').Some? && Value(p').Some?
              && var theirs, now := Theirs(first, p').value, Value(p').value;
                 && MovedTo(theirs, now, ns)
                 && (now.finalizers == AddFinalizer(theirs.finalizers, FINALIZER) <==>
                     SameButOwn(read.value.finalizers, theirs.finalizers))
            else
              && NothingWritten(p, p') && o != Unknown
              && (o == Done <==> g.fault == Fine && (read.None? || InPlace(read.value, ns)))
  {
    var p1 := Others(p, g.writes);
    var read := Value(p1);
    OthersCoherent(first, p, g.writes);
    if g.fault == Fine && read.Some? && read.value.argo.Some? && !InPlace(read.value, ns) {
      SettlerKeepsIff(first, p1, ns, read.value.finalizers, steps, p', o);
      if Wrote(o) { OneWriteLater(p, p1, p'); } else { NothingTwice(p, p1, p'); }
    }
    if NothingWritten(p, p') { WriteOrNothing(p, p'); }
  }

  lemma WriteOrNothing<T>(p: Place<T>, p': Place<T>)
    requires NothingWritten(p, p')
    ensures !OneWrite(p, p')
  {
    if |p'.log| > |p.log| {
      assert !p'.log[|p.log|..][|p'.log| - 1 - |p.log|].ours;
    }
  }

  lemma HasOwn(fs: seq<string>)
    ensures AddFinalizer(fs, FINALIZER) != []
  {}

  /** A user adds the cascade finalizer between the two reads: it is overwritten,
      and the call reports success. */
  lemma SettingLosesAFinalizer(app: App, ns: string)
    requires app.argo.Some? && app.finalizers == [] && !app.deleting
    ensures var user := Around([Some(app.(finalizers := [CASCADE]))], Fine);
            var (p', o) := SetProjectCall(Place(Some(Versioned(0, app)), 0, []), ns, Around([], Fine),
                                      [(user, Around([], Fine))]);
            o == Done && Value(p').Some? && Value(p').value.finalizers == [FINALIZER]
  {
    var w := Some(app.(finalizers := [CASCADE]));
    var p := Place(Some(Versioned(0, app)), 0, []);
    var quiet: Around<App> := Around([], Fine);
    var steps := [(Around([w], Fine), quiet)];
    OneOther(p, w);
    assert Others(p, []) == p;
    assert AddFinalizer(app.finalizers, FINALIZER) == [FINALIZER];
    assert SetProjectCall(p, ns, quiet, steps) == Retry(p, Settler(ns, [FINALIZER]), steps);
    assert Retry(p, Settler(ns, [FINALIZER]), steps) == Attempt(p, Settler(ns, [FINALIZER]), steps[0].0, quiet);
  }

  lemma OneOther(p: Place<App>, w: Option<App>)
    ensures Others(p, [w]) == Put(p, Write(false, w))
  {
    assert [w][..0] == [];
  }
}
