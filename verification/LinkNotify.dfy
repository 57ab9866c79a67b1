/** Two controllers that wake each other. The repository controller writes a
    repository's name into the annotation of each webhook it refers to; the
    webhook controller stamps each repository named there. An update that
    changes an object puts it on its controller's work queue.
 */
module LinkNotify {
  import opened Options
  import opened CommaList
  import opened Objects

  /** A repository: the names of its webhooks and the stamp that notifies it. */
  datatype Repo = Repo(hooks: seq<string>, stamp: string)

  /** A webhook: its annotations, one of which lists its repositories. */
  datatype Hook = Hook(annotations: map<string, string>)

  const GIT_REPOS := "devops.kubesphere.io/git-repositories"

  function Repos(hook: Hook): Option<string> {
    if GIT_REPOS in hook.annotations then Some(hook.annotations[GIT_REPOS]) else None
  }

  datatype World = World(repos: map<Key, Repo>, hooks: map<Key, Hook>, repoQueue: set<Key>, hookQueue: set<Key>)

  // ---- One reconcile of each controller ----

  /** Writes webhook h; a change raises its event. */
  function PutHook(w: World, h: Key, hook: Hook): World
    requires h in w.hooks
  {
    if w.hooks[h] == hook then w else w.(hooks := w.hooks[h := hook], hookQueue := w.hookQueue + {h})
  }

  function PutRepo(w: World, r: Key, repo: Repo): World
    requires r in w.repos
  {
    if w.repos[r] == repo then w else w.(repos := w.repos[r := repo], repoQueue := w.repoQueue + {r})
  }

  function WithName(hook: Hook, name: string): Hook { Hook(AddToAnnotations(hook.annotations, GIT_REPOS, name)) }

  /** Links repository r to the webhook named ref; a missing webhook is an error,
      and so is an update that fails, with effect or without. */
  function LinkOne(w: World, r: Key, ref: string, f: Fault): World {
    var h := Key(r.ns, ref);
    if h in w.hooks && f != Refused then PutHook(w, h, WithName(w.hooks[h], r.name)) else w
  }

  function LinkAll(w: World, r: Key, refs: seq<string>, fs: seq<Fault>): World
    requires |fs| == |refs|
  {
    if refs == [] then w
    else
      var n := |refs| - 1;
      LinkOne(LinkAll(w, r, refs[..n], fs[..n]), r, refs[n], fs[n])
  }

  predicate LinkFails(w: World, r: Key, refs: seq<string>, fs: seq<Fault>)
    requires |fs| == |refs|
  {
    exists i | 0 <= i < |refs| :: fs[i] != Fine || Key(r.ns, refs[i]) !in w.hooks
  }

  /** The repository controller takes r off its queue and links it. A failed link
      puts it back. */
  function RepoStep(w: World, r: Key, fs: seq<Fault>): World
    requires r in w.repos ==> |fs| == |w.repos[r].hooks|
  {
    var w0 := w.(repoQueue := w.repoQueue - {r});
    if r !in w.repos then w0
    else
      var w1 := LinkAll(w0, r, w.repos[r].hooks, fs);
      if LinkFails(w0, r, w.repos[r].hooks, fs) then w1.(repoQueue := w1.repoQueue + {r}) else w1
  }

  /** One notification: the generated stamp, and how the update fares. */
  datatype Turn = Turn(stamp: string, fault: Fault)

  /** Stamps the repository called name; a missing one is an error. */
  function NotifyOne(w: World, ns: string, name: string, t: Turn): World {
    var r := Key(ns, name);
    if r in w.repos && t.fault != Refused then PutRepo(w, r, w.repos[r].(stamp := t.stamp)) else w
  }

  function NotifyAll(w: World, ns: string, names: seq<string>, ts: seq<Turn>): World
    requires |ts| == |names|
  {
    if names == [] then w
    else
      var n := |names| - 1;
      NotifyOne(NotifyAll(w, ns, names[..n], ts[..n]), ns, names[n], ts[n])
  }

  predicate NotifyFails(w: World, ns: string, names: seq<string>, ts: seq<Turn>)
    requires |ts| == |names|
  {
    exists i | 0 <= i < |names| :: ts[i].fault != Fine || Key(ns, names[i]) !in w.repos
  }

  function Names(hook: Hook): seq<string> { if Repos(hook).None? then [] else Split(Repos(hook).value) }

  /** The webhook controller takes h off its queue and stamps its repositories.
      A failure puts it back. */
  function HookStep(w: World, h: Key, ts: seq<Turn>): World
    requires h in w.hooks ==> |ts| == |Names(w.hooks[h])|
  {
    var w0 := w.(hookQueue := w.hookQueue - {h});
    if h !in w.hooks then w0
    else
      var names := Names(w.hooks[h]);
      var w1 := NotifyAll(w0, h.ns, names, ts);
      if NotifyFails(w0, h.ns, names, ts) then w1.(hookQueue := w1.hookQueue + {h}) else w1
  }

  /** The controllers over a shared store, as the code's loops run them. */
  class Controllers {
    var world: World

    constructor (world: World)
      ensures this.world == world
    {
      this.world := world;
    }

    method LinkToWebhook(r: Key, ref: string, f: Fault) returns (ok: bool)
      modifies this
      ensures world == LinkOne(old(world), r, ref, f) && ok == (f == Fine && Key(r.ns, ref) in old(world).hooks)
    {
      var h := Key(r.ns, ref);
      if h !in world.hooks || f == Refused {
        return false;
      }
      world := PutHook(world, h, Hook(AddToAnnotations(world.hooks[h].annotations, GIT_REPOS, r.name)));
      ok := f == Fine;
    }

    method LinkToWebhooks(r: Key, refs: seq<string>, fs: seq<Fault>) returns (ok: bool)
      requires |fs| == |refs|
      modifies this
      ensures world == LinkAll(old(world), r, refs, fs) && ok == !LinkFails(old(world), r, refs, fs)
    {
      var failed: seq<string> := [];
      for i := 0 to |refs|
        invariant world == LinkAll(old(world), r, refs[..i], fs[..i])
        invariant failed != [] <==> LinkFails(old(world), r, refs[..i], fs[..i])
      {
        LinkNext(old(world), r, refs, fs, i);
        LinkFailsNext(old(world), r, refs, fs, i);
        var linked := LinkToWebhook(r, refs[i], fs[i]);
        if !linked {
          failed := failed + [refs[i]];
        }
      }
      assert refs[..|refs|] == refs && fs[..|refs|] == fs;
      ok := failed == [];
    }

    method ReconcileRepo(r: Key, fs: seq<Fault>)
      requires r in world.repos ==> |fs| == |world.repos[r].hooks|
      modifies this
      ensures world == RepoStep(old(world), r, fs)
    {
      world := world.(repoQueue := world.repoQueue - {r});
      if r in world.repos && world.repos[r].hooks != [] {
        var ok := LinkToWebhooks(r, world.repos[r].hooks, fs);
        if !ok {
          world := world.(repoQueue := world.repoQueue + {r});
        }
      }
    }

    method NotifyGitRepo(ns: string, name: string, t: Turn) returns (ok: bool)
      modifies this
      ensures world == NotifyOne(old(world), ns, name, t)
      ensures ok == (t.fault == Fine && Key(ns, name) in old(world).repos)
    {
      var r := Key(ns, name);
      if r !in world.repos || t.fault == Refused {
        return false;
      }
      world := PutRepo(world, r, world.repos[r].(stamp := t.stamp));
      ok := t.fault == Fine;
    }

    method NotifyGitRepos(ns: string, names: seq<string>, ts: seq<Turn>) returns (ok: bool)
      requires |ts| == |names|
      modifies this
      ensures world == NotifyAll(old(world), ns, names, ts) && ok == !NotifyFails(old(world), ns, names, ts)
    {
      var errors := 0;
      for i := 0 to |names|
        invariant world == NotifyAll(old(world), ns, names[..i], ts[..i])
        invariant errors > 0 <==> NotifyFails(old(world), ns, names[..i], ts[..i])
      {
        NotifyNext(old(world), ns, names, ts, i);
        NotifyFailsNext(old(world), ns, names, ts, i);
        var stamped := NotifyGitRepo(ns, names[i], ts[i]);
        if !stamped {
          errors := errors + 1;
        }
      }
      assert names[..|names|] == names && ts[..|names|] == ts;
      ok := errors == 0;
    }

    method ReconcileHook(h: Key, ts: seq<Turn>)
      requires h in world.hooks ==> |ts| == |Names(world.hooks[h])|
      modifies this
      ensures world == HookStep(old(world), h, ts)
    {
      world := world.(hookQueue := world.hookQueue - {h});
      if h in world.hooks && GIT_REPOS in world.hooks[h].annotations {
        var ok := NotifyGitRepos(h.ns, Split(world.hooks[h].annotations[GIT_REPOS]), ts);
        if !ok {
          world := world.(hookQueue := world.hookQueue + {h});
        }
      }
    }
  }

  // ---- What the steps keep ----

  /** One link further. */
  lemma LinkNext(w: World, r: Key, refs: seq<string>, fs: seq<Fault>, i: nat)
    requires |fs| == |refs| && i < |refs|
    ensures var w' := LinkAll(w, r, refs[..i], fs[..i]);
            w'.hooks.Keys == w.hooks.Keys && LinkAll(w, r, refs[..i + 1], fs[..i + 1]) == LinkOne(w', r, refs[i], fs[i])
  {
    assert refs[..i + 1][..i] == refs[..i] && fs[..i + 1][..i] == fs[..i];
    LinkAllKeeps(w, r, refs[..i], fs[..i]);
  }

  lemma LinkFailsNext(w: World, r: Key, refs: seq<string>, fs: seq<Fault>, i: nat)
    requires |fs| == |refs| && i < |refs|
    ensures LinkFails(w, r, refs[..i + 1], fs[..i + 1]) <==>
            LinkFails(w, r, refs[..i], fs[..i]) || fs[i] != Fine || Key(r.ns, refs[i]) !in w.hooks
  {
    if j :| 0 <= j < i && (fs[j] != Fine || Key(r.ns, refs[j]) !in w.hooks) {
      assert fs[..i][j] == fs[..i + 1][j] == fs[j] && refs[..i][j] == refs[..i + 1][j] == refs[j];
    }
    assert fs[..i + 1][i] == fs[i] && refs[..i + 1][i] == refs[i];
  }

  /** One notification further. */
  lemma NotifyNext(w: World, ns: string, names: seq<string>, ts: seq<Turn>, i: nat)
    requires |ts| == |names| && i < |names|
    ensures var w' := NotifyAll(w, ns, names[..i], ts[..i]);
            && w'.repos.Keys == w.repos.Keys
            && NotifyAll(w, ns, names[..i + 1], ts[..i + 1]) == NotifyOne(w', ns, names[i], ts[i])
  {
    assert names[..i + 1][..i] == names[..i] && ts[..i + 1][..i] == ts[..i];
    NotifyAllKeeps(w, ns, names[..i], ts[..i]);
  }

  lemma NotifyFailsNext(w: World, ns: string, names: seq<string>, ts: seq<Turn>, i: nat)
    requires |ts| == |names| && i < |names|
    ensures NotifyFails(w, ns, names[..i + 1], ts[..i + 1]) <==>
            NotifyFails(w, ns, names[..i], ts[..i]) || ts[i].fault != Fine || Key(ns, names[i]) !in w.repos
  {
    if j :| 0 <= j < i && (ts[j].fault != Fine || Key(ns, names[j]) !in w.repos) {
      assert ts[..i][j] == ts[..i + 1][j] == ts[j] && names[..i][j] == names[..i + 1][j] == names[j];
    }
    assert ts[..i + 1][i] == ts[i] && names[..i + 1][i] == names[i];
  }

  lemma {:induction false} LinkAllKeeps(w: World, r: Key, refs: seq<string>, fs: seq<Fault>)
    requires |fs| == |refs|
    ensures var w' := LinkAll(w, r, refs, fs);
            w'.repos == w.repos && w'.repoQueue == w.repoQueue && w'.hooks.Keys == w.hooks.Keys
  {
    if refs != [] {
      LinkAllKeeps(w, r, refs[..|refs| - 1], fs[..|refs| - 1]);
    }
  }

  lemma {:induction false} NotifyAllKeeps(w: World, ns: string, names: seq<string>, ts: seq<Turn>)
    requires |ts| == |names|
    ensures var w' := NotifyAll(w, ns, names, ts);
            && w'.hooks == w.hooks && w'.hookQueue == w.hookQueue && w'.repos.Keys == w.repos.Keys
            && (forall r | r in w.repos :: w'.repos[r].hooks == w.repos[r].hooks)
            && w.repoQueue <= w'.repoQueue <= w.repoQueue + w.repos.Keys
  {
    if names != [] {
      NotifyAllKeeps(w, ns, names[..|names| - 1], ts[..|names| - 1]);
    }
  }

  /** Every referenced webhook and every named repository exists, and queues hold
      existing objects. */
  ghost predicate Closed(w: World) {
    && (forall r | r in w.repos :: IsName(r.name))
    && (forall r, ref | r in w.repos && ref in w.repos[r].hooks :: Key(r.ns, ref) in w.hooks)
    && (forall h, n | h in w.hooks && n in Names(w.hooks[h]) :: Key(h.ns, n) in w.repos)
    && w.repoQueue <= w.repos.Keys && w.hookQueue <= w.hooks.Keys
  }

  /** Repository r passes the test in the annotation of the webhook named ref. */
  predicate IsLinked(w: World, r: Key, ref: string) {
    var h := Key(r.ns, ref);
    h in w.hooks && Repos(w.hooks[h]).Some? && Linked(Repos(w.hooks[h]).value, r.name)
  }

  /** The links still to be made. */
  ghost function Missing(w: World): set<(Key, string)> {
    set r, ref | r in w.repos && ref in w.repos[r].hooks && !IsLinked(w, r, ref) :: (r, ref)
  }

  /** Only queued repositories have links to make. */
  ghost predicate Served(w: World) {
    forall r, ref | r in w.repos && ref in w.repos[r].hooks && r !in w.repoQueue :: IsLinked(w, r, ref)
  }

  /** The webhooks differ in the one annotation at most. */
  predicate OtherAnnotationsKept(w: World, w': World) {
    && w'.hooks.Keys == w.hooks.Keys
    && forall h | h in w.hooks :: w'.hooks[h].annotations - {GIT_REPOS} == w.hooks[h].annotations - {GIT_REPOS}
  }

  /** One link: made at most once, and never undone. */
  lemma LinkOneProgress(w: World, r: Key, ref: string, f: Fault)
    requires Closed(w) && r in w.repos && ref in w.repos[r].hooks
    ensures var w' := LinkOne(w, r, ref, f);
            && Closed(w') && OtherAnnotationsKept(w, w') && w'.repos == w.repos
            && (f != Refused ==> IsLinked(w', r, ref))
            && (forall q, x | IsLinked(w, q, x) :: IsLinked(w', q, x))
            && (w' == w || Missing(w') < Missing(w))
  {
    var h := Key(r.ns, ref);
    var val := Repos(w.hooks[h]);
    var w' := LinkOne(w, r, ref, f);
    OthersAreKept(w.hooks[h].annotations, GIT_REPOS, r.name);
    AddLinks(val, r.name);
    if val.Some? {
      AddToPieces(val.value, r.name);
    } else {
      SplitName(r.name);
    }
    forall q, x | IsLinked(w, q, x) ensures IsLinked(w', q, x) {
      if Key(q.ns, x) == h {
        LinkedStays(val.value, q.name, r.name);
      }
    }
    if w' != w {
      MadeOneLink(w, w', r, ref, val);
    }
  }

  lemma LinkedWritesNothing(hook: Hook, name: string)
    requires Repos(hook).Some? && Linked(Repos(hook).value, name)
    ensures WithName(hook, name) == hook
  {
    assert hook.annotations[GIT_REPOS := hook.annotations[GIT_REPOS]] == hook.annotations;
  }

  lemma MadeOneLink(w: World, w': World, r: Key, ref: string, val: Option<string>)
    requires r in w.repos && ref in w.repos[r].hooks && Key(r.ns, ref) in w.hooks
    requires val == Repos(w.hooks[Key(r.ns, ref)]) && w'.repos == w.repos
    requires w' == PutHook(w, Key(r.ns, ref), WithName(w.hooks[Key(r.ns, ref)], r.name)) != w
    requires IsLinked(w', r, ref) && forall q, x | IsLinked(w, q, x) :: IsLinked(w', q, x)
    ensures Missing(w') < Missing(w)
  {
    if IsLinked(w, r, ref) { LinkedWritesNothing(w.hooks[Key(r.ns, ref)], r.name); }
    assert (r, ref) in Missing(w) && (r, ref) !in Missing(w');
  }

  lemma {:induction false} LinkAllProgress(w: World, r: Key, refs: seq<string>, fs: seq<Fault>)
    requires |fs| == |refs| && Closed(w) && r in w.repos && forall ref | ref in refs :: ref in w.repos[r].hooks
    ensures var w' := LinkAll(w, r, refs, fs);
            && Closed(w') && OtherAnnotationsKept(w, w') && w'.repos == w.repos
            && (forall i | 0 <= i < |refs| && fs[i] != Refused :: IsLinked(w', r, refs[i]))
            && (forall q, x | IsLinked(w, q, x) :: IsLinked(w', q, x))
            && (w' == w || Missing(w') < Missing(w))
  {
    hide LinkOne, IsLinked, Missing, Closed;
    if refs != [] {
      var n := |refs| - 1;
      assert refs == refs[..n] + [refs[n]];
      LinkAllProgress(w, r, refs[..n], fs[..n]);
      LinkOneProgress(LinkAll(w, r, refs[..n], fs[..n]), r, refs[n], fs[n]);
    }
  }

  /** A repository event makes no fewer links than its updates that took effect,
      and raises a webhook event only for a link that was missing. It is settled
      unless an update failed. */
  lemma RepoStepProgress(w: World, r: Key, fs: seq<Fault>)
    requires Closed(w) && Served(w) && r in w.repoQueue && |fs| == |w.repos[r].hooks|
    ensures var w' := RepoStep(w, r, fs);
            && Closed(w') && Served(w') && OtherAnnotationsKept(w, w') && w'.repos == w.repos
            && (forall i | 0 <= i < |fs| && fs[i] != Refused :: IsLinked(w', r, w.repos[r].hooks[i]))
            && (forall q, x | IsLinked(w, q, x) :: IsLinked(w', q, x))
            && w'.repoQueue == (if exists f | f in fs :: f != Fine then w.repoQueue else w.repoQueue - {r})
            && (Missing(w') < Missing(w) || (Missing(w') == Missing(w) && w'.hookQueue == w.hookQueue))
  {
    hide LinkAll, IsLinked, Missing;
    var refs, w0 := w.repos[r].hooks, w.(repoQueue := w.repoQueue - {r});
    var w1, w' := LinkAll(w0, r, refs, fs), RepoStep(w, r, fs);
    LinkAllProgress(w0, r, refs, fs);
    LinkAllKeeps(w0, r, refs, fs);
    LinkFailsFault(w0, r, refs, fs);
    SameLinks(w, w0);
    SameLinks(w1, w');
    if !LinkFails(w0, r, refs, fs) { AllLinked(w', r, refs, fs); }
    ServedLater(w, w', r);
  }

  lemma SameLinks(w: World, w': World)
    requires w'.repos == w.repos && w'.hooks == w.hooks
    ensures Missing(w') == Missing(w) && forall q, x :: IsLinked(w', q, x) == IsLinked(w, q, x)
    ensures Closed(w) && w'.repoQueue <= w'.repos.Keys && w'.hookQueue == w.hookQueue ==> Closed(w')
  {}

  lemma AllLinked(w: World, r: Key, refs: seq<string>, fs: seq<Fault>)
    requires |fs| == |refs| && !LinkFails(w, r, refs, fs)
    requires forall i | 0 <= i < |refs| && fs[i] != Refused :: IsLinked(w, r, refs[i])
    ensures forall ref | ref in refs :: IsLinked(w, r, ref)
  {
    forall ref | ref in refs ensures IsLinked(w, r, ref) {
      var i :| 0 <= i < |refs| && refs[i] == ref;
      assert fs[i] == Fine;
    }
  }

  lemma LinkFailsFault(w: World, r: Key, refs: seq<string>, fs: seq<Fault>)
    requires |fs| == |refs| && forall ref | ref in refs :: Key(r.ns, ref) in w.hooks
    ensures LinkFails(w, r, refs, fs) <==> exists f | f in fs :: f != Fine
  {
    forall i | 0 <= i < |refs| ensures Key(r.ns, refs[i]) in w.hooks { assert refs[i] in refs; }
    if i :| 0 <= i < |fs| && fs[i] != Fine {
      assert fs[i] in fs && LinkFails(w, r, refs, fs);
    }
  }

  lemma ServedLater(w: World, w': World, r: Key)
    requires Served(w) && w'.repos == w.repos && r in w.repos
    requires forall q, x | IsLinked(w, q, x) :: IsLinked(w', q, x)
    requires w.repoQueue - {r} <= w'.repoQueue
    requires r !in w'.repoQueue ==> forall ref | ref in w.repos[r].hooks :: IsLinked(w', r, ref)
    ensures Served(w')
  {
    forall q, ref | q in w'.repos && ref in w'.repos[q].hooks && q !in w'.repoQueue ensures IsLinked(w', q, ref) {
      if q != r { assert IsLinked(w, q, ref); }
    }
  }

  /** A webhook event makes and breaks no link. It is settled unless an update
      failed. */
  lemma HookStepProgress(w: World, h: Key, ts: seq<Turn>)
    requires Closed(w) && Served(w) && h in w.hookQueue && |ts| == |Names(w.hooks[h])|
    ensures var w' := HookStep(w, h, ts);
            && Closed(w') && Served(w') && w'.repos.Keys == w.repos.Keys && w'.hooks == w.hooks
            && w'.hookQueue == (if exists t | t in ts :: t.fault != Fine then w.hookQueue else w.hookQueue - {h})
            && Missing(w') == Missing(w)
  {
    var names, w0 := Names(w.hooks[h]), w.(hookQueue := w.hookQueue - {h});
    NotifyAllKeeps(w0, h.ns, names, ts);
    var w' := HookStep(w, h, ts);
    forall q, ref ensures IsLinked(w', q, ref) <==> IsLinked(w, q, ref) {}
    assert Missing(w') == Missing(w);
    NotifyFailsFault(w0, h.ns, names, ts);
  }

  lemma NotifyFailsFault(w: World, ns: string, names: seq<string>, ts: seq<Turn>)
    requires |ts| == |names| && forall n | n in names :: Key(ns, n) in w.repos
    ensures NotifyFails(w, ns, names, ts) <==> exists t | t in ts :: t.fault != Fine
  {
    forall i | 0 <= i < |names| ensures Key(ns, names[i]) in w.repos { assert names[i] in names; }
    if t :| t in ts && t.fault != Fine {
      var i :| 0 <= i < |ts| && ts[i] == t;
    }
  }

  // ---- What the events write ----

  /** The i-th notification is of repository r, and its update takes effect. */
  predicate Reaches(ns: string, names: seq<string>, ts: seq<Turn>, r: Key, i: int)
    requires |ts| == |names|
  {
    0 <= i < |names| && Key(ns, names[i]) == r && ts[i].fault != Refused
  }

  lemma NotifyPrefix(w: World, ns: string, names: seq<string>, ts: seq<Turn>, r: Key)
    requires |ts| == |names| > 0
    ensures var n := |names| - 1;
            && NotifyAll(w, ns, names, ts) == NotifyOne(NotifyAll(w, ns, names[..n], ts[..n]), ns, names[n], ts[n])
            && NotifyAll(w, ns, names[..n], ts[..n]).repos.Keys == w.repos.Keys
            && forall i | i < n :: Reaches(ns, names[..n], ts[..n], r, i) <==> Reaches(ns, names, ts, r, i)
  {
    NotifyAllKeeps(w, ns, names[..|names| - 1], ts[..|names| - 1]);
  }

  /** A repository that no notification reaches is left alone, and one that has
      changed is queued. */
  lemma {:induction false} UnreachedStays(w: World, ns: string, names: seq<string>, ts: seq<Turn>, r: Key)
    requires |ts| == |names| && r in w.repos
    ensures var w' := NotifyAll(w, ns, names, ts);
            && r in w'.repos && (w'.repos[r] == w.repos[r] || r in w'.repoQueue)
            && (r in w.repoQueue ==> r in w'.repoQueue)
            && ((forall i :: !Reaches(ns, names, ts, r, i)) ==>
                  w'.repos[r] == w.repos[r] && (r in w'.repoQueue <==> r in w.repoQueue))
  {
    if names != [] {
      var n := |names| - 1;
      NotifyPrefix(w, ns, names, ts, r);
      UnreachedStays(w, ns, names[..n], ts[..n], r);
      assert Reaches(ns, names, ts, r, n) || NotifyAll(w, ns, names, ts).repos[r] ==
             NotifyAll(w, ns, names[..n], ts[..n]).repos[r];
      if forall i :: !Reaches(ns, names, ts, r, i) {
        forall i ensures !Reaches(ns, names[..n], ts[..n], r, i) { assert !Reaches(ns, names, ts, r, i); }
      }
    }
  }

  /** The last notification that reaches a repository gives it its stamp. */
  lemma {:induction false} LastReachStamps(w: World, ns: string, names: seq<string>, ts: seq<Turn>, r: Key, i: nat)
    requires |ts| == |names| && r in w.repos && Reaches(ns, names, ts, r, i)
    requires forall j | i < j :: !Reaches(ns, names, ts, r, j)
    ensures NotifyAll(w, ns, names, ts).repos.Keys == w.repos.Keys
    ensures NotifyAll(w, ns, names, ts).repos[r] == w.repos[r].(stamp := ts[i].stamp)
  {
    var n := |names| - 1;
    var names1, ts1 := names[..n], ts[..n];
    NotifyPrefix(w, ns, names, ts, r);
    NotifyAllKeeps(w, ns, names1, ts1);
    if i < n {
      assert !Reaches(ns, names, ts, r, n);
      forall j | i < j ensures !Reaches(ns, names1, ts1, r, j) { assert !Reaches(ns, names, ts, r, j); }
      LastReachStamps(w, ns, names1, ts1, r, i);
    }
  }

  /** A webhook event gives every repository named in the annotation the stamp of
      the last notification that took effect, queues each that has changed, and
      leaves the others alone. */
  lemma HookStepNotifies(w: World, h: Key, ts: seq<Turn>)
    requires h in w.hooks && |ts| == |Names(w.hooks[h])|
    ensures var w', names := HookStep(w, h, ts), Names(w.hooks[h]);
            && w'.repos.Keys == w.repos.Keys
            && (forall r, i | r in w.repos && Reaches(h.ns, names, ts, r, i) &&
                              (forall j | i < j :: !Reaches(h.ns, names, ts, r, j)) ::
                  w'.repos[r] == w.repos[r].(stamp := ts[i].stamp))
            && (forall r | r in w.repos && w'.repos[r] != w.repos[r] :: r in w'.repoQueue)
            && (forall r | r in w.repos && (forall i :: !Reaches(h.ns, names, ts, r, i)) ::
                  w'.repos[r] == w.repos[r] && (r in w'.repoQueue <==> r in w.repoQueue))
  {
    var w0, names := w.(hookQueue := w.hookQueue - {h}), Names(w.hooks[h]);
    var w' := HookStep(w, h, ts);
    NotifyAllKeeps(w0, h.ns, names, ts);
    forall r | r in w.repos
      ensures w'.repos[r] != w.repos[r] ==> r in w'.repoQueue
      ensures (forall i :: !Reaches(h.ns, names, ts, r, i)) ==>
                w'.repos[r] == w.repos[r] && (r in w'.repoQueue <==> r in w.repoQueue)
    {
      UnreachedStays(w0, h.ns, names, ts, r);
    }
    forall r, i | r in w.repos && Reaches(h.ns, names, ts, r, i) && forall j | i < j :: !Reaches(h.ns, names, ts, r, j)
      ensures w'.repos[r] == w.repos[r].(stamp := ts[i].stamp)
    {
      LastReachStamps(w0, h.ns, names, ts, r, i);
    }
  }

  /** The i-th reference of repository r is to webhook h, and its update takes
      effect. */
  predicate Asks(r: Key, refs: seq<string>, fs: seq<Fault>, h: Key, i: int)
    requires |fs| == |refs|
  {
    0 <= i < |refs| && Key(r.ns, refs[i]) == h && fs[i] != Refused
  }

  predicate Lists(hook: Hook, name: string) { Repos(hook).Some? && Linked(Repos(hook).value, name) }

  /** The webhook lists what it listed and the name. */
  predicate Gained(hook: Hook, hook': Hook, name: string) { Names(hook') == Names(hook) + [name] && Lists(hook', name) }

  lemma WithNameGains(hook: Hook, name: string)
    requires IsName(name)
    ensures if Lists(hook, name) then WithName(hook, name) == hook else Gained(hook, WithName(hook, name), name)
  {
    if Lists(hook, name) {
      LinkedWritesNothing(hook, name);
    } else {
      AddLinks(Repos(hook), name);
      if Repos(hook).Some? {
        AddToPieces(Repos(hook).value, name);
      } else {
        SplitName(name);
      }
    }
  }

  /** What the links of one repository make of one webhook. */
  lemma {:induction false} LinkAllAt(w: World, r: Key, refs: seq<string>, fs: seq<Fault>, h: Key)
    requires |fs| == |refs| && IsName(r.name) && h in w.hooks
    ensures var w' := LinkAll(w, r, refs, fs);
            && h in w'.hooks && (h in w'.hookQueue <==> h in w.hookQueue || w'.hooks[h] != w.hooks[h])
            && if (exists i :: Asks(r, refs, fs, h, i)) && !Lists(w.hooks[h], r.name)
               then Gained(w.hooks[h], w'.hooks[h], r.name) else w'.hooks[h] == w.hooks[h]
  {
    if refs != [] {
      var n := |refs| - 1;
      var w1 := LinkAll(w, r, refs[..n], fs[..n]);
      LinkAllAt(w, r, refs[..n], fs[..n], h);
      WithNameGains(w1.hooks[h], r.name);
      AsksNext(r, refs, fs, h);
    }
  }

  lemma AsksNext(r: Key, refs: seq<string>, fs: seq<Fault>, h: Key)
    requires |fs| == |refs| > 0
    ensures var n := |refs| - 1;
            (exists i :: Asks(r, refs, fs, h, i)) <==>
            (exists i :: Asks(r, refs[..n], fs[..n], h, i)) || Asks(r, refs, fs, h, n)
  {
    var n := |refs| - 1;
    forall i | i < n ensures Asks(r, refs[..n], fs[..n], h, i) <==> Asks(r, refs, fs, h, i) {}
  }

  /** A repository event adds its name, and no other, to each webhook that it
      refers to and that does not list it, and queues exactly these. */
  lemma RepoStepAdds(w: World, r: Key, fs: seq<Fault>)
    requires r in w.repos && IsName(r.name) && |fs| == |w.repos[r].hooks|
    ensures var w', refs := RepoStep(w, r, fs), w.repos[r].hooks;
            && w'.hooks.Keys == w.hooks.Keys
            && forall h | h in w.hooks ::
                 && (h in w'.hookQueue <==> h in w.hookQueue || w'.hooks[h] != w.hooks[h])
                 && if (exists i :: Asks(r, refs, fs, h, i)) && !Lists(w.hooks[h], r.name)
                    then Gained(w.hooks[h], w'.hooks[h], r.name) else w'.hooks[h] == w.hooks[h]
  {
    var w0 := w.(repoQueue := w.repoQueue - {r});
    LinkAllKeeps(w0, r, w.repos[r].hooks, fs);
    forall h | h in w.hooks { LinkAllAt(w0, r, w.repos[r].hooks, fs, h); }
  }

  // ---- Runs ----

  datatype Event = RepoEvent(r: Key, faults: seq<Fault>) | HookEvent(h: Key, turns: seq<Turn>)

  predicate Enabled(w: World, e: Event) {
    match e
    case RepoEvent(r, fs) => r in w.repoQueue && (r in w.repos ==> |fs| == |w.repos[r].hooks|)
    case HookEvent(h, ts) => h in w.hookQueue && (h in w.hooks ==> |ts| == |Names(w.hooks[h])|)
  }

  /** An event in which an update fails. */
  predicate Faulty(e: Event) {
    match e
    case RepoEvent(_, fs) => exists f | f in fs :: f != Fine
    case HookEvent(_, ts) => exists t | t in ts :: t.fault != Fine
  }

  function Next(w: World, e: Event): World
    requires Enabled(w, e)
  {
    match e
    case RepoEvent(r, fs) => RepoStep(w, r, fs)
    case HookEvent(h, ts) => HookStep(w, h, ts)
  }

  predicate IsRun(w: World, es: seq<Event>)
    decreases |es|
  {
    es == [] || (Enabled(w, es[0]) && IsRun(Next(w, es[0]), es[1..]))
  }

  function Final(w: World, es: seq<Event>): World
    requires IsRun(w, es)
    decreases |es|
  {
    if es == [] then w else Final(Next(w, es[0]), es[1..])
  }

  /** The lexicographic measure (missing links, webhook events, repository
      events) as one number. */
  ghost function Measure(w: World): nat {
    var r, h := |w.repos.Keys| + 1, |w.hooks.Keys| + 1;
    |Missing(w)| * (h * r) + |w.hookQueue| * r + |w.repoQueue|
  }

  lemma SubsetSize<T>(a: set<T>, b: set<T>)
    requires a <= b
    ensures |a| <= |b| && (a < b ==> |a| < |b|)
  {
    var c := b - a;
    assert b == a + c;
    if a < b {
      assert c != {};
    }
  }

  lemma NextMultiple(a: nat, b: nat, c: nat)
    requires a < b
    ensures a * c + c <= b * c
  {
    var d := b - a - 1;
    assert b * c == (a + 1 + d) * c == a * c + c + d * c;
  }

  lemma LexDecrease(m: nat, m': nat, q: nat, q': nat, p: nat, p': nat, h: nat, r: nat, hr: nat)
    requires q' < h && p' < r && hr == h * r
    requires m' < m || (m' == m && (q' < q || (q' == q && p' < p)))
    ensures m' * hr + q' * r + p' < m * hr + q * r + p
  {
    if m' < m {
      NextMultiple(m', m, hr);
      NextMultiple(q', h, r);
    } else if q' < q {
      NextMultiple(q', q, r);
    }
  }

  /** The objects of the store and the sizes of the queues. */
  ghost predicate SameObjects(w: World, w': World) {
    && w'.repos.Keys == w.repos.Keys && w'.hooks.Keys == w.hooks.Keys
    && |w'.hookQueue| <= |w.hooks.Keys| && |w'.repoQueue| <= |w.repos.Keys|
  }

  ghost predicate LexSmaller(w: World, w': World) {
    || |Missing(w')| < |Missing(w)|
    || (|Missing(w')| == |Missing(w)| &&
        (|w'.hookQueue| < |w.hookQueue| || (|w'.hookQueue| == |w.hookQueue| && |w'.repoQueue| < |w.repoQueue|)))
  }

  lemma MeasureLess(w: World, w': World)
    requires SameObjects(w, w') && LexSmaller(w, w')
    ensures Measure(w') < Measure(w)
  {
    var r, h := |w.repos.Keys| + 1, |w.hooks.Keys| + 1;
    LexDecrease(|Missing(w)|, |Missing(w')|, |w.hookQueue|, |w'.hookQueue|, |w.repoQueue|, |w'.repoQueue|, h, r, h * r);
  }

  lemma NextSameObjects(w: World, e: Event)
    requires Closed(w) && Served(w) && Enabled(w, e)
    ensures var w' := Next(w, e);
            Closed(w') && Served(w') && SameObjects(w, w')
  {
    var w' := Next(w, e);
    match e {
      case RepoEvent(r, fs) => RepoStepProgress(w, r, fs);
      case HookEvent(h, ts) => HookStepProgress(w, h, ts);
    }
    SubsetSize(w'.hookQueue, w'.hooks.Keys);
    SubsetSize(w'.repoQueue, w'.repos.Keys);
  }

  /** Without a fault every event makes a link, or settles a webhook event, or
      settles a repository event and makes nothing new. A fault can at worst have
      the repositories notified again. */
  lemma NextMeasure(w: World, e: Event)
    requires Closed(w) && Served(w) && Enabled(w, e)
    ensures var w' := Next(w, e);
            && Closed(w') && Served(w') && w'.repos.Keys == w.repos.Keys
            && if Faulty(e) then Measure(w') <= Measure(w) + |w.repos.Keys| else Measure(w') < Measure(w)
  {
    var w' := Next(w, e);
    NextSameObjects(w, e);
    match e {
      case RepoEvent(r, fs) => RepoStepProgress(w, r, fs); SubsetSize(w'.repoQueue, w.repoQueue);
      case HookEvent(h, ts) => HookStepProgress(w, h, ts); SubsetSize(w'.hookQueue, w.hookQueue);
    }
    SubsetSize(Missing(w'), Missing(w));
    if LexSmaller(w, w') {
      MeasureLess(w, w');
    }
  }

  /** A fault makes up for as many events as there are repositories, and for its own. */
  function Extra(es: seq<Event>, repos: nat): nat {
    if es == [] then 0 else (if Faulty(es[0]) then repos + 1 else 0) + Extra(es[1..], repos)
  }

  /** No run outlasts the measure by more than its faults make up for, whatever
      order the events are taken in. */
  lemma {:induction false} RunsAreBounded(w: World, es: seq<Event>)
    requires Closed(w) && Served(w) && IsRun(w, es)
    ensures |es| <= Measure(w) + Extra(es, |w.repos.Keys|)
    ensures Closed(Final(w, es)) && Served(Final(w, es))
    decreases |es|
  {
    if es != [] {
      NextMeasure(w, es[0]);
      RunsAreBounded(Next(w, es[0]), es[1..]);
    }
  }

  /** A run that cannot go on has drained both queues, and then every repository
      passes the test in each of its webhooks. */
  lemma StuckIsQuiescent(w: World, es: seq<Event>)
    requires Closed(w) && Served(w) && IsRun(w, es)
    requires forall e :: !Enabled(Final(w, es), e)
    ensures var f := Final(w, es);
            && f.repoQueue == {} && f.hookQueue == {}
            && forall r, ref | r in f.repos && ref in f.repos[r].hooks :: IsLinked(f, r, ref)
  {
    var f := Final(w, es);
    RunsAreBounded(w, es);
    forall r ensures r !in f.repoQueue {
      if r in f.repoQueue {
        var fs := seq(|f.repos[r].hooks|, i => Fine);
        assert Enabled(f, RepoEvent(r, fs));
      }
    }
    forall h ensures h !in f.hookQueue {
      if h in f.hookQueue {
        var ts := seq(|Names(f.hooks[h])|, i => Turn("", Fine));
        assert Enabled(f, HookEvent(h, ts));
      }
    }
  }
}
