/** The Flux status controller: the statuses of an application's releases by
    name, and a label that counts the ready ones.
 */
module FluxStatus {
  import opened Options

  /** A release's status: its ready condition and the revision applied last. */
  datatype Status = Status(ready: bool, revision: string)

  /** A release that is delivered; app is its managing application's name, empty
      for a release of its own. */
  datatype Release = Release(app: string, name: string, status: Status)

  /** An application with so many deploys; label is the count of ready releases,
      revision the last revision, each missing until written. */
  datatype App = App(deploys: nat, statuses: map<string, Status>, readyLabel: Option<string>, revision: Option<string>)

  /** Where a pass fails: not at all, at the status or at the label. */
  datatype Fate = Done | StatusFails | LabelFails

  // ---- Numbers in text ----

  function DigitChar(d: nat): char
    requires d < 10
  {
    '0' + d as char
  }

  function Itoa(n: nat): (s: string)
    ensures s != ""
  {
    if n < 10 then [DigitChar(n)] else Itoa(n / 10) + [DigitChar(n % 10)]
  }

  function Atoi(s: string): Option<nat> {
    if s == "" then Some(0)
    else
      var c := s[|s| - 1];
      match Atoi(s[..|s| - 1])
      case None => None
      case Some(v) => if '0' <= c <= '9' then Some(v * 10 + (c - '0') as nat) else None
  }

  function Label(ready: nat, total: nat): string { Itoa(ready) + "-" + Itoa(total) }

  /** The position of the first dash. */
  function Dash(s: string): (n: nat)
    ensures n <= |s|
  {
    if s == "" || s[0] == '-' then 0 else 1 + Dash(s[1..])
  }

  function ParseLabel(s: string): Option<(nat, nat)> {
    var n := Dash(s);
    if n == |s| then None
    else
      match (Atoi(s[..n]), Atoi(s[n + 1..]))
      case (Some(a), Some(b)) => Some((a, b))
      case _ => None
  }

  lemma {:induction false} ItoaRoundTrip(n: nat)
    ensures Atoi(Itoa(n)) == Some(n) && '-' !in Itoa(n)
  {
    if n >= 10 {
      ItoaRoundTrip(n / 10);
      assert Itoa(n)[..|Itoa(n)| - 1] == Itoa(n / 10);
    } else {
      assert Itoa(n)[..0] == "";
    }
  }

  lemma {:induction false} DashAfter(a: string, b: string)
    requires '-' !in a
    ensures Dash(a + "-" + b) == |a|
  {
    if a == "" {
      assert ("" + "-" + b)[0] == '-';
    } else {
      assert (a + "-" + b)[1..] == a[1..] + "-" + b && a[0] in a;
      DashAfter(a[1..], b);
    }
  }

  /** The label can be read back. */
  lemma LabelRoundTrip(ready: nat, total: nat)
    ensures ParseLabel(Label(ready, total)) == Some((ready, total))
  {
    var a, b, s := Itoa(ready), Itoa(total), Label(ready, total);
    ItoaRoundTrip(ready);
    ItoaRoundTrip(total);
    DashAfter(a, b);
    assert s[..|a|] == a && s[|a| + 1..] == b;
  }

  // ---- Counting over a map, in any order ----

  ghost function Ready(m: map<string, Status>): set<string> { set n | n in m && m[n].ready }

  /** What the loop computes when it meets the names in an order: the count, and
      the revision of the last one. */
  function Aggregate(m: map<string, Status>, order: seq<string>, revision: Option<string>): (nat, Option<string>)
    requires forall n | n in order :: n in m
  {
    if order == [] then (0, revision)
    else
      var last := order[|order| - 1];
      var (count, _) := Aggregate(m, order[..|order| - 1], revision);
      (count + if m[last].ready then 1 else 0, Some(m[last].revision))
  }

  /** An order in which a map's entries can come. */
  ghost predicate IsOrder(m: map<string, Status>, order: seq<string>) {
    && (forall n | n in order :: n in m)
    && (forall n | n in m :: n in order)
    && (forall i, j | 0 <= i < j < |order| :: order[i] != order[j])
  }

  ghost function ReadyIn(m: map<string, Status>, order: seq<string>): set<string>
    requires forall n | n in order :: n in m
  {
    set n | n in order && m[n].ready
  }

  lemma ReadyNext(m: map<string, Status>, before: seq<string>, last: string, order: seq<string>)
    requires order == before + [last] && last !in before && forall n | n in order :: n in m
    ensures |ReadyIn(m, order)| == |ReadyIn(m, before)| + if m[last].ready then 1 else 0
  {
    assert ReadyIn(m, order) == ReadyIn(m, before) + if m[last].ready then {last} else {};
  }

  lemma {:induction false} CountPart(m: map<string, Status>, order: seq<string>, revision: Option<string>)
    requires (forall n | n in order :: n in m) && (forall i, j | 0 <= i < j < |order| :: order[i] != order[j])
    ensures Aggregate(m, order, revision).0 == |ReadyIn(m, order)|
  {
    if order == [] {
      assert ReadyIn(m, order) == {};
    } else {
      var before, last := order[..|order| - 1], order[|order| - 1];
      CountPart(m, before, revision);
      ReadyNext(m, before, last, order);
    }
  }

  lemma OneMore(m: map<string, Status>, rest: set<string>, order: seq<string>, n: string)
    requires n in rest && rest <= m.Keys && IsOrder(m - rest, order)
    ensures IsOrder(m - (rest - {n}), order + [n]) && forall x | x in order :: x in m
  {
    assert forall x | x in order :: x in m - rest;
  }

  /** The count does not depend on the order. */
  lemma CountIsReady(m: map<string, Status>, order: seq<string>, revision: Option<string>)
    requires IsOrder(m, order)
    ensures Aggregate(m, order, revision).0 == |Ready(m)|
  {
    CountPart(m, order, revision);
    assert ReadyIn(m, order) == Ready(m);
  }

  /** The revision does: it is independent of the order exactly when the releases
      agree on it. */
  lemma RevisionIndependentIff(m: map<string, Status>, revision: Option<string>)
    requires m != map[]
    ensures (forall p, q | IsOrder(m, p) && IsOrder(m, q) :: Aggregate(m, p, revision).1 == Aggregate(m, q, revision).1)
            <==> (forall j, k | j in m && k in m :: m[j].revision == m[k].revision)
  {
    if j, k :| j in m && k in m && m[j].revision != m[k].revision {
      var p := OrderEndingIn(m, j);
      var q := OrderEndingIn(m, k);
      assert Aggregate(m, p, revision).1 == Some(m[j].revision);
      assert Aggregate(m, q, revision).1 == Some(m[k].revision);
    } else {
      forall p, q | IsOrder(m, p) && IsOrder(m, q)
        ensures Aggregate(m, p, revision).1 == Aggregate(m, q, revision).1
      {
        LastCounts(m, p, revision);
        LastCounts(m, q, revision);
      }
    }
  }

  lemma LastCounts(m: map<string, Status>, p: seq<string>, revision: Option<string>)
    requires m != map[] && IsOrder(m, p)
    ensures p != [] && p[|p| - 1] in m && Aggregate(m, p, revision).1 == Some(m[p[|p| - 1]].revision)
  {
    var n :| n in m;
    assert n in p;
  }

  lemma OrderEndingIn(m: map<string, Status>, last: string) returns (order: seq<string>)
    requires last in m
    ensures IsOrder(m, order) && order != [] && order[|order| - 1] == last
  {
    order := OrderOf(m.Keys - {last});
    order := order + [last];
  }

  lemma OrderOf(names: set<string>) returns (order: seq<string>)
    ensures (forall n :: n in order <==> n in names) && (forall i, j | 0 <= i < j < |order| :: order[i] != order[j])
    decreases names
  {
    if names == {} {
      order := [];
    } else {
      var n :| n in names;
      var rest := OrderOf(names - {n});
      order := rest + [n];
    }
  }

  // ---- The pass ----

  /** The status is stored, and then the label is written from what is stored. */
  ghost predicate Pass(app: App, hr: Release, fate: Fate, app': App) {
    if hr.app == "" || fate == StatusFails then app' == app
    else
      var stored := app.(statuses := app.statuses[hr.name := hr.status]);
      if fate == LabelFails then app' == stored
      else
        exists order :: IsOrder(stored.statuses, order) &&
          app' == stored.(
            readyLabel := Some(Label(Aggregate(stored.statuses, order, app.revision).0, app.deploys)),
            revision := Aggregate(stored.statuses, order, app.revision).1)
  }

  class Reconciler {
    var app: App

    constructor (app: App)
      ensures this.app == app
    {
      this.app := app;
    }

    /** Counts over the map, whose entries come in any order. */
    method CountReady(m: map<string, Status>, revision: Option<string>)
      returns (count: nat, last: Option<string>)
      ensures count == |Ready(m)|
      ensures exists order :: IsOrder(m, order) && (count, last) == Aggregate(m, order, revision)
    {
      ghost var order: seq<string> := [];
      count, last := 0, revision;
      var rest := m.Keys;
      while rest != {}
        invariant rest <= m.Keys
        invariant IsOrder(m - rest, order)
        invariant (count, last) == Aggregate(m, order, revision)
        decreases rest
      {
        var n :| n in rest;
        OneMore(m, rest, order, n);
        rest := rest - {n};
        if m[n].ready {
          count := count + 1;
        }
        if last != Some(m[n].revision) {
          last := Some(m[n].revision);
        }
        assert (order + [n])[..|order|] == order;
        order := order + [n];
      }
      assert m - {} == m;
      CountIsReady(m, order, revision);
    }

    method ReconcileHelmRelease(hr: Release, fate: Fate)
      modifies this
      ensures Pass(old(app), hr, fate, app)
    {
      if hr.app == "" {
        return;
      }
      var next := app.(statuses := app.statuses[hr.name := hr.status]);
      if fate == StatusFails {
        return;
      }
      app := next;
      var count, last := CountReady(next.statuses, next.revision);
      next := next.(readyLabel := Some(Label(count, next.deploys)), revision := last);
      if fate == LabelFails {
        return;
      }
      app := next;
    }
  }

  // ---- Runs ----

  /** Releases are delivered, and users change the deploys. */
  datatype Event = Deliver(hr: Release, fate: Fate) | Redeploy(deploys: nat)

  /** The latest stored status of every name. */
  function Latest(es: seq<Event>): map<string, Status> {
    if es == [] then map[]
    else
      var before := Latest(es[..|es| - 1]);
      match es[|es| - 1]
      case Deliver(hr, fate) => if hr.app != "" && fate != StatusFails then before[hr.name := hr.status] else before
      case Redeploy(_) => before
  }

  predicate Stores(e: Event, name: string) {
    e.Deliver? && e.hr.app != "" && e.hr.name == name && e.fate != StatusFails
  }

  /** A name has a status exactly if one was stored, and then that of the last
      event that stored one. */
  lemma {:induction false} LatestMeans(es: seq<Event>, name: string)
    ensures name in Latest(es) <==> exists i | 0 <= i < |es| :: Stores(es[i], name)
    ensures name in Latest(es) ==>
              exists i | 0 <= i < |es| :: Stores(es[i], name) && es[i].hr.status == Latest(es)[name] &&
                                          forall j | i < j < |es| :: !Stores(es[j], name)
  {
    if es != [] {
      var n := |es| - 1;
      var before := es[..n];
      LatestMeans(before, name);
      if Stores(es[n], name) {
        assert Latest(es)[name] == es[n].hr.status;
      } else {
        assert name in Latest(es) <==> name in Latest(before);
        if name in Latest(before) {
          var i :| 0 <= i < |before| && Stores(before[i], name) && before[i].hr.status == Latest(before)[name] &&
                   forall j | i < j < |before| :: !Stores(before[j], name);
          assert es[i] == before[i];
          assert forall j | i < j < n :: es[j] == before[j];
        }
        if i :| 0 <= i < |es| && Stores(es[i], name) {
          assert before[i] == es[i];
        }
      }
    }
  }

  ghost predicate IsRun(apps: seq<App>, es: seq<Event>) {
    && |apps| == |es| + 1
    && forall i | 0 <= i < |es| ::
         match es[i]
         case Deliver(hr, fate) => Pass(apps[i], hr, fate, apps[i + 1])
         case Redeploy(deploys) => apps[i + 1] == apps[i].(deploys := deploys)
  }

  lemma {:induction false} StoredIsLatest(apps: seq<App>, es: seq<Event>, n: nat)
    requires IsRun(apps, es) && apps[0].statuses == map[] && n <= |es|
    ensures apps[n].statuses == Latest(es[..n])
  {
    if n > 0 {
      StoredIsLatest(apps, es, n - 1);
      assert es[..n][..n - 1] == es[..n - 1];
      assert apps[n - 1 + 1] == apps[n];
    }
  }

  /** The revision is that of a stored status. */
  ghost predicate HasStoredRevision(app: App) {
    exists k | k in app.statuses :: app.revision == Some(app.statuses[k].revision)
  }

  /** After every pass that succeeds, in every run, the application holds the
      latest status of each name, its label reads back as the number of names
      that are ready and the number of deploys, and its revision is one of
      theirs. */
  lemma LabelCountsLatest(apps: seq<App>, es: seq<Event>, n: nat)
    requires IsRun(apps, es) && apps[0].statuses == map[] && n < |es|
    requires es[n].Deliver? && es[n].fate == Done && es[n].hr.app != ""
    ensures apps[n + 1].statuses == Latest(es[..n + 1])
    ensures apps[n + 1].readyLabel.Some? &&
            ParseLabel(apps[n + 1].readyLabel.value) == Some((|Ready(Latest(es[..n + 1]))|, apps[n + 1].deploys))
    ensures HasStoredRevision(apps[n + 1])
  {
    StoredIsLatest(apps, es, n + 1);
    var app, hr, app' := apps[n], es[n].hr, apps[n + 1];
    assert Pass(app, hr, Done, app');
    var stored := app.statuses[hr.name := hr.status];
    var order :| IsOrder(stored, order) &&
                 app'.readyLabel == Some(Label(Aggregate(stored, order, app.revision).0, app.deploys)) &&
                 app'.statuses == stored && app'.deploys == app.deploys &&
                 app'.revision == Aggregate(stored, order, app.revision).1;
    CountIsReady(stored, order, app.revision);
    assert hr.name in stored;
    LastCounts(stored, order, app.revision);
    assert app'.revision == Some(app'.statuses[order[|order| - 1]].revision);
    LabelRoundTrip(|Ready(stored)|, app.deploys);
  }
}
