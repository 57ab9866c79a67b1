/** The objects that the Argo CD application controller reads and writes, and
    the API server's rules for creating, updating and deleting them.
 */
module ArgoStore {
  import opened Options
  import opened CommaList
  import opened Objects

  const LOCATION := "gitops.kubesphere.io/argocd-location"
  const APP_NAME := "gitops.kubesphere.io/argocd-application"
  const CONTROL_BY := "gitops.kubesphere.io/argocd-application-control-by"
  const BACK_NAMESPACE := "gitops.kubesphere.io/application-namespace"
  const BACK_NAME := "gitops.kubesphere.io/application-name"
  const FINALIZER := "application.gitops.kubesphere.io"
  const CASCADE := "resources-finalizer.argocd.argoproj.io"
  const ARGO_DOMAIN := "argoproj.io"
  const ARGO_SUFFIX := "argocd.argoproj.io"

  datatype Destination = Destination(name: string, server: string)

  /** An Argo CD application spec; rest is all that the controller only copies. */
  datatype Spec = Spec(project: string, destination: Destination, rest: string)

  datatype Wanted = Wanted(spec: Spec, operation: Option<string>)

  /** An Application of the platform. */
  datatype App = App(
    labels: map<string, string>, annotations: map<string, string>, finalizers: seq<string>, deleting: bool,
    argo: Option<Wanted>)

  /** An Argo CD application. */
  datatype Argo = Argo(
    labels: map<string, string>, annotations: map<string, string>, finalizers: seq<string>, deleting: bool,
    spec: Spec, operation: Option<string>)

  datatype Cluster = Cluster(apps: map<Key, App>, argos: map<Key, Argo>)

  /** Writing an object back: one that is marked for deletion and has lost its
      last finalizer is gone. */
  function PutApp(c: Cluster, k: Key, app: App): Cluster {
    if app.deleting && app.finalizers == [] then c.(apps := c.apps - {k}) else c.(apps := c.apps[k := app])
  }

  function PutArgo(c: Cluster, k: Key, argo: Argo): Cluster {
    if argo.deleting && argo.finalizers == [] then c.(argos := c.argos - {k}) else c.(argos := c.argos[k := argo])
  }

  /** Deleting an object with finalizers only marks it. */
  function DeleteApp(c: Cluster, k: Key): Cluster
    requires k in c.apps
  {
    PutApp(c, k, c.apps[k].(deleting := true))
  }

  function DeleteArgo(c: Cluster, k: Key): Cluster
    requires k in c.argos
  {
    PutArgo(c, k, c.argos[k].(deleting := true))
  }

  // ---- Finalizer and label helpers ----

  /** The finalizers that Argo CD understands. */
  function ArgoFinalizers(fs: seq<string>): seq<string> {
    if fs == [] then []
    else ArgoFinalizers(fs[..|fs| - 1]) + (if EndsWith(fs[|fs| - 1], ARGO_SUFFIX) then [fs[|fs| - 1]] else [])
  }

  lemma {:induction false} ArgoFinalizersIn(fs: seq<string>, f: string)
    ensures f in ArgoFinalizers(fs) <==> f in fs && EndsWith(f, ARGO_SUFFIX)
  {
    if fs != [] {
      ArgoFinalizersIn(fs[..|fs| - 1], f);
      assert fs == fs[..|fs| - 1] + [fs[|fs| - 1]];
    }
  }

  /** They keep their order and their number. */
  lemma {:induction false} ArgoFinalizersJoin(a: seq<string>, b: seq<string>)
    ensures ArgoFinalizers(a + b) == ArgoFinalizers(a) + ArgoFinalizers(b)
  {
    if b == [] {
      assert a + b == a;
    } else {
      assert (a + b)[..|a + b| - 1] == a + b[..|b| - 1];
      ArgoFinalizersJoin(a, b[..|b| - 1]);
    }
  }

  /** The labels or annotations that Argo CD supports. */
  function ArgoEntries(m: map<string, string>): map<string, string> {
    m - set k | k in m && !Contains(k, ARGO_DOMAIN)
  }

  /** Copying entry by entry, one entry further. */
  lemma OneEntryMore(m: map<string, string>, rest: set<string>, k: string)
    requires k in rest && rest <= m.Keys
    ensures ArgoEntries(m - (rest - {k})) ==
            if Contains(k, ARGO_DOMAIN) then ArgoEntries(m - rest)[k := m[k]] else ArgoEntries(m - rest)
  {}

  lemma {:induction false} ContainsChar(s: string, t: string, c: char)
    requires Contains(s, t) && c in t
    ensures c in s
  {
    if !(t <= s) {
      ContainsChar(s[1..], t, c);
    }
  }

  lemma Without(s: string, t: string, c: char)
    requires c in t && c !in s
    ensures !Contains(s, t)
  {
    if Contains(s, t) { ContainsChar(s, t, c); }
  }

  /** The controller's own keys and finalizer are not Argo CD's. */
  lemma OwnKeys()
    ensures forall k | k in {APP_NAME, CONTROL_BY, BACK_NAMESPACE, BACK_NAME} :: !Contains(k, ARGO_DOMAIN)
    ensures !EndsWith(FINALIZER, ARGO_SUFFIX) && EndsWith(CASCADE, ARGO_SUFFIX)
  {
    assert ARGO_DOMAIN[7] == 'j' && ARGO_SUFFIX[14] == 'j';
    NoJ();
    NoJBack();
    forall k | k in {APP_NAME, CONTROL_BY, BACK_NAMESPACE, BACK_NAME} ensures !Contains(k, ARGO_DOMAIN) {
      Without(k, ARGO_DOMAIN, 'j');
    }
    var tail := FINALIZER[|FINALIZER| - |ARGO_SUFFIX|..];
    assert tail[14] in FINALIZER && tail[14] != ARGO_SUFFIX[14];
  }

  lemma KeysDiffer()
    ensures |LOCATION| < |CONTROL_BY| && |LOCATION| < |APP_NAME| < |CONTROL_BY|
    ensures |BACK_NAME| < |BACK_NAMESPACE| < |CONTROL_BY| && BACK_NAME != LOCATION && BACK_NAMESPACE != APP_NAME
  {
    assert LOCATION[22] == 'r' && BACK_NAME[22] == 'p';
    assert BACK_NAMESPACE[22] == 'p' && APP_NAME[22] == 'r';
  }

  lemma NoJ()
    ensures 'j' !in APP_NAME && 'j' !in CONTROL_BY
  {}

  lemma NoJBack()
    ensures 'j' !in BACK_NAMESPACE && 'j' !in BACK_NAME && 'j' !in FINALIZER
  {}
}
