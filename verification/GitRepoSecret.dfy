/** The Argo CD repository controller: a secret for every Git repository, guarded
    by a finalizer, one API call at a time.
 */
module GitRepoSecret {
  import opened Objects
  import opened Options

  const FINALIZER := "finalizer.gitrepository.devops.kubesphere.io"
  const TYPE_LABEL := "argocd.argoproj.io/secret-type"

  /** A Git repository; auth names the secret with its credentials. */
  datatype Repo = Repo(finalizers: seq<string>, deleting: bool, url: string, auth: Option<Key>)

  datatype Secret = Secret(labels: map<string, string>, data: map<string, string>)

  /** Credentials; only basic authentication is supported. */
  datatype Auth = Auth(basic: bool, username: string, password: string)

  /** The next call of the pass over one repository. */
  datatype Pc =
    | AddIt(repo: Versioned<Repo>)
    | GetSecret(wanted: Repo)
    | CreateSecret(secret: Secret)
    | UpdateSecret(version: nat, secret: Secret)
    | FindSecret(repo: Versioned<Repo>)
    | DeleteSecret(repo: Versioned<Repo>)
    | Release(repo: Versioned<Repo>)

  /** The repositories, the secrets of the Argo CD namespace by name, the
      credentials, and for each repository the pass that is under way. */
  datatype State = State(
    repos: map<Key, Versioned<Repo>>, secrets: map<string, Versioned<Secret>>, auths: map<Key, Auth>, clock: nat,
    workers: map<Key, Pc>)

  function SecretName(name: string): string { name + "-repo" }

  /** A secret with the fields of a repository, and what else it had. */
  function WithRepo(secret: Secret, repo: Repo, auths: map<Key, Auth>): Secret {
    var data := secret.data["type" := "git"]["url" := repo.url];
    Secret(
      secret.labels[TYPE_LABEL := "repository"],
      if repo.auth.Some? && repo.auth.value in auths && auths[repo.auth.value].basic then
        data["username" := auths[repo.auth.value].username]["password" := auths[repo.auth.value].password]
      else data)
  }

  class SecretObject {
    var labels: map<string, string>
    var data: map<string, string>

    function Value(): Secret
      reads this
    {
      Secret(labels, data)
    }

    method SetArgoGitRepoFields(repo: Repo, auths: map<Key, Auth>)
      modifies this
      ensures Value() == WithRepo(old(Value()), repo, auths)
    {
      labels := labels[TYPE_LABEL := "repository"];
      data := data["type" := "git"];
      data := data["url" := repo.url];
      SetArgoGitRepoAuth(repo.auth, auths);
    }

    method SetArgoGitRepoAuth(auth: Option<Key>, auths: map<Key, Auth>)
      modifies this`data
      ensures data == if auth.Some? && auth.value in auths && auths[auth.value].basic then
                        old(data)["username" := auths[auth.value].username]["password" := auths[auth.value].password]
                      else old(data)
    {
      if auth.None? || auth.value !in auths {
        return;
      }
      var found := auths[auth.value];
      if found.basic {
        data := data["username" := found.username];
        data := data["password" := found.password];
      }
    }
  }

  // ---- The calls ----

  function WriteRepo(s: State, k: Key, repo: Repo): State {
    if repo.deleting && repo.finalizers == [] then s.(repos := s.repos - {k})
    else if k in s.repos && s.repos[k].data == repo then s
    else s.(repos := s.repos[k := Versioned(s.clock + 1, repo)], clock := s.clock + 1)
  }

  function WriteSecret(s: State, name: string, secret: Secret): State {
    if name in s.secrets && s.secrets[name].data == secret then s
    else s.(secrets := s.secrets[name := Versioned(s.clock + 1, secret)], clock := s.clock + 1)
  }

  function Goto(s: State, k: Key, pc: Pc): State { s.(workers := s.workers[k := pc]) }

  function Stop(s: State, k: Key): State { s.(workers := s.workers - {k}) }

  function Begin(s: State, k: Key): State {
    if k !in s.repos then s
    else
      var repo := s.repos[k];
      if repo.data.deleting then Goto(s, k, FindSecret(repo))
      else if FINALIZER in repo.data.finalizers then Goto(s, k, GetSecret(repo.data))
      else Goto(s, k, AddIt(repo))
  }

  /** Writes the repository back if it is still of the version that was read. */
  function UpdateRepo(s: State, k: Key, got: Versioned<Repo>, finalizers: seq<string>): Option<State> {
    if k in s.repos && s.repos[k].version == got.version then
      Some(WriteRepo(s, k, got.data.(finalizers := finalizers)))
    else None
  }

  /** The next call of the pass over k, answered from the store as it is. */
  function Call(s: State, k: Key): State
    requires k in s.workers
  {
    var name := SecretName(k.name);
    match s.workers[k]
    case AddIt(got) =>
      var fs := AddFinalizer(got.data.finalizers, FINALIZER);
      (match UpdateRepo(s, k, got, fs)
       case None => Stop(s, k)
       case Some(s1) => Goto(s1, k, GetSecret(got.data.(finalizers := fs))))
    case GetSecret(repo) =>
      if name in s.secrets then
        Goto(s, k, UpdateSecret(s.secrets[name].version, WithRepo(s.secrets[name].data, repo, s.auths)))
      else Goto(s, k, CreateSecret(WithRepo(Secret(map[], map[]), repo, s.auths)))
    case CreateSecret(secret) => if name in s.secrets then Stop(s, k) else Stop(WriteSecret(s, name, secret), k)
    case UpdateSecret(version, secret) =>
      if name in s.secrets && s.secrets[name].version == version then Stop(WriteSecret(s, name, secret), k)
      else Stop(s, k)
    case FindSecret(got) => Goto(s, k, if name in s.secrets then DeleteSecret(got) else Release(got))
    case DeleteSecret(got) =>
      if name in s.secrets then Goto(s.(secrets := s.secrets - {name}), k, Release(got)) else Stop(s, k)
    case Release(got) =>
      (match UpdateRepo(s, k, got, RemoveFinalizer(got.data.finalizers, FINALIZER))
       case None => Stop(s, k)
       case Some(s1) => Stop(s1, k))
  }

  datatype Step =
    | Start(k: Key)
    | Answer(k: Key)
    | Crash(k: Key)
    | AddRepo(k: Key, repo: Repo)
    | EditRepo(k: Key, repo: Repo)
    | MarkRepo(k: Key)
    | DropSecret(name: string)
    | SetAuth(k: Key, auth: Auth)

  /** One pass per repository at a time. Users do not take the finalizer off, and
      make no repository secrets of their own. */
  predicate Allowed(s: State, st: Step) {
    match st
    case Start(k) => k !in s.workers
    case Answer(k) => k in s.workers
    case Crash(_) => true
    case AddRepo(k, repo) => k !in s.repos && !repo.deleting
    case EditRepo(k, repo) =>
      && k in s.repos && repo.deleting == s.repos[k].data.deleting
      && (FINALIZER in s.repos[k].data.finalizers ==> FINALIZER in repo.finalizers)
    case MarkRepo(k) => k in s.repos
    case DropSecret(_) => true
    case SetAuth(_, _) => true
  }

  function Next(s: State, st: Step): State
    requires Allowed(s, st)
  {
    match st
    case Start(k) => Begin(s, k)
    case Answer(k) => Call(s, k)
    case Crash(k) => Stop(s, k)
    case AddRepo(k, repo) => WriteRepo(s, k, repo)
    case EditRepo(k, repo) => WriteRepo(s, k, repo)
    case MarkRepo(k) => WriteRepo(s, k, s.repos[k].data.(deleting := true))
    case DropSecret(name) => s.(secrets := s.secrets - {name})
    case SetAuth(k, auth) => s.(auths := s.auths[k := auth])
  }

  // ---- No orphan ----

  predicate Guards(s: State, k: Key) { k in s.repos && FINALIZER in s.repos[k].data.finalizers }

  /** The pass over k has seen its secret off and is about to release it. */
  predicate Cleared(s: State, k: Key) { k in s.workers && s.workers[k].Release? }

  /** A pass that may write a secret works for a repository that guards it, and a
      repository read before is as it was or has a newer version. */
  ghost predicate PcOk(s: State, k: Key) {
    k in s.workers ==>
      match s.workers[k]
      case GetSecret(_) => Guards(s, k)
      case CreateSecret(_) => Guards(s, k)
      case UpdateSecret(_, _) => Guards(s, k)
      case AddIt(got) => Current(s, k, got)
      case FindSecret(got) => Current(s, k, got)
      case DeleteSecret(got) => Current(s, k, got)
      case Release(got) => Current(s, k, got)
  }

  predicate Current(s: State, k: Key, got: Versioned<Repo>) {
    got.version <= s.clock && (k in s.repos && s.repos[k].version == got.version ==> s.repos[k] == got)
  }

  /** A repository of the secret's name holds the finalizer and is not about to
      give it up. */
  ghost predicate Guarded(s: State, name: string) {
    exists k | k in s.repos :: SecretName(k.name) == name && Guards(s, k) && !Cleared(s, k)
  }

  ghost predicate Inv(s: State) {
    && (forall k | k in s.repos :: s.repos[k].version <= s.clock)
    && (forall k | k in s.workers :: PcOk(s, k))
    && (forall name | name in s.secrets :: Guarded(s, name))
  }

  /** A pass goes on, or ends; it turns to releasing only when its secret is
      gone. */
  lemma PassMoves(s: State, k: Key, workers: map<Key, Pc>)
    requires Inv(s)
    requires forall j | j in workers && j != k :: j in s.workers && workers[j] == s.workers[j]
    requires PcOk(s.(workers := workers), k)
    requires Cleared(s.(workers := workers), k) ==> SecretName(k.name) !in s.secrets
    ensures Inv(s.(workers := workers))
  {
    var s' := s.(workers := workers);
    forall j | j in workers ensures PcOk(s', j) { assert j != k ==> PcOk(s, j); }
    forall name | name in s'.secrets ensures Guarded(s', name) {
      var j :| j in s.repos && SecretName(j.name) == name && Guards(s, j) && !Cleared(s, j);
      assert Guards(s', j) && !Cleared(s', j);
    }
  }

  /** A repository is written; the finalizer goes only if its pass has seen the
      secret off. */
  lemma RepoWritten(s: State, k: Key, repo: Repo)
    requires Inv(s) && (Guards(s, k) ==> FINALIZER in repo.finalizers || Cleared(s, k))
    ensures Inv(WriteRepo(s, k, repo))
  {
    var s' := WriteRepo(s, k, repo);
    forall j | j in s'.workers ensures PcOk(s', j) {
      assert PcOk(s, j);
      PassUnmoved(s, k, repo, j);
    }
    forall name | name in s'.secrets ensures Guarded(s', name) {
      var j :| j in s.repos && SecretName(j.name) == name && Guards(s, j) && !Cleared(s, j);
      GuardUnmoved(s, k, repo, j);
    }
  }

  lemma GuardUnmoved(s: State, k: Key, repo: Repo, j: Key)
    requires Guards(s, j) && (j == k ==> FINALIZER in repo.finalizers)
    ensures Guards(WriteRepo(s, k, repo), j)
  {}

  lemma PassUnmoved(s: State, k: Key, repo: Repo, j: Key)
    requires PcOk(s, j) && j in s.workers
    requires Guards(s, k) ==> FINALIZER in repo.finalizers || Cleared(s, k)
    ensures PcOk(WriteRepo(s, k, repo), j)
  {
    if Guards(s, j) && !Cleared(s, j) {
      GuardUnmoved(s, k, repo, j);
    }
  }

  lemma SecretsChanged(s: State, s': State)
    requires Inv(s) && s'.repos == s.repos && s'.workers == s.workers && s.clock <= s'.clock
    requires forall name | name in s'.secrets :: name in s.secrets || Guarded(s, name)
    ensures Inv(s')
  {
    forall j | j in s'.workers ensures PcOk(s', j) { assert PcOk(s, j); }
    forall name | name in s'.secrets ensures Guarded(s', name) {
      assert Guarded(s, name);
      var j :| j in s.repos && SecretName(j.name) == name && Guards(s, j) && !Cleared(s, j);
      assert Guards(s', j) && !Cleared(s', j);
    }
  }

  lemma StopKeeps(s: State, k: Key)
    requires Inv(s)
    ensures Inv(Stop(s, k))
  {
    PassMoves(s, k, s.workers - {k});
  }

  lemma GotoKeeps(s: State, k: Key, pc: Pc)
    requires Inv(s) && PcOk(Goto(s, k, pc), k) && (pc.Release? ==> SecretName(k.name) !in s.secrets)
    ensures Inv(Goto(s, k, pc))
  {
    PassMoves(s, k, s.workers[k := pc]);
  }

  lemma SecretStored(s: State, k: Key, secret: Secret)
    requires Inv(s) && Guards(s, k) && !Cleared(s, k)
    ensures Inv(WriteSecret(s, SecretName(k.name), secret))
  {
    SecretsChanged(s, WriteSecret(s, SecretName(k.name), secret));
  }

  lemma UpdateCallKeeps(s: State, k: Key)
    requires Inv(s) && k in s.workers && (s.workers[k].AddIt? || s.workers[k].Release?)
    ensures Inv(Call(s, k))
  {
    assert PcOk(s, k);
    var got := s.workers[k].repo;
    if k in s.repos && s.repos[k].version == got.version {
      assert s.repos[k] == got;
      if s.workers[k].AddIt? {
        var repo := got.data.(finalizers := AddFinalizer(got.data.finalizers, FINALIZER));
        RepoWritten(s, k, repo);
        GotoKeeps(WriteRepo(s, k, repo), k, GetSecret(repo));
      } else {
        var repo := got.data.(finalizers := RemoveFinalizer(got.data.finalizers, FINALIZER));
        RepoWritten(s, k, repo);
        StopKeeps(WriteRepo(s, k, repo), k);
      }
    } else {
      StopKeeps(s, k);
    }
  }

  lemma SecretCallKeeps(s: State, k: Key)
    requires Inv(s) && k in s.workers && !(s.workers[k].AddIt? || s.workers[k].Release?)
    ensures Inv(Call(s, k))
  {
    assert PcOk(s, k);
    var name := SecretName(k.name);
    match s.workers[k]
    case GetSecret(_) => GotoKeeps(s, k, Call(s, k).workers[k]);
    case CreateSecret(secret) =>
      StopKeeps(s, k);
      SecretStored(s, k, secret);
      StopKeeps(WriteSecret(s, name, secret), k);
    case UpdateSecret(_, secret) =>
      StopKeeps(s, k);
      SecretStored(s, k, secret);
      StopKeeps(WriteSecret(s, name, secret), k);
    case FindSecret(_) => GotoKeeps(s, k, Call(s, k).workers[k]);
    case DeleteSecret(got) =>
      if name in s.secrets {
        var s1 := s.(secrets := s.secrets - {name});
        SecretsChanged(s, s1);
        GotoKeeps(s1, k, Release(got));
      } else {
        StopKeeps(s, k);
      }
  }

  lemma NextKeeps(s: State, st: Step)
    requires Inv(s) && Allowed(s, st)
    ensures Inv(Next(s, st))
  {
    match st
    case Answer(k) =>
      if s.workers[k].AddIt? || s.workers[k].Release? {
        UpdateCallKeeps(s, k);
      } else {
        SecretCallKeeps(s, k);
      }
    case Start(k) => if k in s.repos { GotoKeeps(s, k, Begin(s, k).workers[k]); }
    case Crash(k) => StopKeeps(s, k);
    case AddRepo(k, repo) => RepoWritten(s, k, repo);
    case EditRepo(k, repo) => RepoWritten(s, k, repo);
    case MarkRepo(k) => RepoWritten(s, k, s.repos[k].data.(deleting := true));
    case DropSecret(name) => SecretsChanged(s, s.(secrets := s.secrets - {name}));
    case SetAuth(k, auth) => SecretsChanged(s, s.(auths := s.auths[k := auth]));
  }

  ghost predicate IsRun(s: State, sts: seq<Step>)
    decreases |sts|
  {
    sts == [] || (Allowed(s, sts[0]) && IsRun(Next(s, sts[0]), sts[1..]))
  }

  ghost function Final(s: State, sts: seq<Step>): State
    requires IsRun(s, sts)
    decreases |sts|
  {
    if sts == [] then s else Final(Next(s, sts[0]), sts[1..])
  }

  lemma {:induction false} RunKeeps(s: State, sts: seq<Step>)
    requires Inv(s) && IsRun(s, sts)
    ensures Inv(Final(s, sts))
    decreases |sts|
  {
    if sts != [] {
      NextKeeps(s, sts[0]);
      RunKeeps(Next(s, sts[0]), sts[1..]);
    }
  }

  lemma NamesDiffer(a: string, b: string)
    requires SecretName(a) == SecretName(b)
    ensures a == b
  {
    assert a == SecretName(a)[..|SecretName(a)| - 5] && b == SecretName(b)[..|SecretName(b)| - 5];
  }

  /** No orphan: from a store without repository secrets, in every run, whenever
      the secret of a name exists, a repository of exactly that name exists and
      holds the finalizer. */
  lemma NoOrphanSecret(s: State, sts: seq<Step>, name: string)
    requires s.secrets == map[] && s.workers == map[] && IsRun(s, sts)
    requires forall k | k in s.repos :: s.repos[k].version <= s.clock
    requires SecretName(name) in Final(s, sts).secrets
    ensures exists ns: string :: Guards(Final(s, sts), Key(ns, name))
  {
    RunKeeps(s, sts);
    var f := Final(s, sts);
    assert Guarded(f, SecretName(name));
    var k :| k in f.repos && SecretName(k.name) == SecretName(name) && Guards(f, k) && !Cleared(f, k);
    NamesDiffer(k.name, name);
    assert k == Key(k.ns, name);
  }

  // ---- A whole pass ----

  /** A pass that nobody disturbs; it needs no more than three calls. */
  function WholePass(s: State, k: Key): State {
    Proceed(Proceed(Proceed(Begin(s, k), k), k), k)
  }

  function Proceed(s: State, k: Key): State { if k in s.workers then Call(s, k) else s }

  /** The basic credentials that a repository refers to. */
  function Credentials(repo: Repo, auths: map<Key, Auth>): map<string, string> {
    if repo.auth.None? || repo.auth.value !in auths || !auths[repo.auth.value].basic then map[]
    else map["username" := auths[repo.auth.value].username, "password" := auths[repo.auth.value].password]
  }

  /** What is stored of a repository: its address, its basic credentials or else
      those of before, and what else was there. */
  lemma WithRepoMeans(secret: Secret, repo: Repo, auths: map<Key, Auth>)
    ensures var r := WithRepo(secret, repo, auths);
            && TYPE_LABEL in r.labels && r.labels[TYPE_LABEL] == "repository"
            && "url" in r.data && r.data["url"] == repo.url && "type" in r.data && r.data["type"] == "git"
            && (forall x | x !in {"type", "url"} ::
                  if x in Credentials(repo, auths) then x in r.data && r.data[x] == Credentials(repo, auths)[x]
                  else (x in r.data <==> x in secret.data) && (x in r.data ==> r.data[x] == secret.data[x]))
            && (forall x | x in secret.labels && x != TYPE_LABEL :: x in r.labels && r.labels[x] == secret.labels[x])
  {
    assert |"url"| == 3 && |"type"| == 4 && |"username"| == 8 && |"password"| == 8;
  }

  function Before(s: State, name: string): Secret {
    if name in s.secrets then s.secrets[name].data else Secret(map[], map[])
  }

  /** What one call of a pass changed besides its own place in the pass. */
  ghost predicate SameBut(s: State, s': State, k: Key) {
    && s'.repos - {k} == s.repos - {k} && s'.secrets - {SecretName(k.name)} == s.secrets - {SecretName(k.name)}
    && s'.auths == s.auths && s'.workers - {k} == s.workers - {k}
  }

  /** The two calls that store the secret. */
  lemma SecretCallsStore(s: State, k: Key, repo: Repo)
    requires k in s.workers && s.workers[k] == GetSecret(repo)
    ensures var s', name := Proceed(Proceed(s, k), k), SecretName(k.name);
            && SameBut(s, s', k) && s'.repos == s.repos && k !in s'.workers
            && name in s'.secrets && s'.secrets[name].data == WithRepo(Before(s, name), repo, s.auths)
            && (k in s.repos && s.repos[k].data == repo ==> Stored(s, s', k, repo))
  {
    var name, s1 := SecretName(k.name), Call(s, k);
    assert s1.secrets == s.secrets && k in s1.workers;
    if name in s.secrets {
      assert s1.workers[k].UpdateSecret?;
    } else {
      assert s1.workers[k].CreateSecret?;
    }
  }

  ghost predicate Stored(s: State, s': State, k: Key, repo: Repo) {
    var name := SecretName(k.name);
    && SameBut(s, s', k) && k !in s'.workers
    && k in s'.repos && s'.repos[k].data == repo
    && name in s'.secrets && s'.secrets[name].data == WithRepo(Before(s, name), repo, s.auths)
  }

  lemma GuardedPassStores(s: State, k: Key)
    requires k !in s.workers && k in s.repos && !s.repos[k].data.deleting && FINALIZER in s.repos[k].data.finalizers
    ensures Stored(s, WholePass(s, k), k, s.repos[k].data)
  {
    var s1 := Begin(s, k);
    SecretCallsStore(s1, k, s.repos[k].data);
    var s3 := Proceed(Proceed(s1, k), k);
    assert WholePass(s, k) == s3;
    StoredFrom(s, s1, s3, k, s.repos[k].data);
  }

  lemma FirstPassStores(s: State, k: Key)
    requires k !in s.workers && k in s.repos && !s.repos[k].data.deleting && FINALIZER !in s.repos[k].data.finalizers
    ensures var fs := AddFinalizer(s.repos[k].data.finalizers, FINALIZER);
            Stored(s, WholePass(s, k), k, s.repos[k].data.(finalizers := fs))
  {
    var repo := s.repos[k].data;
    var s1 := Begin(s, k);
    AddCall(s1, k);
    var s2 := Call(s1, k);
    assert Proceed(s1, k) == s2 && SameBut(s, s2, k);
    var added := repo.(finalizers := AddFinalizer(repo.finalizers, FINALIZER));
    SecretCallsStore(s2, k, added);
    StoredFrom(s, s2, Proceed(Proceed(s2, k), k), k, added);
  }

  /** A live repository gets the finalizer, and a secret with its fields. */
  lemma LivePassStores(s: State, k: Key)
    requires k !in s.workers && k in s.repos && !s.repos[k].data.deleting
    ensures var fs := AddFinalizer(s.repos[k].data.finalizers, FINALIZER);
            && (forall f :: f in fs <==> f in s.repos[k].data.finalizers || f == FINALIZER)
            && Stored(s, WholePass(s, k), k, s.repos[k].data.(finalizers := fs))
  {
    if FINALIZER in s.repos[k].data.finalizers {
      GuardedPassStores(s, k);
    } else {
      FirstPassStores(s, k);
    }
  }

  lemma StoredFrom(s: State, s1: State, s2: State, k: Key, repo: Repo)
    requires SameBut(s, s1, k) && s1.secrets == s.secrets && Stored(s1, s2, k, repo)
    ensures Stored(s, s2, k, repo)
  {}

  lemma AddCall(s: State, k: Key)
    requires k in s.repos && k in s.workers && s.workers[k] == AddIt(s.repos[k]) && !s.repos[k].data.deleting
    ensures var s', was := Call(s, k), s.repos[k].data;
            var repo := was.(finalizers := AddFinalizer(was.finalizers, FINALIZER));
            && SameBut(s, s', k) && s'.secrets == s.secrets
            && Guards(s', k) && s'.repos[k].data == repo && k in s'.workers && s'.workers[k] == GetSecret(repo)
  {}

  lemma FindCalls(s: State, k: Key)
    requires k in s.repos && k in s.workers && s.workers[k] == FindSecret(s.repos[k])
    ensures var s1 := Call(s, k);
            var s2 := if SecretName(k.name) in s.secrets then Proceed(s1, k) else s1;
            && SameBut(s, s2, k) && s2.repos == s.repos && SecretName(k.name) !in s2.secrets
            && k in s2.workers && s2.workers[k] == Release(s.repos[k])
  {
    var s1 := Call(s, k);
    assert s1.secrets == s.secrets && s1.repos == s.repos;
  }

  /** The repository lost the one finalizer and nothing else, and it is gone exactly
      if it had no other. */
  ghost predicate Released(s: State, s': State, k: Key)
    requires k in s.repos
  {
    var before := s.repos[k].data;
    && (k in s'.repos <==> exists f | f in before.finalizers :: f != FINALIZER)
    && (k in s'.repos ==>
          && s'.repos[k].data.(finalizers := before.finalizers) == before
          && forall f :: f in s'.repos[k].data.finalizers <==> f in before.finalizers && f != FINALIZER)
  }

  lemma ReleaseCall(s: State, k: Key)
    requires k in s.repos && k in s.workers && s.workers[k] == Release(s.repos[k]) && s.repos[k].data.deleting
    ensures var s' := Proceed(s, k);
            SameBut(s, s', k) && s'.secrets == s.secrets && Released(s, s', k) && k !in s'.workers
  {
    RemovedIsGone(s.repos[k].data.finalizers, FINALIZER);
    var left := RemoveFinalizer(s.repos[k].data.finalizers, FINALIZER);
    if left != [] { assert left[0] in left; }
  }

  /** A marked repository loses the finalizer, and its secret is gone; other
      finalizers stay, and keep the repository. */
  lemma DeletePassClears(s: State, k: Key)
    requires k !in s.workers && k in s.repos && s.repos[k].data.deleting
    ensures var s' := WholePass(s, k);
            SameBut(s, s', k) && k !in s'.workers && Released(s, s', k) && SecretName(k.name) !in s'.secrets
  {
    var s1 := Begin(s, k);
    FindCalls(s1, k);
    if SecretName(k.name) in s.secrets {
      ReleaseCall(Proceed(Proceed(s1, k), k), k);
    } else {
      ReleaseCall(Proceed(s1, k), k);
    }
  }

  /** A pass over a marked repository leaves another one its secret exactly when
      the two have different names; it leaves the other its finalizer. */
  lemma SecretIsKeptIff(s: State, j: Key, k: Key)
    requires k !in s.workers && k in s.repos && s.repos[k].data.deleting
    requires j != k && SecretName(j.name) in s.secrets
    ensures SecretName(j.name) in WholePass(s, k).secrets <==> j.name != k.name
    ensures Guards(WholePass(s, k), j) <==> Guards(s, j)
  {
    var s', name := WholePass(s, k), SecretName(k.name);
    DeletePassClears(s, k);
    if j.name != k.name {
      if SecretName(j.name) == name { NamesDiffer(j.name, k.name); }
      assert SecretName(j.name) in s.secrets - {name};
    }
    assert j in s.repos <==> j in s.repos - {k};
    assert j in s'.repos <==> j in s'.repos - {k};
    if j in s.repos { assert (s.repos - {k})[j] == s.repos[j]; }
    if j in s'.repos { assert (s'.repos - {k})[j] == s'.repos[j]; }
  }

  /** Namesakes in two namespaces, one of them marked: the other loses its secret
      and keeps its finalizer. */
  lemma SharedSecretIsLost() returns (s: State, j: Key, k: Key)
    ensures Inv(s) && j in s.repos && !s.repos[j].data.deleting
    ensures Guards(WholePass(s, k), j)
    ensures SecretName(j.name) in s.secrets && SecretName(j.name) !in WholePass(s, k).secrets
  {
    j, k := Key("a", "x"), Key("b", "x");
    var live := Versioned(1, Repo([FINALIZER], false, "u", None));
    var marked := Versioned(2, Repo([FINALIZER], true, "u", None));
    var secret := Versioned(3, Secret(map[], map[]));
    s := State(map[j := live, k := marked], map[SecretName("x") := secret], map[], 3, map[]);
    assert Guards(s, j);
    assert forall name | name in s.secrets :: Guarded(s, name);
    SecretIsKeptIff(s, j, k);
  }
}
