/** The names that identify a Flux application's releases, and exactly when two
    destinations share one.
 */
module FluxNames {
  import opened Options

  /** Where a release goes: the secret of a member cluster's configuration, if it
      is not the host cluster, and a namespace. */
  datatype Destination = Destination(secret: Option<string>, ns: string)

  function ReleaseName(d: Destination): string {
    match d.secret
    case None => d.ns
    case Some(secret) => secret + "-" + d.ns
  }

  /** The namespace d holds a dash, and what precedes it could be a secret. */
  ghost predicate DashIn(ns: string, secret: string, rest: string) { ns == secret + "-" + rest }

  /** Destination a's name can be read as b's because the dash that ends b's
      secret stands in a's namespace. */
  ghost predicate ReadsAs(a: Destination, b: Destination) {
    && b.secret.Some?
    && match a.secret
       case None => DashIn(a.ns, b.secret.value, b.ns)
       case Some(s) => exists x: string :: DashIn(a.ns, x, b.ns) && b.secret.value == s + "-" + x
  }

  lemma AppendCancels(a: string, b: string, x: string, y: string)
    requires a + x == b + y && |a| == |b|
    ensures a == b && x == y
  {
    assert a == (a + x)[..|a|] == (b + y)[..|b|] == b;
    assert x == (a + x)[|a|..] == (b + y)[|b|..] == y;
  }

  /** Two member destinations with one name: the longer secret ends in a dash of
      the other's namespace. */
  lemma LongerSecret(s: string, m: string, t: string, n: string) returns (x: string)
    requires s + "-" + m == t + "-" + n && |s| < |t|
    ensures t == s + "-" + x && m == x + "-" + n
  {
    var w := s + "-" + m;
    x := t[|s| + 1..];
    assert t == w[..|t|];
    assert w[..|s| + 1] == s + "-";
    assert t == t[..|s| + 1] + x;
    assert t[..|s| + 1] == w[..|s| + 1];
    assert w == t + ("-" + n) && w == (s + "-") + m;
    assert (s + "-") + (x + "-" + n) == w;
    AppendCancels(s + "-", s + "-", m, x + "-" + n);
  }

  /** Two destinations share a name exactly when they are the same or a dash in
      the namespace of one can end the other's secret. */
  lemma SameNameIff(a: Destination, b: Destination)
    ensures ReleaseName(a) == ReleaseName(b) <==> a == b || ReadsAs(a, b) || ReadsAs(b, a)
  {
    if a.secret.Some? && b.secret.Some? {
      var s, t := a.secret.value, b.secret.value;
      if ReleaseName(a) == ReleaseName(b) {
        if |s| == |t| {
          AppendCancels(s + "-", t + "-", a.ns, b.ns);
          AppendCancels(s, t, "-", "-");
        } else if |s| < |t| {
          var x := LongerSecret(s, a.ns, t, b.ns);
        } else {
          var x := LongerSecret(t, b.ns, s, a.ns);
        }
      }
      if ReadsAs(a, b) {
        var x: string :| DashIn(a.ns, x, b.ns) && t == s + "-" + x;
        assert s + "-" + (x + "-" + b.ns) == (s + "-" + x) + "-" + b.ns;
      }
      if ReadsAs(b, a) {
        var x: string :| DashIn(b.ns, x, a.ns) && s == t + "-" + x;
        assert t + "-" + (x + "-" + a.ns) == (t + "-" + x) + "-" + a.ns;
      }
    }
  }

  /** Distinct destinations with dash-free namespaces have distinct names. */
  lemma DistinctNames(a: Destination, b: Destination)
    requires a != b && '-' !in a.ns && '-' !in b.ns
    ensures ReleaseName(a) != ReleaseName(b)
  {
    SameNameIff(a, b);
    forall secret: string, rest: string ensures !DashIn(a.ns, secret, rest) && !DashIn(b.ns, secret, rest) {
      assert (secret + "-" + rest)[|secret|] == '-';
    }
  }

  /** Secret "a" with namespace "b-c", and secret "a-b" with namespace "c". */
  lemma TwoReadings()
    ensures var d, e := Destination(Some("a"), "b-c"), Destination(Some("a-b"), "c");
            d != e && ReleaseName(d) == ReleaseName(e) == "a-b-c"
  {
    var d, e := Destination(Some("a"), "b-c"), Destination(Some("a-b"), "c");
    assert |d.ns| != |e.ns|;
  }
}
