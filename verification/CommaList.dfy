/** A comma-joined string used as a set of names: the insertion that tests for
    substrings, and the exact meaning of that test on the split list.
 */
module CommaList {
  import opened Options

  /** Substring test. */
  predicate Contains(s: string, t: string) {
    t <= s || (s != "" && Contains(s[1..], t))
  }

  /** The pieces between commas; the empty string has one empty piece. */
  function Split(s: string): (es: seq<string>)
    ensures es != []
  {
    if s == "" then [""]
    else
      var r := Split(s[1..]);
      if s[0] == ',' then [""] + r else [[s[0]] + r[0]] + r[1..]
  }

  /** The test that a value already holds a name. */
  predicate Linked(val: string, name: string) {
    val == name || Contains(val, "," + name) || Contains(val, name + ",")
  }

  /** Inserts a name into a value that may be absent. */
  function Add(val: Option<string>, name: string): string {
    match val
    case None => name
    case Some(v) => if Linked(v, name) then v else v + "," + name
  }

  /** The annotation map after inserting a name under a key. */
  function AddToAnnotations(annotations: map<string, string>, key: string, name: string): map<string, string> {
    annotations[key := Add(if key in annotations then Some(annotations[key]) else None, name)]
  }

  /** Only the value under the key changes. */
  lemma OthersAreKept(annotations: map<string, string>, key: string, name: string)
    ensures AddToAnnotations(annotations, key, name) - {key} == annotations - {key}
  {}

  /** A Kubernetes name: not empty and without commas. */
  predicate IsName(s: string) { s != "" && ',' !in s }

  predicate EndsWith(s: string, t: string) { |t| <= |s| && s[|s| - |t|..] == t }

  // ---- The substring test read on the pieces ----

  /** A name is a prefix of a string iff it is a prefix of its first piece. */
  lemma {:induction false} PrefixOfFirst(s: string, name: string)
    requires ',' !in name
    ensures name <= s <==> name <= Split(s)[0]
  {
    if name != "" && s != "" {
      if s[0] == ',' {
        assert name[0] in name && name[0] != s[0];
      } else {
        PrefixOfFirst(s[1..], name[1..]);
        var f := Split(s)[0];
        assert f == [s[0]] + Split(s[1..])[0];
        assert name == [name[0]] + name[1..] && s == [s[0]] + s[1..];
        assert name <= s <==> name[0] == s[0] && name[1..] <= s[1..];
        assert name <= f <==> name[0] == f[0] && name[1..] <= f[1..];
      }
    }
  }

  /** Some piece after the first starts with the name. */
  ghost predicate StartsLater(es: seq<string>, name: string) { exists i | 1 <= i < |es| :: name <= es[i] }

  /** Some piece before the last ends with the name. */
  ghost predicate EndsEarlier(es: seq<string>, name: string) { exists i | 0 <= i < |es| - 1 :: EndsWith(es[i], name) }

  lemma StartsLaterCons(r: seq<string>, name: string)
    requires r != []
    ensures StartsLater([""] + r, name) <==> name <= r[0] || StartsLater(r, name)
  {
    var es := [""] + r;
    if StartsLater(r, name) {
      var i :| 1 <= i < |r| && name <= r[i];
      assert es[i + 1] == r[i];
    }
    if name <= r[0] {
      assert es[1] == r[0];
    }
    if StartsLater(es, name) {
      var i :| 1 <= i < |es| && name <= es[i];
      assert es[i] == r[i - 1];
    }
  }

  lemma EndsEarlierCons(r: seq<string>, name: string)
    requires name != ""
    ensures EndsEarlier([""] + r, name) <==> EndsEarlier(r, name)
  {
    var es := [""] + r;
    if EndsEarlier(r, name) {
      var i :| 0 <= i < |r| - 1 && EndsWith(r[i], name);
      assert es[i + 1] == r[i];
    }
    if EndsEarlier(es, name) {
      var i :| 0 <= i < |es| - 1 && EndsWith(es[i], name);
      assert i > 0 && es[i] == r[i - 1];
    }
  }

  lemma {:induction false} CommaThenName(s: string, name: string)
    requires ',' !in name
    ensures Contains(s, "," + name) <==> StartsLater(Split(s), name)
  {
    if s != "" {
      var t, es, r := s[1..], Split(s), Split(s[1..]);
      CommaThenName(t, name);
      if s[0] == ',' {
        PrefixOfFirst(t, name);
        StartsLaterCons(r, name);
        assert s == "," + t;
        assert "," + name <= s <==> name <= t;
      } else {
        assert !("," + name <= s);
        assert forall i | 1 <= i < |es| :: es[i] == r[i];
      }
    }
  }

  /** A name and a comma start a string iff the name is its first piece and not
      its only one. */
  lemma {:induction false} NameThenCommaFirst(s: string, name: string)
    requires ',' !in name
    ensures name + "," <= s <==> |Split(s)| >= 2 && Split(s)[0] == name
  {
    if s != "" {
      if name == "" {
        assert name + "," == ",";
      } else if s[0] == ',' {
        assert name[0] in name && (name + ",")[0] != s[0];
      } else {
        NameThenCommaFirst(s[1..], name[1..]);
        assert name + "," == [name[0]] + (name[1..] + ",") && s == [s[0]] + s[1..];
        assert name + "," <= s <==> name[0] == s[0] && name[1..] + "," <= s[1..];
        assert Split(s)[0] == [s[0]] + Split(s[1..])[0];
      }
    }
  }

  lemma {:induction false} NameThenComma(s: string, name: string)
    requires IsName(name)
    ensures Contains(s, name + ",") <==> EndsEarlier(Split(s), name)
  {
    if s != "" {
      NameThenComma(s[1..], name);
      NameThenCommaFirst(s, name);
      if s[0] == ',' {
        EndsEarlierCons(Split(s[1..]), name);
      } else {
        EndsEarlierLonger(s[0], Split(s[1..]), name);
      }
    }
  }

  /** A character before the first piece. */
  lemma EndsEarlierLonger(c: char, r: seq<string>, name: string)
    requires r != []
    ensures var es := [[c] + r[0]] + r[1..];
            EndsEarlier(es, name) <==> EndsEarlier(r, name) || (|r| >= 2 && es[0] == name)
  {
    var es := [[c] + r[0]] + r[1..];
    EndsWithLonger(c, r[0], name);
    if EndsEarlier(r, name) {
      var i :| 0 <= i < |r| - 1 && EndsWith(r[i], name);
      assert EndsWith(es[i], name);
    }
    if EndsEarlier(es, name) {
      var i :| 0 <= i < |es| - 1 && EndsWith(es[i], name);
      assert i > 0 ==> EndsWith(r[i], name);
    }
    if |r| >= 2 && es[0] == name {
      assert EndsWith(es[0], name);
    }
  }

  lemma EndsWithLonger(c: char, e: string, name: string)
    ensures EndsWith([c] + e, name) <==> EndsWith(e, name) || [c] + e == name
  {
    var s := [c] + e;
    if |name| <= |e| {
      assert s[|s| - |name|..] == e[|e| - |name|..];
    }
  }

  /** The exact meaning of the test: the name is the whole value, or starts a
      piece after the first, or ends a piece before the last. */
  lemma LinkedMeans(val: string, name: string)
    requires IsName(name)
    ensures Linked(val, name) <==>
            Split(val) == [name] || StartsLater(Split(val), name) || EndsEarlier(Split(val), name)
  {
    CommaThenName(val, name);
    NameThenComma(val, name);
    SplitName(name);
    if |Split(val)| == 1 {
      OnePiece(val);
    }
  }

  lemma {:induction false} SplitName(name: string)
    requires ',' !in name
    ensures Split(name) == [name]
  {
    if name != "" {
      SplitName(name[1..]);
      assert name[0] in name && name == [name[0]] + name[1..];
    }
  }

  lemma {:induction false} OnePiece(s: string)
    requires |Split(s)| == 1
    ensures Split(s) == [s]
  {
    if s != "" {
      OnePiece(s[1..]);
      assert s == [s[0]] + s[1..];
    }
  }

  // ---- Insertion ----

  lemma {:induction false} SplitAppend(val: string, name: string)
    requires ',' !in name
    ensures Split(val + "," + name) == Split(val) + [name]
  {
    if val == "" {
      SplitName(name);
      assert ("" + "," + name)[1..] == name;
    } else {
      assert (val + "," + name)[1..] == val[1..] + "," + name;
      SplitAppend(val[1..], name);
    }
  }

  /** A name among the pieces passes the test. */
  lemma MemberIsLinked(val: string, name: string)
    requires IsName(name) && name in Split(val)
    ensures Linked(val, name)
  {
    var es := Split(val);
    var i :| 0 <= i < |es| && es[i] == name;
    LinkedMeans(val, name);
    assert i < |es| - 1 ==> EndsWith(es[i], name);
  }

  /** Insertion never drops or duplicates a piece: it leaves the list alone when
      the test passes, and otherwise appends exactly the name, which was not
      there. */
  lemma AddToPieces(val: string, name: string)
    requires IsName(name)
    ensures Split(Add(Some(val), name)) ==
            if Linked(val, name) then Split(val) else Split(val) + [name]
    ensures !Linked(val, name) ==> name !in Split(val)
  {
    SplitAppend(val, name);
    if name in Split(val) {
      MemberIsLinked(val, name);
    }
  }

  /** An inserted name passes the test. */
  lemma AddLinks(val: Option<string>, name: string)
    requires IsName(name)
    ensures Linked(Add(val, name), name)
  {
    if val.Some? && !Linked(val.value, name) {
      SplitAppend(val.value, name);
      MemberIsLinked(val.value + "," + name, name);
    }
  }

  /** Inserting twice is inserting once. */
  lemma AddTwice(val: Option<string>, name: string)
    requires IsName(name)
    ensures Add(Some(Add(val, name)), name) == Add(val, name)
  {
    AddLinks(val, name);
  }

  lemma {:induction false} ContainsLonger(s: string, t: string, u: string)
    requires Contains(s, t)
    ensures Contains(s + u, t)
  {
    if !(t <= s) {
      assert (s + u)[1..] == s[1..] + u;
      ContainsLonger(s[1..], t, u);
    }
  }

  /** Inserting another name breaks no link. */
  lemma LinkedStays(val: string, name: string, other: string)
    requires Linked(val, name)
    ensures Linked(Add(Some(val), other), name)
  {
    if !Linked(val, other) {
      var w := val + "," + other;
      if val == name {
        assert name + "," <= w;
      } else if Contains(val, "," + name) {
        ContainsLonger(val, "," + name, "," + other);
        assert val + ("," + other) == w;
      } else {
        ContainsLonger(val, name + ",", "," + other);
        assert val + ("," + other) == w;
      }
    }
  }

  /** The test can pass for a name that is no piece: "b" is never inserted after
      "ab" and "c", so the notifier's split never visits it. */
  lemma LinkedButAbsent()
    ensures Linked("ab,c", "b") && "b" !in Split("ab,c") && "b" !in Split(Add(Some("ab,c"), "b"))
  {
    SplitName("ab");
    SplitAppend("ab", "c");
    assert "ab" + "," + "c" == "ab,c";
    var es := ["ab", "c"];
    assert EndsWith(es[0], "b");
    assert EndsEarlier(es, "b");
    LinkedMeans("ab,c", "b");
  }

  /** After insertion the name is a piece iff it was one or the test failed. */
  lemma InsertedIff(val: string, name: string)
    requires IsName(name)
    ensures name in Split(Add(Some(val), name)) <==> name in Split(val) || !Linked(val, name)
  {
    AddToPieces(val, name);
  }

  // ---- Names that cannot be confused ----

  /** No name starts or ends another one. */
  ghost predicate Incomparable(names: seq<string>) {
    forall a, b | a in names && b in names && a != b :: !(a <= b) && !EndsWith(b, a)
  }

  /** The names in the order of first appearance, each once. */
  function FirstSeen(names: seq<string>): seq<string> {
    if names == [] then []
    else
      var r := FirstSeen(names[..|names| - 1]);
      if names[|names| - 1] in r then r else r + [names[|names| - 1]]
  }

  /** The value after linking names one after another from an absent key. */
  function AddAll(names: seq<string>): Option<string> {
    if names == [] then None else Some(Add(AddAll(names[..|names| - 1]), names[|names| - 1]))
  }

  lemma {:induction false} FirstSeenMembers(names: seq<string>)
    ensures forall x :: x in FirstSeen(names) <==> x in names
    ensures names != [] ==> FirstSeen(names) != []
  {
    if names != [] {
      FirstSeenMembers(names[..|names| - 1]);
      assert names == names[..|names| - 1] + [names[|names| - 1]];
    }
  }

  /** For names that cannot be confused, the pieces are the linked names in the
      order of their first link, each once. */
  lemma {:induction false} SplitIsFirstSeen(names: seq<string>)
    requires names != [] && Incomparable(names) && forall n | n in names :: IsName(n)
    ensures Split(AddAll(names).value) == FirstSeen(names)
  {
    var h, x := names[..|names| - 1], names[|names| - 1];
    assert x in names && forall n | n in h :: n in names;
    if h == [] {
      SplitName(x);
    } else {
      SplitIsFirstSeen(h);
      FirstSeenMembers(h);
      var val, es := AddAll(h).value, FirstSeen(h);
      AddToPieces(val, x);
      if x in es {
        MemberIsLinked(val, x);
      } else {
        LinkedMeans(val, x);
        forall i | 0 <= i < |es| ensures !(x <= es[i]) && !EndsWith(es[i], x) {
          assert es[i] in es && es[i] in names;
        }
      }
    }
  }
}
