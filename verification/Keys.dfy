/** Keys made of two parts joined by a separator, as the caches and the
    idempotency store build them. */
module Keys {

  function Join(a: string, sep: char, b: string): string {
    a + [sep] + b
  }

  /** Joined keys determine their parts when the first parts are free of the separator. */
  lemma JoinInjective(a: string, t: string, b: string, u: string, sep: char)
    requires sep !in a && sep !in b && Join(a, sep, t) == Join(b, sep, u)
    ensures a == b && t == u
  {
    var k := Join(a, sep, t);
    assert forall i | 0 <= i < |a| :: k[i] == a[i] && a[i] in a;
    assert forall i | 0 <= i < |b| :: k[i] == b[i] && b[i] in b;
    assert k[|a|] == sep && k[|b|] == sep && |a| == |b|;
    assert k[..|a|] == a && k[..|b|] == b;
    assert k[|a| + 1..] == t && k[|b| + 1..] == u;
  }

  /** Two first parts can share a joined key exactly when one of them, with the
      separator, begins the other. */
  lemma JoinsCollideIff(a: string, b: string, sep: char)
    ensures (exists t, u :: Join(a, sep, t) == Join(b, sep, u)) <==>
            a + [sep] <= b + [sep] || b + [sep] <= a + [sep]
  {
    if t, u :| Join(a, sep, t) == Join(b, sep, u) {
      var k := Join(a, sep, t);
      assert k[..|a| + 1] == a + [sep] && k[..|b| + 1] == b + [sep];
      if |a| <= |b| {
        assert (b + [sep])[..|a| + 1] == k[..|a| + 1];
      } else {
        assert (a + [sep])[..|b| + 1] == k[..|b| + 1];
      }
    }
    if a + [sep] <= b + [sep] {
      assert Join(a, sep, (b + [sep])[|a| + 1..]) == Join(b, sep, "");
    } else if b + [sep] <= a + [sep] {
      assert Join(a, sep, "") == Join(b, sep, (a + [sep])[|b| + 1..]);
    }
  }

  /** So do second parts free of the separator. */
  lemma JoinInjectiveLast(a: string, t: string, b: string, u: string, sep: char)
    requires sep !in t && sep !in u && Join(a, sep, t) == Join(b, sep, u)
    ensures a == b && t == u
  {
    var k := Join(a, sep, t);
    assert forall i | |a| < i < |k| :: k[i] == t[i - |a| - 1] && k[i] in t;
    assert forall i | |b| < i < |k| :: k[i] == u[i - |b| - 1] && k[i] in u;
    assert k[|a|] == sep && k[|b|] == sep && |a| == |b|;
    assert k[..|a|] == a && k[|a| + 1..] == t;
    assert k[..|b|] == b && k[|b| + 1..] == u;
  }

  /** Equal joins that differ in their first parts differ in their second. */
  lemma SecondsDiffer(a: string, t: string, b: string, u: string, sep: char)
    requires a != b && Join(a, sep, t) == Join(b, sep, u)
    ensures t != u
  {
    assert Join(a, sep, t)[..|a|] == a && Join(b, sep, u)[..|b|] == b;
  }
}

/** Names in alphabetical order. Code-point order is the byte order of UTF-8, by
    which Go compares strings. */
module Names {

  predicate Precedes(a: string, b: string) {
    b != [] && (a == [] || a[0] < b[0] || (a[0] == b[0] && Precedes(a[1..], b[1..])))
  }

  /** The first place where they differ decides; if there is none, the shorter comes first. */
  lemma {:induction false} PrecedesIff(a: string, b: string)
    ensures Precedes(a, b) <==>
            exists k :: 0 <= k < |b| && k <= |a| && a[..k] == b[..k] && (k < |a| ==> a[k] < b[k])
  {
    if a != [] && b != [] && a[0] == b[0] {
      PrecedesIff(a[1..], b[1..]);
      if k :| 0 <= k < |b| && k <= |a| && a[..k] == b[..k] && (k < |a| ==> a[k] < b[k]) {
        assert a[1..][..k - 1] == a[..k][1..] == b[..k][1..] == b[1..][..k - 1];
      }
      if k :| 0 <= k < |b[1..]| && k <= |a[1..]| && a[1..][..k] == b[1..][..k] && (k < |a[1..]| ==> a[1..][k] < b[1..][k]) {
        assert a[..k + 1] == [a[0]] + a[1..][..k] && b[..k + 1] == [b[0]] + b[1..][..k];
      }
    } else {
      assert a[..0] == b[..0];
      assert forall k | 0 < k <= |a| && k <= |b| && a[..k] == b[..k] :: a[..k][0] == b[..k][0];
    }
  }

  lemma {:induction false} PrecedesTransitive(a: string, b: string, c: string)
    requires Precedes(a, b) && Precedes(b, c)
    ensures Precedes(a, c)
  {
    if a != [] && a[0] == b[0] && b[0] == c[0] { PrecedesTransitive(a[1..], b[1..], c[1..]); }
  }

  lemma {:induction false} PrecedesTotal(a: string, b: string)
    ensures a == b || Precedes(a, b) || Precedes(b, a)
    ensures !Precedes(a, a)
  {
    if a != [] { PrecedesTotal(a[1..], if b == [] then [] else b[1..]); }
    if a != [] && b != [] && a[0] == b[0] {
      assert a == [a[0]] + a[1..] && b == [b[0]] + b[1..];
    }
  }

  predicate Alphabetical(names: seq<string>) {
    forall i, j | 0 <= i < j < |names| :: Precedes(names[i], names[j])
  }

  lemma AlphabeticalDistinct(names: seq<string>)
    requires Alphabetical(names)
    ensures forall i, j | 0 <= i < j < |names| :: names[i] != names[j]
  {
    forall i, j | 0 <= i < j < |names| ensures names[i] != names[j] { PrecedesTotal(names[i], names[j]); }
  }

  /** A new name put in its place. */
  method Inserted(names: seq<string>, name: string) returns (r: seq<string>)
    requires Alphabetical(names) && name !in names
    ensures Alphabetical(r) && forall x :: x in r <==> x in names || x == name
  {
    var k := 0;
    while k < |names| && Precedes(names[k], name)
      invariant k <= |names| && forall i | 0 <= i < k :: Precedes(names[i], name)
    {
      k := k + 1;
    }
    r := names[..k] + [name] + names[k..];
    forall i | k <= i < |names| ensures Precedes(name, names[i]) {
      assert names[k] in names;
      PrecedesTotal(names[k], name);
      if k < i { PrecedesTransitive(name, names[k], names[i]); }
    }
    hide Precedes;
    assert forall x :: x in r <==> x in names[..k] || x == name || x in names[k..];
    assert names == names[..k] + names[k..];
  }
}
