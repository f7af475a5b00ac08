/** Optional values, for SQL NULLs and absent references. */
module Wrappers {
  datatype Option<+T> = None | Some(value: T)
}

/** What the models need of finite sets and lists. */
module Sets {

  function Elements<T>(list: seq<T>): set<T> {
    set x | x in list
  }

  predicate Ascending(list: seq<nat>) {
    forall i, j | 0 <= i < j < |list| :: list[i] < list[j]
  }

  lemma {:induction false} AtMost(list: seq<nat>, s: set<nat>)
    requires forall x | x in s :: x in list
    ensures |s| <= |list|
  {
    if list == [] {
      assert s == {};
    } else {
      var last := list[|list| - 1];
      AtMost(list[..|list| - 1], s - {last});
      assert s <= s - {last} + {last};
    }
  }

  lemma {:induction false} AtLeast(list: seq<nat>, s: set<nat>)
    requires Ascending(list) && forall x | x in list :: x in s
    ensures |list| <= |s|
  {
    if list != [] {
      var init, last := list[..|list| - 1], list[|list| - 1];
      AtLeast(init, s - {last});
    }
  }

  /** The smallest element. */
  method Least(s: set<nat>) returns (least: nat)
    requires s != {}
    ensures least in s && forall x | x in s :: least <= x
  {
    least :| least in s;
    var rest := s - {least};
    while rest != {}
      invariant rest <= s && least in s
      invariant forall x | x in s && x !in rest :: least <= x
      decreases rest
    {
      var x :| x in rest;
      if x < least { least := x; }
      rest := rest - {x};
    }
  }

  lemma Greatest(s: set<nat>) returns (top: nat)
    requires s != {}
    ensures top in s && forall x | x in s :: x <= top
    decreases |s|
  {
    var one :| one in s;
    top := one;
    assert forall x | x in s :: x == one || x in s - {one};
    if s - {one} != {} {
      var other := Greatest(s - {one});
      if one < other { top := other; }
    }
  }

  /** Every finite set can be listed in ascending order. */
  lemma Listed(s: set<nat>) returns (list: seq<nat>)
    ensures Ascending(list) && forall x :: x in list <==> x in s
    decreases |s|
  {
    if s == {} {
      list := [];
    } else {
      var top := Greatest(s);
      var init := Listed(s - {top});
      list := init + [top];
      forall i | 0 <= i < |init| ensures init[i] < top { assert init[i] in init; }
    }
  }
}
