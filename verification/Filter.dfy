/** What it means that a list was filtered out of another one, by indices. */
module Filter {

  ghost predicate Increasing(ks: seq<nat>) {
    forall i, j :: 0 <= i < j < |ks| ==> ks[i] < ks[j]
  }

  /** The indices of exactly the elements of s that satisfy keep, in order. */
  ghost predicate Picks<T>(s: seq<T>, keep: T -> bool, ks: seq<nat>) {
    Increasing(ks) && forall k: nat {:trigger k in ks} :: k in ks <==> k < |s| && keep(s[k])
  }

  ghost predicate ShownAt<T, U>(s: seq<T>, show: T -> U, ks: seq<nat>, list: seq<U>) {
    |list| == |ks| && forall i :: 0 <= i < |ks| ==> ks[i] < |s| && list[i] == show(s[ks[i]])
  }

  /** The list shows exactly the elements of s that satisfy keep, in order. */
  ghost predicate Filtered<T, U>(s: seq<T>, keep: T -> bool, show: T -> U, list: seq<U>) {
    exists ks: seq<nat> :: Picks(s, keep, ks) && ShownAt(s, show, ks, list)
  }

  function Itself<T>(x: T): T { x }

  lemma FilteredNone<T, U>(s: seq<T>, keep: T -> bool, show: T -> U)
    requires forall k :: 0 <= k < |s| ==> !keep(s[k])
    ensures Filtered(s, keep, show, [])
  {
    assert Picks(s, keep, []) && ShownAt(s, show, [], []);
  }

  lemma PicksNext<T>(s: seq<T>, keep: T -> bool, x: T, ks: seq<nat>, ks': seq<nat>)
    requires Picks(s, keep, ks) && ks' == if keep(x) then ks + [|s|] else ks
    ensures Picks(s + [x], keep, ks')
  {
    var t := s + [x];
    assert forall k :: 0 <= k < |s| ==> t[k] == s[k];
    assert forall i :: 0 <= i < |ks| ==> ks[i] in ks;
    assert forall k :: k in ks' <==> k in ks || (keep(x) && k == |s|);
  }

  lemma ShownNext<T, U>(s: seq<T>, show: T -> U, ks: seq<nat>, list: seq<U>, x: T, s': seq<T>)
    requires ShownAt(s, show, ks, list) && s' == s + [x]
    ensures ShownAt(s', show, ks, list) && ShownAt(s', show, ks + [|s|], list + [show(x)])
  {}

  /** One more element is shown behind the others, or not at all. */
  lemma FilteredNext<T, U>(s: seq<T>, keep: T -> bool, show: T -> U, list: seq<U>, x: T, s': seq<T>, list': seq<U>)
    requires Filtered(s, keep, show, list)
    requires s' == s + [x] && list' == if keep(x) then list + [show(x)] else list
    ensures Filtered(s', keep, show, list')
  {
    var ks: seq<nat> :| Picks(s, keep, ks) && ShownAt(s, show, ks, list);
    var ks' := if keep(x) then ks + [|s|] else ks;
    PicksNext(s, keep, x, ks, ks');
    ShownNext(s, show, ks, list, x, s');
  }

  lemma FilteredElements<T, U>(s: seq<T>, keep: T -> bool, show: T -> U, list: seq<U>, y: U)
    requires Filtered(s, keep, show, list)
    ensures y in list <==> exists k :: 0 <= k < |s| && keep(s[k]) && show(s[k]) == y
  {
    var ks: seq<nat> :| Picks(s, keep, ks) && ShownAt(s, show, ks, list);
    if y in list {
      var i :| 0 <= i < |list| && list[i] == y;
      assert ks[i] in ks;
    }
    if k :| 0 <= k < |s| && keep(s[k]) && show(s[k]) == y {
      assert k in ks;
      var i :| 0 <= i < |ks| && ks[i] == k;
      assert list[i] == y;
    }
  }

  /** There is only one choice of indices. */
  lemma {:induction false} IncreasingUnique(a: seq<nat>, b: seq<nat>)
    requires Increasing(a) && Increasing(b) && forall k :: k in a <==> k in b
    ensures a == b
  {
    assert a != [] ==> a[0] in a && a[0] in b;
    assert b != [] ==> b[0] in b && b[0] in a;
    if a != [] {
      FirstIsLeast(a, b);
      FirstIsLeast(b, a);
      TailElements(a);
      TailElements(b);
      IncreasingUnique(a[1..], b[1..]);
      assert a == [a[0]] + a[1..] && b == [b[0]] + b[1..];
    }
  }

  lemma FirstIsLeast(a: seq<nat>, b: seq<nat>)
    requires Increasing(a) && a != [] && b != [] && b[0] in a
    ensures a[0] <= b[0]
  {}

  lemma TailElements(a: seq<nat>)
    requires Increasing(a) && a != []
    ensures Increasing(a[1..]) && forall k :: k in a[1..] <==> k in a && k != a[0]
  {
    assert a == [a[0]] + a[1..];
    assert forall k :: k in a[1..] ==> k > a[0];
  }
}
