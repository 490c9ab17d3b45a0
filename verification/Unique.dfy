/** De-duplication of slices: android/util.go and android/paths.go. */
module Unique {

  ghost predicate NoDup<T>(s: seq<T>) {
    forall i, j :: 0 <= i < j < |s| ==> s[i] != s[j]
  }

  ghost predicate SameElements<T(!new)>(s: seq<T>, t: seq<T>) {
    forall x :: x in s <==> x in t
  }

  /** The elements of s, keeping the first copy of each. */
  function FirstUnique<T(==)>(s: seq<T>): seq<T> {
    if s == [] then [] else
      var init, last := s[..|s| - 1], s[|s| - 1];
      if last in init then FirstUnique(init) else FirstUnique(init) + [last]
  }

  /** The elements of s, keeping the last copy of each. */
  function LastUnique<T(==)>(s: seq<T>): seq<T> {
    if s == [] then [] else
    if s[0] in s[1..] then LastUnique(s[1..]) else [s[0]] + LastUnique(s[1..])
  }

  function Reverse<T>(s: seq<T>): seq<T> {
    if s == [] then [] else Reverse(s[1..]) + [s[0]]
  }

  function Remove<T(==)>(s: seq<T>, x: T): seq<T> {
    if s == [] then [] else if s[0] == x then Remove(s[1..], x) else [s[0]] + Remove(s[1..], x)
  }

  /** The index of the last copy of x. */
  function LastIndex<T(==)>(s: seq<T>, x: T): (i: nat)
    requires x in s
    ensures i < |s| && s[i] == x && x !in s[i + 1..]
  {
    if s[|s| - 1] == x then |s| - 1 else
      var i := LastIndex(s[..|s| - 1], x);
      assert s[i + 1..] == s[..|s| - 1][i + 1..] + [s[|s| - 1]];
      i
  }

  lemma TakeNext<T>(s: seq<T>, k: nat)
    requires k < |s|
    ensures s[..k + 1] == s[..k] + [s[k]]
  {}

  lemma {:induction false} LastUniqueElements<T(!new)>(s: seq<T>)
    ensures SameElements(LastUnique(s), s)
    ensures NoDup(LastUnique(s))
  {
    if s != [] {
      LastUniqueElements(s[1..]);
      assert s == [s[0]] + s[1..];
    }
  }

  lemma {:induction false} FirstUniqueElements<T(!new)>(s: seq<T>)
    ensures SameElements(FirstUnique(s), s)
    ensures NoDup(FirstUnique(s))
  {
    if s != [] {
      FirstUniqueElements(s[..|s| - 1]);
      assert s == s[..|s| - 1] + [s[|s| - 1]];
    }
  }

  lemma {:induction false} LastIndexTail<T(!new)>(s: seq<T>, x: T)
    requires s != [] && x in s[1..]
    ensures x in s && LastIndex(s, x) == LastIndex(s[1..], x) + 1
  {
    var i, j := LastIndex(s, x), LastIndex(s[1..], x);
    assert s[1..][j + 1..] == s[j + 2..];
    assert forall k :: i < k < |s| ==> s[k] == s[i + 1..][k - (i + 1)];
    assert forall k :: j + 2 <= k < |s| ==> s[k] == s[j + 2..][k - (j + 2)];
  }

  ghost predicate InLastOrder<T>(s: seq<T>, r: seq<T>)
    requires forall x :: x in r ==> x in s
  {
    forall i, j :: 0 <= i < j < |r| ==> LastIndex(s, r[i]) < LastIndex(s, r[j])
  }

  lemma InLastOrderTail<T(!new)>(s: seq<T>, r: seq<T>)
    requires s != [] && (forall x :: x in r ==> x in s[1..]) && InLastOrder(s[1..], r)
    ensures (forall x :: x in r ==> x in s) && InLastOrder(s, r)
  {
    forall x | x in r ensures x in s && LastIndex(s, x) == LastIndex(s[1..], x) + 1 {
      LastIndexTail(s, x);
    }
  }

  /** LastUnique keeps exactly the last occurrences, in the order of those occurrences. */
  lemma {:induction false} LastUniqueIsLastOccurrences<T(!new)>(s: seq<T>)
    ensures SameElements(LastUnique(s), s) && NoDup(LastUnique(s))
    ensures InLastOrder(s, LastUnique(s))
  {
    LastUniqueElements(s);
    if s != [] {
      var t := s[1..];
      LastUniqueIsLastOccurrences(t);
      InLastOrderTail(s, LastUnique(t));
      if s[0] !in t {
        assert LastIndex(s, s[0]) == 0;
        forall x | x in LastUnique(t) ensures LastIndex(s, x) > 0 {
          LastIndexTail(s, x);
        }
      }
    }
  }

  lemma {:induction false} ReverseAppend<T>(s: seq<T>, x: T)
    ensures Reverse(s + [x]) == [x] + Reverse(s)
  {
    if s != [] {
      assert (s + [x])[1..] == s[1..] + [x];
      ReverseAppend(s[1..], x);
    }
  }

  lemma {:induction false} ReverseElements<T(!new)>(s: seq<T>)
    ensures SameElements(Reverse(s), s) && |Reverse(s)| == |s|
  {
    if s != [] {
      ReverseElements(s[1..]);
      assert s == [s[0]] + s[1..];
    }
  }

  /** Keeping last copies is keeping first copies of the reversed list. */
  lemma {:induction false} LastUniqueIsReversedFirstUnique<T(!new)>(s: seq<T>)
    ensures LastUnique(s) == Reverse(FirstUnique(Reverse(s)))
  {
    if s != [] {
      var x, t := s[0], s[1..];
      LastUniqueIsReversedFirstUnique(t);
      ReverseElements(t);
      var r := Reverse(s);
      assert r == Reverse(t) + [x] && r[..|r| - 1] == Reverse(t);
      ReverseAppend(FirstUnique(Reverse(t)), x);
    }
  }

  lemma {:induction false} RemoveElements<T(!new)>(s: seq<T>, x: T)
    ensures forall y :: y in Remove(s, x) <==> y in s && y != x
    ensures |Remove(s, x)| <= |s|
  {
    if s != [] {
      RemoveElements(s[1..], x);
      assert s == [s[0]] + s[1..];
    }
  }

  /** The step of the backwards loop: the last element is final, and its earlier copies go. */
  lemma {:induction false} LastUniqueSplit<T(!new)>(s: seq<T>, x: T)
    ensures LastUnique(s + [x]) == LastUnique(Remove(s, x)) + [x]
  {
    if s == [] {
      assert s + [x] == [x];
    } else {
      var t := s[1..];
      assert (s + [x])[1..] == t + [x];
      LastUniqueSplit(t, x);
      RemoveElements(t, x);
      if s[0] != x {
        assert Remove(s, x)[1..] == Remove(t, x);
        assert s[0] in t + [x] <==> s[0] in Remove(t, x);
      }
    }
  }

  lemma {:induction false} LastUniqueStep<T(!new)>(q: seq<T>, x: T, tail: seq<T>, goal: seq<T>)
    requires LastUnique(q + [x]) + tail == goal
    ensures LastUnique(Remove(q, x)) + ([x] + tail) == goal
  {
    LastUniqueSplit(q, x);
    assert LastUnique(Remove(q, x)) + [x] + tail == LastUnique(Remove(q, x)) + ([x] + tail);
  }

  /** FirstUniqueStrings and FirstUniquePaths: rewrites the slice in place, and the result is its
      first `k` elements. */
  method FirstUniqueInPlace<T(==, !new)>(list: array<T>) returns (k: nat)
    modifies list
    ensures k <= list.Length && list[..k] == FirstUnique(old(list[..]))
  {
    k := 0;
    ghost var was := list[..];
    for i := 0 to list.Length
      invariant k <= i
      invariant list[..k] == FirstUnique(was[..i])
      invariant list[i..] == was[i..]
    {
      var found := false;
      for j := 0 to k
        invariant found <==> list[i] in list[..j]
      {
        found := found || list[i] == list[j];
      }
      FirstUniqueElements(was[..i]);
      assert list[i] == list[i..][0] == was[i];
      assert was[..i + 1][..i] == was[..i];
      assert list[i + 1..] == list[i..][1..];
      if !found {
        list[k] := list[i];
        k := k + 1;
      }
    }
    assert was[..|was|] == was;
  }

  lemma RemoveCons<T(!new)>(s: seq<T>, i: nat, x: T)
    requires i < |s|
    ensures Remove(s[i..], x) == if s[i] == x then Remove(s[i + 1..], x) else [s[i]] + Remove(s[i + 1..], x)
  {
    assert s[i..][1..] == s[i + 1..];
  }

  /** The inner loop of LastUniqueStrings: drops the copies of list[i] from list[lo..i], moving the
      rest up against list[i].  Each write goes to an index already read. */
  method DropCopies<T(==, !new)>(list: array<T>, lo: nat, i: nat) returns (skip: nat)
    requires lo <= i < list.Length
    modifies list
    ensures skip <= i - lo
    ensures list[lo + skip..i] == Remove(old(list[lo..i]), old(list[i]))
    ensures list[i..] == old(list[i..])
  {
    ghost var s := list[..];
    ghost var start := s;
    skip := 0;
    var j := i - 1;
    while j >= lo
      invariant s == list[..] && Dropping(start, s, lo, j, skip, i)
    {
      DropStep(start, s, lo, j, skip, i);
      if list[i] == list[j] {
        skip := skip + 1;
      } else {
        list[j + skip] := list[j];
        s := s[j + skip := s[j]];
      }
      j := j - 1;
    }
    assert start[lo..i][0..] == start[lo..i];
  }

  /** The list with the copies of its element i dropped between j and i: what lies before is still
      unread, and what was kept lies right before i. */
  ghost predicate Dropping<T>(start: seq<T>, s: seq<T>, lo: nat, j: int, skip: int, i: nat) {
    && |s| == |start| && lo - 1 <= j < i < |s| && 0 <= skip <= i - 1 - j
    && s[lo..j + 1] == start[lo..j + 1] && s[i..] == start[i..]
    && s[j + 1 + skip..i] == Remove(start[lo..i][j + 1 - lo..], start[i])
  }

  /** One round of the loop: the write goes to an index already read. */
  lemma DropStep<T(!new)>(start: seq<T>, s: seq<T>, lo: nat, j: nat, skip: nat, i: nat)
    requires Dropping(start, s, lo, j, skip, i) && j >= lo
    ensures s[i] == s[j] ==> Dropping(start, s, lo, j - 1, skip + 1, i)
    ensures s[i] != s[j] ==> Dropping(start, s[j + skip := s[j]], lo, j - 1, skip, i)
  {
    SplitOff(s, start, lo, j);
    assert s[i] == s[i..][0] == start[i..][0] == start[i];
    RemoveCons(start[lo..i], j - lo, start[i]);
    MoveUp(s, lo, j, skip, i);
  }

  lemma SplitOff<T>(s: seq<T>, t: seq<T>, lo: nat, j: nat)
    requires lo <= j < |s| == |t| && s[lo..j + 1] == t[lo..j + 1]
    ensures s[j] == t[j] && s[lo..j] == t[lo..j]
  {
    assert s[j] == s[lo..j + 1][j - lo] && t[j] == t[lo..j + 1][j - lo];
    assert s[lo..j] == s[lo..j + 1][..j - lo];
    assert t[lo..j] == t[lo..j + 1][..j - lo];
  }

  lemma MoveUp<T>(s: seq<T>, lo: nat, j: nat, skip: nat, i: nat)
    requires lo <= j && j + skip < i <= |s|
    ensures var t := s[j + skip := s[j]];
            t[lo..j] == s[lo..j] && t[i..] == s[i..] && t[j + skip..i] == [s[j]] + s[j + 1 + skip..i]
  {}

  lemma SplitLast<T>(list: array<T>, lo: nat, i: nat)
    requires lo <= i < list.Length
    ensures list[lo..i + 1] == list[lo..i] + [list[i]] && list[i..] == [list[i]] + list[i + 1..]
  {}

  /** LastUniqueStrings and LastUniquePaths: rewrites the slice in place, and the result is its
      tail from `totalSkip`. */
  method LastUniqueInPlace<T(==, !new)>(list: array<T>) returns (totalSkip: nat)
    modifies list
    ensures totalSkip <= list.Length && list[totalSkip..] == LastUnique(old(list[..]))
  {
    ghost var goal := LastUnique(list[..]);
    ghost var todo, done := list[..], [];
    totalSkip := 0;
    var i := list.Length - 1;
    while i >= totalSkip
      invariant 0 <= totalSkip <= i + 1 <= list.Length
      invariant todo == list[totalSkip..i + 1] && done == list[i + 1..]
      invariant LastUnique(todo) + done == goal
    {
      ghost var q, x := list[totalSkip..i], list[i];
      SplitLast(list, totalSkip, i);
      LastUniqueStep(q, x, done, goal);
      var skip := DropCopies(list, totalSkip, i);
      totalSkip := totalSkip + skip;
      i := i - 1;
      todo, done := Remove(q, x), [x] + done;
    }
  }
}
