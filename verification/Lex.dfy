/** Go's order on strings and sort.Strings. */
module Lex {
  import opened Unique

  /** Go's a < b: byte-wise lexicographic order. */
  predicate Less(a: string, b: string) {
    b != [] && (a == [] || a[0] < b[0] || (a[0] == b[0] && Less(a[1..], b[1..])))
  }

  lemma {:induction false} LessTransitive(a: string, b: string, c: string)
    requires Less(a, b) && Less(b, c)
    ensures Less(a, c)
  {
    if a != [] && a[0] == b[0] == c[0] {
      LessTransitive(a[1..], b[1..], c[1..]);
    }
  }

  lemma {:induction false} LessIrreflexive(a: string)
    ensures !Less(a, a)
  {
    if a != [] { LessIrreflexive(a[1..]); }
  }

  lemma {:induction false} LessTotal(a: string, b: string)
    ensures Less(a, b) || a == b || Less(b, a)
  {
    if a != [] && b != [] && a[0] == b[0] {
      LessTotal(a[1..], b[1..]);
      assert a == [a[0]] + a[1..] && b == [b[0]] + b[1..];
    }
  }

  /** The strings agree before k, and at k the first one is smaller. */
  ghost predicate SmallerAt(a: string, b: string, k: int) {
    0 <= k < |a| && k < |b| && a[..k] == b[..k] && a[k] < b[k]
  }

  lemma AgreeBefore(a: string, b: string, k: int)
    requires SmallerAt(a, b, k)
    ensures k == 0 || a[0] == b[0]
  {
    assert k > 0 ==> a[..k][0] == b[..k][0];
  }

  /** The order is decided by the first character that differs, and a proper prefix comes first. */
  lemma {:induction false} LessIff(a: string, b: string)
    ensures Less(a, b) <==> a < b || exists k :: SmallerAt(a, b, k)
  {
    if a != [] && b != [] && a[0] == b[0] {
      LessIff(a[1..], b[1..]);
      assert a == [a[0]] + a[1..] && b == [b[0]] + b[1..];
      if k :| SmallerAt(a[1..], b[1..], k) {
        assert a[..k + 1] == [a[0]] + a[1..][..k] && b[..k + 1] == [b[0]] + b[1..][..k];
        assert SmallerAt(a, b, k + 1);
      }
      if k :| SmallerAt(a, b, k) {
        assert a[1..][..k - 1] == a[..k][1..] && b[1..][..k - 1] == b[..k][1..];
        assert SmallerAt(a[1..], b[1..], k - 1);
      }
    } else if a != [] && b != [] {
      if k :| SmallerAt(a, b, k) {
        AgreeBefore(a, b, k);
      }
      if a[0] < b[0] {
        assert SmallerAt(a, b, 0);
      }
    }
  }

  /** Nondecreasing in Go's order. */
  ghost predicate Sorted(s: seq<string>) {
    forall i, j :: 0 <= i < j < |s| ==> !Less(s[j], s[i])
  }

  ghost predicate StrictlySorted(s: seq<string>) {
    forall i, j :: 0 <= i < j < |s| ==> Less(s[i], s[j])
  }

  /** s with x put before the first element that is not smaller. */
  function Insert(s: seq<string>, x: string): seq<string> {
    if s == [] || !Less(s[0], x) then [x] + s else [s[0]] + Insert(s[1..], x)
  }

  /** sort.Strings. */
  function Sort(s: seq<string>): seq<string> {
    if s == [] then [] else Insert(Sort(s[1..]), s[0])
  }

  lemma {:induction false} InsertElements(s: seq<string>, x: string)
    ensures multiset(Insert(s, x)) == multiset(s) + multiset{x}
  {
    if s != [] {
      assert s == [s[0]] + s[1..];
      if Less(s[0], x) { InsertElements(s[1..], x); }
    }
  }

  lemma {:induction false} SortElements(s: seq<string>)
    ensures multiset(Sort(s)) == multiset(s)
  {
    if s != [] {
      SortElements(s[1..]);
      InsertElements(Sort(s[1..]), s[0]);
      assert s == [s[0]] + s[1..];
    }
  }

  lemma {:induction false} InsertSorted(s: seq<string>, x: string)
    requires Sorted(s)
    ensures Sorted(Insert(s, x))
  {
    if s == [] {
    } else if !Less(s[0], x) {
      forall j | 0 <= j < |s| ensures !Less(s[j], x) {
        if j > 0 { NotLessTransitive(x, s[0], s[j]); }
      }
    } else {
      InsertSorted(s[1..], x);
      InsertElements(s[1..], x);
      var r := Insert(s[1..], x);
      forall j | 0 <= j < |r| ensures !Less(r[j], s[0]) {
        assert r[j] in multiset(r);
        if r[j] == x {
          if Less(x, s[0]) { LessTransitive(x, s[0], x); LessIrreflexive(x); }
        } else {
          assert r[j] in s[1..];
        }
      }
    }
  }

  /** If b is not below a and c is not below b then c is not below a. */
  lemma NotLessTransitive(a: string, b: string, c: string)
    requires !Less(b, a) && !Less(c, b)
    ensures !Less(c, a)
  {
    LessTotal(b, c);
    if Less(c, a) && Less(b, c) {
      LessTransitive(b, c, a);
    }
  }

  lemma {:induction false} SortSorted(s: seq<string>)
    ensures Sorted(Sort(s))
  {
    if s != [] {
      SortSorted(s[1..]);
      InsertSorted(Sort(s[1..]), s[0]);
    }
  }

  lemma SortedNoDupIsStrict(s: seq<string>)
    requires Sorted(s) && NoDup(s)
    ensures StrictlySorted(s)
  {
    forall i, j | 0 <= i < j < |s| ensures Less(s[i], s[j]) {
      LessTotal(s[i], s[j]);
    }
  }

  /** A strictly sorted list is determined by its elements. */
  lemma {:induction false} StrictlySortedUnique(s: seq<string>, t: seq<string>)
    requires StrictlySorted(s) && StrictlySorted(t) && SameElements(s, t)
    ensures s == t
  {
    assert forall i :: 0 <= i < |s| ==> s[i] in t;
    assert forall i :: 0 <= i < |t| ==> t[i] in s;
    if s != [] {
      FirstIsLeast(s, t);
      FirstIsLeast(t, s);
      if s[0] != t[0] {
        LessTransitive(s[0], t[0], s[0]);
        LessIrreflexive(s[0]);
      }
      forall x ensures x in s[1..] <==> x in t[1..] {
        TailElements(s, x);
        TailElements(t, x);
      }
      StrictlySortedUnique(s[1..], t[1..]);
      assert s == [s[0]] + s[1..] && t == [t[0]] + t[1..];
    }
  }

  lemma FirstIsLeast(s: seq<string>, t: seq<string>)
    requires StrictlySorted(s) && s != [] && t != [] && SameElements(s, t)
    ensures s[0] == t[0] || Less(s[0], t[0])
  {
    assert t[0] in s;
  }

  lemma TailElements(s: seq<string>, x: string)
    requires StrictlySorted(s) && s != []
    ensures x in s[1..] <==> x in s && x != s[0]
  {
    LessIrreflexive(s[0]);
    assert s == [s[0]] + s[1..];
  }

  lemma NoDupSort(s: seq<string>)
    requires NoDup(s)
    ensures NoDup(Sort(s))
  {
    SortElements(s);
    NoDupIsMultiset(s);
    MultisetIsNoDup(Sort(s));
  }

  lemma {:induction false} NoDupIsMultiset(s: seq<string>)
    requires NoDup(s)
    ensures forall x :: multiset(s)[x] <= 1
  {
    if s != [] {
      NoDupIsMultiset(s[1..]);
      assert s == [s[0]] + s[1..];
    }
  }

  lemma {:induction false} MultisetIsNoDup(s: seq<string>)
    requires forall x :: multiset(s)[x] <= 1
    ensures NoDup(s)
  {
    if s != [] {
      assert s == [s[0]] + s[1..];
      assert multiset(s) == multiset{s[0]} + multiset(s[1..]);
      forall x ensures multiset(s[1..])[x] <= 1 {
        assert multiset(s)[x] <= 1;
      }
      MultisetIsNoDup(s[1..]);
      assert multiset(s)[s[0]] <= 1;
    }
  }

  /** list has the elements of s, in strictly increasing order. */
  ghost predicate Lists(list: seq<string>, s: set<string>) {
    StrictlySorted(list) && forall x :: x in list <==> x in s
  }

  lemma SortKeeps(s: seq<string>)
    ensures forall x :: x in Sort(s) <==> x in s
  {
    SortElements(s);
    forall x ensures x in Sort(s) <==> x in s {
      assert x in Sort(s) <==> x in multiset(Sort(s));
      assert x in s <==> x in multiset(s);
    }
  }

  /** The keys of a Go map, gone through in no particular order and then sorted. */
  method SortedKeys(s: set<string>) returns (list: seq<string>)
    ensures Lists(list, s)
  {
    var keys: seq<string>, rest := [], s;
    while rest != {}
      invariant NoDup(keys) && rest <= s
      invariant forall k :: k in s <==> k in keys || k in rest
      invariant forall k :: k in keys ==> k !in rest
      decreases |rest|
    {
      var key :| key in rest;
      keys, rest := keys + [key], rest - {key};
    }
    NoDupSort(keys);
    SortSorted(keys);
    SortedNoDupIsStrict(Sort(keys));
    SortKeeps(keys);
    return Sort(keys);
  }
}
