/** Why defaultsMutator of android/defaults.go must run top-down: what becomes of a module if one of
    its defaults modules has been flattened before it. */
module DefaultsOrder {
  import opened Defaults
  import opened DepGraph
  import Text

  ghost predicate Has(kind: string, own: seq<Props>) {
    exists i :: 0 <= i < |own| && own[i].kind == kind
  }

  lemma {:induction false} ListsReversedAppend(kind: string, a: seq<Props>, b: seq<Props>)
    ensures ListsReversed(kind, a + b) == ListsReversed(kind, b) + ListsReversed(kind, a)
  {
    if a == [] {
      assert a + b == b;
    } else {
      assert (a + b)[1..] == a[1..] + b && (a + b)[0] == a[0];
      ListsReversedAppend(kind, a[1..], b);
    }
  }

  lemma {:induction false} PropsOfAppend(props: seq<seq<Props>>, a: seq<nat>, b: seq<nat>)
    requires Below(a, |props|) && Below(b, |props|)
    ensures Below(a + b, |props|) && PropsOf(props, a + b) == PropsOf(props, a) + PropsOf(props, b)
    decreases |b|
  {
    if b == [] {
      assert a + b == a;
    } else {
      var n := |b| - 1;
      assert (a + b)[..|a| + n] == a + b[..n] && (a + b)[|a| + n] == b[n];
      PropsOfAppend(props, a, b[..n]);
      Text.Assoc(PropsOf(props, a), PropsOf(props, b[..n]), props[b[n]]);
    }
  }

  /** The lists of one kind in structs that have been flattened: the inherited lists come once for
      each struct of that kind. */
  lemma {:induction false} MergedLists(kind: string, own: seq<Props>, defs: seq<Props>)
    ensures ListsReversed(kind, defs) == [] || !Has(kind, own) ==>
              ListsReversed(kind, Merged(own, defs)) == ListsReversed(kind, own)
    ensures ListsReversed(kind, defs) != [] && Has(kind, own) ==>
              |ListsReversed(kind, Merged(own, defs))| > |ListsReversed(kind, own)|
    ensures |ListsReversed(kind, Merged(own, defs))| >= |ListsReversed(kind, own)|
  {
    if own != [] {
      MergedLists(kind, own[1..], defs);
      assert Merged(own, defs)[1..] == Merged(own[1..], defs);
      PrependAllMeaning(own[0], defs);
      assert Has(kind, own) <==> own[0].kind == kind || Has(kind, own[1..]);
    }
  }

  /** The structs of all modules after the mutator has been called for y only. */
  ghost function After(w: World, props: seq<seq<Props>>, y: nat): seq<seq<Props>>
    requires w.Ok() && y < |w.g| == |props|
  {
    props[y := Expected(w, props, y)]
  }

  /** What m inherits of one kind, split at y. */
  lemma SplitAt(kind: string, props: seq<seq<Props>>, list: seq<nat>, k: nat)
    requires Below(list, |props|) && k < |list|
    ensures Below(list[..k], |props|) && Below(list[k + 1..], |props|)
    ensures ListsReversed(kind, PropsOf(props, list)) ==
            ListsReversed(kind, PropsOf(props, list[k + 1..])) +
            (ListsReversed(kind, props[list[k]]) + ListsReversed(kind, PropsOf(props, list[..k])))
  {
    var a, y, b := list[..k], list[k], list[k + 1..];
    assert list == a + ([y] + b);
    PropsOfAppend(props, [y], b);
    PropsOfAppend(props, a, [y] + b);
    assert PropsOf(props, [y]) == props[y];
    ThreeParts(kind, PropsOf(props, a), props[y], PropsOf(props, b));
  }

  lemma ThreeParts(kind: string, a: seq<Props>, y: seq<Props>, b: seq<Props>)
    ensures ListsReversed(kind, a + (y + b)) ==
            ListsReversed(kind, b) + (ListsReversed(kind, y) + ListsReversed(kind, a))
  {
    ListsReversedAppend(kind, a, y + b);
    ListsReversedAppend(kind, y, b);
    Text.Assoc(ListsReversed(kind, b), ListsReversed(kind, y), ListsReversed(kind, a));
  }

  lemma MiddleDecides<T>(a: seq<T>, x: seq<T>, y: seq<T>, b: seq<T>)
    ensures b + (x + a) == b + (y + a) <==> x == y
  {
    if b + (x + a) == b + (y + a) {
      assert (b + (x + a))[|b|..] == x + a && (b + (y + a))[|b|..] == y + a;
      assert (x + a)[..|x|] == x && (y + a)[..|y|] == y;
    }
  }

  /** If only one module of a list changes, what is inherited of a kind is unchanged exactly if what
      that module adds is. */
  lemma InheritedSame(kind: string, props: seq<seq<Props>>, after: seq<seq<Props>>, list: seq<nat>, k: nat)
    requires Below(list, |props|) && |after| == |props| && k < |list|
    requires forall i :: 0 <= i < |list| && i != k ==> after[list[i]] == props[list[i]]
    ensures ListsReversed(kind, PropsOf(after, list)) == ListsReversed(kind, PropsOf(props, list)) <==>
            ListsReversed(kind, after[list[k]]) == ListsReversed(kind, props[list[k]])
  {
    var a, b := list[..k], list[k + 1..];
    SplitAt(kind, props, list, k);
    SplitAt(kind, after, list, k);
    assert forall i :: 0 <= i < |b| ==> b[i] == list[k + 1 + i];
    PropsOfAgree(props, after, a);
    PropsOfAgree(props, after, b);
    MiddleDecides(ListsReversed(kind, PropsOf(props, a)), ListsReversed(kind, after[list[k]]),
                  ListsReversed(kind, props[list[k]]), ListsReversed(kind, PropsOf(props, b)));
  }

  /** If a module that m inherits from is flattened before m, the list that m ends up with is right
      exactly if that module inherits nothing of that kind, or has no struct of that kind. */
  lemma EarlyIsRightIff(w: World, props: seq<seq<Props>>, m: nat, y: nat, i: nat)
    requires w.Ok() && m < |w.g| == |props| && i < |props[m]| && y in DefaultsList(w, m)
    ensures var kind := props[m][i].kind;
            Expected(w, After(w, props, y), m)[i].list == Expected(w, props, m)[i].list <==>
            ListsReversed(kind, PropsOf(props, DefaultsList(w, y))) == [] || !Has(kind, props[y])
  {
    var kind, after := props[m][i].kind, After(w, props, y);
    var list := DefaultsList(w, m);
    DefaultsListCorrect(w, m);
    var k :| 0 <= k < |list| && list[k] == y;
    InheritedSame(kind, props, after, list, k);
    MergedLists(kind, props[y], PropsOf(props, DefaultsList(w, y)));
    ExpectedMeaning(w, props, m, i);
    ExpectedMeaning(w, after, m, i);
    SameOwn(ListsReversed(kind, PropsOf(after, list)), ListsReversed(kind, PropsOf(props, list)), props[m][i].list);
  }

  lemma SameOwn<T>(x: seq<T>, y: seq<T>, own: seq<T>)
    ensures x + own == y + own <==> x == y
  {
    if x + own == y + own {
      assert (x + own)[..|x|] == x && (y + own)[..|y|] == y;
    }
  }
}
