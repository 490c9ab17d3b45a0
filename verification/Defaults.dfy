/** Defaults flattening: defaultsMutator and applyDefaults of android/defaults.go. */
module Defaults {
  import opened Unique
  import opened DepGraph
  import opened Options

  /** One property struct: its Go type and, standing for its fields, a list property and an
      optional scalar property. */
  datatype Props = Props(kind: string, list: seq<string>, scalar: Option<string>)

  datatype Tag = DefaultsDepTag | OtherTag

  /** proptools.PrependProperties: lists are prepended, a scalar is only filled in if unset. */
  function Prepend(dst: Props, src: Props): Props {
    Props(dst.kind, src.list + dst.list, if dst.scalar.Some? then dst.scalar else src.scalar)
  }

  /** One property struct after the property structs `defs` were applied to it in this order. */
  function PrependAll(prop: Props, defs: seq<Props>): Props {
    if defs == [] then prop else
      var before, def := PrependAll(prop, defs[..|defs| - 1]), defs[|defs| - 1];
      if before.kind == def.kind then Prepend(before, def) else before
  }

  /** The lists of the structs of one type, the last struct's list first. */
  function ListsReversed(kind: string, defs: seq<Props>): seq<string> {
    if defs == [] then [] else
      ListsReversed(kind, defs[1..]) + (if defs[0].kind == kind then defs[0].list else [])
  }

  /** The first scalar that is set among the structs of one type. */
  function FirstScalar(kind: string, defs: seq<Props>): Option<string> {
    if defs == [] then None else
    if defs[0].kind == kind && defs[0].scalar.Some? then defs[0].scalar else FirstScalar(kind, defs[1..])
  }

  lemma {:induction false} ListsReversedSnoc(kind: string, defs: seq<Props>, d: Props)
    ensures ListsReversed(kind, defs + [d]) == (if d.kind == kind then d.list else []) + ListsReversed(kind, defs)
    ensures FirstScalar(kind, defs + [d]) ==
            if FirstScalar(kind, defs).Some? || d.kind != kind then FirstScalar(kind, defs) else d.scalar
  {
    if defs == [] {
      assert [] + [d] == [d];
    } else {
      assert (defs + [d])[1..] == defs[1..] + [d];
      ListsReversedSnoc(kind, defs[1..], d);
    }
  }

  /** What applying defaults means for one property struct: its list ends as the defaults' lists,
      latest first, and then its own; its scalar is its own or else the first one set. */
  lemma {:induction false} PrependAllMeaning(prop: Props, defs: seq<Props>)
    ensures PrependAll(prop, defs).kind == prop.kind
    ensures PrependAll(prop, defs).list == ListsReversed(prop.kind, defs) + prop.list
    ensures PrependAll(prop, defs).scalar == if prop.scalar.Some? then prop.scalar else FirstScalar(prop.kind, defs)
  {
    if defs != [] {
      var init, d := defs[..|defs| - 1], defs[|defs| - 1];
      assert defs == init + [d];
      PrependAllMeaning(prop, init);
      ListsReversedSnoc(prop.kind, init, d);
    }
  }

  /*** The list of defaults modules ***/

  /** What the mutator looks at: the graph, which modules are android modules and which of those
      are defaults modules. */
  datatype World = World(g: Graph<Tag>, android: nat -> bool, isDefaults: nat -> bool) {
    ghost predicate Ok() { Acyclic(g) }

    /** The edges that lead to another defaults module. */
    predicate Inherits(e: Edge<Tag>) {
      e.tag.DefaultsDepTag? && android(e.child) && isDefaults(e.child)
    }

    /** len(defaults().Defaults) > 0: defaultsDepsMutator adds one such edge per name. */
    predicate HasDefaults(m: nat)
      requires m < |g|
    {
      exists i :: 0 <= i < |g[m]| && g[m][i].tag.DefaultsDepTag?
    }

    /** The visitor of defaultsMutator; `seen` is the set of the elements of defaultsList. */
    function Visit(defaultsList: seq<nat>, path: seq<nat>, e: Edge<Tag>): (seq<nat>, bool) {
      if e.tag.DefaultsDepTag? && isDefaults(e.child) && e.child !in defaultsList then
        (defaultsList + [e.child], e.child < |g| && HasDefaults(e.child))
      else
        (defaultsList, false)
    }
  }

  /** The full pre-order of inherited defaults, without any pruning: a defaults module appears once
      for every path that leads to it. */
  ghost function TreeOrder(w: World, m: nat, k: nat): seq<nat>
    requires w.Ok() && m < |w.g| && k <= |w.g[m]|
    decreases m, |w.g[m]| - k
  {
    if k == |w.g[m]| then [] else
      var e := w.g[m][k];
      (if w.Inherits(e) then [e.child] + TreeOrder(w, e.child, 0) else []) + TreeOrder(w, m, k + 1)
  }

  lemma {:induction false} TreeOrderIsReached(w: World, m: nat, k: nat)
    requires w.Ok() && m < |w.g| && k <= |w.g[m]|
    ensures forall x :: x in TreeOrder(w, m, k) <==> x in Reached(w.g, e => w.Inherits(e), m, k)
    ensures forall x :: x in TreeOrder(w, m, k) ==> x < m
    decreases m, |w.g[m]| - k
  {
    if k < |w.g[m]| {
      TreeOrderIsReached(w, m, k + 1);
      if w.Inherits(w.g[m][k]) {
        TreeOrderIsReached(w, w.g[m][k].child, 0);
      }
    }
  }

  lemma {:induction false} FirstUniqueSkip<T(!new)>(a: seq<T>, b: seq<T>, c: seq<T>)
    requires forall x :: x in b ==> x in a
    ensures FirstUnique(a + b + c) == FirstUnique(a + c)
  {
    if c != [] {
      var init, last := c[..|c| - 1], c[|c| - 1];
      assert (a + b + c)[..|a + b + c| - 1] == a + b + init;
      assert (a + c)[..|a + c| - 1] == a + init;
      FirstUniqueSkip(a, b, init);
    } else if b != [] {
      var init, last := b[..|b| - 1], b[|b| - 1];
      assert (a + b + c)[..|a + b + c| - 1] == a + init + c;
      FirstUniqueSkip(a, init, c);
    } else {
      assert a + b + c == a + c;
    }
  }

  lemma {:induction false} FirstUniqueAgain<T(!new)>(a: seq<T>, c: seq<T>)
    ensures FirstUnique(FirstUnique(a) + c) == FirstUnique(a + c)
  {
    FirstUniqueElements(a);
    if c == [] {
      NoDupFirstUnique(FirstUnique(a));
      assert FirstUnique(a) + c == FirstUnique(a) && a + c == a;
    } else {
      var init := c[..|c| - 1];
      var l, r := FirstUnique(a) + c, a + c;
      assert l[..|l| - 1] == FirstUnique(a) + init && r[..|r| - 1] == a + init;
      FirstUniqueAgain(a, init);
    }
  }

  lemma {:induction false} NoDupFirstUnique<T(!new)>(a: seq<T>)
    requires NoDup(a)
    ensures FirstUnique(a) == a
  {
    if a != [] {
      NoDupFirstUnique(a[..|a| - 1]);
      assert a == a[..|a| - 1] + [a[|a| - 1]];
    }
  }

  /** Defaults modules below m that are in the list have everything they inherit in the list. */
  ghost predicate ClosedBelow(w: World, list: seq<nat>, m: nat)
    requires w.Ok()
  {
    forall x :: x in list && x < m && x < |w.g| ==> forall y :: y in TreeOrder(w, x, 0) ==> y in list
  }

  /** r is `list` followed by the modules of the full pre-order that are new, at their first visit. */
  ghost predicate FirstVisits(w: World, m: nat, k: nat, list: seq<nat>, r: seq<nat>)
    requires w.Ok() && m < |w.g| && k <= |w.g[m]|
  {
    && r == FirstUnique(list + TreeOrder(w, m, k)) && NoDup(r) && ClosedBelow(w, r, m)
    && forall x :: x in r <==> x in list || x in TreeOrder(w, m, k)
  }

  lemma {:induction false} NothingInherited(w: World, path: seq<nat>, k: nat, list: seq<nat>)
    requires w.Ok() && |path| > 0 && path[|path| - 1] < |w.g| && k <= |w.g[path[|path| - 1]]|
    requires !w.HasDefaults(path[|path| - 1])
    ensures Walk(w.g, w.android, w.Visit, path, k, list) == list
    decreases |w.g[path[|path| - 1]]| - k
  {
    if k < |w.g[path[|path| - 1]]| {
      assert !w.g[path[|path| - 1]][k].tag.DefaultsDepTag?;
      NothingInherited(w, path, k + 1, list);
    }
  }

  /** Cutting the walk at modules already seen loses nothing: the list is the full pre-order with
      only the first visit of each module kept. */
  lemma {:induction false} WalkIsFirstVisits(w: World, path: seq<nat>, k: nat, list: seq<nat>)
    requires w.Ok() && |path| > 0 && path[|path| - 1] < |w.g| && k <= |w.g[path[|path| - 1]]|
    requires NoDup(list) && ClosedBelow(w, list, path[|path| - 1])
    ensures var m := path[|path| - 1];
            FirstVisits(w, m, k, list, Walk(w.g, w.android, w.Visit, path, k, list))
    decreases path[|path| - 1], |w.g[path[|path| - 1]]| - k
  {
    var m := path[|path| - 1];
    FirstUniqueElements(list + TreeOrder(w, m, k));
    if k == |w.g[m]| {
      NoDupFirstUnique(list);
      assert list + [] == list;
    } else {
      var e := w.g[m][k];
      var rest := TreeOrder(w, m, k + 1);
      if !w.Inherits(e) {
        assert TreeOrder(w, m, k) == rest;
        WalkIsFirstVisits(w, path, k + 1, list);
      } else {
        var below := TreeOrder(w, e.child, 0);
        assert list + TreeOrder(w, m, k) == list + ([e.child] + below) + rest;
        if e.child in list {
          FirstUniqueSkip(list, [e.child] + below, rest);
          WalkIsFirstVisits(w, path, k + 1, list);
        } else {
          WalkIntoChild(w, path, k, list);
        }
      }
    }
  }

  /** One step of the walk that enters a new defaults module. */
  lemma WalkEnters(w: World, path: seq<nat>, k: nat, list: seq<nat>)
    requires w.Ok() && |path| > 0 && path[|path| - 1] < |w.g| && k < |w.g[path[|path| - 1]]|
    requires w.Inherits(w.g[path[|path| - 1]][k]) && w.g[path[|path| - 1]][k].child !in list
    ensures var c := w.g[path[|path| - 1]][k].child;
            Walk(w.g, w.android, w.Visit, path, k, list) ==
            Walk(w.g, w.android, w.Visit, path, k + 1,
                 Walk(w.g, w.android, w.Visit, path + [c], 0, list + [c]))
  {
    var c := w.g[path[|path| - 1]][k].child;
    if !w.HasDefaults(c) {
      NothingInherited(w, path + [c], 0, list + [c]);
    }
  }

  lemma ClosedAfterChild(w: World, list: seq<nat>, c: nat, s2: seq<nat>, m: nat)
    requires w.Ok() && c < m <= |w.g| && ClosedBelow(w, list, m) && ClosedBelow(w, s2, c)
    requires forall x :: x in s2 <==> x in list || x == c || x in TreeOrder(w, c, 0)
    ensures ClosedBelow(w, s2, m)
  {
    TreeOrderIsReached(w, c, 0);
    forall x, y | x in s2 && x < m && x < |w.g| && y in TreeOrder(w, x, 0) ensures y in s2 {
      if x in list {
        assert y in list;
      } else if x != c {
        assert x < c;
      }
    }
  }

  lemma FirstVisitsCompose(w: World, m: nat, k: nat, list: seq<nat>, s2: seq<nat>, r: seq<nat>)
    requires w.Ok() && m < |w.g| && k < |w.g[m]| && w.Inherits(w.g[m][k])
    requires FirstVisits(w, w.g[m][k].child, 0, list + [w.g[m][k].child], s2)
    requires FirstVisits(w, m, k + 1, s2, r)
    ensures FirstVisits(w, m, k, list, r)
  {
    var c := w.g[m][k].child;
    var below, rest := TreeOrder(w, c, 0), TreeOrder(w, m, k + 1);
    FirstUniqueAgain(list + [c] + below, rest);
    assert list + TreeOrder(w, m, k) == list + [c] + below + rest;
  }

  lemma {:induction false} WalkIntoChild(w: World, path: seq<nat>, k: nat, list: seq<nat>)
    requires w.Ok() && |path| > 0 && path[|path| - 1] < |w.g| && k < |w.g[path[|path| - 1]]|
    requires NoDup(list) && ClosedBelow(w, list, path[|path| - 1])
    requires w.Inherits(w.g[path[|path| - 1]][k]) && w.g[path[|path| - 1]][k].child !in list
    ensures var m := path[|path| - 1];
            FirstVisits(w, m, k, list, Walk(w.g, w.android, w.Visit, path, k, list))
    decreases path[|path| - 1], |w.g[path[|path| - 1]]| - k, 0
  {
    var m := path[|path| - 1];
    var c := w.g[m][k].child;
    var inner, grown := path + [c], list + [c];
    var s2 := Walk(w.g, w.android, w.Visit, inner, 0, grown);
    WalkEnters(w, path, k, list);
    WalkIsFirstVisits(w, inner, 0, grown);
    ClosedAfterChild(w, list, c, s2, m);
    WalkIsFirstVisits(w, path, k + 1, s2);
    FirstVisitsCompose(w, m, k, list, s2, Walk(w.g, w.android, w.Visit, path, k + 1, s2));
  }

  /** The defaults that module m inherits, in the order in which they are applied. */
  ghost function DefaultsList(w: World, m: nat): (r: seq<nat>)
    requires w.Ok() && m < |w.g|
    ensures Below(r, m)
  {
    TreeOrderIsReached(w, m, 0);
    FirstUniqueElements(TreeOrder(w, m, 0));
    var r := FirstUnique(TreeOrder(w, m, 0));
    assert forall i :: 0 <= i < |r| ==> r[i] in r;
    r
  }

  /** Every defaults module reachable over defaults edges is applied, and only once however many
      paths lead to it. */
  lemma DefaultsListCorrect(w: World, m: nat)
    requires w.Ok() && m < |w.g|
    ensures NoDup(DefaultsList(w, m))
    ensures forall x :: x in DefaultsList(w, m) <==> Reaches(w.g, e => w.Inherits(e), m, x)
  {
    TreeOrderIsReached(w, m, 0);
    FirstUniqueElements(TreeOrder(w, m, 0));
    ReachedIsReaches(w.g, e => w.Inherits(e), m);
  }

  /*** Applying the list ***/

  class DefaultableModule {
    var properties: seq<Props>

    constructor (props: seq<Props>)
      ensures properties == props
    {
      properties := props;
    }
  }

  lemma {:induction false} PrependAllAppend(prop: Props, a: seq<Props>, b: seq<Props>)
    ensures PrependAll(prop, a + b) == PrependAll(PrependAll(prop, a), b)
  {
    if b == [] {
      assert a + b == a;
    } else {
      assert (a + b)[..|a + b| - 1] == a + b[..|b| - 1];
      PrependAllAppend(prop, a, b[..|b| - 1]);
    }
  }

  /** The innermost loop of applyDefaults, for one property struct and one defaults module. */
  method Merge(prop: Props, defs: seq<Props>) returns (r: Props)
    ensures r == PrependAll(prop, defs)
  {
    r := prop;
    for i := 0 to |defs|
      invariant r == PrependAll(prop, defs[..i])
    {
      assert defs[..i + 1][..i] == defs[..i];
      if r.kind == defs[i].kind {
        r := Prepend(r, defs[i]);
      }
    }
    assert defs[..|defs|] == defs;
  }

  /** All property structs of the given defaults modules, in order. */
  ghost function AllProps(list: seq<DefaultableModule>): seq<Props>
    reads list
  {
    if list == [] then [] else AllProps(list[..|list| - 1]) + list[|list| - 1].properties
  }

  /** The structs of a module after all of `defs` were applied to each. */
  ghost function Merged(own: seq<Props>, defs: seq<Props>): seq<Props> {
    seq(|own|, i requires 0 <= i < |own| => PrependAll(own[i], defs))
  }

  lemma MergedAppend(own: seq<Props>, a: seq<Props>, b: seq<Props>)
    ensures Merged(own, a + b) == Merged(Merged(own, a), b)
  {
    forall i | 0 <= i < |own| ensures Merged(own, a + b)[i] == Merged(Merged(own, a), b)[i] {
      PrependAllAppend(own[i], a, b);
    }
  }

  /** One pass of the outer loop: every struct of m takes the structs of one defaults module. */
  method MergeOne(m: DefaultableModule, defs: seq<Props>)
    modifies m
    ensures m.properties == Merged(old(m.properties), defs)
  {
    for i := 0 to |m.properties|
      invariant |m.properties| == |old(m.properties)|
      invariant forall j :: 0 <= j < i ==> m.properties[j] == PrependAll(old(m.properties[j]), defs)
      invariant forall j :: i <= j < |m.properties| ==> m.properties[j] == old(m.properties[j])
    {
      var merged := Merge(m.properties[i], defs);
      m.properties := m.properties[i := merged];
    }
  }

  /** applyDefaults. */
  method ApplyDefaults(m: DefaultableModule, defaultsList: seq<DefaultableModule>)
    requires m !in defaultsList
    modifies m
    ensures m.properties == Merged(old(m.properties), old(AllProps(defaultsList)))
  {
    ghost var own := m.properties;
    assert Merged(own, []) == own;
    for i := 0 to |defaultsList|
      invariant m.properties == Merged(own, old(AllProps(defaultsList[..i])))
      invariant forall d :: d in defaultsList ==> d.properties == old(d.properties)
    {
      var defs := defaultsList[i].properties;
      MergedAppend(own, old(AllProps(defaultsList[..i])), defs);
      assert defaultsList[..i + 1][..i] == defaultsList[..i];
      MergeOne(m, defs);
    }
    assert defaultsList[..|defaultsList|] == defaultsList;
  }

  /*** The mutator over the whole graph ***/

  ghost function PropsOf(props: seq<seq<Props>>, list: seq<nat>): seq<Props>
    requires Below(list, |props|)
  {
    if list == [] then [] else PropsOf(props, list[..|list| - 1]) + props[list[|list| - 1]]
  }

  /** What module m's structs must become, given the structs that the modules were written with. */
  ghost function Expected(w: World, props: seq<seq<Props>>, m: nat): seq<Props>
    requires w.Ok() && m < |w.g| == |props|
  {
    Merged(props[m], PropsOf(props, DefaultsList(w, m)))
  }

  ghost function Snapshot(mods: seq<DefaultableModule>): seq<seq<Props>>
    reads mods
  {
    seq(|mods|, i requires 0 <= i < |mods| reads mods => mods[i].properties)
  }

  method Select(mods: seq<DefaultableModule>, ids: seq<nat>) returns (r: seq<DefaultableModule>)
    requires Below(ids, |mods|)
    ensures |r| == |ids| && forall i :: 0 <= i < |ids| ==> r[i] == mods[ids[i]]
  {
    r := seq(|ids|, i requires 0 <= i < |ids| => mods[ids[i]]);
  }

  lemma {:induction false} AllPropsIsPropsOf(mods: seq<DefaultableModule>, ids: seq<nat>, list: seq<DefaultableModule>)
    requires Below(ids, |mods|) && |list| == |ids| && forall i :: 0 <= i < |ids| ==> list[i] == mods[ids[i]]
    ensures AllProps(list) == PropsOf(Snapshot(mods), ids)
  {
    if ids != [] {
      AllPropsIsPropsOf(mods, ids[..|ids| - 1], list[..|list| - 1]);
    }
  }

  lemma WalkFromStart(w: World, m: nat)
    requires w.Ok() && m < |w.g|
    ensures Walk(w.g, w.android, w.Visit, [m], 0, []) == DefaultsList(w, m)
  {
    WalkIsFirstVisits(w, [m], 0, []);
    assert [] + TreeOrder(w, m, 0) == TreeOrder(w, m, 0);
  }

  /** defaultsMutator on module m. */
  method DefaultsMutator(w: World, mods: seq<DefaultableModule>, m: nat)
    requires w.Ok() && m < |w.g| == |mods| && NoDup(mods)
    modifies mods[m]
    ensures mods[m].properties == old(Expected(w, Snapshot(mods), m))
  {
    var ctx := new BaseModuleContext<seq<nat>>([]);
    WalkFromStart(w, m);
    if w.HasDefaults(m) {
      ctx.WalkDeps(w.g, w.android, w.Visit, m);
      var list := Select(mods, ctx.state);
      AllPropsIsPropsOf(mods, ctx.state, list);
      ApplyDefaults(mods[m], list);
    } else {
      NothingInherited(w, [m], 0, []);
      assert Merged(mods[m].properties, []) == mods[m].properties;
    }
  }

  /** A top-down schedule: every module once, each before its dependencies. */
  ghost predicate TopDown(g: Graph<Tag>, schedule: seq<nat>) {
    && Below(schedule, |g|) && NoDup(schedule)
    && (forall m :: 0 <= m < |g| ==> m in schedule)
    && forall k, i :: 0 <= k < |schedule| && 0 <= i < |g[schedule[k]]| ==>
         g[schedule[k]][i].child !in schedule[..k]
  }

  /** What a module inherits has not been through the mutator when the module is. */
  lemma {:induction false} InheritedNotYetRun(w: World, schedule: seq<nat>, k: nat, i: nat)
    requires w.Ok() && TopDown(w.g, schedule) && k < |schedule| && i <= |w.g[schedule[k]]|
    ensures forall x :: x in TreeOrder(w, schedule[k], i) ==> x !in schedule[..k]
    decreases schedule[k], |w.g[schedule[k]]| - i
  {
    var m := schedule[k];
    if i < |w.g[m]| {
      InheritedNotYetRun(w, schedule, k, i + 1);
      var e := w.g[m][i];
      if w.Inherits(e) {
        assert e.child in schedule;
        var j :| 0 <= j < |schedule| && schedule[j] == e.child;
        assert j >= k;
        InheritedNotYetRun(w, schedule, j, 0);
        assert forall x :: x in schedule[..k] ==> x in schedule[..j];
      }
    }
  }

  lemma NotYetRun(w: World, schedule: seq<nat>, k: nat)
    requires w.Ok() && TopDown(w.g, schedule) && k < |schedule|
    ensures schedule[k] < |w.g| && schedule[k] !in schedule[..k]
    ensures forall x :: x in TreeOrder(w, schedule[k], 0) ==> x !in schedule[..k]
  {
    InheritedNotYetRun(w, schedule, k, 0);
  }

  lemma {:induction false} PropsOfAgree(p: seq<seq<Props>>, q: seq<seq<Props>>, list: seq<nat>)
    requires |p| == |q| && Below(list, |p|) && forall x :: x in list ==> p[x] == q[x]
    ensures PropsOf(p, list) == PropsOf(q, list)
  {
    if list != [] {
      PropsOfAgree(p, q, list[..|list| - 1]);
    }
  }

  /** The modules in `done` have been through the mutator, the others have not. */
  ghost predicate PartlyRun(w: World, mods: seq<DefaultableModule>, props: seq<seq<Props>>, done: seq<nat>)
    requires w.Ok() && |w.g| == |mods| == |props|
    reads mods
  {
    forall m :: 0 <= m < |mods| ==>
      mods[m].properties == if m in done then Expected(w, props, m) else props[m]
  }

  method RunOne(w: World, mods: seq<DefaultableModule>, ghost props: seq<seq<Props>>, ghost done: seq<nat>, m: nat)
    requires w.Ok() && |w.g| == |mods| == |props| && m < |mods| && NoDup(mods)
    requires PartlyRun(w, mods, props, done) && m !in done
    requires forall x :: x in TreeOrder(w, m, 0) ==> x !in done
    modifies mods[m]
    ensures PartlyRun(w, mods, props, done + [m])
  {
    FirstUniqueElements(TreeOrder(w, m, 0));
    PropsOfAgree(Snapshot(mods), props, DefaultsList(w, m));
    forall x | 0 <= x < |mods| && x != m ensures mods[x] != mods[m] {}
    DefaultsMutator(w, mods, m);
  }

  /** The "defaults" mutator over the whole graph, in any top-down order: every module ends as its
      own properties with the original properties of everything it inherits. */
  method RunDefaults(w: World, mods: seq<DefaultableModule>, schedule: seq<nat>)
    requires w.Ok() && |w.g| == |mods| && NoDup(mods) && TopDown(w.g, schedule)
    modifies mods
    ensures var props := old(Snapshot(mods));
            forall m :: 0 <= m < |mods| ==> mods[m].properties == Expected(w, props, m)
  {
    ghost var props := Snapshot(mods);
    for k := 0 to |schedule|
      invariant PartlyRun(w, mods, props, schedule[..k])
    {
      var m := schedule[k];
      NotYetRun(w, schedule, k);
      TakeNext(schedule, k);
      RunOne(w, mods, props, schedule[..k], m);
    }
    assert schedule[..|schedule|] == schedule;
    forall m | 0 <= m < |mods| ensures mods[m].properties == Expected(w, props, m) {
      assert m in schedule;
    }
  }

  /** Each property struct of a module, once the mutator has run everywhere: its list is the
      original lists of all inherited defaults, the first visited last, and then its own; its scalar
      is its own or else that of the first visited defaults module that sets it. */
  lemma ExpectedMeaning(w: World, props: seq<seq<Props>>, m: nat, i: nat)
    requires w.Ok() && m < |w.g| == |props| && i < |props[m]|
    ensures var own, inherited := props[m][i], PropsOf(props, DefaultsList(w, m));
            var r := Expected(w, props, m)[i];
            && r.kind == own.kind
            && r.list == ListsReversed(own.kind, inherited) + own.list
            && r.scalar == if own.scalar.Some? then own.scalar else FirstScalar(own.kind, inherited)
  {
    PrependAllMeaning(props[m][i], PropsOf(props, DefaultsList(w, m)));
  }
}
