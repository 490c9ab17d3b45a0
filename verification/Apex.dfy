/** Marking what goes into APEX bundles: apexDepsMutator and apexMutator of apex/apex.go, and the
    bookkeeping they use in android/apex.go. */
module Apex {
  import opened Unique
  import opened DepGraph
  import opened Options
  import opened Lex

  datatype Bundle = Bundle(name: string, installable: bool, testApex: bool)

  /** The marks: `variations[m]` is module m's apexVariations, `names` the map apexNamesMap() from
      module name and APEX name to "depended on directly". */
  datatype Marks = Marks(variations: map<nat, seq<string>>, names: map<string, map<string, bool>>)

  function Variations(s: Marks, m: nat): seq<string> {
    if m in s.variations then s.variations[m] else []
  }

  ghost predicate InApex(s: Marks, mod: string, apex: string) {
    mod in s.names && apex in s.names[mod]
  }

  /** DirectlyInApex */
  predicate DirectlyInApex(s: Marks, apex: string, mod: string) {
    mod in s.names && apex in s.names[mod] && s.names[mod][apex]
  }

  /** Module m built for one more APEX. */
  function WithVariation(s: Marks, m: nat, apex: string): Marks {
    if apex in Variations(s, m) then s
    else s.(variations := s.variations[m := Variations(s, m) + [apex]])
  }

  /** Module mod listed for an APEX, directly or not. */
  function WithDependency(s: Marks, apex: string, mod: string, directDep: bool): Marks {
    var apexNames := if mod in s.names then s.names[mod] else map[];
    s.(names := s.names[mod := apexNames[apex := DirectlyInApex(s, apex, mod) || directDep]])
  }

  /** `bundle(m)` is Some when m is an apexBundle; `canVary(m)` is CanHaveApexVariants() and false for
      modules, such as bundles, that are not ApexModules. */
  datatype World = World(g: Graph<()>, android: nat -> bool, name: nat -> string,
                         bundle: nat -> Option<Bundle>, canVary: nat -> bool)
  {
    ghost predicate Ok() {
      Acyclic(g) && forall m :: bundle(m).Some? ==> !canVary(m)
    }

    /** The edges along which the walk goes on, and all edges it looks at. */
    predicate Enters(e: Edge<()>) { android(e.child) && canVary(e.child) }
    predicate Sees(e: Edge<()>) { android(e.child) }

    /** The visitor of apexDepsMutator for bundle a. */
    function Visit(a: Bundle): Visitor<Marks, ()> {
      (s: Marks, path: seq<nat>, e: Edge<()>) =>
        var directDep := |path| > 1 && bundle(path[|path| - 2]).Some?;
        var s1 := Report(a, s, e.child, directDep);
        if canVary(e.child) then (WithVariation(s1, e.child, a.name), true) else (s1, false)
    }

    function Report(a: Bundle, s: Marks, d: nat, directDep: bool): Marks {
      if a.installable && !a.testApex then WithDependency(s, a.name, name(d), directDep) else s
    }
  }

  /*** One bundle ***/

  /** The modules that the walk calls the visitor for, from the edges of m with index at least k. */
  ghost function Seen(w: World, m: nat, k: nat): set<nat>
    requires w.Ok() && m < |w.g| && k <= |w.g[m]|
    decreases m, |w.g[m]| - k
  {
    if k == |w.g[m]| then {} else
      var e := w.g[m][k];
      (if !w.Sees(e) then {} else {e.child} + (if w.Enters(e) then Seen(w, e.child, 0) else {})) + Seen(w, m, k + 1)
  }

  /** The direct dependencies of m among those. */
  ghost function SeenDirect(w: World, m: nat, k: nat): set<nat>
    requires m < |w.g| && k <= |w.g[m]|
    decreases |w.g[m]| - k
  {
    if k == |w.g[m]| then {} else
      (if w.Sees(w.g[m][k]) then {w.g[m][k].child} else {}) + SeenDirect(w, m, k + 1)
  }

  /** r is s with the dependencies `built`, `seen` and `direct` recorded for bundle a. */
  ghost predicate Recorded(w: World, a: Bundle, s: Marks, r: Marks, built: set<nat>, seen: set<nat>, direct: set<nat>) {
    && (forall m, x :: x in Variations(r, m) <==> x in Variations(s, m) || (x == a.name && m in built))
    && (forall m :: NoDup(Variations(s, m)) ==> NoDup(Variations(r, m)))
    && (forall mod, x :: InApex(r, mod, x) <==>
          InApex(s, mod, x) || (x == a.name && a.installable && !a.testApex && Named(w, seen, mod)))
    && (forall mod, x :: DirectlyInApex(r, x, mod) <==>
          DirectlyInApex(s, x, mod) || (x == a.name && a.installable && !a.testApex && Named(w, direct, mod)))
  }

  ghost predicate Named(w: World, ds: set<nat>, mod: string) {
    exists d :: d in ds && w.name(d) == mod
  }

  lemma RecordedReport(w: World, a: Bundle, s: Marks, d: nat, directDep: bool)
    ensures Recorded(w, a, s, w.Report(a, s, d, directDep), {}, {d}, if directDep then {d} else {})
  {
    var r := w.Report(a, s, d, directDep);
    assert forall m :: Variations(r, m) == Variations(s, m);
    forall mod: string
      ensures Named(w, {d}, mod) <==> w.name(d) == mod
      ensures !Named(w, {}, mod)
    {
      assert d in {d};
    }
  }

  lemma RecordedBuild(w: World, a: Bundle, s: Marks, d: nat)
    ensures Recorded(w, a, s, WithVariation(s, d, a.name), {d}, {}, {})
  {
    var r := WithVariation(s, d, a.name);
    assert forall m :: m != d ==> Variations(r, m) == Variations(s, m);
  }

  lemma RecordedNothing(w: World, a: Bundle, s: Marks)
    ensures Recorded(w, a, s, s, {}, {}, {})
  {}

  lemma RecordedUnion(w: World, a: Bundle, s: Marks, t: Marks, r: Marks,
                      b1: set<nat>, s1: set<nat>, d1: set<nat>, b2: set<nat>, s2: set<nat>, d2: set<nat>)
    requires Recorded(w, a, s, t, b1, s1, d1) && Recorded(w, a, t, r, b2, s2, d2)
    ensures Recorded(w, a, s, r, b1 + b2, s1 + s2, d1 + d2)
  {
    forall mod: string
      ensures Named(w, s1 + s2, mod) <==> Named(w, s1, mod) || Named(w, s2, mod)
      ensures Named(w, d1 + d2, mod) <==> Named(w, d1, mod) || Named(w, d2, mod)
    {
      NamedUnion(w, s1, s2, mod);
      NamedUnion(w, d1, d2, mod);
    }
  }

  lemma NamedUnion(w: World, a: set<nat>, b: set<nat>, mod: string)
    ensures Named(w, a + b, mod) <==> Named(w, a, mod) || Named(w, b, mod)
  {}

  /** What a visit does: report the child, and mark it if it can be built for an APEX. */
  lemma VisitIs(w: World, a: Bundle, s: Marks, path: seq<nat>, e: Edge<()>)
    requires |path| > 1
    ensures var t := w.Report(a, s, e.child, w.bundle(path[|path| - 2]).Some?);
            w.Visit(a)(s, path, e) ==
            if w.canVary(e.child) then (WithVariation(t, e.child, a.name), true) else (t, false)
  {}

  lemma RecordedEnter(w: World, a: Bundle, s: Marks, d: nat, directDep: bool)
    ensures var r := WithVariation(w.Report(a, s, d, directDep), d, a.name);
            Recorded(w, a, s, r, {d}, {d}, if directDep then {d} else {})
  {
    var t := w.Report(a, s, d, directDep);
    var direct := if directDep then {d} else {};
    RecordedReport(w, a, s, d, directDep);
    RecordedBuild(w, a, t, d);
    RecordedUnion(w, a, s, t, WithVariation(t, d, a.name), {}, {d}, direct, {d}, {}, {});
    assert {} + {d} == {d} && {d} + {} == {d} && direct + {} == direct;
  }

  /** The whole walk from a bundle, and from any module below it. */
  lemma {:induction false} WalkRecords(w: World, a: Bundle, path: seq<nat>, k: nat, s: Marks)
    requires w.Ok() && |path| > 0 && path[|path| - 1] < |w.g| && k <= |w.g[path[|path| - 1]]|
    ensures var m := path[|path| - 1];
            Recorded(w, a, s, Walk(w.g, w.android, w.Visit(a), path, k, s),
                     Reached(w.g, w.Enters, m, k), Seen(w, m, k),
                     if w.bundle(m).Some? then SeenDirect(w, m, k) else {})
    decreases path[|path| - 1], |w.g[path[|path| - 1]]| - k
  {
    var m := path[|path| - 1];
    if k == |w.g[m]| {
      RecordedNothing(w, a, s);
    } else if !w.Sees(w.g[m][k]) {
      WalkRecords(w, a, path, k + 1, s);
      assert {} + Reached(w.g, w.Enters, m, k + 1) == Reached(w.g, w.Enters, m, k + 1);
      assert {} + Seen(w, m, k + 1) == Seen(w, m, k + 1);
      assert {} + SeenDirect(w, m, k + 1) == SeenDirect(w, m, k + 1);
    } else {
      var s2 := AfterEdge(w, a, path, w.g[m][k], s);
      EdgeRecords(w, a, path, k, s);
      WalkUnfold(w, a, path, k, s);
      WalkRecords(w, a, path, k + 1, s2);
      RecordedUnion(w, a, s, s2, Walk(w.g, w.android, w.Visit(a), path, k + 1, s2),
                    BuiltBy(w, w.g[m][k]), SeenBy(w, w.g[m][k]), if w.bundle(m).Some? then {w.g[m][k].child} else {},
                    Reached(w.g, w.Enters, m, k + 1), Seen(w, m, k + 1),
                    if w.bundle(m).Some? then SeenDirect(w, m, k + 1) else {});
    }
  }

  /** The marks after the walk has dealt with the edge e of the last module of `path`. */
  ghost function AfterEdge(w: World, a: Bundle, path: seq<nat>, e: Edge<()>, s: Marks): Marks
    requires w.Ok() && e.child < |w.g|
  {
    var (s1, recurse) := w.Visit(a)(s, path + [e.child], e);
    if recurse then Walk(w.g, w.android, w.Visit(a), path + [e.child], 0, s1) else s1
  }

  lemma WalkUnfold(w: World, a: Bundle, path: seq<nat>, k: nat, s: Marks)
    requires w.Ok() && |path| > 0 && path[|path| - 1] < |w.g| && k < |w.g[path[|path| - 1]]|
    requires w.Sees(w.g[path[|path| - 1]][k])
    ensures Walk(w.g, w.android, w.Visit(a), path, k, s) ==
            Walk(w.g, w.android, w.Visit(a), path, k + 1, AfterEdge(w, a, path, w.g[path[|path| - 1]][k], s))
  {}

  ghost function BuiltBy(w: World, e: Edge<()>): set<nat>
    requires w.Ok() && e.child < |w.g|
  {
    if w.Enters(e) then {e.child} + Reached(w.g, w.Enters, e.child, 0) else {}
  }

  ghost function SeenBy(w: World, e: Edge<()>): set<nat>
    requires w.Ok() && e.child < |w.g|
  {
    {e.child} + if w.Enters(e) then Seen(w, e.child, 0) else {}
  }

  lemma {:induction false} EdgeRecords(w: World, a: Bundle, path: seq<nat>, k: nat, s: Marks)
    requires w.Ok() && |path| > 0 && path[|path| - 1] < |w.g| && k < |w.g[path[|path| - 1]]|
    requires w.Sees(w.g[path[|path| - 1]][k])
    ensures var e := w.g[path[|path| - 1]][k];
            Recorded(w, a, s, AfterEdge(w, a, path, e, s), BuiltBy(w, e), SeenBy(w, e),
                     if w.bundle(path[|path| - 1]).Some? then {e.child} else {})
    decreases path[|path| - 1], |w.g[path[|path| - 1]]| - k, 0
  {
    var m := path[|path| - 1];
    var e := w.g[m][k];
    var inner := path + [e.child];
    var (s1, recurse) := w.Visit(a)(s, inner, e);
    var direct := if w.bundle(m).Some? then {e.child} else {};
    VisitIs(w, a, s, inner, e);
    assert direct + {} == direct && {e.child} + {} == {e.child};
    if !recurse {
      RecordedReport(w, a, s, e.child, w.bundle(m).Some?);
    } else {
      RecordedEnter(w, a, s, e.child, w.bundle(m).Some?);
      WalkRecords(w, a, inner, 0, s1);
      RecordedUnion(w, a, s, s1, AfterEdge(w, a, path, e, s), {e.child}, {e.child}, direct,
                    Reached(w.g, w.Enters, e.child, 0), Seen(w, e.child, 0), {});
    }
  }

  /*** Whole runs ***/

  /** The walk from bundle b looks at d: some module that it enters, or b itself, depends on d. */
  ghost predicate Visits(w: World, b: nat, d: nat) {
    exists p :: (p == b || Reaches(w.g, w.Enters, b, p)) && Step(w.g, w.Sees, p, d)
  }

  lemma {:induction false} SeenFrom(w: World, m: nat, k: nat)
    requires w.Ok() && m < |w.g| && k <= |w.g[m]|
    ensures forall x :: x in Seen(w, m, k) ==> Visits(w, m, x)
    ensures forall i, x | k <= i < |w.g[m]| && w.Sees(w.g[m][i]) ::
              x == w.g[m][i].child || (w.Enters(w.g[m][i]) && Visits(w, w.g[m][i].child, x)) ==> x in Seen(w, m, k)
    decreases m, |w.g[m]| - k
  {
    if k < |w.g[m]| {
      var e := w.g[m][k];
      SeenFrom(w, m, k + 1);
      if w.Sees(e) {
        assert Step(w.g, w.Sees, m, e.child);
        if w.Enters(e) {
          SeenIsVisits(w, e.child);
          ReachesCons(w.g, w.Enters, m, e.child);
        }
      }
    }
  }

  lemma {:induction false} SeenIsVisits(w: World, m: nat)
    requires w.Ok() && m < |w.g|
    ensures forall x :: x in Seen(w, m, 0) <==> Visits(w, m, x)
    decreases m, |w.g[m]| + 1
  {
    SeenFrom(w, m, 0);
    forall x | Visits(w, m, x) ensures x in Seen(w, m, 0) {
      var p :| (p == m || Reaches(w.g, w.Enters, m, p)) && Step(w.g, w.Sees, p, x);
      if p != m {
        ReachesUncons(w.g, w.Enters, m, p);
        var b :| Step(w.g, w.Enters, m, b) && (b == p || Reaches(w.g, w.Enters, b, p));
        assert Visits(w, b, x);
      }
    }
  }

  lemma {:induction false} SeenDirectIsStep(w: World, m: nat, k: nat)
    requires m < |w.g| && k <= |w.g[m]|
    ensures forall x :: x in SeenDirect(w, m, k) <==>
                        exists i :: k <= i < |w.g[m]| && w.Sees(w.g[m][i]) && w.g[m][i].child == x
    decreases |w.g[m]| - k
  {
    if k < |w.g[m]| {
      SeenDirectIsStep(w, m, k + 1);
    }
  }

  /** Bundle b, which has the given name, is one of the scheduled modules. */
  ghost predicate Scheduled(w: World, schedule: seq<nat>, b: nat, apex: string) {
    b in schedule && w.bundle(b).Some? && w.bundle(b).value.name == apex
  }

  /** Bundles whose contents are recorded in the name map. */
  ghost predicate Counts(w: World, b: nat) {
    w.bundle(b).Some? && w.bundle(b).value.installable && !w.bundle(b).value.testApex
  }

  ghost predicate BuiltFor(w: World, schedule: seq<nat>, apex: string, d: nat) {
    exists b :: Scheduled(w, schedule, b, apex) && Reaches(w.g, w.Enters, b, d)
  }

  ghost predicate ListedFor(w: World, schedule: seq<nat>, apex: string, mod: string) {
    exists b, d :: Scheduled(w, schedule, b, apex) && Counts(w, b) && Visits(w, b, d) && w.name(d) == mod
  }

  ghost predicate DirectFor(w: World, schedule: seq<nat>, apex: string, mod: string) {
    exists b, d :: Scheduled(w, schedule, b, apex) && Counts(w, b) && Step(w.g, w.Sees, b, d) && w.name(d) == mod
  }

  /** The marks say exactly what the graph says. */
  ghost predicate MarksCorrect(w: World, schedule: seq<nat>, s: Marks) {
    && (forall d, x :: x in Variations(s, d) <==> BuiltFor(w, schedule, x, d))
    && (forall d :: NoDup(Variations(s, d)))
    && (forall mod, x :: InApex(s, mod, x) <==> ListedFor(w, schedule, x, mod))
    && (forall mod, x :: DirectlyInApex(s, x, mod) <==> DirectFor(w, schedule, x, mod))
  }

  /** What one more bundle adds to each of the three relations. */
  lemma OneMoreBundle(w: World, schedule: seq<nat>, m: nat)
    requires w.Ok() && m < |w.g| && w.bundle(m).Some?
    ensures var a := w.bundle(m).value; var next := schedule + [m];
            && (forall d, x :: BuiltFor(w, next, x, d) <==>
                  BuiltFor(w, schedule, x, d) || (x == a.name && d in Reached(w.g, w.Enters, m, 0)))
            && (forall mod, x :: ListedFor(w, next, x, mod) <==>
                  ListedFor(w, schedule, x, mod) || (x == a.name && Counts(w, m) && Named(w, Seen(w, m, 0), mod)))
            && (forall mod, x :: DirectFor(w, next, x, mod) <==>
                  DirectFor(w, schedule, x, mod) || (x == a.name && Counts(w, m) && Named(w, SeenDirect(w, m, 0), mod)))
  {
    var next := schedule + [m];
    ReachedIsReaches(w.g, w.Enters, m);
    SeenIsVisits(w, m);
    SeenDirectIsStep(w, m, 0);
    assert forall d :: d in SeenDirect(w, m, 0) <==> Step(w.g, w.Sees, m, d);
    assert forall b, x :: Scheduled(w, next, b, x) <==>
             Scheduled(w, schedule, b, x) || (b == m && x == w.bundle(m).value.name);
  }

  lemma NotABundle(w: World, schedule: seq<nat>, m: nat, s: Marks)
    requires w.bundle(m).None? && MarksCorrect(w, schedule, s)
    ensures MarksCorrect(w, schedule + [m], s)
  {
    assert forall b, x :: Scheduled(w, schedule + [m], b, x) <==> Scheduled(w, schedule, b, x);
    forall d: nat, x: string ensures BuiltFor(w, schedule + [m], x, d) <==> BuiltFor(w, schedule, x, d) {}
    forall mod: string, x: string
      ensures ListedFor(w, schedule + [m], x, mod) <==> ListedFor(w, schedule, x, mod)
      ensures DirectFor(w, schedule + [m], x, mod) <==> DirectFor(w, schedule, x, mod)
    {}
  }

  /** CreateApexVariations: the variant names of module d, the platform variant first; None when the
      module is not split. */
  function ApexVariations(s: Marks, d: nat): Option<seq<string>> {
    if |Variations(s, d)| == 0 then None else Some([""] + Sort(Variations(s, d)))
  }

  /** Each module that a bundle reaches through variant-capable modules gets exactly one variant for
      that bundle, and the variants come in strictly increasing order. */
  lemma ApexVariationsCorrect(w: World, schedule: seq<nat>, s: Marks, d: nat)
    requires MarksCorrect(w, schedule, s)
    ensures ApexVariations(s, d).None? <==> forall x :: !BuiltFor(w, schedule, x, d)
    ensures ApexVariations(s, d).Some? ==>
              var v := ApexVariations(s, d).value;
              && v[0] == "" && StrictlySorted(v[1..])
              && forall x :: x in v[1..] <==> BuiltFor(w, schedule, x, d)
  {
    var vars := Variations(s, d);
    SortElements(vars);
    SortSorted(vars);
    assert forall x :: x in Sort(vars) <==> x in multiset(Sort(vars));
    assert forall x :: x in vars <==> x in multiset(vars);
    if |vars| == 0 {
      assert forall x :: x !in vars;
    } else {
      assert vars[0] in vars;
      NoDupSort(vars);
      SortedNoDupIsStrict(Sort(vars));
      assert ([""] + Sort(vars))[1..] == Sort(vars);
    }
  }

  /** Nothing depends on the order in which bundles ran: neither the variants nor the name map. */
  lemma OrderIndependent(w: World, a: seq<nat>, b: seq<nat>, sa: Marks, sb: Marks)
    requires MarksCorrect(w, a, sa) && MarksCorrect(w, b, sb)
    requires forall m :: m in a <==> m in b
    ensures forall d :: ApexVariations(sa, d) == ApexVariations(sb, d)
    ensures forall mod, x :: InApex(sa, mod, x) <==> InApex(sb, mod, x)
    ensures forall mod, x :: DirectlyInApex(sa, x, mod) <==> DirectlyInApex(sb, x, mod)
  {
    assert forall m, x :: Scheduled(w, a, m, x) <==> Scheduled(w, b, m, x);
    forall d: nat, x: string ensures BuiltFor(w, a, x, d) <==> BuiltFor(w, b, x, d) {}
    forall mod: string, x: string
      ensures ListedFor(w, a, x, mod) <==> ListedFor(w, b, x, mod)
      ensures DirectFor(w, a, x, mod) <==> DirectFor(w, b, x, mod)
    {}
    forall d: nat ensures ApexVariations(sa, d) == ApexVariations(sb, d) {
      ApexVariationsCorrect(w, a, sa, d);
      ApexVariationsCorrect(w, b, sb, d);
      if ApexVariations(sa, d).Some? {
        var va, vb := ApexVariations(sa, d).value, ApexVariations(sb, d).value;
        StrictlySortedUnique(va[1..], vb[1..]);
        assert va == [""] + va[1..] && vb == [""] + vb[1..];
      }
    }
  }

  /** The fields that the mutators update: apexVariations of every module, and the global map
      apexNamesMap(). */
  class ApexData {
    var apexVariations: map<nat, seq<string>>
    var apexNamesMap: map<string, map<string, bool>>

    ghost function View(): Marks
      reads this
    {
      Marks(apexVariations, apexNamesMap)
    }

    constructor ()
      ensures View() == Marks(map[], map[])
    {
      apexVariations, apexNamesMap := map[], map[];
    }

    method BuildForApex(m: nat, apexName: string)
      modifies `apexVariations
      ensures View() == WithVariation(old(View()), m, apexName)
      ensures apexName in Variations(View(), m) && old(Variations(View(), m)) <= Variations(View(), m)
      ensures old(NoDup(Variations(View(), m))) ==> NoDup(Variations(View(), m))
    {
      var variations := if m in apexVariations then apexVariations[m] else [];
      if apexName !in variations {
        apexVariations := apexVariations[m := variations + [apexName]];
      }
    }

    method UpdateApexDependency(apexName: string, moduleName: string, directDep: bool)
      modifies `apexNamesMap
      ensures View() == WithDependency(old(View()), apexName, moduleName, directDep)
      ensures InApex(View(), moduleName, apexName)
      ensures forall x, mod :: DirectlyInApex(View(), x, mod) <==>
                old(DirectlyInApex(View(), x, mod)) || (x == apexName && mod == moduleName && directDep)
    {
      if moduleName !in apexNamesMap {
        apexNamesMap := apexNamesMap[moduleName := map[]];
      }
      var apexNames := apexNamesMap[moduleName];
      var direct := (apexName in apexNames && apexNames[apexName]) || directDep;
      apexNamesMap := apexNamesMap[moduleName := apexNames[apexName := direct]];
    }

    /** apexDepsMutator on module m. */
    method ApexDepsMutator(w: World, m: nat)
      requires w.Ok() && m < |w.g|
      modifies this
      ensures if w.bundle(m).None? then View() == old(View()) else
                Recorded(w, w.bundle(m).value, old(View()), View(),
                         Reached(w.g, w.Enters, m, 0), Seen(w, m, 0), SeenDirect(w, m, 0))
    {
      if w.bundle(m).Some? {
        ghost var before := View();
        var ctx := new BaseModuleContext<Marks>(Marks(apexVariations, apexNamesMap));
        ctx.WalkDeps(w.g, w.android, w.Visit(w.bundle(m).value), m);
        WalkRecords(w, w.bundle(m).value, [m], 0, before);
        apexVariations, apexNamesMap := ctx.state.variations, ctx.state.names;
      }
    }

    /** The mutator on all modules of a schedule. */
    method RunApexDeps(w: World, schedule: seq<nat>)
      requires w.Ok() && forall i :: 0 <= i < |schedule| ==> schedule[i] < |w.g|
      requires View() == Marks(map[], map[])
      modifies this
      ensures MarksCorrect(w, schedule, View())
    {
      for i := 0 to |schedule|
        invariant MarksCorrect(w, schedule[..i], View())
      {
        var m := schedule[i];
        if w.bundle(m).Some? {
          OneMoreBundle(w, schedule[..i], m);
        } else {
          NotABundle(w, schedule[..i], m, View());
        }
        assert schedule[..i + 1] == schedule[..i] + [m];
        ApexDepsMutator(w, m);
      }
      assert schedule[..|schedule|] == schedule;
    }

    /** CreateApexVariations, which also sorts the field in place. */
    method CreateApexVariations(d: nat) returns (variations: Option<seq<string>>)
      modifies `apexVariations
      ensures variations == ApexVariations(old(View()), d)
      ensures View() == old(View()).(variations := if variations.None? then old(apexVariations)
                                                    else old(apexVariations)[d := Sort(Variations(old(View()), d))])
    {
      if d in apexVariations && |apexVariations[d]| > 0 {
        apexVariations := apexVariations[d := Sort(apexVariations[d])];
        return Some([""] + apexVariations[d]);
      }
      return None;
    }
  }
}
