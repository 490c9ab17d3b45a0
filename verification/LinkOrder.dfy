/** Static link order: orderDeps and orderStaticModuleDeps of cc/cc.go.

    A module graph gives the link dependencies of each module, in the order in which orderDeps takes
    them: direct static libraries, then static analogues of shared libraries. Lists and maps hold
    output files, as in the source, so two modules may have the same one.
 */
module LinkOrder {
  import opened DepGraph
  import opened Filter
  import opened Unique

  /*** orderDeps on file lists ***/

  type Path = string

  function Lookup(all: map<Path, seq<Path>>, d: Path): seq<Path> {
    if d in all then all[d] else []
  }

  /** Each dependency followed by its own transitive dependencies. */
  function Expand(deps: seq<Path>, all: map<Path, seq<Path>>): seq<Path> {
    if deps == [] then [] else
      var d := deps[|deps| - 1];
      Expand(deps[..|deps| - 1], all) + ([d] + Lookup(all, d))
  }

  lemma ExpandSnoc(deps: seq<Path>, d: Path, all: map<Path, seq<Path>>)
    ensures Expand(deps + [d], all) == Expand(deps, all) + ([d] + Lookup(all, d))
  {
    assert (deps + [d])[..|deps|] == deps;
  }

  function Select(list: seq<Path>, filter: seq<Path>, keep: bool): seq<Path> {
    if list == [] then [] else
      var last, rest := list[|list| - 1], Select(list[..|list| - 1], filter, keep);
      if (last in filter) == keep then rest + [last] else rest
  }

  /** FilterPathList. */
  method FilterPathList(list: seq<Path>, filter: seq<Path>) returns (remainder: seq<Path>, filtered: seq<Path>)
    ensures filtered == Select(list, filter, true) && remainder == Select(list, filter, false)
  {
    remainder, filtered := [], [];
    for i := 0 to |list|
      invariant filtered == Select(list[..i], filter, true)
      invariant remainder == Select(list[..i], filter, false)
    {
      assert list[..i + 1][..i] == list[..i];
      if list[i] in filter {
        filtered := filtered + [list[i]];
      } else {
        remainder := remainder + [list[i]];
      }
    }
    assert list[..|list|] == list;
  }

  /** Both lists are filtered out in order: the paths that are listed and those that are not. */
  lemma {:induction false} SelectFiltered(list: seq<Path>, filter: seq<Path>, keep: bool)
    ensures Filtered(list, Wanted(filter, keep), Itself, Select(list, filter, keep))
  {
    if list == [] {
      FilteredNone(list, Wanted(filter, keep), Itself);
    } else {
      var n := |list| - 1;
      SelectFiltered(list[..n], filter, keep);
      FilteredNext(list[..n], Wanted(filter, keep), Itself, Select(list[..n], filter, keep), list[n],
                   list, Select(list, filter, keep));
    }
  }

  function Wanted(filter: seq<Path>, keep: bool): Path -> bool {
    (p: Path) => (p in filter) == keep
  }

  ghost predicate SameOrder(list: seq<Path>, sub: seq<Path>) {
    forall i, j :: 0 <= i < j < |sub| ==> PrecedesIn(list, sub[i], sub[j])
  }

  ghost predicate PrecedesIn(list: seq<Path>, a: Path, b: Path) {
    exists x, y :: 0 <= x < y < |list| && list[x] == a && list[y] == b
  }

  lemma {:induction false} SelectFacts(list: seq<Path>, filter: seq<Path>)
    requires NoDup(list)
    ensures forall x :: x in Select(list, filter, true) <==> x in list && x in filter
    ensures NoDup(Select(list, filter, true)) && SameOrder(list, Select(list, filter, true))
  {
    if list != [] {
      var init, last := list[..|list| - 1], list[|list| - 1];
      SelectFacts(init, filter);
      var r := Select(init, filter, true);
      assert list == init + [last];
      forall i, j | 0 <= i < j < |Select(list, filter, true)|
        ensures PrecedesIn(list, Select(list, filter, true)[i], Select(list, filter, true)[j])
      {
        if j < |r| {
          assert PrecedesIn(init, r[i], r[j]);
        } else {
          assert r[i] in init;
        }
      }
    }
  }

  /** LastUniquePaths on the freshly appended slice, which no dependency's own list shares. */
  method LastUniquePaths(list: seq<Path>) returns (r: seq<Path>)
    ensures r == LastUnique(list)
  {
    var slice := new Path[|list|](i requires 0 <= i < |list| => list[i]);
    assert slice[..] == list;
    var start := LastUniqueInPlace(slice);
    r := slice[start..];
  }

  /** orderDeps: the first result is the de-duplicated concatenation, the second its restriction to
      the static dependencies the caller declared. */
  method OrderDeps(directStaticDeps: seq<Path>, directSharedDeps: seq<Path>, allTransitiveDeps: map<Path, seq<Path>>)
    returns (orderedAllDeps: seq<Path>, orderedDeclaredDeps: seq<Path>)
    ensures orderedAllDeps == LastUnique(Expand(directStaticDeps + directSharedDeps, allTransitiveDeps))
    ensures orderedDeclaredDeps == Select(orderedAllDeps, directStaticDeps, true)
  {
    var all := [];
    for i := 0 to |directStaticDeps|
      invariant all == Expand(directStaticDeps[..i], allTransitiveDeps)
    {
      var dep := directStaticDeps[i];
      ExpandSnoc(directStaticDeps[..i], dep, allTransitiveDeps);
      assert directStaticDeps[..i + 1] == directStaticDeps[..i] + [dep];
      all := all + ([dep] + Lookup(allTransitiveDeps, dep));
    }
    assert directStaticDeps[..|directStaticDeps|] == directStaticDeps + directSharedDeps[..0];
    for i := 0 to |directSharedDeps|
      invariant all == Expand(directStaticDeps + directSharedDeps[..i], allTransitiveDeps)
    {
      var dep := directSharedDeps[i];
      ExpandSnoc(directStaticDeps + directSharedDeps[..i], dep, allTransitiveDeps);
      assert directStaticDeps + directSharedDeps[..i + 1] == directStaticDeps + directSharedDeps[..i] + [dep];
      all := all + ([dep] + Lookup(allTransitiveDeps, dep));
    }
    assert directSharedDeps[..|directSharedDeps|] == directSharedDeps;
    orderedAllDeps := LastUniquePaths(all);
    var _, filtered := FilterPathList(orderedAllDeps, directStaticDeps);
    orderedDeclaredDeps := filtered;
  }

  lemma {:induction false} ExpandHasDeps(deps: seq<Path>, all: map<Path, seq<Path>>)
    ensures forall d :: d in deps ==> d in Expand(deps, all)
  {
    if deps != [] {
      ExpandHasDeps(deps[..|deps| - 1], all);
      assert deps == deps[..|deps| - 1] + [deps[|deps| - 1]];
    }
  }

  /** The declared list is exactly the direct static dependencies, once each, in link order. */
  lemma DeclaredDepsCorrect(declaredDeps: seq<Path>, shared: seq<Path>, all: map<Path, seq<Path>>)
    ensures var ordered := LastUnique(Expand(declaredDeps + shared, all));
            var declared := Select(ordered, declaredDeps, true);
            && (forall x :: x in declared <==> x in declaredDeps)
            && NoDup(declared) && SameOrder(ordered, declared)
  {
    var s := Expand(declaredDeps + shared, all);
    LastUniqueElements(s);
    ExpandHasDeps(declaredDeps + shared, all);
    SelectFacts(LastUnique(s), declaredDeps);
  }

  /*** orderStaticModuleDeps on modules ***/

  /** A module whose output file and static variant are known, as they are before it is linked. */
  class Module {
    const outputFile: Path
    var depsInLinkOrder: seq<Path>
    const staticVariant: Module?

    constructor (outputFile: Path, staticVariant: Module?)
      ensures this.outputFile == outputFile && this.staticVariant == staticVariant && depsInLinkOrder == []
    {
      this.outputFile := outputFile;
      this.staticVariant := staticVariant;
      depsInLinkOrder := [];
    }
  }

  /** The static analogues of shared dependencies; a library without one is left out. */
  ghost function Analogues(sharedDeps: seq<Module>): seq<Module> {
    if sharedDeps == [] then [] else
      var last, rest := sharedDeps[|sharedDeps| - 1], Analogues(sharedDeps[..|sharedDeps| - 1]);
      if last.staticVariant == null then rest else rest + [last.staticVariant]
  }

  predicate HasVariant(m: Module) {
    m.staticVariant != null
  }

  function VariantOf(m: Module): Module? {
    m.staticVariant
  }

  lemma {:induction false} AnaloguesFiltered(sharedDeps: seq<Module>)
    ensures Filtered(sharedDeps, HasVariant, VariantOf, Analogues(sharedDeps))
  {
    if sharedDeps == [] {
      FilteredNone(sharedDeps, HasVariant, VariantOf);
    } else {
      var n := |sharedDeps| - 1;
      AnaloguesFiltered(sharedDeps[..n]);
      FilteredNext(sharedDeps[..n], HasVariant, VariantOf, Analogues(sharedDeps[..n]), sharedDeps[n],
                   sharedDeps, Analogues(sharedDeps));
    }
  }

  /** The analogues are the static variants of exactly the shared dependencies that have one. */
  lemma AnaloguesAre(sharedDeps: seq<Module>, ks: seq<nat>)
    requires Picks(sharedDeps, HasVariant, ks)
    ensures ShownAt(sharedDeps, VariantOf, ks, Analogues(sharedDeps))
  {
    AnaloguesFiltered(sharedDeps);
    var js: seq<nat> :| Picks(sharedDeps, HasVariant, js) && ShownAt(sharedDeps, VariantOf, js, Analogues(sharedDeps));
    IncreasingUnique(ks, js);
  }

  ghost function Files(ms: seq<Module>): seq<Path> {
    seq(|ms|, i requires 0 <= i < |ms| => ms[i].outputFile)
  }

  /** The map allTransitiveDeps: a later module with the same output file replaces an earlier one. */
  ghost function Table(ms: seq<Module>): map<Path, seq<Path>>
    reads ms`depsInLinkOrder
  {
    if ms == [] then map[] else
      Table(ms[..|ms| - 1])[ms[|ms| - 1].outputFile := ms[|ms| - 1].depsInLinkOrder]
  }

  ghost function Ordered(staticDeps: seq<Module>, sharedDeps: seq<Module>): seq<Path>
    reads staticDeps`depsInLinkOrder, Analogues(sharedDeps)`depsInLinkOrder
  {
    var ms := staticDeps + Analogues(sharedDeps);
    LastUnique(Expand(Files(ms), Table(ms)))
  }

  /** The files of all static dependencies and of all static variants of shared ones are listed. */
  lemma DirectFilesListed(staticDeps: seq<Module>, sharedDeps: seq<Module>, all: map<Path, seq<Path>>)
    ensures var list := LastUnique(Expand(Files(staticDeps + Analogues(sharedDeps)), all));
            && (forall i :: 0 <= i < |staticDeps| ==> staticDeps[i].outputFile in list)
            && (forall i :: 0 <= i < |sharedDeps| && sharedDeps[i].staticVariant != null ==>
                  sharedDeps[i].staticVariant.outputFile in list)
  {
    var ms := staticDeps + Analogues(sharedDeps);
    ExpandHasDeps(Files(ms), all);
    LastUniqueElements(Expand(Files(ms), all));
    assert forall i :: 0 <= i < |ms| ==> ms[i].outputFile == Files(ms)[i];
    assert forall i :: 0 <= i < |staticDeps| ==> ms[i] == staticDeps[i];
    forall i | 0 <= i < |sharedDeps| && sharedDeps[i].staticVariant != null
      ensures sharedDeps[i].staticVariant in ms
    {
      AnaloguesFiltered(sharedDeps);
      assert HasVariant(sharedDeps[i]) && VariantOf(sharedDeps[i]) == sharedDeps[i].staticVariant;
      FilteredElements(sharedDeps, HasVariant, VariantOf, Analogues(sharedDeps), sharedDeps[i].staticVariant);
    }
  }

  /** orderStaticModuleDeps: writes the link order of m and of nothing else. */
  method OrderStaticModuleDeps(m: Module, staticDeps: seq<Module>, sharedDeps: seq<Module>)
    returns (results: seq<Path>)
    modifies m`depsInLinkOrder
    ensures m.depsInLinkOrder == old(Ordered(staticDeps, sharedDeps))
    ensures results == Select(m.depsInLinkOrder, Files(staticDeps), true)
    ensures forall i :: 0 <= i < |staticDeps| ==> staticDeps[i].outputFile in m.depsInLinkOrder
    ensures forall i :: 0 <= i < |sharedDeps| && sharedDeps[i].staticVariant != null ==>
              sharedDeps[i].staticVariant.outputFile in m.depsInLinkOrder
  {
    var allTransitiveDeps: map<Path, seq<Path>> := map[];
    var staticDepFiles: seq<Path>, sharedDepFiles: seq<Path> := [], [];
    for i := 0 to |staticDeps|
      invariant allTransitiveDeps == Table(staticDeps[..i]) && staticDepFiles == Files(staticDeps[..i])
    {
      assert staticDeps[..i + 1][..i] == staticDeps[..i];
      var dep := staticDeps[i];
      allTransitiveDeps := allTransitiveDeps[dep.outputFile := dep.depsInLinkOrder];
      staticDepFiles := staticDepFiles + [dep.outputFile];
    }
    assert staticDeps[..|staticDeps|] == staticDeps;
    assert staticDeps + Analogues(sharedDeps[..0]) == staticDeps;
    for i := 0 to |sharedDeps|
      invariant allTransitiveDeps == Table(staticDeps + Analogues(sharedDeps[..i]))
      invariant sharedDepFiles == Files(Analogues(sharedDeps[..i]))
    {
      assert sharedDeps[..i + 1][..i] == sharedDeps[..i];
      var staticAnalogue := sharedDeps[i].staticVariant;
      if staticAnalogue != null {
        ghost var ms := staticDeps + Analogues(sharedDeps[..i + 1]);
        assert ms[..|ms| - 1] == staticDeps + Analogues(sharedDeps[..i]);
        allTransitiveDeps := allTransitiveDeps[staticAnalogue.outputFile := staticAnalogue.depsInLinkOrder];
        sharedDepFiles := sharedDepFiles + [staticAnalogue.outputFile];
      }
    }
    assert sharedDeps[..|sharedDeps|] == sharedDeps;
    assert staticDepFiles + sharedDepFiles == Files(staticDeps + Analogues(sharedDeps));
    var ordered, declared := OrderDeps(staticDepFiles, sharedDepFiles, allTransitiveDeps);
    DirectFilesListed(staticDeps, sharedDeps, allTransitiveDeps);
    m.depsInLinkOrder := ordered;
    results := declared;
  }

  /*** The lists of a whole module graph ***/

  predicate Any(e: Edge<()>) { true }

  /** a links against b, directly or through other modules. */
  ghost predicate DependsOn(g: Graph<()>, a: nat, b: nat) {
    Reaches(g, Any, a, b)
  }

  /** A graph with the output file of each module. */
  ghost predicate Sized(outs: seq<Path>, g: Graph<()>) {
    Acyclic(g) && |g| == |outs|
  }

  /** The output files of the direct dependencies of m. */
  ghost function DepFiles(outs: seq<Path>, g: Graph<()>, m: nat): (r: seq<Path>)
    requires Sized(outs, g) && m < |g|
    ensures |r| == |g[m]| && forall i :: 0 <= i < |r| ==> r[i] == outs[g[m][i].child]
  {
    seq(|g[m]|, i requires 0 <= i < |g[m]| => outs[g[m][i].child])
  }

  /** The list that m gets if every module is linked after its dependencies. */
  ghost function FileOrder(outs: seq<Path>, g: Graph<()>, m: nat): seq<Path>
    requires Sized(outs, g) && m < |g|
    decreases m, |g[m]| + 1
  {
    LastUnique(Expand(DepFiles(outs, g, m), FileTable(outs, g, m, |g[m]|)))
  }

  /** The map that m looks its first k dependencies up in. */
  ghost function FileTable(outs: seq<Path>, g: Graph<()>, m: nat, k: nat): map<Path, seq<Path>>
    requires Sized(outs, g) && m < |g| && k <= |g[m]|
    decreases m, k
  {
    if k == 0 then map[] else
      var d := g[m][k - 1].child;
      FileTable(outs, g, m, k - 1)[outs[d] := FileOrder(outs, g, d)]
  }

  /*** What the lists contain ***/

  /** f is the output file of a module that m depends on. */
  ghost predicate DependsOnFile(outs: seq<Path>, g: Graph<()>, m: nat, f: Path) {
    exists x :: 0 <= x < |outs| && outs[x] == f && DependsOn(g, m, x)
  }

  /** The map of m keeps the list of its dependency number j: no later one has the same file. */
  ghost predicate IsKept(outs: seq<Path>, g: Graph<()>, m: nat, j: int)
    requires Sized(outs, g) && m < |g|
  {
    0 <= j < |g[m]| && forall k :: j < k < |g[m]| ==> outs[g[m][k].child] != outs[g[m][j].child]
  }

  /** f is the file of a direct dependency of m, or comes from one whose list is kept. */
  ghost predicate Listed(outs: seq<Path>, g: Graph<()>, m: nat, f: Path)
    requires Sized(outs, g) && m < |g|
    decreases m
  {
    f in DepFiles(outs, g, m) || exists j :: IsKept(outs, g, m, j) && Listed(outs, g, g[m][j].child, f)
  }

  lemma {:induction false} ExpandElements(files: seq<Path>, all: map<Path, seq<Path>>, f: Path)
    ensures f in Expand(files, all) <==>
            f in files || exists i :: 0 <= i < |files| && files[i] in all && f in all[files[i]]
  {
    if files != [] {
      var n := |files| - 1;
      ExpandElements(files[..n], all, f);
      assert files == files[..n] + [files[n]];
    }
  }

  /** Looking up a dependency gives the list of the last of the first k with the same file. */
  lemma {:induction false} FileTableHas(outs: seq<Path>, g: Graph<()>, m: nat, k: nat, i: nat) returns (j: nat)
    requires Sized(outs, g) && m < |g| && i < k <= |g[m]|
    ensures j < k && outs[g[m][j].child] == outs[g[m][i].child]
    ensures forall l :: j < l < k ==> outs[g[m][l].child] != outs[g[m][j].child]
    ensures Lookup(FileTable(outs, g, m, k), outs[g[m][i].child]) == FileOrder(outs, g, g[m][j].child)
  {
    if outs[g[m][k - 1].child] == outs[g[m][i].child] {
      j := k - 1;
    } else {
      j := FileTableHas(outs, g, m, k - 1, i);
    }
  }

  /** One level of a list: the files of the direct dependencies, and the lists that are kept. */
  lemma FileOrderStep(outs: seq<Path>, g: Graph<()>, m: nat, f: Path)
    requires Sized(outs, g) && m < |g|
    ensures f in FileOrder(outs, g, m) <==>
            f in DepFiles(outs, g, m) || exists j :: IsKept(outs, g, m, j) && f in FileOrder(outs, g, g[m][j].child)
  {
    var files, all, n := DepFiles(outs, g, m), FileTable(outs, g, m, |g[m]|), |g[m]|;
    LastUniqueElements(Expand(files, all));
    ExpandElements(files, all, f);
    if i :| 0 <= i < n && files[i] in all && f in all[files[i]] {
      var j := FileTableHas(outs, g, m, n, i);
      assert IsKept(outs, g, m, j);
    }
    if j :| IsKept(outs, g, m, j) && f in FileOrder(outs, g, g[m][j].child) {
      var k := FileTableHas(outs, g, m, n, j);
      assert k == j && f in Lookup(all, files[j]);
    }
  }

  /** Whatever the output files: a list has no duplicates and holds exactly the listed files. */
  lemma {:induction false} FileOrderIsListed(outs: seq<Path>, g: Graph<()>, m: nat)
    requires Sized(outs, g) && m < |g|
    ensures NoDup(FileOrder(outs, g, m))
    ensures forall f :: f in FileOrder(outs, g, m) <==> Listed(outs, g, m, f)
    decreases m
  {
    LastUniqueElements(Expand(DepFiles(outs, g, m), FileTable(outs, g, m, |g[m]|)));
    forall f ensures f in FileOrder(outs, g, m) <==> Listed(outs, g, m, f) {
      FileOrderStep(outs, g, m, f);
      forall j | IsKept(outs, g, m, j)
        ensures f in FileOrder(outs, g, g[m][j].child) <==> Listed(outs, g, g[m][j].child, f)
      {
        FileOrderIsListed(outs, g, g[m][j].child);
      }
    }
  }

  lemma DependsOnStep(outs: seq<Path>, g: Graph<()>, m: nat, i: nat)
    requires Sized(outs, g) && m < |g| && i < |g[m]|
    ensures var d := g[m][i].child;
            && DependsOn(g, m, d) && DependsOnFile(outs, g, m, outs[d])
            && (forall x :: DependsOn(g, d, x) ==> DependsOn(g, m, x))
            && (forall f :: DependsOnFile(outs, g, d, f) ==> DependsOnFile(outs, g, m, f))
  {
    assert Step(g, Any, m, g[m][i].child);
    ReachesCons(g, Any, m, g[m][i].child);
  }

  /** Nothing is in a list that is not the file of a dependency. */
  lemma {:induction false} ListedIsDependency(outs: seq<Path>, g: Graph<()>, m: nat, f: Path)
    requires Sized(outs, g) && m < |g| && Listed(outs, g, m, f)
    ensures DependsOnFile(outs, g, m, f)
    decreases m
  {
    if f in DepFiles(outs, g, m) {
      var i :| 0 <= i < |g[m]| && DepFiles(outs, g, m)[i] == f;
      DependsOnStep(outs, g, m, i);
    } else {
      var j :| IsKept(outs, g, m, j) && Listed(outs, g, g[m][j].child, f);
      ListedIsDependency(outs, g, g[m][j].child, f);
      DependsOnStep(outs, g, m, j);
    }
  }

  /** The list of m holds exactly the files that m transitively links against. */
  ghost predicate Exact(outs: seq<Path>, g: Graph<()>, m: nat)
    requires Sized(outs, g) && m < |g|
  {
    forall f :: f in FileOrder(outs, g, m) <==> DependsOnFile(outs, g, m, f)
  }

  /** The contents of one list are right exactly if every file of a dependency is listed. */
  lemma ExactIff(outs: seq<Path>, g: Graph<()>, m: nat)
    requires Sized(outs, g) && m < |g|
    ensures Exact(outs, g, m) <==> forall f :: DependsOnFile(outs, g, m, f) ==> Listed(outs, g, m, f)
  {
    FileOrderIsListed(outs, g, m);
    forall f | Listed(outs, g, m, f) ensures DependsOnFile(outs, g, m, f) {
      ListedIsDependency(outs, g, m, f);
    }
  }

  /** Every file that m transitively links against is the file of a direct dependency, or one that a
      dependency whose list is kept transitively links against. */
  ghost predicate Covered(outs: seq<Path>, g: Graph<()>, m: nat)
    requires Sized(outs, g) && m < |g|
  {
    forall f :: DependsOnFile(outs, g, m, f) ==>
      f in DepFiles(outs, g, m) || exists j :: IsKept(outs, g, m, j) && DependsOnFile(outs, g, g[m][j].child, f)
  }

  /** If the lists of the dependencies are right, that of m is right exactly if it is covered. */
  lemma ExactStep(outs: seq<Path>, g: Graph<()>, m: nat)
    requires Sized(outs, g) && m < |g|
    requires forall i :: 0 <= i < |g[m]| ==> Exact(outs, g, g[m][i].child)
    ensures Exact(outs, g, m) <==> Covered(outs, g, m)
  {
    ExactIff(outs, g, m);
    FileOrderIsListed(outs, g, m);
    forall f ensures f in FileOrder(outs, g, m) <==>
                     f in DepFiles(outs, g, m) ||
                     exists j :: IsKept(outs, g, m, j) && DependsOnFile(outs, g, g[m][j].child, f)
    {
      FileOrderStep(outs, g, m, f);
      assert forall j :: IsKept(outs, g, m, j) ==> Exact(outs, g, g[m][j].child);
    }
  }

  /** All lists of a graph are right exactly if all its modules are covered. */
  lemma AllExactIff(outs: seq<Path>, g: Graph<()>)
    requires Sized(outs, g)
    ensures (forall m :: 0 <= m < |g| ==> Exact(outs, g, m)) <==> (forall m :: 0 <= m < |g| ==> Covered(outs, g, m))
  {
    if forall m :: 0 <= m < |g| ==> Exact(outs, g, m) {
      forall m | 0 <= m < |g| ensures Covered(outs, g, m) {
        ExactStep(outs, g, m);
      }
    }
    if forall m :: 0 <= m < |g| ==> Covered(outs, g, m) {
      forall m | 0 <= m < |g| ensures Exact(outs, g, m) {
        CoveredIsExact(outs, g, m);
      }
    }
  }

  lemma {:induction false} CoveredIsExact(outs: seq<Path>, g: Graph<()>, m: nat)
    requires Sized(outs, g) && m < |g| && forall x :: 0 <= x < |g| ==> Covered(outs, g, x)
    ensures Exact(outs, g, m)
    decreases m
  {
    forall i | 0 <= i < |g[m]| ensures Exact(outs, g, g[m][i].child) {
      CoveredIsExact(outs, g, g[m][i].child);
    }
    ExactStep(outs, g, m);
  }

  /** A file that no direct dependency has, and that only dependencies bring whose lists are not
      kept, is lost. */
  lemma SameFileLosesDeps(outs: seq<Path>, g: Graph<()>, m: nat, f: Path)
    requires Sized(outs, g) && m < |g| && DependsOnFile(outs, g, m, f) && f !in DepFiles(outs, g, m)
    requires forall j :: IsKept(outs, g, m, j) ==> !DependsOnFile(outs, g, g[m][j].child, f)
    ensures f !in FileOrder(outs, g, m)
  {
    FileOrderIsListed(outs, g, m);
    if j :| IsKept(outs, g, m, j) && Listed(outs, g, g[m][j].child, f) {
      ListedIsDependency(outs, g, g[m][j].child, f);
    }
  }

  /*** The order of the lists ***/

  /** Modules that m depends on and that have the same output file link the same files. */
  ghost predicate Consistent(outs: seq<Path>, g: Graph<()>, m: nat)
    requires Sized(outs, g)
  {
    forall a, b, f | 0 <= a < |g| && 0 <= b < |g| && DependsOn(g, m, a) && DependsOn(g, m, b) ::
      outs[a] == outs[b] && f in DepFiles(outs, g, a) ==> f in DepFiles(outs, g, b)
  }

  /** Whatever a module with output file f links directly, if r depends on it, is in the list. */
  ghost predicate HasDepsOf(outs: seq<Path>, g: Graph<()>, r: nat, f: Path, list: seq<Path>)
    requires Sized(outs, g)
  {
    forall x, h | 0 <= x < |g| && DependsOn(g, r, x) && outs[x] == f ::
      h in DepFiles(outs, g, x) ==> h in list
  }

  /** Every file in the list is followed by all that its modules, below r, link directly. */
  ghost predicate Closed(outs: seq<Path>, g: Graph<()>, r: nat, s: seq<Path>)
    requires Sized(outs, g)
  {
    forall i :: 0 <= i < |s| ==> HasDepsOf(outs, g, r, s[i], s[i + 1..])
  }

  lemma ClosedConcat(outs: seq<Path>, g: Graph<()>, r: nat, s: seq<Path>, t: seq<Path>)
    requires Sized(outs, g) && Closed(outs, g, r, s) && Closed(outs, g, r, t)
    ensures Closed(outs, g, r, s + t)
  {
    forall i | 0 <= i < |s + t| ensures HasDepsOf(outs, g, r, (s + t)[i], (s + t)[i + 1..]) {
      if i < |s| {
        assert (s + t)[i + 1..] == s[i + 1..] + t;
        assert HasDepsOf(outs, g, r, s[i], s[i + 1..]);
      } else {
        assert (s + t)[i + 1..] == t[i - |s| + 1..];
        assert HasDepsOf(outs, g, r, t[i - |s|], t[i - |s| + 1..]);
      }
    }
  }

  lemma ClosedTail(outs: seq<Path>, g: Graph<()>, r: nat, s: seq<Path>)
    requires Sized(outs, g) && s != [] && Closed(outs, g, r, s)
    ensures Closed(outs, g, r, s[1..]) && HasDepsOf(outs, g, r, s[0], s[1..])
  {
    forall i | 0 <= i < |s[1..]| ensures HasDepsOf(outs, g, r, s[1..][i], s[1..][i + 1..]) {
      assert s[1..][i] == s[i + 1] && s[1..][i + 1..] == s[i + 2..];
      assert HasDepsOf(outs, g, r, s[i + 1], s[i + 2..]);
    }
  }

  lemma ClosedCons(outs: seq<Path>, g: Graph<()>, r: nat, f: Path, s: seq<Path>)
    requires Sized(outs, g) && Closed(outs, g, r, s) && HasDepsOf(outs, g, r, f, s)
    ensures Closed(outs, g, r, [f] + s)
  {
    var t := [f] + s;
    forall i | 0 <= i < |t| ensures HasDepsOf(outs, g, r, t[i], t[i + 1..]) {
      if i == 0 {
        assert t[1..] == s;
      } else {
        assert t[i + 1..] == s[i..];
        assert HasDepsOf(outs, g, r, s[i - 1], s[i..]);
      }
    }
  }

  /** Keeping only the last instance of each file keeps every dependency behind its users. */
  lemma {:induction false} LastUniqueKeepsClosed(outs: seq<Path>, g: Graph<()>, r: nat, s: seq<Path>)
    requires Sized(outs, g) && Closed(outs, g, r, s)
    ensures Closed(outs, g, r, LastUnique(s))
  {
    if s != [] {
      ClosedTail(outs, g, r, s);
      LastUniqueKeepsClosed(outs, g, r, s[1..]);
      LastUniqueElements(s[1..]);
      if s[0] !in s[1..] {
        ClosedCons(outs, g, r, s[0], LastUnique(s[1..]));
      }
    }
  }

  /** m is r, or r depends on it. */
  ghost predicate AtOrBelow(g: Graph<()>, r: nat, m: nat) {
    m == r || DependsOn(g, r, m)
  }

  lemma ChildBelow(g: Graph<()>, r: nat, m: nat, i: nat)
    requires Acyclic(g) && m < |g| && AtOrBelow(g, r, m) && i < |g[m]|
    ensures DependsOn(g, r, g[m][i].child)
  {
    assert Step(g, Any, m, g[m][i].child);
    if m == r {
      ReachesCons(g, Any, m, g[m][i].child);
    } else {
      ReachesSnoc(g, Any, r, m, g[m][i].child);
    }
  }

  /** The part of the concatenation that belongs to one dependency. */
  lemma {:induction false} PartClosed(outs: seq<Path>, g: Graph<()>, r: nat, m: nat, i: nat, part: seq<Path>)
    requires Sized(outs, g) && Consistent(outs, g, r) && m < |g| && AtOrBelow(g, r, m) && i < |g[m]|
    requires var f := outs[g[m][i].child]; part == [f] + Lookup(FileTable(outs, g, m, |g[m]|), f)
    ensures Closed(outs, g, r, part)
    decreases m, 0
  {
    var f := outs[g[m][i].child];
    var j := FileTableHas(outs, g, m, |g[m]|, i);
    var w := g[m][j].child;
    var list := FileOrder(outs, g, w);
    ChildBelow(g, r, m, j);
    FileOrderClosed(outs, g, r, w);
    forall x, h | 0 <= x < |g| && DependsOn(g, r, x) && outs[x] == f && h in DepFiles(outs, g, x) ensures h in list {
      assert h in DepFiles(outs, g, w);
      FileOrderStep(outs, g, w, h);
    }
    ClosedCons(outs, g, r, f, list);
  }

  lemma {:induction false} ExpandClosed(outs: seq<Path>, g: Graph<()>, r: nat, m: nat, k: nat, s: seq<Path>)
    requires Sized(outs, g) && Consistent(outs, g, r) && m < |g| && AtOrBelow(g, r, m) && k <= |g[m]|
    requires s == Expand(DepFiles(outs, g, m)[..k], FileTable(outs, g, m, |g[m]|))
    ensures Closed(outs, g, r, s)
    decreases m, 1, k
  {
    if k > 0 {
      var files, all := DepFiles(outs, g, m), FileTable(outs, g, m, |g[m]|);
      var part := [files[k - 1]] + Lookup(all, files[k - 1]);
      assert files[..k][..k - 1] == files[..k - 1];
      var before := Expand(files[..k - 1], all);
      ExpandClosed(outs, g, r, m, k - 1, before);
      PartClosed(outs, g, r, m, k - 1, part);
      ClosedConcat(outs, g, r, before, part);
      assert s == before + part;
    }
  }

  lemma {:induction false} FileOrderClosed(outs: seq<Path>, g: Graph<()>, r: nat, m: nat)
    requires Sized(outs, g) && Consistent(outs, g, r) && m < |g| && AtOrBelow(g, r, m)
    ensures Closed(outs, g, r, FileOrder(outs, g, m))
    decreases m, 2
  {
    var files, all := DepFiles(outs, g, m), FileTable(outs, g, m, |g[m]|);
    var s := Expand(files, all);
    assert files[..|files|] == files;
    ExpandClosed(outs, g, r, m, |files|, s);
    LastUniqueKeepsClosed(outs, g, r, s);
  }

  lemma StepIsDepFile(outs: seq<Path>, g: Graph<()>, a: nat, b: nat)
    requires Sized(outs, g) && Step(g, Any, a, b)
    ensures b < |g| && outs[b] in DepFiles(outs, g, a)
  {
    var e :| 0 <= e < |g[a]| && g[a][e].child == b;
    assert DepFiles(outs, g, a)[e] == outs[b];
  }

  /** In a closed list a path that starts at an index ends behind it. */
  lemma {:induction false} ClosedFollowsPath(outs: seq<Path>, g: Graph<()>, r: nat, s: seq<Path>, i: nat, p: seq<nat>)
    returns (j: nat)
    requires Sized(outs, g) && Closed(outs, g, r, s) && i < |s|
    requires |p| > 1 && IsPath(g, Any, p) && p[0] < |g| && DependsOn(g, r, p[0]) && outs[p[0]] == s[i]
    ensures p[|p| - 1] < |g| && i < j < |s| && s[j] == outs[p[|p| - 1]]
    decreases |p|
  {
    StepIsDepFile(outs, g, p[0], p[1]);
    var rest := s[i + 1..];
    assert HasDepsOf(outs, g, r, s[i], rest) && outs[p[1]] in rest;
    var k :| 0 <= k < |rest| && rest[k] == outs[p[1]];
    j := i + 1 + k;
    if |p| > 2 {
      ReachesSnoc(g, Any, r, p[0], p[1]);
      j := ClosedFollowsPath(outs, g, r, s, j, p[1..]);
    }
  }

  /** The file of a module that m depends on stands before those of all that it depends on itself. */
  ghost predicate InLinkOrder(outs: seq<Path>, g: Graph<()>, m: nat, s: seq<Path>) {
    forall i, j, a, b | 0 <= i < |s| && 0 <= j < |s| && 0 <= a < |outs| && 0 <= b < |outs| && DependsOn(g, m, a) ::
      outs[a] == s[i] && outs[b] == s[j] && DependsOn(g, a, b) ==> i < j
  }

  /** If modules that m depends on and that have the same output file link the same files, then the
      list of m holds exactly the files that it transitively links against, and puts the file of A
      before that of B whenever A depends on B, at any distance. */
  lemma FileOrderCorrect(outs: seq<Path>, g: Graph<()>, m: nat)
    requires Sized(outs, g) && m < |g| && Consistent(outs, g, m)
    ensures Exact(outs, g, m) && InLinkOrder(outs, g, m, FileOrder(outs, g, m))
  {
    var s := FileOrder(outs, g, m);
    FileOrderIsListed(outs, g, m);
    FileOrderClosed(outs, g, m, m);
    forall f ensures f in s <==> DependsOnFile(outs, g, m, f) {
      if f in s {
        ListedIsDependency(outs, g, m, f);
      }
      if DependsOnFile(outs, g, m, f) {
        var x :| 0 <= x < |outs| && outs[x] == f && DependsOn(g, m, x);
        ListHolds(outs, g, m, x);
      }
    }
    forall i, j, a, b | 0 <= i < |s| && 0 <= j < |s| && 0 <= a < |outs| && 0 <= b < |outs| && DependsOn(g, m, a) &&
                        outs[a] == s[i] && outs[b] == s[j] && DependsOn(g, a, b)
      ensures i < j
    {
      var p: seq<nat> :| |p| > 1 && IsPath(g, Any, p) && p[0] == a && p[|p| - 1] == b;
      var k := ClosedFollowsPath(outs, g, m, s, i, p);
      assert j == k;
    }
  }

  lemma {:induction false} ListHolds(outs: seq<Path>, g: Graph<()>, m: nat, x: nat)
    requires Sized(outs, g) && m < |g| && Consistent(outs, g, m) && x < |g| && DependsOn(g, m, x)
    ensures outs[x] in FileOrder(outs, g, m)
  {
    var s := FileOrder(outs, g, m);
    FileOrderClosed(outs, g, m, m);
    var p: seq<nat> :| |p| > 1 && IsPath(g, Any, p) && p[0] == m && p[|p| - 1] == x;
    StepIsDepFile(outs, g, m, p[1]);
    FileOrderStep(outs, g, m, outs[p[1]]);
    if |p| > 2 {
      var i :| 0 <= i < |s| && s[i] == outs[p[1]];
      ReachesCons(g, Any, m, p[1]);
      var j := ClosedFollowsPath(outs, g, m, s, i, p[1..]);
    }
  }

  /** Distinct output files are enough. */
  lemma DistinctIsConsistent(outs: seq<Path>, g: Graph<()>, m: nat)
    requires Sized(outs, g) && NoDup(outs)
    ensures Consistent(outs, g, m)
  {
    assert forall a, b :: 0 <= a < |outs| && 0 <= b < |outs| && outs[a] == outs[b] ==> a == b;
  }

  /*** Two inputs with a shared output file ***/

  lemma {:induction false} ExpandNothing(files: seq<Path>, all: map<Path, seq<Path>>)
    requires forall i :: 0 <= i < |files| ==> Lookup(all, files[i]) == []
    ensures Expand(files, all) == files
  {
    if files != [] {
      var n := |files| - 1;
      ExpandNothing(files[..n], all);
      assert files == files[..n] + [files[n]];
    }
  }

  /** If all lists that m keeps are empty, only its direct dependencies are left. */
  lemma EmptyLists(outs: seq<Path>, g: Graph<()>, m: nat)
    requires Sized(outs, g) && m < |g|
    requires forall j :: IsKept(outs, g, m, j) ==> g[g[m][j].child] == []
    ensures FileOrder(outs, g, m) == LastUnique(DepFiles(outs, g, m))
  {
    var files, all, n := DepFiles(outs, g, m), FileTable(outs, g, m, |g[m]|), |g[m]|;
    forall i | 0 <= i < |files| ensures Lookup(all, files[i]) == [] {
      var j := FileTableHas(outs, g, m, n, i);
      assert IsKept(outs, g, m, j);
    }
    ExpandNothing(files, all);
  }

  /** Four modules: x; a with file f, which links x; b with file f, which links nothing; and m, which
      links the given ones. */
  ghost function SharedFile(deps: seq<Edge<()>>): Graph<()> {
    [[], [Edge((), 0)], [], deps]
  }

  /** If m links a and b, the file of x is missing from its list. */
  lemma ContentsFail(outs: seq<Path>, g: Graph<()>)
    requires |outs| == 4 && outs[0] != outs[1] == outs[2] && g == SharedFile([Edge((), 1), Edge((), 2)])
    ensures Sized(outs, g) && FileOrder(outs, g, 3) == [outs[1]] && DependsOnFile(outs, g, 3, outs[0])
  {
    var files := DepFiles(outs, g, 3);
    assert g[3] == [Edge((), 1), Edge((), 2)] && files == [outs[1], outs[1]];
    DependsOnStep(outs, g, 1, 0);
    DependsOnStep(outs, g, 3, 0);
    assert FileOrder(outs, g, 3) == LastUnique(files) by {
      assert outs[g[3][1].child] == outs[g[3][0].child];
      EmptyLists(outs, g, 3);
    }
    assert files[1..] == [outs[1]] && LastUnique(files[1..]) == [outs[1]];
  }

  /** If m links x too, before them, its list has the right contents in the wrong order. */
  lemma OrderFails(outs: seq<Path>, g: Graph<()>)
    requires |outs| == 4 && outs[0] != outs[1] == outs[2]
    requires g == SharedFile([Edge((), 0), Edge((), 1), Edge((), 2)])
    ensures Sized(outs, g) && FileOrder(outs, g, 3) == [outs[0], outs[1]]
    ensures Exact(outs, g, 3) && !InLinkOrder(outs, g, 3, FileOrder(outs, g, 3))
  {
    var files, s := DepFiles(outs, g, 3), [outs[0], outs[1]];
    assert g[3] == [Edge((), 0), Edge((), 1), Edge((), 2)] && files == [outs[0], outs[1], outs[1]];
    assert FileOrder(outs, g, 3) == LastUnique(files) by {
      assert outs[g[3][2].child] == outs[g[3][1].child];
      EmptyLists(outs, g, 3);
    }
    assert LastUnique(files) == s by {
      assert files[1..][1..] == [outs[1]] && LastUnique(files[1..][1..]) == [outs[1]];
    }
    SharedDependencies(outs, g);
    assert outs[1] == s[1] && outs[0] == s[0];
  }

  lemma SharedDependencies(outs: seq<Path>, g: Graph<()>)
    requires |outs| == 4 && g == SharedFile([Edge((), 0), Edge((), 1), Edge((), 2)]) && outs[1] == outs[2]
    ensures Sized(outs, g) && DependsOn(g, 3, 1) && DependsOn(g, 1, 0)
    ensures forall f :: DependsOnFile(outs, g, 3, f) <==> f in [outs[0], outs[1]]
  {
    assert g[3] == [Edge((), 0), Edge((), 1), Edge((), 2)];
    DependsOnStep(outs, g, 3, 0);
    DependsOnStep(outs, g, 3, 1);
    DependsOnStep(outs, g, 1, 0);
    forall y | DependsOn(g, 3, y) ensures y < 3 {
      DependenciesAreBelow(g, 3, y);
    }
  }

  lemma {:induction false} DependenciesAreBelow(g: Graph<()>, a: nat, b: nat)
    requires Acyclic(g) && DependsOn(g, a, b)
    ensures b < a
    decreases a
  {
    ReachesUncons(g, Any, a, b);
    var c :| Step(g, Any, a, c) && (c == b || Reaches(g, Any, c, b));
    if c != b {
      DependenciesAreBelow(g, c, b);
    }
  }

  /*** Linking modules one by one ***/

  /** The edges of a module, by number, are its static dependencies and then, in order, the static
      variants of those shared dependencies that have one. */
  ghost predicate Links(mods: seq<Module>, edges: seq<Edge<()>>, staticDeps: seq<Module>, sharedDeps: seq<Module>) {
    && |staticDeps| <= |edges|
    && (forall i :: 0 <= i < |edges| ==> edges[i].child < |mods|)
    && (forall i :: 0 <= i < |staticDeps| ==> mods[edges[i].child] == staticDeps[i])
    && exists ks: seq<nat> :: LinksVariants(mods, edges[|staticDeps|..], sharedDeps, ks)
  }

  ghost predicate LinksVariants(mods: seq<Module>, edges: seq<Edge<()>>, sharedDeps: seq<Module>, ks: seq<nat>) {
    && Picks(sharedDeps, HasVariant, ks) && |ks| == |edges|
    && forall i :: 0 <= i < |edges| ==>
         edges[i].child < |mods| && ks[i] < |sharedDeps| && mods[edges[i].child] == sharedDeps[ks[i]].staticVariant
  }

  ghost predicate AreLinked(mods: seq<Module>, edges: seq<Edge<()>>, ms: seq<Module>) {
    |ms| == |edges| && forall i :: 0 <= i < |ms| ==> edges[i].child < |mods| && ms[i] == mods[edges[i].child]
  }

  lemma LinkedModules(mods: seq<Module>, edges: seq<Edge<()>>, staticDeps: seq<Module>, sharedDeps: seq<Module>)
    requires Links(mods, edges, staticDeps, sharedDeps)
    ensures AreLinked(mods, edges, staticDeps + Analogues(sharedDeps))
  {
    var rest := edges[|staticDeps|..];
    var ks: seq<nat> :| LinksVariants(mods, rest, sharedDeps, ks);
    AnaloguesAre(sharedDeps, ks);
    assert forall i :: |staticDeps| <= i < |edges| ==> edges[i] == rest[i - |staticDeps|];
  }

  /** The lists that the graph determines, by module number. */
  ghost function Targets(outs: seq<Path>, g: Graph<()>): (r: seq<seq<Path>>)
    requires Sized(outs, g)
    ensures |r| == |g| && forall m :: 0 <= m < |g| ==> r[m] == FileOrder(outs, g, m)
  {
    seq(|g|, m requires 0 <= m < |g| => FileOrder(outs, g, m))
  }

  ghost predicate Done(mods: seq<Module>, targets: seq<seq<Path>>, edges: seq<Edge<()>>)
    requires |mods| == |targets|
    reads mods`depsInLinkOrder
  {
    forall i :: 0 <= i < |edges| ==>
      edges[i].child < |mods| && mods[edges[i].child].depsInLinkOrder == targets[edges[i].child]
  }

  lemma {:induction false} TableIsFileTable(mods: seq<Module>, outs: seq<Path>, g: Graph<()>, m: nat,
                                            ms: seq<Module>, k: nat)
    requires Sized(outs, g) && outs == Files(mods) && m < |g| && AreLinked(mods, g[m], ms) && k <= |ms|
    requires Done(mods, Targets(outs, g), g[m])
    ensures Table(ms[..k]) == FileTable(outs, g, m, k)
  {
    if k > 0 {
      assert ms[..k][..k - 1] == ms[..k - 1];
      TableIsFileTable(mods, outs, g, m, ms, k - 1);
    }
  }

  lemma ListOfModules(mods: seq<Module>, outs: seq<Path>, g: Graph<()>, m: nat, ms: seq<Module>)
    requires Sized(outs, g) && outs == Files(mods) && m < |g| && AreLinked(mods, g[m], ms)
    requires Done(mods, Targets(outs, g), g[m])
    ensures LastUnique(Expand(Files(ms), Table(ms))) == Targets(outs, g)[m]
  {
    TableIsFileTable(mods, outs, g, m, ms, |ms|);
    assert ms[..|ms|] == ms;
    FilesAreDepFiles(mods, outs, g, m, ms);
  }

  lemma FilesAreDepFiles(mods: seq<Module>, outs: seq<Path>, g: Graph<()>, m: nat, ms: seq<Module>)
    requires Sized(outs, g) && outs == Files(mods) && m < |g| && AreLinked(mods, g[m], ms)
    ensures Files(ms) == DepFiles(outs, g, m)
  {}

  /** One call of orderStaticModuleDeps, on a module whose dependencies are done. */
  lemma OrderedIsFileOrder(mods: seq<Module>, outs: seq<Path>, g: Graph<()>, m: nat,
                           staticDeps: seq<Module>, sharedDeps: seq<Module>)
    requires Sized(outs, g) && outs == Files(mods) && m < |g| && Links(mods, g[m], staticDeps, sharedDeps)
    requires Done(mods, Targets(outs, g), g[m])
    ensures Ordered(staticDeps, sharedDeps) == Targets(outs, g)[m]
  {
    LinkedModules(mods, g[m], staticDeps, sharedDeps);
    ListOfModules(mods, outs, g, m, staticDeps + Analogues(sharedDeps));
  }

  /** The schedule visits every module after the modules it links. */
  ghost predicate BottomUp(g: Graph<()>, schedule: seq<nat>)
    requires Below(schedule, |g|)
  {
    forall k :: 0 <= k < |schedule| ==> DepsIn(g, schedule[k], schedule[..k])
  }

  ghost predicate DepsIn(g: Graph<()>, m: nat, done: seq<nat>)
    requires m < |g|
  {
    forall i :: 0 <= i < |g[m]| ==> g[m][i].child in done
  }

  /** The modules in `done` have their target lists, the others have those they started with. */
  ghost predicate PartlyLinked(mods: seq<Module>, targets: seq<seq<Path>>, lists: seq<seq<Path>>, done: seq<nat>)
    requires |mods| == |targets| == |lists|
    reads mods`depsInLinkOrder
  {
    forall m :: 0 <= m < |mods| ==> mods[m].depsInLinkOrder == if m in done then targets[m] else lists[m]
  }

  /** orderStaticModuleDeps on module number m, when its dependencies are done. */
  method LinkOne(mods: seq<Module>, ghost g: Graph<()>, ghost targets: seq<seq<Path>>, ghost lists: seq<seq<Path>>,
                 ghost done: seq<nat>, m: nat, staticDeps: seq<Module>, sharedDeps: seq<Module>)
    requires Acyclic(g) && m < |g| == |mods| == |lists| && NoDup(mods) && targets == Targets(Files(mods), g)
    requires Links(mods, g[m], staticDeps, sharedDeps) && DepsIn(g, m, done)
    requires PartlyLinked(mods, targets, lists, done)
    modifies {mods[m]}`depsInLinkOrder
    ensures PartlyLinked(mods, targets, lists, done + [m])
  {
    ghost var outs := Files(mods);
    assert Done(mods, targets, g[m]);
    OrderedIsFileOrder(mods, outs, g, m, staticDeps, sharedDeps);
    var _ := OrderStaticModuleDeps(mods[m], staticDeps, sharedDeps);
    assert forall x :: 0 <= x < |mods| && x != m ==> mods[x] != mods[m];
  }

  /** The graph has the link dependencies of all modules. */
  ghost predicate AllLink(mods: seq<Module>, g: Graph<()>, staticDeps: seq<seq<Module>>, sharedDeps: seq<seq<Module>>)
    requires |g| == |mods| == |staticDeps| == |sharedDeps|
  {
    forall m :: 0 <= m < |mods| ==> Links(mods, g[m], staticDeps[m], sharedDeps[m])
  }

  /** GenerateAndroidBuildActions over a whole graph, in any bottom-up order: every module ends with
      the list that the graph determines, and modules outside the schedule keep their lists. */
  method LinkAll(mods: seq<Module>, ghost g: Graph<()>, staticDeps: seq<seq<Module>>, sharedDeps: seq<seq<Module>>,
                 schedule: seq<nat>)
    requires Acyclic(g) && |g| == |mods| == |staticDeps| == |sharedDeps| && NoDup(mods)
    requires AllLink(mods, g, staticDeps, sharedDeps) && Below(schedule, |mods|) && BottomUp(g, schedule)
    modifies mods`depsInLinkOrder
    ensures PartlyLinked(mods, Targets(Files(mods), g), old(ListsOf(mods)), schedule)
  {
    ghost var targets, lists := Targets(Files(mods), g), ListsOf(mods);
    for k := 0 to |schedule|
      invariant PartlyLinked(mods, targets, lists, schedule[..k])
    {
      var m := schedule[k];
      assert DepsIn(g, m, schedule[..k]) && Links(mods, g[m], staticDeps[m], sharedDeps[m]);
      TakeNext(schedule, k);
      LinkOne(mods, g, targets, lists, schedule[..k], m, staticDeps[m], sharedDeps[m]);
    }
    assert schedule[..|schedule|] == schedule;
  }

  ghost function ListsOf(mods: seq<Module>): (r: seq<seq<Path>>)
    reads mods`depsInLinkOrder
    ensures |r| == |mods| && forall i :: 0 <= i < |mods| ==> r[i] == mods[i].depsInLinkOrder
  {
    if mods == [] then [] else ListsOf(mods[..|mods| - 1]) + [mods[|mods| - 1].depsInLinkOrder]
  }
}
