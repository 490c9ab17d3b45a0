/** Propagation of link-time optimisation: ltoDepsMutator and ltoMutator of cc/lto.go. */
module Lto {
  import opened DepGraph
  import opened Options

  /** The `lto` properties of a module; an unset property counts as false. */
  datatype Props = Props(never: bool, full: bool, thin: bool)

  datatype Tag = StaticDep | StaticExportDep | LateStaticDep | WholeStaticDep | ObjDep | ReuseObj | OtherDep

  /** The tags that ltoDepsMutator follows. */
  const STATIC_TAGS := [StaticDep, StaticExportDep, LateStaticDep, WholeStaticDep, ObjDep, ReuseObj]

  /** The modules whose FullDep, and whose ThinDep, is true. */
  datatype Marks = Marks(full: set<nat>, thin: set<nat>)

  /** `lto(m)` is None when m is not a cc module or has no lto member. */
  datatype World = World(g: Graph<Tag>, android: nat -> bool, lto: nat -> Option<Props>) {
    /** lto.LTO() */
    predicate IsLto(m: nat) {
      lto(m).Some? && !lto(m).value.never && (lto(m).value.full || lto(m).value.thin)
    }

    predicate CanBeMarked(d: nat) {
      lto(d).Some? && !lto(d).value.never
    }

    /** The edges along which the walk goes on. */
    predicate Static(e: Edge<Tag>) {
      e.tag != OtherDep && android(e.child)
    }

    /** The visitor of ltoDepsMutator for a module with the given kinds. */
    function Visit(full: bool, thin: bool): Visitor<Marks, Tag> {
      (s: Marks, path: seq<nat>, e: Edge<Tag>) =>
        if e.tag in STATIC_TAGS then (Mark(full, thin, s, e.child), true) else (s, false)
    }

    function Mark(full: bool, thin: bool, s: Marks, d: nat): Marks {
      if CanBeMarked(d) then
        Marks(if full && !lto(d).value.full then s.full + {d} else s.full,
              if thin && !lto(d).value.thin then s.thin + {d} else s.thin)
      else s
    }

    /** Among `ds`, the modules that a full (thin) LTO user marks. */
    ghost function FullMarks(ds: set<nat>): set<nat> {
      set d | d in ds && CanBeMarked(d) && !lto(d).value.full
    }

    ghost function ThinMarks(ds: set<nat>): set<nat> {
      set d | d in ds && CanBeMarked(d) && !lto(d).value.thin
    }
  }

  /** The marks after a user of the given kinds asked for `ds`. */
  ghost function Grow(w: World, full: bool, thin: bool, s: Marks, ds: set<nat>): Marks {
    Marks(s.full + (if full then w.FullMarks(ds) else {}), s.thin + (if thin then w.ThinMarks(ds) else {}))
  }

  lemma GrowUnion(w: World, full: bool, thin: bool, s: Marks, a: set<nat>, b: set<nat>)
    ensures Grow(w, full, thin, Grow(w, full, thin, s, a), b) == Grow(w, full, thin, s, a + b)
  {
    assert w.FullMarks(a + b) == w.FullMarks(a) + w.FullMarks(b);
    assert w.ThinMarks(a + b) == w.ThinMarks(a) + w.ThinMarks(b);
  }

  lemma GrowOne(w: World, full: bool, thin: bool, s: Marks, d: nat)
    ensures w.Mark(full, thin, s, d) == Grow(w, full, thin, s, {d})
  {
    assert w.FullMarks({d}) == if w.CanBeMarked(d) && !w.lto(d).value.full then {d} else {};
    assert w.ThinMarks({d}) == if w.CanBeMarked(d) && !w.lto(d).value.thin then {d} else {};
  }

  lemma WalkStep(w: World, full: bool, thin: bool, path: seq<nat>, k: nat, s: Marks)
    requires Acyclic(w.g) && |path| > 0 && path[|path| - 1] < |w.g| && k < |w.g[path[|path| - 1]]|
    ensures var e, v := w.g[path[|path| - 1]][k], w.Visit(full, thin);
            Walk(w.g, w.android, v, path, k, s) ==
            if w.Static(e) then
              Walk(w.g, w.android, v, path, k + 1,
                   Walk(w.g, w.android, v, path + [e.child], 0, w.Mark(full, thin, s, e.child)))
            else Walk(w.g, w.android, v, path, k + 1, s)
  {}

  lemma {:induction false} WalkMarks(w: World, full: bool, thin: bool, path: seq<nat>, k: nat, s: Marks)
    requires Acyclic(w.g) && |path| > 0 && path[|path| - 1] < |w.g| && k <= |w.g[path[|path| - 1]]|
    ensures Walk(w.g, w.android, w.Visit(full, thin), path, k, s) ==
            Grow(w, full, thin, s, Reached(w.g, w.Static, path[|path| - 1], k))
    decreases path[|path| - 1], |w.g[path[|path| - 1]]| - k
  {
    var m := path[|path| - 1];
    if k == |w.g[m]| {
      assert Grow(w, full, thin, s, {}) == s;
    } else {
      var e := w.g[m][k];
      WalkStep(w, full, thin, path, k, s);
      if w.Static(e) {
        var s1 := w.Mark(full, thin, s, e.child);
        var below := Reached(w.g, w.Static, e.child, 0);
        GrowOne(w, full, thin, s, e.child);
        WalkMarks(w, full, thin, path + [e.child], 0, s1);
        GrowUnion(w, full, thin, s, {e.child}, below);
        var s2 := Grow(w, full, thin, s1, below);
        WalkMarks(w, full, thin, path, k + 1, s2);
        GrowUnion(w, full, thin, s, {e.child} + below, Reached(w.g, w.Static, m, k + 1));
      } else {
        WalkMarks(w, full, thin, path, k + 1, s);
        assert {} + Reached(w.g, w.Static, m, k + 1) == Reached(w.g, w.Static, m, k);
      }
    }
  }

  /** The marks after module m asked its static dependencies for bitcode. */
  ghost function Marked(w: World, m: nat, marks: Marks): Marks
    requires Acyclic(w.g) && m < |w.g|
  {
    if !w.IsLto(m) then marks else
      Grow(w, w.lto(m).value.full, w.lto(m).value.thin, marks, Reached(w.g, w.Static, m, 0))
  }

  /** Some scheduled full (thin) LTO module reaches d over static dependencies. */
  ghost predicate WantedFull(w: World, schedule: seq<nat>, d: nat) {
    exists m :: m in schedule && w.lto(m).Some? && !w.lto(m).value.never && w.lto(m).value.full &&
                Reaches(w.g, w.Static, m, d)
  }

  ghost predicate WantedThin(w: World, schedule: seq<nat>, d: nat) {
    exists m :: m in schedule && w.lto(m).Some? && !w.lto(m).value.never && w.lto(m).value.thin &&
                Reaches(w.g, w.Static, m, d)
  }

  /** FullDep and ThinDep are set exactly where they should be. */
  ghost predicate MarksCorrect(w: World, schedule: seq<nat>, marks: Marks) {
    && (forall d :: d in marks.full <==>
          WantedFull(w, schedule, d) && w.CanBeMarked(d) && !w.lto(d).value.full)
    && (forall d :: d in marks.thin <==>
          WantedThin(w, schedule, d) && w.CanBeMarked(d) && !w.lto(d).value.thin)
  }

  lemma MarkedCorrect(w: World, schedule: seq<nat>, m: nat, marks: Marks)
    requires Acyclic(w.g) && m < |w.g| && MarksCorrect(w, schedule, marks)
    ensures MarksCorrect(w, schedule + [m], Marked(w, m, marks))
  {
    var ds := Reached(w.g, w.Static, m, 0);
    ReachedIsReaches(w.g, w.Static, m);
    var r := Marked(w, m, marks);
    forall d: nat
      ensures WantedFull(w, schedule + [m], d) <==>
              WantedFull(w, schedule, d) || (w.IsLto(m) && w.lto(m).value.full && d in ds)
      ensures WantedThin(w, schedule + [m], d) <==>
              WantedThin(w, schedule, d) || (w.IsLto(m) && w.lto(m).value.thin && d in ds)
    {
      assert m in schedule + [m];
      assert forall x :: x in schedule + [m] <==> x in schedule || x == m;
    }
  }

  /** The fields FullDep and ThinDep of all modules, as the sets of modules that have them set. */
  class LtoModules {
    var fullDep: set<nat>
    var thinDep: set<nat>

    ghost function View(): Marks
      reads this
    {
      Marks(fullDep, thinDep)
    }

    constructor ()
      ensures View() == Marks({}, {})
    {
      fullDep, thinDep := {}, {};
    }

    /** ltoDepsMutator on module m, and whether it reports an error. */
    method LtoDepsMutator(w: World, m: nat) returns (error: bool)
      requires Acyclic(w.g) && m < |w.g|
      modifies this
      ensures View() == Marked(w, m, old(View()))
      ensures error <==> w.IsLto(m) && w.lto(m).value.full && w.lto(m).value.thin
    {
      error := false;
      if w.IsLto(m) {
        var full, thin := w.lto(m).value.full, w.lto(m).value.thin;
        if full && thin {
          error := true;
        }
        var ctx := new BaseModuleContext<Marks>(Marks(fullDep, thinDep));
        ctx.WalkDeps(w.g, w.android, w.Visit(full, thin), m);
        WalkMarks(w, full, thin, [m], 0, View());
        fullDep, thinDep := ctx.state.full, ctx.state.thin;
      }
    }

    /** The mutator on all modules of a schedule, in any order. */
    method RunLtoDeps(w: World, schedule: seq<nat>)
      requires Acyclic(w.g) && forall i :: 0 <= i < |schedule| ==> schedule[i] < |w.g|
      requires View() == Marks({}, {})
      modifies this
      ensures MarksCorrect(w, schedule, View())
    {
      for i := 0 to |schedule|
        invariant MarksCorrect(w, schedule[..i], View())
      {
        MarkedCorrect(w, schedule[..i], schedule[i], View());
        var _ := LtoDepsMutator(w, schedule[i]);
        assert schedule[..i + 1] == schedule[..i] + [schedule[i]];
      }
      assert schedule[..|schedule|] == schedule;
    }
  }

  /** The marks do not depend on the order in which modules run. */
  lemma MarksOrderIndependent(w: World, a: seq<nat>, b: seq<nat>, ma: Marks, mb: Marks)
    requires MarksCorrect(w, a, ma) && MarksCorrect(w, b, mb)
    requires forall m :: m in a <==> m in b
    ensures ma == mb
  {
    forall d: nat
      ensures WantedFull(w, a, d) <==> WantedFull(w, b, d)
      ensures WantedThin(w, a, d) <==> WantedThin(w, b, d)
    {}
    assert ma.full == mb.full;
    assert ma.thin == mb.thin;
  }

  /*** ltoMutator ***/

  /** A variant of a module after ltoMutator. */
  datatype Variant = Variant(name: string, props: Props, fullDep: bool, thinDep: bool, hidden: bool)

  /** The variants that a module with properties p needs, the original one first. */
  function Variants(p: Props, fullDep: bool, thinDep: bool): seq<Variant> {
    [Variant("", p, fullDep, thinDep, false)] +
    (if fullDep && !p.full then [Variant("lto-full", Props(p.never, true, false), false, false, true)] else []) +
    (if thinDep && !p.thin then [Variant("lto-thin", Props(p.never, false, true), false, false, true)] else [])
  }

  /** The names that a module with properties p gives to SetDependencyVariation. */
  function Asked(p: Props): seq<string> {
    (if p.full then ["lto-full"] else []) + (if p.thin then ["lto-thin"] else [])
  }

  /** ltoMutator on a cc module with properties p and the given marks: the variants, and the names
      given to SetDependencyVariation. */
  method LtoMutator(p: Props, fullDep: bool, thinDep: bool) returns (variants: seq<Variant>, dependencies: seq<string>)
    ensures variants == Variants(p, fullDep, thinDep)
    ensures dependencies == Asked(p)
    ensures "lto-full" in dependencies <==> p.full
    ensures "lto-thin" in dependencies <==> p.thin
  {
    dependencies := [];
    if p.full {
      dependencies := dependencies + ["lto-full"];
    }
    if p.thin {
      dependencies := dependencies + ["lto-thin"];
    }
    var variationNames := [""];
    if fullDep && !p.full {
      variationNames := variationNames + ["lto-full"];
    }
    if thinDep && !p.thin {
      variationNames := variationNames + ["lto-thin"];
    }
    variants := CreateVariations(p, fullDep, thinDep, variationNames);
  }

  /** What becomes of the variation with a given name. */
  function VariationOf(p: Props, fullDep: bool, thinDep: bool, name: string): Variant {
    if name == "" then Variant("", p, fullDep, thinDep, false)
    else Variant(name, Props(p.never, name == "lto-full", name != "lto-full"), false, false, true)
  }

  method CreateVariations(p: Props, fullDep: bool, thinDep: bool, variationNames: seq<string>)
    returns (variants: seq<Variant>)
    requires forall i :: 0 <= i < |variationNames| ==> variationNames[i] in ["", "lto-full", "lto-thin"]
    ensures |variants| == |variationNames|
    ensures forall i :: 0 <= i < |variants| ==> variants[i] == VariationOf(p, fullDep, thinDep, variationNames[i])
  {
    variants := [];
    for i := 0 to |variationNames|
      invariant |variants| == i
      invariant forall j :: 0 <= j < i ==> variants[j] == VariationOf(p, fullDep, thinDep, variationNames[j])
    {
      var name := variationNames[i];
      var variation := Variant(name, p, fullDep, thinDep, false);
      if name != "" {
        if name == "lto-full" {
          variation := variation.(props := Props(p.never, true, false));
        }
        if name == "lto-thin" {
          variation := variation.(props := Props(p.never, false, true));
        }
        variation := variation.(hidden := true, fullDep := false, thinDep := false);
      }
      variants := variants + [variation];
    }
  }

  /** v is built as bitcode of the given kind. */
  predicate Bitcode(v: Variant, full: bool) {
    !v.props.never && if full then v.props.full else v.props.thin
  }

  predicate OfKind(p: Props, full: bool) {
    if full then p.full else p.thin
  }

  /** The point of both mutators: when an LTO module is linked, every static dependency it reaches
      that is not opted out is bitcode of the module's kind: the variant of the name that the module
      asks for, or the original one if the dependency is of that kind itself. */
  lemma StaticDepsHaveBitcode(w: World, schedule: seq<nat>, marks: Marks, m: nat, d: nat, full: bool)
    requires MarksCorrect(w, schedule, marks)
    requires m in schedule && w.IsLto(m) && Reaches(w.g, w.Static, m, d) && w.CanBeMarked(d)
    requires OfKind(w.lto(m).value, full)
    ensures var name := if full then "lto-full" else "lto-thin";
            && name in Asked(w.lto(m).value)
            && exists v :: v in Variants(w.lto(d).value, d in marks.full, d in marks.thin) && Bitcode(v, full) &&
                           v.name == if OfKind(w.lto(d).value, full) then "" else name
  {
    var vs := Variants(w.lto(d).value, d in marks.full, d in marks.thin);
    assert if full then WantedFull(w, schedule, d) else WantedThin(w, schedule, d);
    if OfKind(w.lto(d).value, full) {
      assert Bitcode(vs[0], full) && vs[0].name == "";
    } else {
      var name := if full then "lto-full" else "lto-thin";
      assert (Bitcode(vs[1], full) && vs[1].name == name) || (Bitcode(vs[2], full) && vs[2].name == name);
    }
  }

  /** Nothing is built for LTO without need: an extra bitcode variant exists only if some LTO module
      of that kind reaches the module statically. */
  lemma BitcodeVariantsAreWanted(w: World, schedule: seq<nat>, marks: Marks, d: nat, i: nat)
    requires MarksCorrect(w, schedule, marks) && w.lto(d).Some?
    requires 0 < i < |Variants(w.lto(d).value, d in marks.full, d in marks.thin)|
    ensures var original := Variants(w.lto(d).value, d in marks.full, d in marks.thin)[0];
            original.props == w.lto(d).value && !original.hidden && original.name == ""
    ensures var v := Variants(w.lto(d).value, d in marks.full, d in marks.thin)[i];
            && v.hidden && !v.fullDep && !v.thinDep && v.props.full != v.props.thin && Bitcode(v, v.props.full)
            && (v.name == "lto-full" <==> v.props.full) && (v.name == "lto-thin" <==> v.props.thin)
            && if v.props.full then WantedFull(w, schedule, d) else WantedThin(w, schedule, d)
  {
    assert d in marks.full || d in marks.thin;
  }
}
