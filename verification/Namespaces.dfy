/** The namespace resolver of android/namespace.go.

    A directory is the list of its path components; the source directory "." is the empty list, so
    filepath.Dir drops the last component.  A namespace is identified by its directory, since no two
    are accepted for the same one.  `looked` is a history: the directories looked up so far.
 */
module Namespaces {
  import opened Options

  type Dir = seq<string>

  datatype State = State(
    items: seq<Dir>,            // sortedNamespaces.items
    sorted: bool,               // sortedNamespaces.sorted
    byDir: map<Dir, Dir>,       // namespacesByDir
    looked: set<Dir>)

  datatype Outcome = Added | AlreadyExists | NotFirstInFile | PanicAfterSort

  /** filepath.Dir */
  function Parent(d: Dir): Dir {
    if d == [] then [] else d[..|d| - 1]
  }

  /** The reference: the closest declared directory at or above d. */
  function Closest(items: seq<Dir>, d: Dir): (r: Dir)
    ensures r <= d
    decreases |d|
  {
    if d in items || d == [] then d else Closest(items, Parent(d))
  }

  /** NewNameResolver: only the root namespace is declared. */
  function Init(): State {
    State([[]], false, map[[] := []], {})
  }

  /** addNamespace */
  function Declare(s: State, d: Dir): (State, Outcome) {
    if d in s.byDir then (s, if s.byDir[d] == d then AlreadyExists else NotFirstInFile)
    else if s.sorted then (s, PanicAfterSort)
    else (s.(items := s.items + [d], byDir := s.byDir[d := d]), Added)
  }

  /** findNamespace: the cache after looking up d. */
  function Cached(byDir: map<Dir, Dir>, d: Dir): (r: map<Dir, Dir>)
    ensures d != [] || [] in byDir ==> d in r
    ensures forall x :: x in byDir ==> x in r && r[x] == byDir[x]
    decreases |d|
  {
    if d in byDir || d == [] then byDir else
      var r := Cached(byDir, Parent(d));
      r[d := if Parent(d) in r then r[Parent(d)] else []]
  }

  function Lookup(s: State, d: Dir): State {
    s.(byDir := Cached(s.byDir, d), looked := s.looked + {d})
  }

  /** The closest declared directory is declared, and no longer declared one lies above d. */
  lemma {:induction false} ClosestIsLongest(items: seq<Dir>, d: Dir)
    requires [] in items
    ensures Closest(items, d) in items && Closest(items, d) <= d
    ensures forall x :: x in items && x <= d ==> |x| <= |Closest(items, d)|
    decreases |d|
  {
    if d !in items && d != [] {
      ClosestIsLongest(items, Parent(d));
      forall x | x in items && x <= d ensures x <= Parent(d) {
        assert |x| == |d| ==> x == d;
      }
    }
  }

  /*** The invariant ***/

  /** d is cached because it lies between a directory looked up and that directory's namespace. */
  ghost predicate Between(items: seq<Dir>, looked: set<Dir>, d: Dir) {
    exists l :: l in looked && d <= l && |Closest(items, l)| < |d|
  }

  ghost predicate Ok(s: State) {
    && [] in s.items
    && (forall d :: d in s.items ==> d in s.byDir)
    && (forall d :: d in s.byDir ==> s.byDir[d] == Closest(s.items, d))
    && (forall d :: d in s.byDir && d !in s.items ==> Parent(d) in s.byDir)
    && (forall d :: d in s.byDir ==> d in s.items || Between(s.items, s.looked, d))
    && (forall d :: d in s.looked ==> d in s.byDir)
  }

  /** Declaring p changes the answer for l exactly if p lies between l and its namespace. */
  lemma {:induction false} ClosestAfterDeclare(items: seq<Dir>, p: Dir, l: Dir)
    requires p !in items && p != []
    ensures Closest(items + [p], l) == if p <= l && |Closest(items, l)| < |p| then p else Closest(items, l)
    decreases |l|
  {
    if l != p && l !in items && l != [] {
      ClosestAfterDeclare(items, p, Parent(l));
      assert p <= l ==> p <= Parent(l);
    } else if l == p {
      assert Closest(items, l) == Closest(items, Parent(l));
    }
  }

  /** The directories between a cached one and its namespace are cached. */
  lemma {:induction false} ChainCached(s: State, l: Dir, p: Dir)
    requires Ok(s) && l in s.byDir && p <= l && |Closest(s.items, l)| < |p|
    ensures p in s.byDir && p !in s.items
    decreases |l|
  {
    if l != p {
      ChainCached(s, Parent(l), p);
    }
  }

  lemma DeclareOk(s: State, p: Dir)
    requires Ok(s)
    ensures Ok(Declare(s, p).0)
    ensures Declare(s, p).1.Added? ==>
              forall d :: d in s.byDir ==> Closest(s.items + [p], d) == Closest(s.items, d)
  {
    var s' := Declare(s, p).0;
    if Declare(s, p).1.Added? {
      assert p !in s.items && p != [];
      forall d | d in s.byDir ensures Closest(s'.items, d) == Closest(s.items, d) {
        ClosestAfterDeclare(s.items, p, d);
        if p <= d && |Closest(s.items, d)| < |p| {
          ChainCached(s, d, p);
        }
      }
      forall d | d in s'.byDir && d !in s'.items ensures Between(s'.items, s'.looked, d) {
        assert Between(s.items, s.looked, d);
        var l :| l in s.looked && d <= l && |Closest(s.items, l)| < |d|;
        assert Closest(s'.items, l) == Closest(s.items, l);
      }
    }
  }

  /** The entries that a lookup of d adds: the directories between d and its namespace. */
  lemma {:induction false} CachedEntries(s: State, d: Dir)
    requires Ok(s)
    ensures var c := Cached(s.byDir, d);
            && d in c
            && (forall x :: x in c ==> x in s.byDir || (x <= d && |Closest(s.items, d)| < |x|))
            && (forall x :: x in c ==> c[x] == Closest(s.items, x))
            && (forall x :: x in c && x !in s.items ==> Parent(x) in c)
    decreases |d|
  {
    if d !in s.byDir {
      assert d != [] && d !in s.items;
      CachedEntries(s, Parent(d));
    }
  }

  lemma LookupOk(s: State, d: Dir)
    requires Ok(s)
    ensures Ok(Lookup(s, d)) && Lookup(s, d).byDir[d] == Closest(s.items, d)
  {
    var s' := Lookup(s, d);
    CachedEntries(s, d);
    forall x | x in s'.byDir && x !in s'.items ensures Between(s'.items, s'.looked, x) {
      if x in s.byDir {
        assert Between(s.items, s.looked, x);
      } else {
        assert d in s'.looked;
      }
    }
  }

  /** A declaration is rejected exactly if the directory already has a namespace, or if it would
      change the answer for a directory that was looked up before. */
  lemma RejectedIffItWouldMatter(s: State, p: Dir)
    requires Ok(s)
    ensures p in s.byDir <==>
            p in s.items || exists l :: l in s.looked && Closest(s.items + [p], l) != Closest(s.items, l)
    ensures Declare(s, p).1.AlreadyExists? <==> p in s.items
    ensures Declare(s, p).1.NotFirstInFile? <==>
            p !in s.items && exists l :: l in s.looked && Closest(s.items + [p], l) != Closest(s.items, l)
  {
    if p !in s.items {
      forall l | l in s.looked
        ensures Closest(s.items + [p], l) != Closest(s.items, l) <==> p <= l && |Closest(s.items, l)| < |p|
      {
        ClosestAfterDeclare(s.items, p, l);
      }
      if p in s.byDir {
        var l :| l in s.looked && p <= l && |Closest(s.items, l)| < |p|;
        assert Closest(s.items + [p], l) != Closest(s.items, l);
      }
      if l :| l in s.looked && Closest(s.items + [p], l) != Closest(s.items, l) {
        ChainCached(s, l, p);
      }
    }
  }

  /** An accepted declaration makes the directory a namespace; a rejected one changes nothing. A new
      one is rejected with a panic exactly if it comes after sorting. */
  lemma DeclareOutcome(s: State, p: Dir)
    requires Ok(s)
    ensures var (s', outcome) := Declare(s, p);
            && (outcome.PanicAfterSort? <==> s.sorted && p !in s.byDir)
            && (outcome.Added? ==> Closest(s'.items, p) == p && p !in s.items)
            && (forall x :: x in s'.items <==> x in s.items || (outcome.Added? && x == p))
            && (!outcome.Added? ==> s' == s) && s'.sorted == s.sorted && s'.looked == s.looked
  {}

  /*** Runs ***/

  datatype Op = DeclareOp(dir: Dir) | LookupOp(dir: Dir) | SortOp

  function Step(s: State, op: Op): State {
    match op
    case DeclareOp(d) => Declare(s, d).0
    case LookupOp(d) => Lookup(s, d)
    case SortOp => s.(sorted := true)
  }

  function Exec(s: State, ops: seq<Op>): State {
    if ops == [] then s else Step(Exec(s, ops[..|ops| - 1]), ops[|ops| - 1])
  }

  lemma StepOk(s: State, op: Op)
    requires Ok(s)
    ensures Ok(Step(s, op)) && s.looked <= Step(s, op).looked
    ensures forall d :: d in s.byDir ==> d in Step(s, op).byDir && Step(s, op).byDir[d] == s.byDir[d]
  {
    match op
    case DeclareOp(d) => DeclareOk(s, d);
    case LookupOp(d) => LookupOk(s, d);
    case SortOp =>
      var s' := Step(s, op);
      assert forall d :: d in s'.byDir ==> d in s.byDir;
      assert forall d :: Between(s.items, s.looked, d) ==> Between(s'.items, s'.looked, d);
  }

  /** In every run the cache agrees with the closest declared namespace. */
  lemma {:induction false} RunOk(ops: seq<Op>)
    ensures Ok(Exec(Init(), ops))
  {
    if ops == [] {
      assert Init().items[0] == [];
    } else {
      RunOk(ops[..|ops| - 1]);
      StepOk(Exec(Init(), ops[..|ops| - 1]), ops[|ops| - 1]);
    }
  }

  lemma {:induction false} ExecAppend(s: State, a: seq<Op>, b: seq<Op>)
    ensures Exec(s, a + b) == Exec(Exec(s, a), b)
  {
    if b == [] {
      assert a + b == a;
    } else {
      assert (a + b)[..|a + b| - 1] == a + b[..|b| - 1];
      ExecAppend(s, a, b[..|b| - 1]);
    }
  }

  lemma StepStable(s: State, op: Op, d: Dir)
    requires Ok(s) && d in s.looked
    ensures d in Step(s, op).looked && Closest(Step(s, op).items, d) == Closest(s.items, d)
  {
    StepOk(s, op);
  }

  lemma {:induction false} StableFrom(s: State, ops: seq<Op>, d: Dir)
    requires Ok(s) && d in s.looked
    ensures Ok(Exec(s, ops)) && d in Exec(s, ops).looked && Closest(Exec(s, ops).items, d) == Closest(s.items, d)
  {
    if ops != [] {
      var init := ops[..|ops| - 1];
      StableFrom(s, init, d);
      StepOk(Exec(s, init), ops[|ops| - 1]);
      StepStable(Exec(s, init), ops[|ops| - 1], d);
    }
  }

  /** Once a directory has been looked up its namespace never changes, whatever is declared, looked
      up or sorted afterwards. */
  lemma AnswersAreStable(before: seq<Op>, after: seq<Op>, d: Dir)
    requires d in Exec(Init(), before).looked
    ensures Closest(Exec(Init(), before + after).items, d) == Closest(Exec(Init(), before).items, d)
  {
    RunOk(before);
    StableFrom(Exec(Init(), before), after, d);
    ExecAppend(Init(), before, after);
  }

  /** The namespaces are sorted exactly if they were asked for in order. */
  lemma {:induction false} SortedIff(ops: seq<Op>)
    ensures Exec(Init(), ops).sorted <==> SortOp in ops
  {
    if ops != [] {
      SortedIff(ops[..|ops| - 1]);
      assert ops == ops[..|ops| - 1] + [ops[|ops| - 1]];
    }
  }

  /** Nothing is declared after sorting. */
  lemma {:induction false} SortedIsFinal(s: State, ops: seq<Op>)
    requires s.sorted
    ensures Exec(s, ops).sorted && Exec(s, ops).items == s.items
  {
    if ops != [] {
      SortedIsFinal(s, ops[..|ops| - 1]);
    }
  }

  /** Qualified names, "//dir:module", and imports go to the cache and not to the declarations: they
      are found for a directory that was merely looked up, and then mean its closest namespace. */
  lemma QualifiedNamesSeeTheCache(s: State, d: Dir)
    requires Ok(s)
    ensures d in s.byDir <==> d in s.items || Between(s.items, s.looked, d)
    ensures d in s.byDir ==> s.byDir[d] == Closest(s.items, d)
  {
    if d !in s.items && Between(s.items, s.looked, d) {
      var l :| l in s.looked && d <= l && |Closest(s.items, l)| < |d|;
      ChainCached(s, l, d);
    }
  }

  /** A concrete run in which an undeclared directory resolves, only because it was looked up. */
  lemma UndeclaredDirectoryResolves(c: string)
    ensures var d := [c];
            var s := Exec(Init(), [LookupOp(d)]);
            d !in s.items && d in s.byDir && d !in Exec(Init(), []).byDir
  {
    var ops := [LookupOp([c])];
    assert ops[..0] == [];
    assert Exec(Init(), ops) == Lookup(Init(), [c]);
    RunOk([]);
    LookupOk(Init(), [c]);
  }

  /*** The resolver ***/

  class NameResolver {
    var items: seq<Dir>
    var sorted: bool
    var namespacesByDir: map<Dir, Dir>
    ghost var looked: set<Dir>

    ghost function View(): State
      reads this
    {
      State(items, sorted, namespacesByDir, looked)
    }

    constructor ()
      ensures View() == Init() && Ok(View())
    {
      items, sorted, namespacesByDir, looked := [[]], false, map[[] := []], {};
      new;
      RunOk([]);
    }

    /** namespaceAt */
    method NamespaceAt(d: Dir) returns (r: Option<Dir>)
      requires Ok(View())
      ensures r == if d in namespacesByDir then Some(Closest(items, d)) else None
    {
      r := if d in namespacesByDir then Some(namespacesByDir[d]) else None;
    }

    /** addNamespace */
    method AddNamespace(d: Dir) returns (outcome: Outcome)
      requires Ok(View())
      modifies this
      ensures Ok(View()) && (View(), outcome) == Declare(old(View()), d)
    {
      DeclareOk(View(), d);
      var existing := NamespaceAt(d);
      if existing.Some? {
        return if existing.value == d then AlreadyExists else NotFirstInFile;
      }
      if sorted {
        return PanicAfterSort;
      }
      items := items + [d];
      namespacesByDir := namespacesByDir[d := d];
      return Added;
    }

    /** findNamespace */
    method Find(d: Dir) returns (namespace: Dir)
      requires [] in namespacesByDir
      modifies this`namespacesByDir
      ensures namespacesByDir == Cached(old(namespacesByDir), d)
      ensures d in namespacesByDir && namespace == namespacesByDir[d]
      decreases |d|
    {
      if d in namespacesByDir {
        return namespacesByDir[d];
      }
      namespace := Find(Parent(d));
      namespacesByDir := namespacesByDir[d := namespace];
    }

    /** findNamespaceFromCtx: a lookup from outside. */
    method FindNamespace(d: Dir) returns (namespace: Dir)
      requires Ok(View())
      modifies this
      ensures Ok(View()) && View() == Lookup(old(View()), d)
      ensures namespace == Closest(items, d)
    {
      ghost var after := Lookup(View(), d);
      LookupOk(View(), d);
      namespace := Find(d);
      looked := looked + {d};
      assert View() == after;
    }
  }
}
