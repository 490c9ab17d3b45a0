/** Blueprint's module graph and its dependency walk, as Soong uses them.

    A module is its position in Blueprint's sorted module list, so dependencies have smaller
    numbers.  Edges are ordered and tagged.  Blueprint's WalkDeps is a depth-first pre-order walk
    over edges: a module is visited once for every path that the visitor does not cut off.
 */
module DepGraph {

  datatype Edge<T> = Edge(tag: T, child: nat)

  type Graph<T> = seq<seq<Edge<T>>>

  ghost predicate Acyclic<T>(g: Graph<T>) {
    forall m, i :: 0 <= m < |g| && 0 <= i < |g[m]| ==> g[m][i].child < m
  }

  /** All numbers in the list are numbers of the first n modules. */
  ghost predicate Below(ids: seq<nat>, n: nat) {
    forall i :: 0 <= i < |ids| ==> ids[i] < n
  }

  /*** Reachability along the edges that a predicate lets through ***/

  ghost predicate Step<T>(g: Graph<T>, open: Edge<T> -> bool, a: nat, b: nat) {
    a < |g| && exists i :: 0 <= i < |g[a]| && open(g[a][i]) && g[a][i].child == b
  }

  /** p is a nonempty chain of modules joined by open edges. */
  ghost predicate IsPath<T>(g: Graph<T>, open: Edge<T> -> bool, p: seq<nat>) {
    |p| > 0 && (|p| > 1 ==> Step(g, open, p[0], p[1]) && IsPath(g, open, p[1..]))
  }

  /** b is reached from a along at least one open edge. */
  ghost predicate Reaches<T>(g: Graph<T>, open: Edge<T> -> bool, a: nat, b: nat) {
    exists p: seq<nat> :: |p| > 1 && IsPath(g, open, p) && p[0] == a && p[|p| - 1] == b
  }

  lemma ReachesCons<T>(g: Graph<T>, open: Edge<T> -> bool, a: nat, b: nat)
    requires Step(g, open, a, b)
    ensures Reaches(g, open, a, b)
    ensures forall c :: Reaches(g, open, b, c) ==> Reaches(g, open, a, c)
  {
    assert [a, b][1..] == [b];
    assert IsPath(g, open, [a, b]);
    forall c | Reaches(g, open, b, c) ensures Reaches(g, open, a, c) {
      var p: seq<nat> :| |p| > 1 && IsPath(g, open, p) && p[0] == b && p[|p| - 1] == c;
      assert ([a] + p)[1..] == p;
      assert IsPath(g, open, [a] + p);
    }
  }

  lemma {:induction false} PathSnoc<T>(g: Graph<T>, open: Edge<T> -> bool, p: seq<nat>, c: nat)
    requires IsPath(g, open, p) && Step(g, open, p[|p| - 1], c)
    ensures IsPath(g, open, p + [c])
  {
    if |p| > 1 {
      PathSnoc(g, open, p[1..], c);
      assert (p + [c])[1..] == p[1..] + [c];
    } else {
      assert (p + [c])[1..] == [c];
    }
  }

  lemma ReachesSnoc<T>(g: Graph<T>, open: Edge<T> -> bool, a: nat, b: nat, c: nat)
    requires Reaches(g, open, a, b) && Step(g, open, b, c)
    ensures Reaches(g, open, a, c)
  {
    var p: seq<nat> :| |p| > 1 && IsPath(g, open, p) && p[0] == a && p[|p| - 1] == b;
    PathSnoc(g, open, p, c);
    var q := p + [c];
    assert q[0] == a && q[|q| - 1] == c;
  }

  lemma ReachesUncons<T>(g: Graph<T>, open: Edge<T> -> bool, a: nat, c: nat)
    requires Reaches(g, open, a, c)
    ensures exists b :: Step(g, open, a, b) && (b == c || Reaches(g, open, b, c))
  {
    var p: seq<nat> :| |p| > 1 && IsPath(g, open, p) && p[0] == a && p[|p| - 1] == c;
    var b := p[1];
    assert Step(g, open, a, b);
    if |p| > 2 {
      assert IsPath(g, open, p[1..]);
    }
  }

  /** The modules an open walk comes to, from the edges of m with index at least k. */
  ghost function Reached<T>(g: Graph<T>, open: Edge<T> -> bool, m: nat, k: nat): set<nat>
    requires Acyclic(g) && m < |g| && k <= |g[m]|
    decreases m, |g[m]| - k
  {
    if k == |g[m]| then {} else
      var e := g[m][k];
      (if open(e) then {e.child} + Reached(g, open, e.child, 0) else {}) + Reached(g, open, m, k + 1)
  }

  lemma {:induction false} ReachedIsReaches<T>(g: Graph<T>, open: Edge<T> -> bool, m: nat)
    requires Acyclic(g) && m < |g|
    ensures forall x :: x in Reached(g, open, m, 0) <==> Reaches(g, open, m, x)
    decreases m, |g[m]| + 1
  {
    ReachedFrom(g, open, m, 0);
    forall x | Reaches(g, open, m, x) ensures x in Reached(g, open, m, 0) {
      ReachesUncons(g, open, m, x);
    }
  }

  lemma {:induction false} ReachedFrom<T>(g: Graph<T>, open: Edge<T> -> bool, m: nat, k: nat)
    requires Acyclic(g) && m < |g| && k <= |g[m]|
    ensures forall x :: x in Reached(g, open, m, k) ==> Reaches(g, open, m, x)
    ensures forall i, x :: k <= i < |g[m]| && open(g[m][i]) &&
                           (x == g[m][i].child || Reaches(g, open, g[m][i].child, x)) ==>
                           x in Reached(g, open, m, k)
    decreases m, |g[m]| - k
  {
    if k < |g[m]| {
      var e := g[m][k];
      ReachedFrom(g, open, m, k + 1);
      if open(e) {
        ReachedIsReaches(g, open, e.child);
        ReachesCons(g, open, m, e.child);
      }
    }
  }

  /*** The walk ***/

  /** What a visitor is given besides its own state: GetWalkPath() and the edge under visit.  It
      returns its new state and whether to go on into the child. */
  type Visitor<!S, !T> = (S, seq<nat>, Edge<T>) -> (S, bool)

  /** The walk over the edges of the last module of `path`, from index k on.  `path` is the true
      chain of modules that leads to this point of the recursion.  Soong's callback ends the walk
      at modules that are not android modules. */
  ghost function Walk<S, T>(g: Graph<T>, android: nat -> bool, visit: Visitor<S, T>, path: seq<nat>, k: nat, s: S): S
    requires Acyclic(g) && |path| > 0 && path[|path| - 1] < |g| && k <= |g[path[|path| - 1]]|
    decreases path[|path| - 1], |g[path[|path| - 1]]| - k
  {
    var m := path[|path| - 1];
    if k == |g[m]| then s else
      var e := g[m][k];
      if !android(e.child) then Walk(g, android, visit, path, k + 1, s) else
        var inner := path + [e.child];
        var (s1, recurse) := visit(s, inner, e);
        var s2 := if recurse then Walk(g, android, visit, inner, 0, s1) else s1;
        Walk(g, android, visit, path, k + 1, s2)
  }

  /** baseModuleContext with the field walkPath; `state` is what the visitor's closure updates. */
  class BaseModuleContext<S> {
    var walkPath: seq<nat>
    var state: S

    constructor (s: S)
      ensures state == s && walkPath == []
    {
      state := s;
      walkPath := [];
    }

    /** The callback's bookkeeping: cuts walkPath back to `parent` and appends `child`. */
    method Record(child: nat, parent: nat, ghost path: seq<nat>)
      requires path != [] && path[|path| - 1] == parent
      requires path <= walkPath && forall i :: |path| <= i < |walkPath| ==> walkPath[i] != parent
      modifies `walkPath
      ensures walkPath == path + [child]
    {
      while walkPath[|walkPath| - 1] != parent
        invariant path <= walkPath && forall i :: |path| <= i < |walkPath| ==> walkPath[i] != parent
        decreases |walkPath|
      {
        walkPath := walkPath[0..|walkPath| - 1];
      }
      assert |walkPath| == |path|;
      walkPath := walkPath + [child];
    }

    /** Blueprint's recursion with Soong's callback.  However the visitor prunes, walkPath is the
        true path at every visit: the result is that of the walk that is given the true path. */
    method WalkFrom<T>(g: Graph<T>, android: nat -> bool, visit: Visitor<S, T>, m: nat, ghost path: seq<nat>)
      requires Acyclic(g) && m < |g| && path != [] && path[|path| - 1] == m
      requires path <= walkPath && forall i :: |path| <= i < |walkPath| ==> walkPath[i] < m
      modifies this
      ensures path <= walkPath && forall i :: |path| <= i < |walkPath| ==> walkPath[i] < m
      ensures state == Walk(g, android, visit, path, 0, old(state))
      decreases m
    {
      for k := 0 to |g[m]|
        invariant path <= walkPath && forall i :: |path| <= i < |walkPath| ==> walkPath[i] < m
        invariant Walk(g, android, visit, path, k, state) == Walk(g, android, visit, path, 0, old(state))
      {
        var e := g[m][k];
        if android(e.child) {
          Record(e.child, m, path);
          var (s1, recurse) := visit(state, walkPath, e);
          state := s1;
          if recurse {
            WalkFrom(g, android, visit, e.child, path + [e.child]);
          }
        }
      }
    }

    /** baseModuleContext.WalkDeps, started at module `start`. */
    method WalkDeps<T>(g: Graph<T>, android: nat -> bool, visit: Visitor<S, T>, start: nat)
      requires Acyclic(g) && start < |g|
      modifies this
      ensures state == Walk(g, android, visit, [start], 0, old(state))
      ensures walkPath != [] && walkPath[0] == start
    {
      walkPath := [start];
      WalkFrom(g, android, visit, start, [start]);
    }
  }

  /** What a visit is entitled to assume: its path is a chain of dependencies through android
      modules, and ends with the edge under visit. */
  ghost predicate TrueVisit<T>(g: Graph<T>, android: nat -> bool, path: seq<nat>, e: Edge<T>) {
    && |path| > 1 && IsPath(g, Through(android), path)
    && path[|path| - 2] < |g| && e in g[path[|path| - 2]] && e.child == path[|path| - 1]
  }

  /** The edges to android modules. */
  ghost function Through<T>(android: nat -> bool): Edge<T> -> bool {
    (e: Edge<T>) => android(e.child)
  }

  /** No visitor, whatever state it keeps and however it prunes, can tell the walk from one in which
      it is only ever called with true dependency paths from the starting module. */
  lemma {:induction false} WalkSeesOnlyTruePaths<S(!new), T(!new)>(
      g: Graph<T>, android: nat -> bool, v: Visitor<S, T>, w: Visitor<S, T>, path: seq<nat>, k: nat, s: S)
    requires Acyclic(g) && |path| > 0 && path[|path| - 1] < |g| && k <= |g[path[|path| - 1]]|
    requires IsPath(g, Through(android), path)
    requires forall x, p, e :: TrueVisit(g, android, p, e) && path[0] == p[0] ==> v(x, p, e) == w(x, p, e)
    ensures Walk(g, android, v, path, k, s) == Walk(g, android, w, path, k, s)
    decreases path[|path| - 1], |g[path[|path| - 1]]| - k
  {
    var m := path[|path| - 1];
    if k < |g[m]| {
      var e := g[m][k];
      if !android(e.child) {
        WalkSeesOnlyTruePaths(g, android, v, w, path, k + 1, s);
      } else {
        var inner := path + [e.child];
        assert Step(g, Through(android), m, e.child);
        PathSnoc(g, Through(android), path, e.child);
        assert TrueVisit(g, android, inner, e);
        var (s1, recurse) := v(s, inner, e);
        if recurse {
          WalkSeesOnlyTruePaths(g, android, v, w, inner, 0, s1);
        }
        var s2 := if recurse then Walk(g, android, v, inner, 0, s1) else s1;
        WalkSeesOnlyTruePaths(g, android, v, w, path, k + 1, s2);
      }
    }
  }
}
