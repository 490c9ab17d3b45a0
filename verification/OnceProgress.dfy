/** More about the memo of android/onceper.go: every waiter has one owner and is closed in the end,
    and what happens if constructors ask for each other's keys in a cycle. */
module OnceProgress {
  import opened OncePer
  import opened Unique

  /*** Waiters and their owners ***/

  /** Call i inserted the waiter of its key: it is constructing, or it has closed that waiter. */
  ghost predicate Owns<K, V>(s: State<K, V>, i: int) {
    0 <= i < |s.pcs| && (s.pcs[i].Constructing? || s.pcs[i].Storing? || s.pcs[i].Closing? || s.closes[i] > 0)
  }

  ghost predicate OwnsKey<K, V>(s: State<K, V>, i: int, key: K)
    requires s.Shaped()
  {
    Owns(s, i) && s.calls[i].key == key
  }

  /** Every key in the map has exactly one owner, and every owner's key is in the map. */
  ghost predicate KeyInv<K, V>(s: State<K, V>, key: K)
    requires s.Shaped()
  {
    && (forall i, j :: OwnsKey(s, i, key) && OwnsKey(s, j, key) ==> i == j)
    && (key in s.values <==> exists i :: OwnsKey(s, i, key))
  }

  /** A step changes owners only where it inserts a waiter. */
  lemma StepOwns<K(!new), V>(s: State<K, V>, i: nat, result: Exit<V>, s': State<K, V>, j: int)
    requires Inv(s) && Enabled(s, i) && ConstructorExit(result) && s' == Step(s, i, result)
    ensures Owns(s', j) <==> Owns(s, j) || (j == i && s.pcs[i].Missed? && s.calls[i].key !in s.values)
  {
    if j == i {
      StepOwnsSelf(s, i, result, s');
    } else if 0 <= j < |s.pcs| {
      StepOwnsOther(s, i, result, s', j);
    }
  }

  lemma StepOwnsOther<K, V>(s: State<K, V>, i: nat, result: Exit<V>, s': State<K, V>, j: nat)
    requires s.Shaped() && Enabled(s, i) && ConstructorExit(result) && s' == Step(s, i, result)
    requires j < |s.pcs| && j != i
    ensures s'.pcs[j] == s.pcs[j] && s'.closes[j] == s.closes[j]
  {}

  lemma StepOwnsSelf<K(!new), V>(s: State<K, V>, i: nat, result: Exit<V>, s': State<K, V>)
    requires Inv(s) && Enabled(s, i) && ConstructorExit(result) && s' == Step(s, i, result)
    ensures Owns(s', i) <==> Owns(s, i) || (s.pcs[i].Missed? && s.calls[i].key !in s.values)
  {
    assert CallInv(s, i);
  }

  lemma StepKeys<K(!new), V>(s: State<K, V>, i: nat, result: Exit<V>, s': State<K, V>, key: K)
    requires Inv(s) && Enabled(s, i) && ConstructorExit(result) && s' == Step(s, i, result)
    ensures key in s'.values <==> key in s.values || (s.pcs[i].Missed? && key == s.calls[i].key)
  {
    assert CallInv(s, i);
  }

  lemma StepKeyInv<K(!new), V>(s: State<K, V>, i: nat, result: Exit<V>, s': State<K, V>, key: K)
    requires Inv(s) && Enabled(s, i) && ConstructorExit(result) && s' == Step(s, i, result)
    requires KeyInv(s, key)
    ensures KeyInv(s', key)
  {
    StepKeys(s, i, result, s', key);
    forall j ensures OwnsKey(s', j, key) <==>
                     OwnsKey(s, j, key) || (j == i && s.pcs[i].Missed? && key == s.calls[i].key && key !in s.values)
    {
      StepOwns(s, i, result, s', j);
    }
    if key in s.values {
      var j :| OwnsKey(s, j, key);
      assert OwnsKey(s', j, key);
    } else if key in s'.values {
      assert OwnsKey(s', i, key);
    }
  }

  /** In every state of every run, every key in the map has exactly one owner. */
  lemma {:induction false} RunKeyInv<K(!new), V(!new)>(run: seq<State<K, V>>, i: nat, key: K)
    requires IsRun(run) && i < |run|
    ensures KeyInv(run[i], key)
  {
    if i == 0 {
      assert forall j :: !OwnsKey(run[0], j, key);
    } else {
      RunKeyInv(run, i - 1, key);
      RunInv(run, i - 1);
      var s, s' := run[i - 1], run[i];
      assert NextAt(run, i);
      var j: nat, result :| Enabled(s, j) && ConstructorExit(result) && s' == Step(s, j, result);
      StepKeyInv(s, j, result, s', key);
    }
  }

  /** Once nothing can step, the waiter of every key in the map has been closed, by exactly one call
      and exactly once. */
  lemma EveryWaiterClosed<K(!new), V(!new)>(run: seq<State<K, V>>, i: nat, rank: K -> nat, key: K) returns (w: nat)
    requires IsRun(run) && i < |run| && AcyclicNesting(run[0].calls, rank)
    requires (forall j: nat :: !Enabled(run[i], j)) && key in run[i].values
    ensures w < |run[i].calls| && run[i].calls[w].key == key && run[i].closes[w] == 1
    ensures forall v: nat :: v < |run[i].calls| && run[i].calls[v].key == key && v != w ==> run[i].closes[v] == 0
  {
    var s := run[i];
    RunInv(run, i);
    RunKeyInv(run, i, key);
    w :| OwnsKey(s, w, key);
    if InProgress(s, w) {
      var j := SomeoneCanStep(s, rank, w);
    }
    ClosedOnceAfterStore(run, i, w);
    forall v: nat | v < |s.calls| && s.calls[v].key == key && v != w ensures s.closes[v] == 0 {
      assert !OwnsKey(s, v, key);
    }
  }

  /*** Constructors in a cycle ***/

  /** One top-level call for each key of the cycle; its constructor calls Once for the next key. */
  ghost function CycleCalls<K>(cycle: seq<K>): (calls: seq<Call<K>>)
    ensures |calls| == 2 * |cycle|
    ensures forall i :: 0 <= i < |cycle| ==> calls[i] == Call(Once, cycle[i], -1)
    ensures forall i :: |cycle| <= i < 2 * |cycle| ==> calls[i] == Call(Once, NextKey(cycle, i - |cycle|), i - |cycle|)
  {
    seq(2 * |cycle|, i requires 0 <= i < 2 * |cycle| =>
      if i < |cycle| then Call(Once, cycle[i], -1) else Call(Once, NextKey(cycle, i - |cycle|), i - |cycle|))
  }

  function Succ(n: nat, i: nat): nat {
    if i + 1 < n then i + 1 else 0
  }

  ghost function NextKey<K>(cycle: seq<K>, i: nat): K
    requires i < |cycle|
  {
    cycle[Succ(|cycle|, i)]
  }

  ghost function Waiters<K, V>(cycle: seq<K>, a: nat): map<K, Entry<V>>
    requires a <= |cycle|
  {
    if a == 0 then map[] else Waiters<K, V>(cycle, a - 1)[cycle[a - 1] := Waiter(a - 1)]
  }

  lemma {:induction false} WaitersAre<K(!new), V>(cycle: seq<K>, a: nat)
    requires a <= |cycle| && NoDup(cycle)
    ensures forall i :: 0 <= i < a ==>
                          cycle[i] in Waiters<K, V>(cycle, a) && Waiters<K, V>(cycle, a)[cycle[i]] == Waiter(i)
    ensures forall i :: a <= i < |cycle| ==> cycle[i] !in Waiters<K, V>(cycle, a)
  {
    if a > 0 { WaitersAre<K, V>(cycle, a - 1); }
  }

  /** The first a top-level calls construct and the first b inner calls wait. */
  ghost function CycleState<K, V>(cycle: seq<K>, a: nat, b: nat): (s: State<K, V>)
    requires a <= |cycle| && b <= |cycle|
    ensures s.Shaped()
  {
    var n := |cycle|;
    State(CycleCalls(cycle), CyclePcs(n, a, b), Waiters(cycle, a), multiset{}, multiset(cycle[..a]))
  }

  ghost function CyclePcs<V>(n: nat, a: nat, b: nat): (pcs: seq<PC<V>>)
    requires a <= n && b <= n
    ensures |pcs| == 2 * n
    ensures forall i :: 0 <= i < 2 * n ==>
              pcs[i] == if i < a then Constructing else if n <= i < n + b then Waiting(Succ(n, i - n)) else Start
  {
    seq(2 * n, i requires 0 <= i < 2 * n =>
      if i < a then Constructing else if n <= i < n + b then Waiting(Succ(n, i - n)) else Start)
  }

  lemma ExtendRun<K(!new), V(!new)>(run: seq<State<K, V>>, i: nat, s': State<K, V>) returns (r: seq<State<K, V>>)
    requires IsRun(run) && Enabled(run[|run| - 1], i) && s' == Step(run[|run| - 1], i, ConstructorPanic)
    ensures IsRun(r) && r[|r| - 1] == s'
  {
    r := run + [s'];
    assert Next(run[|run| - 1], s') by { assert ConstructorExit<V>(ConstructorPanic); }
    forall k | 0 < k < |r| ensures NextAt(r, k) {
      assert k < |run| ==> NextAt(run, k) && r[k] == run[k] && r[k - 1] == run[k - 1];
    }
  }

  /** One more top-level call finds nothing, and then inserts its waiter. */
  lemma StepOuter<K(!new), V(!new)>(cycle: seq<K>, a: nat, s: State<K, V>)
    requires a < |cycle| && NoDup(cycle) && s == CycleState(cycle, a, 0)
    ensures Enabled(s, a) && s.Goto(a, Missed) == Step(s, a, ConstructorPanic)
  {
    WaitersAre<K, V>(cycle, a);
  }

  lemma StepInsert<K(!new), V(!new)>(cycle: seq<K>, a: nat, s: State<K, V>, s': State<K, V>)
    requires a < |cycle| && NoDup(cycle)
    requires s == CycleState<K, V>(cycle, a, 0).Goto(a, Missed) && s' == CycleState(cycle, a + 1, 0)
    ensures s.Shaped() && Enabled(s, a) && s' == Step(s, a, ConstructorPanic)
  {
    WaitersAre<K, V>(cycle, a);
    PcsInsert<V>(|cycle|, a);
    RunsInsert(cycle, a);
    var key := cycle[a];
    assert s.calls[a].key == key && key !in s.values && s.pcs[a] == Missed;
    assert s' == s.Goto(a, Constructing).(values := s.values[key := Waiter(a)], runs := s.runs + multiset{key});
  }

  lemma RunsInsert<K>(cycle: seq<K>, a: nat)
    requires a < |cycle|
    ensures multiset(cycle[..a + 1]) == multiset(cycle[..a]) + multiset{cycle[a]}
  {
    assert cycle[..a + 1] == cycle[..a] + [cycle[a]];
  }

  lemma PcsInsert<V>(n: nat, a: nat)
    requires a < n
    ensures CyclePcs<V>(n, a + 1, 0) == CyclePcs<V>(n, a, 0)[a := Missed][a := Constructing]
  {}

  lemma CycleStart<K(!new), V(!new)>(cycle: seq<K>, s: State<K, V>)
    requires s == CycleState(cycle, 0, 0)
    ensures s == Init(s.calls)
  {
    assert cycle[..0] == [];
    assert s.pcs == Init<K, V>(s.calls).pcs;
  }

  /** One more inner call finds the waiter of the next key. */
  lemma StepInner<K(!new), V(!new)>(cycle: seq<K>, b: nat, s: State<K, V>, s': State<K, V>)
    requires b < |cycle| && NoDup(cycle)
    requires s == CycleState(cycle, |cycle|, b) && s' == CycleState(cycle, |cycle|, b + 1)
    ensures Enabled(s, |cycle| + b) && s' == Step(s, |cycle| + b, ConstructorPanic)
  {
    WaitersAre<K, V>(cycle, |cycle|);
    assert s'.pcs == s.pcs[|cycle| + b := Waiting(Succ(|cycle|, b))];
  }

  lemma AddOuter<K(!new), V(!new)>(cycle: seq<K>, a: nat, run: seq<State<K, V>>) returns (r: seq<State<K, V>>)
    requires a < |cycle| && NoDup(cycle) && IsRun(run) && run[|run| - 1] == CycleState(cycle, a, 0)
    ensures IsRun(r) && r[|r| - 1] == CycleState(cycle, a + 1, 0)
  {
    var s := run[|run| - 1];
    var s1 := s.Goto(a, Missed);
    StepOuter(cycle, a, s);
    r := ExtendRun(run, a, s1);
    StepInsert(cycle, a, s1, CycleState(cycle, a + 1, 0));
    r := ExtendRun(r, a, CycleState(cycle, a + 1, 0));
  }

  lemma {:induction false} OuterRun<K(!new), V(!new)>(cycle: seq<K>, a: nat) returns (run: seq<State<K, V>>)
    requires a <= |cycle| && NoDup(cycle)
    ensures IsRun(run) && run[|run| - 1] == CycleState(cycle, a, 0)
  {
    if a == 0 {
      run := [CycleState<K, V>(cycle, 0, 0)];
      CycleStart(cycle, run[0]);
    } else {
      run := OuterRun<K, V>(cycle, a - 1);
      run := AddOuter(cycle, a - 1, run);
    }
  }

  lemma {:induction false} InnerRun<K(!new), V(!new)>(cycle: seq<K>, b: nat) returns (run: seq<State<K, V>>)
    requires b <= |cycle| && NoDup(cycle)
    ensures IsRun(run) && run[|run| - 1] == CycleState(cycle, |cycle|, b)
  {
    if b == 0 {
      run := OuterRun<K, V>(cycle, |cycle|);
    } else {
      run := InnerRun<K, V>(cycle, b - 1);
      StepInner(cycle, b - 1, run[|run| - 1], CycleState(cycle, |cycle|, b));
      run := ExtendRun(run, |cycle| + b - 1, CycleState(cycle, |cycle|, b));
    }
  }

  /** If constructors ask for each other's keys in a cycle, of any length, then some run gets stuck
      with every call in progress. */
  lemma CycleDeadlocks<K(!new), V(!new)>(cycle: seq<K>) returns (run: seq<State<K, V>>)
    requires NoDup(cycle)
    ensures IsRun(run)
    ensures var s := run[|run| - 1];
            && s.calls == CycleCalls(cycle)
            && (forall i :: 0 <= i < |s.calls| ==> InProgress(s, i))
            && (forall j: nat :: !Enabled(s, j))
  {
    run := InnerRun<K, V>(cycle, |cycle|);
    var s := run[|run| - 1];
    var n := |cycle|;
    forall j: nat ensures !Enabled(s, j) {
      if j < n {
        assert s.calls[n + j].parent == j && InProgress(s, n + j);
      }
    }
  }

  /*** Exactly when calls cannot get stuck ***/

  /** Constructors of a key k ask only for keys in needs(k). */
  ghost predicate Respects<K(!new)>(calls: seq<Call<K>>, keys: set<K>, needs: K -> set<K>) {
    WellNested(calls) && forall c :: 0 <= c < |calls| ==> CallRespects(calls, c, keys, needs)
  }

  ghost predicate CallRespects<K>(calls: seq<Call<K>>, c: nat, keys: set<K>, needs: K -> set<K>)
    requires WellNested(calls) && c < |calls|
  {
    var call := calls[c];
    call.key in keys && (call.parent >= 0 ==> call.key in needs(calls[call.parent].key))
  }

  ghost predicate IsRank<K(!new)>(keys: set<K>, needs: K -> set<K>, rank: K -> nat) {
    forall k, d :: k in keys && d in keys && d in needs(k) ==> rank(d) < rank(k)
  }

  ghost predicate IsCycle<K>(keys: set<K>, needs: K -> set<K>, cycle: seq<K>) {
    && cycle != [] && NoDup(cycle)
    && (forall i :: 0 <= i < |cycle| ==> cycle[i] in keys && NextKey(cycle, i) in needs(cycle[i]))
  }

  /** Nothing can step and yet some call is in progress. */
  ghost predicate Stuck<K, V>(s: State<K, V>) {
    s.Shaped() && (forall j: nat :: !Enabled(s, j)) && exists i :: InProgress(s, i)
  }

  ghost predicate NeverStuck<K(!new), V(!new)>(keys: set<K>, needs: K -> set<K>) {
    forall run: seq<State<K, V>> :: IsRun(run) ==> NotStuck(run, keys, needs)
  }

  ghost predicate NotStuck<K(!new), V(!new)>(run: seq<State<K, V>>, keys: set<K>, needs: K -> set<K>)
    requires IsRun(run)
  {
    Respects(run[0].calls, keys, needs) ==> !Stuck(run[|run| - 1])
  }

  ghost predicate HasNext<K>(keys: set<K>, needs: K -> set<K>, k: K) {
    exists d :: d in keys && d in needs(k)
  }

  /** Keys without repetition, each needed by the one before. */
  ghost predicate IsWalk<K>(keys: set<K>, needs: K -> set<K>, path: seq<K>) {
    && path != [] && NoDup(path)
    && (forall i :: 0 <= i < |path| ==> path[i] in keys)
    && (forall i :: 0 < i < |path| ==> path[i] in needs(path[i - 1]))
  }

  lemma WalkSnoc<K(!new)>(keys: set<K>, needs: K -> set<K>, path: seq<K>, d: K)
    requires IsWalk(keys, needs, path) && d in keys && d in needs(path[|path| - 1]) && d !in path
    ensures IsWalk(keys, needs, path + [d])
  {
    var p := path + [d];
    forall i | 0 < i < |p| ensures p[i] in needs(p[i - 1]) {
      assert i < |path| ==> p[i] == path[i];
    }
  }

  lemma WalkCloses<K(!new)>(keys: set<K>, needs: K -> set<K>, path: seq<K>, i: nat)
    requires IsWalk(keys, needs, path) && i < |path| && path[i] in needs(path[|path| - 1])
    ensures IsCycle(keys, needs, path[i..])
  {
    var c := path[i..];
    forall j | 0 <= j < |c| ensures c[j] in keys && NextKey(c, j) in needs(c[j]) {
      assert c[j] == path[i + j];
      assert j + 1 < |c| ==> c[j + 1] == path[i + j + 1];
    }
  }

  /** A walk that always finds a next key in a finite set comes back to itself. */
  lemma {:induction false} FindCycle<K(!new)>(keys: set<K>, needs: K -> set<K>, path: seq<K>) returns (cycle: seq<K>)
    requires (forall k :: k in keys ==> HasNext(keys, needs, k)) && IsWalk(keys, needs, path)
    ensures IsCycle(keys, needs, cycle)
    decreases |keys| - |path|
  {
    assert HasNext(keys, needs, path[|path| - 1]);
    var d :| d in keys && d in needs(path[|path| - 1]);
    if d in path {
      var i :| 0 <= i < |path| && path[i] == d;
      WalkCloses(keys, needs, path, i);
      cycle := path[i..];
    } else {
      WalkSnoc(keys, needs, path, d);
      LongPath(keys, path + [d]);
      cycle := FindCycle(keys, needs, path + [d]);
    }
  }

  lemma LongPath<K(!new)>(keys: set<K>, path: seq<K>)
    requires NoDup(path) && forall i :: 0 <= i < |path| ==> path[i] in keys
    ensures |path| <= |keys|
  {
    var s := set i | 0 <= i < |path| :: path[i];
    PathSize(path);
    SubsetSize(s, keys);
  }

  lemma {:induction false} PathSize<K(!new)>(path: seq<K>)
    requires NoDup(path)
    ensures |set i | 0 <= i < |path| :: path[i]| == |path|
  {
    var s := set i | 0 <= i < |path| :: path[i];
    if path != [] {
      var n := |path| - 1;
      PathSize(path[..n]);
      var t := set i | 0 <= i < n :: path[..n][i];
      assert s == t + {path[n]} && path[n] !in t;
    }
  }

  lemma {:induction false} SubsetSize<K>(a: set<K>, b: set<K>)
    requires a <= b
    ensures |a| <= |b|
    decreases a
  {
    if x :| x in a {
      SubsetSize(a - {x}, b - {x});
    }
  }

  lemma AddLeast<K(!new)>(keys: set<K>, needs: K -> set<K>, k: K, rest: K -> nat, rank: K -> nat)
    requires !HasNext(keys, needs, k) && IsRank(keys - {k}, needs, rest)
    requires rank(k) == 0 && forall x :: x != k ==> rank(x) == rest(x) + 1
    ensures IsRank(keys, needs, rank)
  {}

  lemma CycleInMore<K(!new)>(keys: set<K>, more: set<K>, needs: K -> set<K>, cycle: seq<K>)
    requires keys <= more && IsCycle(keys, needs, cycle)
    ensures IsCycle(more, needs, cycle)
  {}

  /** A finite set of keys has a rank or a cycle. */
  lemma {:induction false} RankOrCycle<K(!new)>(keys: set<K>, needs: K -> set<K>)
    returns (ranked: bool, rank: K -> nat, cycle: seq<K>)
    ensures if ranked then IsRank(keys, needs, rank) else IsCycle(keys, needs, cycle)
    decreases keys
  {
    ranked, rank, cycle := true, _ => 0, [];
    if k :| k in keys && !HasNext(keys, needs, k) {
      var rest;
      ranked, rest, cycle := RankOrCycle(keys - {k}, needs);
      rank := x => if x == k then 0 else rest(x) + 1;
      if ranked {
        AddLeast(keys, needs, k, rest, rank);
      } else {
        CycleInMore(keys - {k}, keys, needs, cycle);
      }
    } else if k :| k in keys {
      ranked := false;
      cycle := FindCycle(keys, needs, [k]);
    }
  }

  lemma RankedNesting<K(!new)>(calls: seq<Call<K>>, keys: set<K>, needs: K -> set<K>, rank: K -> nat)
    requires IsRank(keys, needs, rank) && Respects(calls, keys, needs)
    ensures AcyclicNesting(calls, rank)
  {
    forall c | 0 <= c < |calls| && calls[c].parent >= 0 ensures rank(calls[c].key) < rank(calls[calls[c].parent].key) {
      assert CallRespects(calls, c, keys, needs) && CallRespects(calls, calls[c].parent, keys, needs);
    }
  }

  lemma RankedNotStuck<K(!new), V(!new)>(s: State<K, V>, rank: K -> nat)
    requires Inv(s) && AcyclicNesting(s.calls, rank)
    ensures !Stuck(s)
  {
    if i :| InProgress(s, i) {
      var j := SomeoneCanStep(s, rank, i);
    }
  }

  lemma RankMeansProgress<K(!new), V(!new)>(keys: set<K>, needs: K -> set<K>, rank: K -> nat)
    requires IsRank(keys, needs, rank)
    ensures NeverStuck<K, V>(keys, needs)
  {
    forall run: seq<State<K, V>> | IsRun(run) ensures NotStuck(run, keys, needs) {
      if Respects(run[0].calls, keys, needs) {
        RankedNesting(run[0].calls, keys, needs, rank);
        RunInv(run, |run| - 1);
        RankedNotStuck(run[|run| - 1], rank);
      }
    }
  }

  lemma CycleMeansStuck<K(!new), V(!new)>(keys: set<K>, needs: K -> set<K>, cycle: seq<K>)
    requires IsCycle(keys, needs, cycle)
    ensures !NeverStuck<K, V>(keys, needs)
  {
    var run := CycleDeadlocks<K, V>(cycle);
    RunInv(run, |run| - 1);
    CycleRespects(keys, needs, cycle);
    AllInProgress(run[|run| - 1]);
    assert !NotStuck(run, keys, needs);
  }

  lemma AllInProgress<K, V>(s: State<K, V>)
    requires s.Shaped() && |s.calls| > 0 && (forall i :: 0 <= i < |s.calls| ==> InProgress(s, i))
    requires forall j: nat :: !Enabled(s, j)
    ensures Stuck(s)
  {
    assert InProgress(s, 0);
  }

  lemma CycleRespects<K(!new)>(keys: set<K>, needs: K -> set<K>, cycle: seq<K>)
    requires IsCycle(keys, needs, cycle)
    ensures Respects(CycleCalls(cycle), keys, needs)
  {
    var n := |cycle|;
    var calls := CycleCalls(cycle);
    forall c | 0 <= c < 2 * n ensures CallRespects(calls, c, keys, needs) {
      if c >= n {
        assert NextKey(cycle, c - n) in needs(cycle[c - n]) && cycle[Succ(n, c - n)] in keys;
      }
    }
  }

  /** Calls never get stuck, whatever calls are made and however they interleave, exactly if the
      keys that constructors ask for have no cycle. */
  lemma ProgressIff<K(!new), V(!new)>(keys: set<K>, needs: K -> set<K>)
    ensures NeverStuck<K, V>(keys, needs) <==> exists rank :: IsRank(keys, needs, rank)
    ensures NeverStuck<K, V>(keys, needs) <==> !exists cycle :: IsCycle(keys, needs, cycle)
  {
    var ranked, rank, cycle := RankOrCycle(keys, needs);
    if ranked {
      RankMeansProgress<K, V>(keys, needs, rank);
    } else {
      CycleMeansStuck<K, V>(keys, needs, cycle);
    }
    forall c | IsCycle(keys, needs, c) ensures !NeverStuck<K, V>(keys, needs) {
      CycleMeansStuck<K, V>(keys, needs, c);
    }
    forall r | IsRank(keys, needs, r) ensures NeverStuck<K, V>(keys, needs) {
      RankMeansProgress<K, V>(keys, needs, r);
    }
  }
}
