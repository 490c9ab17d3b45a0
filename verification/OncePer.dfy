/** The once-per-key memo of android/onceper.go as a transition system.

    Any number of `Once` and `Get` calls run concurrently.  One step of one call is one atomic
    access to the shared map, one channel operation, or the end of a constructor.  A constructor
    may itself make calls (`parent`), and it may panic.  `closes` and `runs` are histories: how
    often each waiter channel was closed and how often a constructor was started for each key.
 */
module OncePer {

  datatype Val<V> = Nil | Just(v: V)

  datatype Op = Once | Get

  /** `parent` is the call whose constructor makes this call, or -1 for a top-level call. */
  datatype Call<K> = Call(op: Op, key: K, parent: int)

  /** A map entry: the waiter channel made by call `owner`, or a value. */
  datatype Entry<V> = Waiter(owner: nat) | Stored(value: Val<V>)

  /** How a call ends: a normal return or one of the three panics. */
  datatype Exit<V> = Returned(value: Val<V>) | ConstructorPanic | GetBeforeOnce | StillWaiter

  datatype PC<V> =
    | Start                  // before values.Load
    | Missed                 // Load found nothing; before values.LoadOrStore
    | Waiting(on: nat)       // blocked in <-wait
    | Woken                  // the channel was closed; before the second values.Load
    | Constructing           // own waiter inserted; value() is running
    | Storing(exit: Exit<V>) // deferred function, before values.Store
    | Closing(exit: Exit<V>) // deferred function, before close(waiter)
    | Done(exit: Exit<V>)

  datatype State<K, V> = State(
    calls: seq<Call<K>>,
    pcs: seq<PC<V>>,
    values: map<K, Entry<V>>,
    closes: multiset<nat>,
    runs: multiset<K>)
  {
    ghost predicate Shaped() {
      |pcs| == |calls| && WellNested(calls)
    }

    function Goto(i: nat, pc: PC<V>): State<K, V>
      requires i < |pcs|
    {
      this.(pcs := pcs[i := pc])
    }
  }

  ghost predicate WellNested<K>(calls: seq<Call<K>>) {
    forall i :: 0 <= i < |calls| ==> calls[i].parent < i
  }

  ghost function Init<K, V>(calls: seq<Call<K>>): State<K, V> {
    State(calls, seq(|calls|, _ => Start), map[], multiset{}, multiset{})
  }

  /** What the deferred function stores: the zero interface value when value() panicked. */
  function ToStore<V>(exit: Exit<V>): Val<V> {
    if exit.Returned? then exit.value else Nil
  }

  /** maybeWaitFor, up to its channel receive. */
  function AfterLoad<V>(entry: Entry<V>): PC<V> {
    match entry
    case Waiter(w) => Waiting(w)
    case Stored(v) => Done(Returned(v))
  }

  /** Call i has begun and has not ended. */
  ghost predicate InProgress<K, V>(s: State<K, V>, i: int) {
    0 <= i < |s.pcs| && !s.pcs[i].Start? && !s.pcs[i].Done?
  }

  /** Call i can be made now: it is top-level, or its constructor is running. */
  ghost predicate MayStart<K, V>(s: State<K, V>, i: nat)
    requires s.Shaped() && i < |s.pcs|
  {
    s.calls[i].parent < 0 || s.pcs[s.calls[i].parent].Constructing?
  }

  ghost predicate HasBusyChild<K, V>(s: State<K, V>, i: nat)
    requires s.Shaped()
  {
    exists c :: 0 <= c < |s.calls| && s.calls[c].parent == i && InProgress(s, c)
  }

  ghost predicate Enabled<K, V>(s: State<K, V>, i: nat)
    requires s.Shaped()
  {
    i < |s.pcs| &&
    match s.pcs[i]
    case Start => MayStart(s, i)
    case Waiting(w) => s.closes[w] > 0
    case Constructing => !HasBusyChild(s, i)
    case Done(_) => false
    case _ => true
  }

  /** How value() can end. */
  ghost predicate ConstructorExit<V>(result: Exit<V>) {
    result.Returned? || result.ConstructorPanic?
  }

  /** One atomic step of call i; `result` is how the constructor ends, used only there. */
  ghost function Step<K, V>(s: State<K, V>, i: nat, result: Exit<V>): (s': State<K, V>)
    requires s.Shaped() && Enabled(s, i) && ConstructorExit(result)
    ensures s'.Shaped() && s'.calls == s.calls
    ensures s'.pcs == s.pcs[i := s'.pcs[i]]
  {
    var key := s.calls[i].key;
    match s.pcs[i]
    case Start =>
      if key in s.values then s.Goto(i, AfterLoad(s.values[key]))
      else if s.calls[i].op.Once? then s.Goto(i, Missed)
      else s.Goto(i, Done(GetBeforeOnce))
    case Missed =>
      if key in s.values then s.Goto(i, AfterLoad(s.values[key]))
      else s.Goto(i, Constructing).(values := s.values[key := Waiter(i)], runs := s.runs + multiset{key})
    case Waiting(_) =>
      s.Goto(i, Woken)
    case Woken =>
      if key !in s.values then s.Goto(i, Done(Returned(Nil)))
      else if s.values[key].Waiter? then s.Goto(i, Done(StillWaiter))
      else s.Goto(i, Done(Returned(s.values[key].value)))
    case Constructing =>
      s.Goto(i, Storing(result))
    case Storing(exit) =>
      s.Goto(i, Closing(exit)).(values := s.values[key := Stored(ToStore(exit))])
    case Closing(exit) =>
      s.Goto(i, Done(exit)).(closes := s.closes + multiset{i})
  }

  ghost predicate Next<K(!new), V(!new)>(s: State<K, V>, s': State<K, V>)
    requires s.Shaped()
  {
    exists i: nat, result: Exit<V> ::
      Enabled(s, i) && ConstructorExit(result) && s' == Step(s, i, result)
  }

  /** A finite run: it starts in the initial state and every state follows from the one before. */
  ghost predicate IsRun<K(!new), V(!new)>(run: seq<State<K, V>>) {
    && |run| > 0
    && (forall i :: 0 <= i < |run| ==> run[i].Shaped())
    && run[0] == Init(run[0].calls)
    && forall i :: 0 < i < |run| ==> NextAt(run, i)
  }

  ghost predicate NextAt<K(!new), V(!new)>(run: seq<State<K, V>>, i: nat)
    requires 0 < i < |run| && run[i - 1].Shaped()
  {
    Next(run[i - 1], run[i])
  }

  /*** The inductive invariant ***/

  ghost predicate StoredAt<K, V>(s: State<K, V>, key: K) {
    key in s.values && s.values[key].Stored?
  }

  /** What the program counter of call i says about the shared state. */
  ghost predicate CallInv<K, V>(s: State<K, V>, i: nat)
    requires s.Shaped() && i < |s.pcs|
  {
    var key := s.calls[i].key;
    match s.pcs[i]
    case Start => true
    case Missed => s.calls[i].op.Once?
    case Waiting(w) =>
      && w < |s.pcs| && s.calls[w].key == key && key in s.values
      && (s.values[key].Waiter? ==> s.values[key].owner == w)
      && (s.closes[w] == 0 ==> InProgress(s, w) && !s.pcs[w].Waiting? && !s.pcs[w].Missed? && !s.pcs[w].Woken?)
    case Woken => StoredAt(s, key)
    case Constructing => key in s.values && s.values[key] == Waiter(i)
    case Storing(exit) =>
      && key in s.values && s.values[key] == Waiter(i)
      && ConstructorExit(exit)
    case Closing(exit) =>
      && key in s.values && s.values[key] == Stored(ToStore(exit))
      && ConstructorExit(exit)
    case Done(Returned(v)) => key in s.values && s.values[key] == Stored(v)
    case Done(ConstructorPanic) => key in s.values && s.values[key] == Stored(Nil)
    case Done(GetBeforeOnce) => s.calls[i].op.Get?
    case Done(StillWaiter) => false
  }

  /** A waiter entry belongs to the one call that is constructing that key. */
  ghost predicate EntryInv<K, V>(s: State<K, V>, key: K)
    requires s.Shaped() && key in s.values
  {
    s.values[key].Waiter? ==>
      var w := s.values[key].owner;
      w < |s.pcs| && s.calls[w].key == key && (s.pcs[w].Constructing? || s.pcs[w].Storing?)
  }

  ghost predicate CallsInv<K, V>(s: State<K, V>)
    requires s.Shaped()
  {
    forall i :: 0 <= i < |s.pcs| ==> CallInv(s, i)
  }

  ghost predicate EntriesInv<K, V>(s: State<K, V>)
    requires s.Shaped()
  {
    forall key :: key in s.values ==> EntryInv(s, key)
  }

  /** A waiter is closed at most once, and only after its key's value was stored. */
  ghost predicate ClosesInv<K, V>(s: State<K, V>)
    requires s.Shaped()
  {
    forall i: nat :: s.closes[i] > 0 ==>
      s.closes[i] == 1 && i < |s.pcs| && s.pcs[i].Done? && StoredAt(s, s.calls[i].key)
  }

  /** A constructor was started exactly for the keys present in the map, once each. */
  ghost predicate RunsInv<K(!new), V>(s: State<K, V>) {
    forall key :: s.runs[key] == if key in s.values then 1 else 0
  }

  ghost predicate Inv<K(!new), V>(s: State<K, V>) {
    s.Shaped() && CallsInv(s) && EntriesInv(s) && ClosesInv(s) && RunsInv(s)
  }

  lemma InitInv<K(!new), V>(calls: seq<Call<K>>)
    requires WellNested(calls)
    ensures Inv(Init<K, V>(calls))
  {
    var s := Init<K, V>(calls);
    assert forall i :: 0 <= i < |s.pcs| ==> s.pcs[i] == Start;
  }

  /** An entry only moves absent -> waiter -> value, and neither a waiter's owner nor a stored
      value is ever replaced. */
  ghost predicate EntriesAdvance<K, V>(s: State<K, V>, s': State<K, V>) {
    forall key :: key in s.values ==>
      && key in s'.values
      && (s.values[key].Stored? ==> s'.values[key] == s.values[key])
      && (s'.values[key].Waiter? ==> s'.values[key] == s.values[key])
  }

  ghost predicate Advances<K, V>(s: State<K, V>, s': State<K, V>) {
    && s'.calls == s.calls && EntriesAdvance(s, s')
    && s.runs <= s'.runs && s.closes <= s'.closes
  }

  lemma StepOwnCall<K, V>(s: State<K, V>, i: nat, result: Exit<V>, s': State<K, V>)
    requires s.Shaped() && CallsInv(s) && EntriesInv(s) && ClosesInv(s)
    requires Enabled(s, i) && ConstructorExit(result) && s' == Step(s, i, result)
    ensures CallInv(s', i)
  {
    assert CallInv(s, i);
    var key := s.calls[i].key;
    if key in s.values {
      assert EntryInv(s, key);
    }
  }

  lemma StepOtherCall<K, V>(s: State<K, V>, i: nat, result: Exit<V>, s': State<K, V>, j: nat)
    requires s.Shaped() && i < |s.pcs| && CallInv(s, i)
    requires Enabled(s, i) && ConstructorExit(result) && s' == Step(s, i, result)
    requires j < |s.pcs| && j != i && CallInv(s, j)
    ensures CallInv(s', j)
  {}

  lemma StepEntry<K, V>(s: State<K, V>, i: nat, result: Exit<V>, s': State<K, V>, key: K)
    requires s.Shaped() && CallsInv(s) && EntriesInv(s)
    requires Enabled(s, i) && ConstructorExit(result) && s' == Step(s, i, result)
    requires key in s'.values
    ensures EntryInv(s', key)
  {
    assert CallInv(s, i);
    if key in s.values {
      assert EntryInv(s, key);
    }
  }

  lemma StepCloses<K, V>(s: State<K, V>, i: nat, result: Exit<V>, s': State<K, V>)
    requires s.Shaped() && CallsInv(s) && ClosesInv(s)
    requires Enabled(s, i) && ConstructorExit(result) && s' == Step(s, i, result)
    ensures ClosesInv(s') && s.closes <= s'.closes
  {
    assert CallInv(s, i);
    forall j: nat | s'.closes[j] > 0
      ensures s'.closes[j] == 1 && j < |s'.pcs| && s'.pcs[j].Done? && StoredAt(s', s'.calls[j].key)
    {
      assert j != i ==> s.closes[j] > 0;
    }
  }

  lemma StepRuns<K(!new), V>(s: State<K, V>, i: nat, result: Exit<V>, s': State<K, V>)
    requires s.Shaped() && CallsInv(s) && RunsInv(s)
    requires Enabled(s, i) && ConstructorExit(result) && s' == Step(s, i, result)
    ensures RunsInv(s') && s.runs <= s'.runs
  {
    assert CallInv(s, i);
  }

  lemma StepAdvances<K(!new), V>(s: State<K, V>, i: nat, result: Exit<V>, s': State<K, V>)
    requires s.Shaped() && CallsInv(s)
    requires Enabled(s, i) && ConstructorExit(result) && s' == Step(s, i, result)
    ensures EntriesAdvance(s, s')
  {
    assert CallInv(s, i);
  }

  /** Every step keeps the invariant and only moves the shared state forward. */
  lemma StepInv<K(!new), V>(s: State<K, V>, i: nat, result: Exit<V>, s': State<K, V>)
    requires Inv(s) && Enabled(s, i) && ConstructorExit(result) && s' == Step(s, i, result)
    ensures Inv(s') && Advances(s, s')
  {
    forall j | 0 <= j < |s'.pcs| ensures CallInv(s', j) {
      if j == i {
        StepOwnCall(s, i, result, s');
      } else {
        assert CallInv(s, i) && CallInv(s, j);
        StepOtherCall(s, i, result, s', j);
      }
    }
    forall key | key in s'.values ensures EntryInv(s', key) {
      StepEntry(s, i, result, s', key);
    }
    StepCloses(s, i, result, s');
    StepRuns(s, i, result, s');
    StepAdvances(s, i, result, s');
  }

  lemma NextInv<K(!new), V(!new)>(s: State<K, V>, s': State<K, V>)
    requires Inv(s) && Next(s, s')
    ensures Inv(s') && Advances(s, s')
  {
    var i: nat, result :| Enabled(s, i) && ConstructorExit(result) && s' == Step(s, i, result);
    StepInv(s, i, result, s');
  }

  /*** Whole runs ***/

  lemma {:induction false} RunInv<K(!new), V(!new)>(run: seq<State<K, V>>, i: nat)
    requires IsRun(run) && i < |run|
    ensures Inv(run[i]) && run[i].calls == run[0].calls
  {
    if i == 0 {
      InitInv<K, V>(run[0].calls);
    } else {
      RunInv(run, i - 1);
      assert NextAt(run, i);
      NextInv(run[i - 1], run[i]);
    }
  }

  lemma AdvancesTransitive<K, V>(s0: State<K, V>, s1: State<K, V>, s2: State<K, V>)
    requires Advances(s0, s1) && Advances(s1, s2)
    ensures Advances(s0, s2)
  {}

  lemma RunStepAdvances<K(!new), V(!new)>(run: seq<State<K, V>>, j: nat)
    requires IsRun(run) && 0 < j < |run|
    ensures Advances(run[j - 1], run[j])
  {
    RunInv(run, j - 1);
    assert NextAt(run, j);
    NextInv(run[j - 1], run[j]);
  }

  /** In every run an entry only moves absent -> waiter -> value; no waiter changes owner, no value
      changes, no constructor run or close is undone. */
  lemma {:induction false} RunAdvances<K(!new), V(!new)>(run: seq<State<K, V>>, i: nat, j: nat)
    requires IsRun(run) && i <= j < |run|
    ensures Advances(run[i], run[j])
  {
    if i < j {
      RunAdvances(run, i, j - 1);
      RunStepAdvances(run, j);
      AdvancesTransitive(run[i], run[j - 1], run[j]);
    }
  }

  /** The constructor of a key is started at most once, however many calls race. */
  lemma ConstructorRunsAtMostOnce<K(!new), V(!new)>(run: seq<State<K, V>>, i: nat, key: K)
    requires IsRun(run) && i < |run|
    ensures run[i].runs[key] <= 1
    ensures run[i].runs[key] == 1 <==> key in run[i].values
  {
    RunInv(run, i);
  }

  /** All normal returns for a key agree; after a constructor panic they are all nil. */
  lemma ReturnsAgree<K(!new), V(!new)>(run: seq<State<K, V>>, i: nat, a: nat, b: nat)
    requires IsRun(run) && i < |run|
    requires a < |run[i].pcs| && b < |run[i].pcs| && run[i].calls[a].key == run[i].calls[b].key
    requires run[i].pcs[a].Done? && run[i].pcs[b].Done? && run[i].pcs[b].exit.Returned?
    ensures run[i].pcs[a].exit.Returned? ==> run[i].pcs[a].exit.value == run[i].pcs[b].exit.value
    ensures run[i].pcs[a].exit.ConstructorPanic? ==> run[i].pcs[b].exit.value == Nil
  {
    RunInv(run, i);
    assert CallInv(run[i], a) && CallInv(run[i], b);
  }

  /*** Calls return what the constructor returned ***/

  /** Call i has ended, or is on its way to end, in this way. */
  ghost predicate EndsWith<K, V>(s: State<K, V>, i: nat, result: Exit<V>) {
    i < |s.pcs| && (s.pcs[i] == Storing(result) || s.pcs[i] == Closing(result) || s.pcs[i] == Done(result))
  }

  /** Call a has not run a constructor and, unless it is a Get that came too early, returns. */
  ghost predicate OnlyWaits<K, V>(s: State<K, V>, a: nat)
    requires s.Shaped()
  {
    a < |s.pcs| &&
    match s.pcs[a]
    case Constructing => false
    case Storing(_) => false
    case Closing(_) => false
    case Done(exit) => exit.Returned? || (exit.GetBeforeOnce? && s.calls[a].op.Get?)
    case _ => true
  }

  /** After call i has constructed its key, with this result, no other call of the key constructs. */
  ghost predicate Constructed<K, V>(s: State<K, V>, i: nat, result: Exit<V>)
    requires s.Shaped()
  {
    && EndsWith(s, i, result) && s.calls[i].key in s.values
    && forall a :: 0 <= a < |s.pcs| && a != i && s.calls[a].key == s.calls[i].key ==> OnlyWaits(s, a)
  }

  lemma ConstructorEnds<K(!new), V>(s: State<K, V>, i: nat, result: Exit<V>, s': State<K, V>)
    requires Inv(s) && Enabled(s, i) && ConstructorExit(result) && s' == Step(s, i, result)
    requires s.pcs[i].Constructing?
    ensures Constructed(s', i, result)
  {
    assert CallInv(s, i);
    forall a | 0 <= a < |s.pcs| && a != i && s.calls[a].key == s.calls[i].key ensures OnlyWaits(s', a) {
      assert CallInv(s, a);
    }
  }

  lemma ConstructedStep<K(!new), V>(s: State<K, V>, i: nat, result: Exit<V>, j: nat, r: Exit<V>, s': State<K, V>)
    requires Inv(s) && Enabled(s, j) && ConstructorExit(r) && s' == Step(s, j, r) && Constructed(s, i, result)
    ensures Constructed(s', i, result)
  {
    assert CallInv(s, j);
    if j != i && s.calls[j].key == s.calls[i].key {
      assert OnlyWaits(s, j) && OnlyWaits(s', j);
    }
    forall a | 0 <= a < |s'.pcs| && a != i && s'.calls[a].key == s'.calls[i].key ensures OnlyWaits(s', a) {
      assert OnlyWaits(s, a);
    }
  }

  lemma ConstructedNext<K(!new), V(!new)>(run: seq<State<K, V>>, j: nat, i: nat, result: Exit<V>)
    requires IsRun(run) && 0 < j < |run| && Constructed(run[j - 1], i, result)
    ensures Constructed(run[j], i, result)
  {
    RunInv(run, j - 1);
    assert NextAt(run, j);
    var b: nat, r: Exit<V> :| Enabled(run[j - 1], b) && ConstructorExit(r) && run[j] == Step(run[j - 1], b, r);
    ConstructedStep(run[j - 1], i, result, b, r, run[j]);
  }

  lemma {:induction false} StaysConstructed<K(!new), V(!new)>(
    run: seq<State<K, V>>, k: nat, j: nat, i: nat, result: Exit<V>)
    requires IsRun(run) && k <= j < |run| && Constructed(run[k], i, result)
    ensures Constructed(run[j], i, result)
  {
    if k < j {
      StaysConstructed(run, k, j - 1, i, result);
      ConstructedNext(run, j, i, result);
    }
  }

  /** The constructor of call i ends with this result in the k-th step of the run. */
  ghost predicate ConstructsAt<K(!new), V(!new)>(run: seq<State<K, V>>, k: nat, i: nat, result: Exit<V>)
    requires IsRun(run) && k + 1 < |run|
  {
    && Enabled(run[k], i) && run[k].pcs[i].Constructing? && ConstructorExit(result)
    && run[k + 1] == Step(run[k], i, result)
  }

  /** Whatever the interleaving, the call that ran the constructor ends as the constructor did, and
      every other call of the key that ends returns the constructor's value: nil if it panicked.
      Only a Get can end otherwise. */
  lemma ReturnsWhatWasConstructed<K(!new), V(!new)>(
    run: seq<State<K, V>>, k: nat, j: nat, i: nat, result: Exit<V>, a: nat)
    requires IsRun(run) && k < j < |run| && ConstructsAt(run, k, i, result)
    requires a < |run[j].pcs| && run[j].pcs[a].Done?
    requires i < |run[j].calls| && run[j].calls[a].key == run[j].calls[i].key
    ensures a == i ==> run[j].pcs[a].exit == result
    ensures a != i ==> run[j].pcs[a].exit.Returned? || run[j].calls[a].op.Get?
    ensures run[j].pcs[a].exit.Returned? ==>
              run[j].pcs[a].exit.value == match result case Returned(v) => v case _ => Nil
  {
    RunInv(run, k);
    ConstructorEnds(run[k], i, result, run[k + 1]);
    StaysConstructed(run, k + 1, j, i, result);
    RunInv(run, j);
    assert CallInv(run[j], a) && CallInv(run[j], i);
    assert a != i ==> OnlyWaits(run[j], a);
  }

  /*** Calls that start after the constructor has been called ***/

  /** The key of call b has an entry, and b has not started or only waits for that entry. */
  ghost predicate Served<K, V>(s: State<K, V>, b: nat)
    requires s.Shaped()
  {
    && b < |s.pcs| && s.calls[b].key in s.values
    && match s.pcs[b]
       case Start => true
       case Waiting(_) => true
       case Woken => true
       case Done(exit) => exit.Returned?
       case _ => false
  }

  lemma ServedStep<K(!new), V>(s: State<K, V>, b: nat, i: nat, r: Exit<V>, s': State<K, V>)
    requires Inv(s) && Enabled(s, i) && ConstructorExit(r) && s' == Step(s, i, r) && Served(s, b)
    ensures Served(s', b)
  {
    StepAdvances(s, i, r, s');
    assert CallInv(s, b);
  }

  lemma ServedNext<K(!new), V(!new)>(run: seq<State<K, V>>, j: nat, b: nat)
    requires IsRun(run) && 0 < j < |run| && Served(run[j - 1], b)
    ensures Served(run[j], b)
  {
    RunInv(run, j - 1);
    assert NextAt(run, j);
    var i: nat, r: Exit<V> :| Enabled(run[j - 1], i) && ConstructorExit(r) && run[j] == Step(run[j - 1], i, r);
    ServedStep(run[j - 1], b, i, r, run[j]);
  }

  lemma {:induction false} StaysServed<K(!new), V(!new)>(run: seq<State<K, V>>, k: nat, j: nat, b: nat)
    requires IsRun(run) && k <= j < |run| && Served(run[k], b)
    ensures Served(run[j], b)
  {
    if k < j {
      StaysServed(run, k, j - 1, b);
      ServedNext(run, j, b);
    }
  }

  /** A call, Once or Get, that starts after a constructor was started for its key does not panic:
      if it ends it returns. */
  lemma LateCallsReturn<K(!new), V(!new)>(run: seq<State<K, V>>, k: nat, j: nat, b: nat)
    requires IsRun(run) && k <= j < |run| && b < |run[k].pcs| && b < |run[j].pcs|
    requires run[k].pcs[b].Start? && run[k].runs[run[k].calls[b].key] > 0
    ensures run[j].pcs[b].Done? ==> run[j].pcs[b].exit.Returned?
  {
    RunInv(run, k);
    StaysServed(run, k, j, b);
  }

  /** A Get that starts before any constructor was started for its key panics at once. */
  lemma EarlyGetPanics<K(!new), V(!new)>(run: seq<State<K, V>>, k: nat, b: nat, r: Exit<V>)
    requires IsRun(run) && k + 1 < |run| && Enabled(run[k], b) && ConstructorExit(r)
    requires run[k].pcs[b].Start? && run[k].calls[b].op.Get? && run[k].runs[run[k].calls[b].key] == 0
    requires run[k + 1] == Step(run[k], b, r)
    ensures run[k + 1].pcs[b] == Done(GetBeforeOnce)
  {
    RunInv(run, k);
  }

  /** The panic "waiter completed but key is still not valid" is unreachable, and only Get can
      fail for a missing key. */
  lemma NoInternalPanic<K(!new), V(!new)>(run: seq<State<K, V>>, i: nat, a: nat)
    requires IsRun(run) && i < |run| && a < |run[i].pcs|
    ensures run[i].pcs[a] != Done(StillWaiter)
    ensures run[i].pcs[a] == Done(GetBeforeOnce) ==> run[i].calls[a].op.Get?
  {
    RunInv(run, i);
    assert CallInv(run[i], a);
  }

  /** A waiter is closed at most once, and never before its key holds a value. */
  lemma ClosedOnceAfterStore<K(!new), V(!new)>(run: seq<State<K, V>>, i: nat, w: nat)
    requires IsRun(run) && i < |run|
    ensures run[i].closes[w] <= 1
    ensures run[i].closes[w] == 1 ==> w < |run[i].calls| && StoredAt(run[i], run[i].calls[w].key)
  {
    RunInv(run, i);
  }

  /** A call blocked on a channel waits for a call of the same key that is constructing, storing
      or about to close that very channel. */
  lemma BlockedHasLiveOwner<K(!new), V(!new)>(run: seq<State<K, V>>, i: nat, a: nat)
    requires IsRun(run) && i < |run| && a < |run[i].pcs|
    requires run[i].pcs[a].Waiting? && !Enabled(run[i], a)
    ensures var s := run[i]; var w := s.pcs[a].on;
            && w < |s.pcs| && s.calls[w].key == s.calls[a].key
            && (s.pcs[w].Constructing? || s.pcs[w].Storing? || s.pcs[w].Closing?)
  {
    RunInv(run, i);
    assert CallInv(run[i], a);
  }

  /*** Progress ***/

  /** Constructors only make calls for keys of smaller rank: no key depends on itself. */
  ghost predicate AcyclicNesting<K(!new)>(calls: seq<Call<K>>, rank: K -> nat) {
    && WellNested(calls)
    && forall c :: 0 <= c < |calls| && calls[c].parent >= 0 ==>
         rank(calls[c].key) < rank(calls[calls[c].parent].key)
  }

  /** The call that call i waits for, itself if it can step: one that can step or constructs. */
  lemma WaitsFor<K(!new), V>(s: State<K, V>, i: nat) returns (j: nat)
    requires Inv(s) && InProgress(s, i)
    ensures j < |s.pcs| && s.calls[j].key == s.calls[i].key
    ensures Enabled(s, j) || HasBusyChild(s, j)
  {
    assert CallInv(s, i);
    j := if s.pcs[i].Waiting? && s.closes[s.pcs[i].on] == 0 then s.pcs[i].on else i;
  }

  /** An unfinished call never blocks the whole system: some call can step. */
  lemma {:induction false} SomeoneCanStep<K(!new), V(!new)>(s: State<K, V>, rank: K -> nat, i: nat)
    returns (j: nat)
    requires Inv(s) && AcyclicNesting(s.calls, rank) && InProgress(s, i)
    ensures Enabled(s, j)
    decreases rank(s.calls[i].key)
  {
    j := WaitsFor(s, i);
    if !Enabled(s, j) {
      var c :| 0 <= c < |s.calls| && s.calls[c].parent == j && InProgress(s, c);
      j := SomeoneCanStep(s, rank, c);
    }
  }

  /** When no call can step, every top-level call has ended; a call that has not ended was never
      made, because the constructor that could make it is not running. */
  lemma StuckMeansFinished<K(!new), V(!new)>(run: seq<State<K, V>>, i: nat, rank: K -> nat, a: nat)
    requires IsRun(run) && i < |run| && AcyclicNesting(run[0].calls, rank)
    requires forall j: nat :: !Enabled(run[i], j)
    requires a < |run[i].pcs|
    ensures run[i].pcs[a].Done? || (run[i].pcs[a].Start? && !MayStart(run[i], a))
    ensures run[i].calls[a].parent < 0 ==> run[i].pcs[a].Done?
    ensures run[i].pcs[a].Done? && run[i].calls[a].op.Once? ==> run[i].runs[run[i].calls[a].key] == 1
  {
    RunInv(run, i);
    assert CallInv(run[i], a);
    if InProgress(run[i], a) {
      var j := SomeoneCanStep(run[i], rank, a);
    }
    assert !Enabled(run[i], a);
  }

  /** How many steps a call can still take. */
  ghost function Left<V>(pc: PC<V>): nat {
    match pc
    case Start => 5
    case Missed => 4
    case Waiting(_) => 2
    case Woken => 1
    case Constructing => 3
    case Storing(_) => 2
    case Closing(_) => 1
    case Done(_) => 0
  }

  ghost function TotalLeft<V>(pcs: seq<PC<V>>): nat {
    if pcs == [] then 0 else Left(pcs[0]) + TotalLeft(pcs[1..])
  }

  lemma {:induction false} TotalLeftUpdate<V>(pcs: seq<PC<V>>, i: nat, pc: PC<V>)
    requires i < |pcs|
    ensures TotalLeft(pcs[i := pc]) == TotalLeft(pcs) - Left(pcs[i]) + Left(pc)
  {
    if i == 0 {
      assert pcs[i := pc][1..] == pcs[1..];
    } else {
      assert pcs[i := pc][1..] == pcs[1..][i - 1 := pc];
      TotalLeftUpdate(pcs[1..], i - 1, pc);
    }
  }

  lemma {:induction false} TotalLeftInit<V>(pcs: seq<PC<V>>)
    requires forall i :: 0 <= i < |pcs| ==> pcs[i].Start?
    ensures TotalLeft(pcs) == 5 * |pcs|
  {
    if pcs != [] { TotalLeftInit(pcs[1..]); }
  }

  lemma StepUsesOneStep<K, V>(s: State<K, V>, i: nat, result: Exit<V>, s': State<K, V>)
    requires s.Shaped() && Enabled(s, i) && ConstructorExit(result) && s' == Step(s, i, result)
    ensures TotalLeft(s'.pcs) < TotalLeft(s.pcs)
  {
    TotalLeftUpdate(s.pcs, i, s'.pcs[i]);
  }

  lemma NextUsesOneStep<K(!new), V(!new)>(s: State<K, V>, s': State<K, V>)
    requires s.Shaped() && Next(s, s')
    ensures s'.Shaped() && s'.calls == s.calls && TotalLeft(s'.pcs) < TotalLeft(s.pcs)
  {
    var i: nat, result :| Enabled(s, i) && ConstructorExit(result) && s' == Step(s, i, result);
    StepUsesOneStep(s, i, result, s');
  }

  /** Every run is finite: n calls take at most 5n steps together, so nothing spins forever. */
  lemma {:induction false} RunsAreShort<K(!new), V(!new)>(run: seq<State<K, V>>, i: nat)
    requires IsRun(run) && i < |run|
    ensures i + TotalLeft(run[i].pcs) <= 5 * |run[0].calls|
  {
    if i == 0 {
      TotalLeftInit(run[0].pcs);
    } else {
      RunsAreShort(run, i - 1);
      assert NextAt(run, i);
      NextUsesOneStep(run[i - 1], run[i]);
    }
  }
}
