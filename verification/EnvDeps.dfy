/** The record of environment variables that a build depends on: Getenv and EnvDeps of
    android/config.go, and the file by which soong_env decides whether to run again. */
module EnvDeps {
  import opened Options
  import opened Lex

  /** What a lookup in the environment gives: an unset variable reads as the empty string. */
  function Value(env: map<string, string>, key: string): string {
    if key in env then env[key] else ""
  }

  /** config, as far as the environment goes. */
  class Config {
    const env: map<string, string>
    var envDeps: map<string, string>
    var envFrozen: bool

    constructor (env: map<string, string>)
      ensures this.env == env && Current() == Init()
    {
      this.env := env;
      envDeps := map[];
      envFrozen := false;
    }

    ghost function Current(): State
      reads this
    {
      State(envDeps, envFrozen)
    }

    /** None is the panic. */
    method Getenv(key: string) returns (val: Option<string>)
      modifies `envDeps
      ensures (Current(), if val.Some? then Val(val.value) else Panic) == Step(env, old(Current()), Get(key))
    {
      if key in envDeps {
        return Some(envDeps[key]);
      }
      if envFrozen {
        return None;
      }
      envDeps := envDeps[key := Value(env, key)];
      return Some(envDeps[key]);
    }

    method EnvDeps() returns (deps: map<string, string>)
      modifies `envFrozen
      ensures (Current(), Deps(deps)) == Step(env, old(Current()), Freeze)
    {
      envFrozen := true;
      return envDeps;
    }
  }

  /*** Runs ***/

  datatype State = State(deps: map<string, string>, frozen: bool)
  datatype Op = Get(key: string) | Freeze
  datatype Outcome = Val(val: string) | Deps(deps: map<string, string>) | Panic

  function Init(): State {
    State(map[], false)
  }

  function Step(env: map<string, string>, s: State, op: Op): (State, Outcome) {
    match op
    case Get(k) =>
      if k in s.deps then (s, Val(s.deps[k]))
      else if s.frozen then (s, Panic)
      else (s.(deps := s.deps[k := Value(env, k)]), Val(Value(env, k)))
    case Freeze => (s.(frozen := true), Deps(s.deps))
  }

  /** Whatever runs on top: it chooses its next call from the outcomes of all earlier ones. */
  type Client = seq<Outcome> -> Op

  datatype Run = Run(state: State, outcomes: seq<Outcome>)

  /** The first n calls of a client. */
  ghost function RunOf(env: map<string, string>, client: Client, n: nat): (r: Run)
    ensures |r.outcomes| == n
  {
    if n == 0 then Run(Init(), []) else
      var r := RunOf(env, client, n - 1);
      var (s, out) := Step(env, r.state, client(r.outcomes));
      Run(s, r.outcomes + [out])
  }

  /** Call i of a run is a read of key that succeeds. */
  ghost predicate ReadAt(client: Client, outcomes: seq<Outcome>, i: nat, key: string) {
    i < |outcomes| && client(outcomes[..i]) == Get(key) && outcomes[i].Val?
  }

  /** Call i of a run asks for the record. */
  ghost predicate FrozenAt(client: Client, outcomes: seq<Outcome>, i: nat) {
    i < |outcomes| && client(outcomes[..i]) == Freeze
  }

  /** The record is frozen exactly if it was asked for. */
  lemma {:induction false} FrozenIff(env: map<string, string>, client: Client, n: nat)
    ensures var r := RunOf(env, client, n);
            r.state.frozen <==> exists i :: FrozenAt(client, r.outcomes, i)
  {
    if n > 0 {
      FrozenIff(env, client, n - 1);
      var before, after := RunOf(env, client, n - 1).outcomes, RunOf(env, client, n).outcomes;
      assert after[..n - 1] == before;
      assert FrozenAt(client, after, n - 1) <==> client(before) == Freeze;
      forall i | 0 <= i < n - 1 ensures FrozenAt(client, after, i) <==> FrozenAt(client, before, i) {
        assert after[..i] == before[..i];
      }
    }
  }

  lemma {:induction false} Prefix(env: map<string, string>, client: Client, i: nat, n: nat)
    requires i <= n
    ensures RunOf(env, client, n).outcomes[..i] == RunOf(env, client, i).outcomes
  {
    if i < n {
      Prefix(env, client, i, n - 1);
      var r := RunOf(env, client, n - 1);
      assert RunOf(env, client, n).outcomes[..n - 1] == r.outcomes;
      assert RunOf(env, client, n).outcomes[..i] == r.outcomes[..i];
    }
  }

  /** Nothing recorded is ever dropped or changed, and after the freeze nothing is added. */
  lemma {:induction false} RecordGrows(env: map<string, string>, client: Client, i: nat, n: nat)
    requires i <= n
    ensures var s, t := RunOf(env, client, i).state, RunOf(env, client, n).state;
            && (forall k :: k in s.deps ==> k in t.deps && t.deps[k] == s.deps[k])
            && (s.frozen ==> t == s)
  {
    if i < n { RecordGrows(env, client, i, n - 1); }
  }

  ghost predicate WasRead(client: Client, outcomes: seq<Outcome>, key: string) {
    exists i :: ReadAt(client, outcomes, i, key)
  }

  /** The record holds exactly the variables that were read, with the values they have. */
  lemma {:induction false} RecordIsWhatWasRead(env: map<string, string>, client: Client, n: nat, key: string)
    ensures var r := RunOf(env, client, n);
            && (key in r.state.deps <==> WasRead(client, r.outcomes, key))
            && (key in r.state.deps ==> r.state.deps[key] == if key in env then env[key] else "")
  {
    if n > 0 {
      RecordIsWhatWasRead(env, client, n - 1, key);
      var p := RunOf(env, client, n - 1);
      WasReadSnoc(client, p.outcomes, Step(env, p.state, client(p.outcomes)).1, key);
    }
  }

  lemma WasReadSnoc(client: Client, outcomes: seq<Outcome>, out: Outcome, key: string)
    ensures WasRead(client, outcomes + [out], key) <==>
            WasRead(client, outcomes, key) || (client(outcomes) == Get(key) && out.Val?)
  {
    var all := outcomes + [out];
    assert all[..|outcomes|] == outcomes;
    assert ReadAt(client, all, |outcomes|, key) <==> client(outcomes) == Get(key) && out.Val?;
    forall i | 0 <= i < |outcomes| ensures ReadAt(client, all, i, key) <==> ReadAt(client, outcomes, i, key) {
      assert all[..i] == outcomes[..i];
    }
  }

  /** A read returns the value of the variable, or panics; it panics exactly if it comes after the
      freeze and asks for a variable that was not read before it. */
  lemma ReadOutcome(env: map<string, string>, client: Client, n: nat, i: nat, key: string)
    requires i < n && client(RunOf(env, client, i).outcomes) == Get(key)
    ensures var out, s := RunOf(env, client, n).outcomes[i], RunOf(env, client, i).state;
            out == if s.frozen && key !in s.deps then Panic else Val(if key in env then env[key] else "")
  {
    Prefix(env, client, i + 1, n);
    RecordIsWhatWasRead(env, client, i, key);
    var r := RunOf(env, client, i + 1);
    assert RunOf(env, client, n).outcomes[i] == RunOf(env, client, n).outcomes[..i + 1][i] == r.outcomes[i];
  }

  /*** The environment file ***/

  datatype Entry = Entry(key: string, value: string)

  function Keys(contents: seq<Entry>): seq<string> {
    if contents == [] then [] else [contents[0].key] + Keys(contents[1..])
  }

  /** The contents that the file has for deps: the entries of deps, sorted by key. */
  ghost predicate FileOf(contents: seq<Entry>, deps: map<string, string>) {
    && StrictlySorted(Keys(contents))
    && (forall e :: e in contents ==> e.key in deps && deps[e.key] == e.value)
    && (forall k :: k in deps ==> k in Keys(contents))
  }

  function Entries(keys: seq<string>, deps: map<string, string>): (contents: seq<Entry>)
    requires forall k :: k in keys ==> k in deps
    ensures Keys(contents) == keys
    ensures forall e :: e in contents ==> e.key in deps && deps[e.key] == e.value
  {
    if keys == [] then [] else [Entry(keys[0], deps[keys[0]])] + Entries(keys[1..], deps)
  }

  /** WriteEnvFile, up to JSON. */
  method WriteEnvFile(deps: map<string, string>) returns (contents: seq<Entry>)
    ensures FileOf(contents, deps)
  {
    var keys := SortedKeys(deps.Keys);
    contents := Entries(keys, deps);
  }

  /** The file is the same whatever order the map is gone through. */
  lemma FileUnique(a: seq<Entry>, b: seq<Entry>, deps: map<string, string>)
    requires FileOf(a, deps) && FileOf(b, deps)
    ensures a == b
  {
    KeysAre(a, deps);
    KeysAre(b, deps);
    StrictlySortedUnique(Keys(a), Keys(b));
    SameKeys(a, b, deps);
  }

  lemma KeysAre(a: seq<Entry>, deps: map<string, string>)
    requires FileOf(a, deps)
    ensures forall k :: k in Keys(a) <==> k in deps
  {
    forall k | k in Keys(a) ensures k in deps { var i := KeyIndex(a, k); }
  }

  lemma {:induction false} KeyIndex(a: seq<Entry>, k: string) returns (i: nat)
    requires k in Keys(a)
    ensures i < |a| && a[i].key == k
  {
    if a[0].key == k {
      i := 0;
    } else {
      i := KeyIndex(a[1..], k);
      i := i + 1;
    }
  }

  lemma {:induction false} SameKeys(a: seq<Entry>, b: seq<Entry>, deps: map<string, string>)
    requires Keys(a) == Keys(b)
    requires forall e :: e in a ==> e.key in deps && deps[e.key] == e.value
    requires forall e :: e in b ==> e.key in deps && deps[e.key] == e.value
    ensures a == b
  {
    if a != [] {
      assert a[0] in a && b[0] in b;
      assert Keys(a)[0] == Keys(b)[0] && Keys(a)[1..] == Keys(b)[1..];
      SameKeys(a[1..], b[1..], deps);
      assert a == [a[0]] + a[1..] && b == [b[0]] + b[1..];
    }
  }

  ghost predicate Fresh(contents: seq<Entry>, env: map<string, string>) {
    forall i :: 0 <= i < |contents| ==> contents[i].value == Value(env, contents[i].key)
  }

  /** StaleEnvFile on what was read from the file; None is a file that cannot be read or parsed. */
  method StaleEnvFile(file: Option<seq<Entry>>, env: map<string, string>) returns (stale: bool)
    ensures !stale <==> file.Some? && Fresh(file.value, env)
  {
    if file.None? {
      return true;
    }
    var contents := file.value;
    var changed: seq<string> := [];
    for i := 0 to |contents|
      invariant changed == [] <==> forall j :: 0 <= j < i ==> contents[j].value == Value(env, contents[j].key)
    {
      var cur := Value(env, contents[i].key);
      if contents[i].value != cur {
        changed := changed + [contents[i].key];
      }
    }
    return |changed| > 0;
  }

  ghost predicate Agrees(deps: map<string, string>, env: map<string, string>) {
    forall k :: k in deps ==> deps[k] == if k in env then env[k] else ""
  }

  /** The file is fresh exactly if the environment gives every recorded variable its recorded value. */
  lemma FreshIffAgrees(contents: seq<Entry>, deps: map<string, string>, env: map<string, string>)
    requires FileOf(contents, deps)
    ensures Fresh(contents, env) <==> Agrees(deps, env)
  {
    if Fresh(contents, env) {
      forall k | k in deps ensures deps[k] == Value(env, k) {
        var i := KeyIndex(contents, k);
        assert contents[i] in contents;
      }
    }
    if Agrees(deps, env) {
      forall i | 0 <= i < |contents| ensures contents[i].value == Value(env, contents[i].key) {
        assert contents[i] in contents;
      }
    }
  }

  /*** What the record is for ***/

  /** An environment that agrees with the record of a run gives the same run. */
  lemma {:induction false} SameRun(env: map<string, string>, env': map<string, string>, client: Client, n: nat)
    requires Agrees(RunOf(env, client, n).state.deps, env')
    ensures RunOf(env', client, n) == RunOf(env, client, n)
  {
    if n > 0 {
      RecordGrows(env, client, n - 1, n);
      SameRun(env, env', client, n - 1);
      var r := RunOf(env, client, n - 1);
      SameStep(env, env', r.state, client(r.outcomes));
    }
  }

  lemma SameStep(env: map<string, string>, env': map<string, string>, s: State, op: Op)
    requires Agrees(Step(env, s, op).0.deps, env')
    ensures Step(env', s, op) == Step(env, s, op)
  {}

  /** The record is no larger than it need be: if the outcomes are the same in another environment,
      that environment agrees with the record. */
  lemma SameOutcomesAgree(env: map<string, string>, env': map<string, string>, client: Client, n: nat)
    requires RunOf(env', client, n).outcomes == RunOf(env, client, n).outcomes
    ensures Agrees(RunOf(env, client, n).state.deps, env')
  {
    var r, r' := RunOf(env, client, n), RunOf(env', client, n);
    forall k | k in r.state.deps ensures r.state.deps[k] == Value(env', k) {
      RecordIsWhatWasRead(env, client, n, k);
      var i :| ReadAt(client, r.outcomes, i, k);
      Prefix(env, client, i, n);
      Prefix(env', client, i, n);
      ReadOutcome(env, client, n, i, k);
      ReadOutcome(env', client, n, i, k);
    }
  }

  /** soong_env asks for another run exactly if that run would go differently: for every client
      that has called EnvDeps, the file written from it is fresh in another environment if and
      only if all its calls, before and after, have the same outcomes there. */
  lemma FreshIffSameRun(env: map<string, string>, env': map<string, string>, client: Client, i: nat, n: nat,
                        contents: seq<Entry>)
    requires i < n && client(RunOf(env, client, i).outcomes) == Freeze
    requires RunOf(env, client, n).outcomes[i].Deps? && FileOf(contents, RunOf(env, client, n).outcomes[i].deps)
    ensures Fresh(contents, env') <==>
            RunOf(env', client, n).outcomes == RunOf(env, client, n).outcomes
  {
    Prefix(env, client, i + 1, n);
    assert RunOf(env, client, n).outcomes[..i + 1][i] == RunOf(env, client, i + 1).outcomes[i];
    RecordGrows(env, client, i + 1, n);
    var deps := RunOf(env, client, n).state.deps;
    assert RunOf(env, client, n).outcomes[i].deps == deps;
    FreshIffAgrees(contents, deps, env');
    if Agrees(deps, env') { SameRun(env, env', client, n); }
    if RunOf(env', client, n).outcomes == RunOf(env, client, n).outcomes { SameOutcomesAgree(env, env', client, n); }
  }
}
