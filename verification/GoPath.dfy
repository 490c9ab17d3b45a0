/** Lexical paths: Go's filepath.Clean, Join and Rel, and the checks that android/paths.go builds on
    them. */
module GoPath {
  import opened Options
  import opened Text

  /*** Splitting at slashes ***/

  /** strings.Split(s, "/") */
  function Split(s: string): (r: seq<string>)
    ensures |r| > 0
    decreases |s|
  {
    if '/' in s then
      PartitionJoin(s, '/');
      [Before(s, '/')] + Split(After(s, '/'))
    else [s]
  }

  function Slashed(segs: seq<string>): string {
    Joined(segs, "/")
  }

  ghost predicate NoSlash(segs: seq<string>) {
    forall i :: 0 <= i < |segs| ==> '/' !in segs[i]
  }

  lemma {:induction false} SplitNoSlash(s: string)
    ensures NoSlash(Split(s))
    decreases |s|
  {
    if '/' in s {
      PartitionJoin(s, '/');
      SplitNoSlash(After(s, '/'));
    }
  }

  lemma {:induction false} SplitSlashed(segs: seq<string>)
    requires segs != [] && NoSlash(segs)
    ensures Split(Slashed(segs)) == segs
  {
    if |segs| == 1 {
      assert segs == [segs[0]];
    } else {
      SplitSlashed(segs[1..]);
      Partition(segs[0], '/', Slashed(segs[1..]));
      assert Slashed(segs) == segs[0] + ['/'] + Slashed(segs[1..]);
      assert Slashed(segs)[|segs[0]|] == '/';
      assert segs == [segs[0]] + segs[1..];
    }
  }

  lemma {:induction false} SplitConcat(a: string, b: string)
    ensures Split(a + "/" + b) == Split(a) + Split(b)
    decreases |a|
  {
    var s := a + "/" + b;
    assert s[|a|] == '/';
    if '/' in a {
      PartitionJoin(a, '/');
      var x, y := Before(a, '/'), After(a, '/');
      assert s == x + ['/'] + (y + "/" + b);
      Partition(x, '/', y + "/" + b);
      SplitConcat(y, b);
      assert [x] + (Split(y) + Split(b)) == [x] + Split(y) + Split(b);
    } else {
      assert s == a + ['/'] + b;
      Partition(a, '/', b);
    }
  }

  lemma {:induction false} SlashedAppend(a: seq<string>, b: seq<string>)
    requires a != [] && b != []
    ensures Slashed(a + b) == Slashed(a) + "/" + Slashed(b)
  {
    assert (a + b)[1..] == a[1..] + b && (a + b)[0] == a[0];
    if |a| > 1 {
      SlashedAppend(a[1..], b);
      assert a[0] + "/" + (Slashed(a[1..]) + "/" + Slashed(b)) == a[0] + "/" + Slashed(a[1..]) + "/" + Slashed(b);
    } else {
      assert a[1..] + b == b;
    }
  }

  lemma {:induction false} SlashedSplit(s: string)
    ensures Slashed(Split(s)) == s
    decreases |s|
  {
    if '/' in s {
      PartitionJoin(s, '/');
      SlashedSplit(After(s, '/'));
      assert Split(s)[1..] == Split(After(s, '/'));
    }
  }

  /*** Clean ***/

  predicate IsAbs(s: string) {
    s != "" && s[0] == '/'
  }

  /** One component on top of the components kept so far. */
  function Push(abs: bool, kept: seq<string>, seg: string): seq<string> {
    if seg == "" || seg == "." then kept
    else if seg != ".." then kept + [seg]
    else if kept != [] && kept[|kept| - 1] != ".." then kept[..|kept| - 1]
    else if abs then kept
    else kept + [".."]
  }

  function Reduce(abs: bool, kept: seq<string>, segs: seq<string>): seq<string> {
    if segs == [] then kept else Push(abs, Reduce(abs, kept, segs[..|segs| - 1]), segs[|segs| - 1])
  }

  /** The components of a path once . and .. and double slashes are gone. */
  function CleanSegs(s: string): seq<string> {
    Reduce(IsAbs(s), [], Split(s))
  }

  function Render(abs: bool, segs: seq<string>): string {
    if abs then "/" + Slashed(segs) else if segs == [] then "." else Slashed(segs)
  }

  /** filepath.Clean */
  function Clean(s: string): string {
    Render(IsAbs(s), CleanSegs(s))
  }

  /** The form of a clean path: .. only at the front, and not in an absolute path. */
  ghost predicate Normal(abs: bool, segs: seq<string>) {
    && NoSlash(segs)
    && (forall i :: 0 <= i < |segs| ==> segs[i] != "" && segs[i] != ".")
    && (forall i :: 0 <= i < |segs| && segs[i] == ".." ==> !abs && forall j :: 0 <= j < i ==> segs[j] == "..")
  }

  lemma PushNormal(abs: bool, kept: seq<string>, seg: string)
    requires Normal(abs, kept) && '/' !in seg
    ensures Normal(abs, Push(abs, kept, seg))
  {}

  lemma {:induction false} ReduceNormal(abs: bool, kept: seq<string>, segs: seq<string>)
    requires Normal(abs, kept) && NoSlash(segs)
    ensures Normal(abs, Reduce(abs, kept, segs))
  {
    if segs != [] {
      ReduceNormal(abs, kept, segs[..|segs| - 1]);
      PushNormal(abs, Reduce(abs, kept, segs[..|segs| - 1]), segs[|segs| - 1]);
    }
  }

  lemma CleanSegsNormal(s: string)
    ensures Normal(IsAbs(s), CleanSegs(s))
  {
    SplitNoSlash(s);
    ReduceNormal(IsAbs(s), [], Split(s));
  }

  lemma {:induction false} ReduceAppend(abs: bool, kept: seq<string>, a: seq<string>, b: seq<string>)
    ensures Reduce(abs, kept, a + b) == Reduce(abs, Reduce(abs, kept, a), b)
  {
    if b == [] {
      assert a + b == a;
    } else {
      assert (a + b)[..|a + b| - 1] == a + b[..|b| - 1];
      ReduceAppend(abs, kept, a, b[..|b| - 1]);
    }
  }

  /** Reducing clean components changes nothing. */
  lemma {:induction false} ReduceOfNormal(abs: bool, segs: seq<string>)
    requires Normal(abs, segs)
    ensures Reduce(abs, [], segs) == segs
  {
    if segs != [] {
      var init, seg := segs[..|segs| - 1], segs[|segs| - 1];
      assert segs == init + [seg];
      ReduceOfNormal(abs, init);
      assert init != [] && init[|init| - 1] != ".." ==> seg != "..";
    }
  }

  lemma ReduceSnoc(abs: bool, kept: seq<string>, segs: seq<string>, seg: string)
    ensures Reduce(abs, kept, segs + [seg]) == Push(abs, Reduce(abs, kept, segs), seg)
  {
    assert (segs + [seg])[..|segs|] == segs;
  }

  lemma RenderReads(abs: bool, segs: seq<string>)
    requires Normal(abs, segs)
    ensures IsAbs(Render(abs, segs)) == abs && CleanSegs(Render(abs, segs)) == segs
  {
    var s := Render(abs, segs);
    if abs {
      assert s == "" + "/" + Slashed(segs);
      SplitConcat("", Slashed(segs));
      assert Split("") == [""];
      ReduceAppend(true, [], [""], Split(Slashed(segs)));
      assert [""][..0] == [] && Reduce(true, [], [""]) == [];
      if segs == [] {
        assert Split(Slashed(segs)) == [""];
      } else {
        SplitSlashed(segs);
        ReduceOfNormal(true, segs);
      }
    } else if segs == [] {
      assert Split(".") == ["."] && ["."][..0] == [];
    } else {
      SplitSlashed(segs);
      ReduceOfNormal(false, segs);
      SlashedStart(segs);
    }
  }

  lemma SlashedStart(segs: seq<string>)
    requires segs != [] && segs[0] != ""
    ensures Slashed(segs) != "" && Slashed(segs)[0] == segs[0][0]
  {}

  /** Cleaning is idempotent. */
  lemma CleanIdempotent(s: string)
    ensures Clean(Clean(s)) == Clean(s) && CleanSegs(Clean(s)) == CleanSegs(s) && IsAbs(Clean(s)) == IsAbs(s)
  {
    CleanSegsNormal(s);
    RenderReads(IsAbs(s), CleanSegs(s));
  }

  /*** Join ***/

  /** filepath.Join */
  function Join(elems: seq<string>): string {
    if elems == [] then "" else if elems[0] == "" then Join(elems[1..]) else Clean(Slashed(elems))
  }

  /** The components of all elements, in order. */
  function AllSplit(elems: seq<string>): seq<string> {
    if elems == [] then [] else Split(elems[0]) + AllSplit(elems[1..])
  }

  lemma {:induction false} SplitOfSlashed(elems: seq<string>)
    requires elems != []
    ensures Split(Slashed(elems)) == AllSplit(elems)
  {
    if |elems| == 1 {
      assert elems[1..] == [] && Split(elems[0]) + [] == Split(elems[0]);
    } else {
      SplitOfSlashed(elems[1..]);
      SplitConcat(elems[0], Slashed(elems[1..]));
    }
  }

  /** Some element is nonempty, and the first such one is absolute. */
  predicate StartsAbs(elems: seq<string>) {
    elems != [] && if elems[0] == "" then StartsAbs(elems[1..]) else IsAbs(elems[0])
  }

  lemma ReduceSkipsEmpty(abs: bool, segs: seq<string>)
    ensures Reduce(abs, [], [""] + segs) == Reduce(abs, [], segs)
  {
    ReduceAppend(abs, [], [""], segs);
    assert [""][..0] == [] && Reduce(abs, [], [""]) == [];
  }

  /** What a join reduces to: the components of all its elements together. */
  lemma {:induction false} JoinSegs(elems: seq<string>)
    ensures IsAbs(Join(elems)) == StartsAbs(elems)
    ensures CleanSegs(Join(elems)) == Reduce(StartsAbs(elems), [], AllSplit(elems))
    ensures Join(elems) == "" || Join(elems) == Render(StartsAbs(elems), CleanSegs(Join(elems)))
  {
    if elems == [] {
      assert Split("") == [""] && [""][..0] == [];
    } else if elems[0] == "" {
      JoinSegs(elems[1..]);
      assert Split(elems[0]) == [""];
      ReduceSkipsEmpty(StartsAbs(elems), AllSplit(elems[1..]));
    } else {
      CleanIdempotent(Slashed(elems));
      SplitOfSlashed(elems);
      SlashedStart(elems);
    }
  }

  /*** Components that stay inside ***/

  /** Nothing in these components leads above where they start. */
  ghost predicate StaysInside(segs: seq<string>) {
    var r := Reduce(false, [], segs);
    r == [] || r[0] != ".."
  }

  lemma StaysInsidePrefix(segs: seq<string>, seg: string)
    requires StaysInside(segs + [seg])
    ensures StaysInside(segs)
    ensures seg == ".." ==> Reduce(false, [], segs) != []
  {
    ReduceSnoc(false, [], segs, seg);
  }

  lemma PushOnTop(abs: bool, kept: seq<string>, r: seq<string>, seg: string)
    requires if r == [] then seg != ".." else r[|r| - 1] != ".."
    ensures Push(abs, kept + r, seg) == kept + Push(false, r, seg)
  {
    if r != [] {
      assert (kept + r)[..|kept + r| - 1] == kept + r[..|r| - 1];
    }
  }

  /** Components that stay inside reduce to proper names only. */
  lemma InsideHasNoDotDot(segs: seq<string>)
    requires NoSlash(segs) && StaysInside(segs)
    ensures ".." !in Reduce(false, [], segs)
  {
    ReduceNormal(false, [], segs);
  }

  /** Components that stay inside simply go on top of what is there. */
  lemma {:induction false} ReduceOnTop(abs: bool, kept: seq<string>, segs: seq<string>)
    requires NoSlash(segs) && StaysInside(segs)
    ensures Reduce(abs, kept, segs) == kept + Reduce(false, [], segs)
  {
    if segs == [] {
      assert kept + [] == kept;
    } else {
      var init, seg := segs[..|segs| - 1], segs[|segs| - 1];
      assert segs == init + [seg];
      StaysInsidePrefix(init, seg);
      ReduceOnTop(abs, kept, init);
      InsideHasNoDotDot(init);
      PushOnTop(abs, kept, Reduce(false, [], init), seg);
    }
  }

  /** How far below its start a relative path ends, if it is taken step by step. */
  function Depth(segs: seq<string>): int {
    if segs == [] then 0 else
      var seg := segs[|segs| - 1];
      Depth(segs[..|segs| - 1]) + (if seg == "" || seg == "." then 0 else if seg == ".." then -1 else 1)
  }

  /** No step leads above the start. */
  ghost predicate NeverAbove(segs: seq<string>) {
    forall n :: 0 <= n <= |segs| ==> Depth(segs[..n]) >= 0
  }

  /** The lexical test is exact: a path is rejected exactly if taking it step by step leads above
      the directory it starts from at some point. */
  lemma {:induction false} StaysInsideIffNeverAbove(segs: seq<string>)
    requires NoSlash(segs)
    ensures StaysInside(segs) <==> NeverAbove(segs)
    ensures StaysInside(segs) ==> |Reduce(false, [], segs)| == Depth(segs)
  {
    if segs == [] {
      assert forall n :: 0 <= n <= |segs| ==> segs[..n] == [];
    } else {
      var init, seg := segs[..|segs| - 1], segs[|segs| - 1];
      assert segs == init + [seg];
      StaysInsideIffNeverAbove(init);
      NeverAboveSnoc(init, seg);
      if StaysInside(segs) {
        StaysInsidePrefix(init, seg);
      }
      if StaysInside(init) {
        InsideHasNoDotDot(init);
      }
    }
  }

  lemma NeverAboveSnoc(segs: seq<string>, seg: string)
    ensures NeverAbove(segs + [seg]) <==> NeverAbove(segs) && Depth(segs + [seg]) >= 0
  {
    var all := segs + [seg];
    assert forall n :: 0 <= n <= |segs| ==> all[..n] == segs[..n];
    assert all[..|all|] == all;
  }

  /*** validateSafePath ***/

  /** The textual test of validateSafePath and maybeRelErr on a clean path. */
  predicate ClimbsOut(path: string) {
    path == ".." || "../" <= path || "/" <= path
  }

  /** The test of validateSafePath on one component. */
  predicate Rejected(c: string) {
    ClimbsOut(Clean(c))
  }

  lemma RejectedIff(c: string)
    ensures Rejected(c) <==> IsAbs(c) || !StaysInside(Split(c))
  {
    var segs := CleanSegs(c);
    CleanSegsNormal(c);
    if IsAbs(c) {
      assert "/" <= "/" + Slashed(segs);
    } else if segs != [] {
      SlashedStart(segs);
      assert segs[0][0] != '/' && "/"[0] == '/';
      DotDotFirst(segs);
    } else {
      assert Clean(c) == "." && "."[0] != "/"[0];
    }
  }

  /** A clean path starts with .. as text exactly if its first component is .. . */
  lemma DotDotFirst(segs: seq<string>)
    requires segs != [] && NoSlash(segs)
    ensures Slashed(segs) == ".." || "../" <= Slashed(segs) <==> segs[0] == ".."
  {
    var s := Slashed(segs);
    if |segs| > 1 {
      assert s == segs[0] + "/" + Slashed(segs[1..]);
      assert forall i :: 0 <= i < |segs[0]| ==> s[i] == segs[0][i];
      assert s[|segs[0]|] == '/';
      if "../" <= s {
        assert s[0] == '.' && s[1] == '.' && s[2] == '/';
        assert forall i :: 0 <= i < |segs[0]| ==> segs[0][i] != '/';
        assert |segs[0]| == 2;
      }
    } else {
      assert s == segs[0] && "../"[2] == '/';
    }
  }

  /** validateSafePath: None is the reported error. */
  method ValidateSafePath(pathComponents: seq<string>) returns (r: Option<string>)
    ensures r == Validated(pathComponents)
  {
    for i := 0 to |pathComponents|
      invariant forall j :: 0 <= j < i ==> !Rejected(pathComponents[j])
    {
      if Rejected(pathComponents[i]) {
        return None;
      }
    }
    return Some(Join(pathComponents));
  }

  function Validated(pathComponents: seq<string>): Option<string> {
    if exists i :: 0 <= i < |pathComponents| && Rejected(pathComponents[i]) then None else Some(Join(pathComponents))
  }

  /** The clean components of all elements. */
  function AllClean(elems: seq<string>): seq<string> {
    if elems == [] then [] else CleanSegs(elems[0]) + AllClean(elems[1..])
  }

  ghost predicate AllSafe(elems: seq<string>) {
    forall i :: 0 <= i < |elems| ==> !Rejected(elems[i])
  }

  lemma {:induction false} ReduceSafe(abs: bool, kept: seq<string>, elems: seq<string>)
    requires AllSafe(elems)
    ensures Reduce(abs, kept, AllSplit(elems)) == kept + AllClean(elems)
    decreases |elems|
  {
    if elems == [] {
      assert kept + [] == kept;
    } else {
      var c, rest := elems[0], elems[1..];
      ReduceAppend(abs, kept, Split(c), AllSplit(rest));
      ReduceSafeOne(abs, kept, c);
      ReduceSafe(abs, kept + CleanSegs(c), rest);
      Assoc(kept, CleanSegs(c), AllClean(rest));
    }
  }

  lemma ReduceSafeOne(abs: bool, kept: seq<string>, c: string)
    requires !Rejected(c)
    ensures Reduce(abs, kept, Split(c)) == kept + CleanSegs(c)
  {
    RejectedIff(c);
    SplitNoSlash(c);
    ReduceOnTop(abs, kept, Split(c));
  }

  lemma {:induction false} SafeIsRelative(elems: seq<string>)
    requires AllSafe(elems)
    ensures !StartsAbs(elems)
  {
    if elems != [] {
      RejectedIff(elems[0]);
      SafeIsRelative(elems[1..]);
    }
  }

  /** Joining validated components never climbs out: the result is relative, and its components are
      exactly the clean components of each element, one after the other. */
  lemma SafeJoin(elems: seq<string>)
    requires AllSafe(elems)
    ensures !IsAbs(Join(elems)) && CleanSegs(Join(elems)) == AllClean(elems)
    ensures !Rejected(Join(elems))
  {
    SafeIsRelative(elems);
    JoinSegs(elems);
    ReduceSafe(false, [], elems);
    assert [] + AllClean(elems) == AllClean(elems);
    var j := Join(elems);
    RejectedIff(j);
    AllCleanInside(elems);
  }

  lemma {:induction false} AllCleanInside(elems: seq<string>)
    requires AllSafe(elems)
    ensures AllClean(elems) == [] || AllClean(elems)[0] != ".."
  {
    if elems != [] {
      RejectedIff(elems[0]);
      AllCleanInside(elems[1..]);
    }
  }

  /** A safe path joined to any other lands below it, component by component. */
  lemma JoinUnder(a: string, b: string)
    requires !Rejected(b)
    ensures IsAbs(Join([a, b])) == IsAbs(a) && CleanSegs(Join([a, b])) == CleanSegs(a) + CleanSegs(b)
    ensures Join([a, b]) == "" || Join([a, b]) == Render(IsAbs(a), CleanSegs(a) + CleanSegs(b))
  {
    var elems := [a, b];
    JoinSegs(elems);
    assert elems[1..] == [b] && [b][1..] == [];
    RejectedIff(b);
    assert StartsAbs([b]) == IsAbs(b);
    assert StartsAbs(elems) == IsAbs(a);
    assert AllSplit([b]) == Split(b) + [] == Split(b);
    ReduceAppend(IsAbs(a), [], Split(a), Split(b));
    ReduceSafeOne(IsAbs(a), CleanSegs(a), b);
  }

  /*** Output paths ***/

  /** validatePath: validateSafePath, and no ninja variables. */
  method ValidatePath(pathComponents: seq<string>) returns (r: Option<string>)
    ensures r == ValidatedPlain(pathComponents)
  {
    for i := 0 to |pathComponents|
      invariant forall j :: 0 <= j < i ==> '$' !in pathComponents[j]
    {
      if '$' in pathComponents[i] {
        return None;
      }
    }
    r := ValidateSafePath(pathComponents);
  }

  function ValidatedPlain(pathComponents: seq<string>): Option<string> {
    if exists i :: 0 <= i < |pathComponents| && '$' in pathComponents[i] then None else Validated(pathComponents)
  }

  /** An OutputPath: a path below the build directory. */
  datatype OutputPath = OutputPath(path: string, rel: string)

  function OrEmpty(r: Option<string>): string {
    if r.Some? then r.value else ""
  }

  /** PathForOutput; on an error the path is empty and the error is reported. */
  function PathForOutput(pathComponents: seq<string>): OutputPath {
    OutputPath(OrEmpty(ValidatedPlain(pathComponents)), "")
  }

  /** OutputPath.Join */
  function OutputJoin(p: OutputPath, paths: seq<string>): OutputPath {
    var rel := OrEmpty(ValidatedPlain(paths));
    OutputPath(Join([p.path, rel]), rel)
  }

  /** OutputPath.String() */
  function OutputString(buildDir: string, p: OutputPath): string {
    Join([buildDir, p.path])
  }

  /** validatePath succeeds exactly if no component has a dollar sign or leaves the directory that it
      starts from; the result is then their join. */
  lemma ValidatedPlainIff(paths: seq<string>)
    ensures ValidatedPlain(paths).Some? <==>
            AllSafe(paths) && forall i :: 0 <= i < |paths| ==> '$' !in paths[i]
    ensures ValidatedPlain(paths).Some? ==> ValidatedPlain(paths).value == Join(paths)
  {}

  lemma ValidatedIsSafe(paths: seq<string>)
    ensures !Rejected(OrEmpty(ValidatedPlain(paths)))
    ensures ValidatedPlain(paths).Some? ==> CleanSegs(ValidatedPlain(paths).value) == AllClean(paths)
    ensures ValidatedPlain(paths).None? ==> CleanSegs(OrEmpty(ValidatedPlain(paths))) == []
  {
    if ValidatedPlain(paths).Some? {
      SafeJoin(paths);
    } else {
      SafeJoin([]);
    }
  }

  /** An output path made from any components, and extended by any components, stays safe, and
      joining puts the new components below the old path; rejected components change nothing. */
  lemma OutputJoinStaysBelow(p: OutputPath, paths: seq<string>)
    requires !Rejected(p.path)
    ensures !Rejected(OutputJoin(p, paths).path) && !Rejected(PathForOutput(paths).path)
    ensures var below := if ValidatedPlain(paths).Some? then AllClean(paths) else [];
            && CleanSegs(OutputJoin(p, paths).path) == CleanSegs(p.path) + below
            && CleanSegs(OutputJoin(p, paths).rel) == below
            && CleanSegs(PathForOutput(paths).path) == below
  {
    ValidatedIsSafe(paths);
    var rel := OrEmpty(ValidatedPlain(paths));
    JoinUnder(p.path, rel);
    RejectedIff(p.path);
    RejectedIff(rel);
    RejectedIff(Join([p.path, rel]));
  }

  /** The file that a safe output path names lies below the build directory. */
  lemma OutputBelowBuildDir(buildDir: string, p: OutputPath)
    requires !Rejected(p.path)
    ensures IsAbs(OutputString(buildDir, p)) == IsAbs(buildDir)
    ensures CleanSegs(OutputString(buildDir, p)) == CleanSegs(buildDir) + CleanSegs(p.path)
    ensures ".." !in CleanSegs(p.path)
  {
    JoinUnder(buildDir, p.path);
    SafeHasNoDotDot(p.path);
  }

  lemma SafeHasNoDotDot(c: string)
    requires !Rejected(c)
    ensures ".." !in CleanSegs(c)
  {
    RejectedIff(c);
    SplitNoSlash(c);
    InsideHasNoDotDot(Split(c));
  }

  /*** Rel ***/

  function CommonLen(a: seq<string>, b: seq<string>): (k: nat)
    ensures k <= |a| && k <= |b| && a[..k] == b[..k]
    ensures k < |a| && k < |b| ==> a[k] != b[k]
    ensures k == |a| <==> a <= b
  {
    if a == [] || b == [] || a[0] != b[0] then 0 else
      var k := CommonLen(a[1..], b[1..]);
      assert a[..k + 1] == [a[0]] + a[1..][..k] && b[..k + 1] == [b[0]] + b[1..][..k];
      k + 1
  }

  function DotDots(n: nat): seq<string> {
    if n == 0 then [] else [".."] + DotDots(n - 1)
  }

  /** filepath.Rel on clean components of two paths that are both absolute or both relative. */
  function RelSegs(base: seq<string>, target: seq<string>): Option<seq<string>> {
    var k := CommonLen(base, target);
    if k < |base| && base[k] == ".." then None else Some(DotDots(|base| - k) + target[k..])
  }

  datatype RelResult = Inside(rel: string) | Outside | RelError

  /** maybeRelErr */
  function MaybeRel(base: string, target: string): RelResult {
    if IsAbs(base) != IsAbs(target) then Outside else
      var segs := RelSegs(CleanSegs(base), CleanSegs(target));
      if segs.None? then RelError else
        var rel := if segs.value == [] then "." else Slashed(segs.value);
        if ClimbsOut(rel) then Outside else Inside(rel)
  }

  /** target lies at or below base, as far as text can tell. */
  ghost predicate Below(base: string, target: string) {
    var bs, ts := CleanSegs(base), CleanSegs(target);
    IsAbs(base) == IsAbs(target) && bs <= ts && (|bs| < |ts| ==> ts[|bs|] != "..")
  }

  lemma NormalTail(abs: bool, segs: seq<string>, k: nat)
    requires Normal(abs, segs) && k < |segs| && segs[k] != ".."
    ensures Normal(false, segs[k..])
  {
    var t := segs[k..];
    assert forall i :: 0 <= i < |t| ==> t[i] == segs[k + i];
    assert forall i :: k <= i < |segs| ==> segs[i] != "..";
  }

  /** The relative path that is accepted, as components. */
  lemma RelIsTail(base: string, target: string)
    requires IsAbs(base) == IsAbs(target)
    ensures var bs, ts := CleanSegs(base), CleanSegs(target);
            var r := RelSegs(bs, ts);
            && (bs <= ts ==> r == Some(ts[|bs|..]))
            && (!(bs <= ts) && r.Some? ==> r.value != [] && r.value[0] == "..")
  {
    var bs, ts := CleanSegs(base), CleanSegs(target);
    var k := CommonLen(bs, ts);
    if bs <= ts {
      assert k == |bs|;
      assert DotDots(0) + ts[k..] == ts[k..];
    }
  }

  lemma RelText(segs: seq<string>)
    requires segs != [] && NoSlash(segs) && segs[0] != ""
    ensures ClimbsOut(Slashed(segs)) <==> segs[0] == ".."
  {
    DotDotFirst(segs);
    SlashedStart(segs);
    assert "/"[0] == '/' && segs[0][0] != '/';
  }

  /** maybeRelErr accepts exactly the targets at or below base, and joining base with what it
      returns gives the clean target back. */
  lemma MaybeRelCorrect(base: string, target: string)
    ensures MaybeRel(base, target).Inside? <==> Below(base, target)
    ensures MaybeRel(base, target).Inside? ==> Join([base, MaybeRel(base, target).rel]) == Clean(target)
  {
    if IsAbs(base) == IsAbs(target) {
      if CleanSegs(base) == CleanSegs(target) {
        RelOfSame(base, target);
      } else if CleanSegs(base) <= CleanSegs(target) {
        RelOfExtension(base, target);
        if CleanSegs(target)[|CleanSegs(base)|] != ".." { ExtensionRoundTrip(base, target); }
      } else {
        RelOfOther(base, target);
      }
    }
  }

  /** filepath.Rel fails exactly if the base climbs at the first component where it leaves the target:
      what lies above is not known. */
  lemma RelErrorIff(base: string, target: string)
    ensures MaybeRel(base, target).RelError? <==>
            && IsAbs(base) == IsAbs(target)
            && exists k :: PartsAt(CleanSegs(base), CleanSegs(target), k) && CleanSegs(base)[k] == ".."
  {
    var bs, ts := CleanSegs(base), CleanSegs(target);
    var k := CommonLen(bs, ts);
    assert k < |bs| ==> PartsAt(bs, ts, k);
    assert forall j :: PartsAt(bs, ts, j) ==> j == k;
  }

  /** The first k components of both are the same, and the next one of a is not in b. */
  ghost predicate PartsAt(a: seq<string>, b: seq<string>, k: int) {
    0 <= k < |a| && a[..k] <= b && !(a[..k + 1] <= b)
  }

  lemma DotStays()
    ensures !ClimbsOut(".")
  {
    assert "/"[0] == '/';
  }

  lemma RelOfSame(base: string, target: string)
    requires IsAbs(base) == IsAbs(target) && CleanSegs(base) == CleanSegs(target)
    ensures MaybeRel(base, target) == Inside(".")
    ensures Join([base, "."]) == Clean(target)
  {
    RelIsTail(base, target);
    DotStays();
    var r: seq<string> := [];
    assert CleanSegs(base) + r == CleanSegs(target);
    RelRoundTrip(base, target, r);
  }

  lemma RelOfExtension(base: string, target: string)
    requires IsAbs(base) == IsAbs(target) && CleanSegs(base) < CleanSegs(target)
    ensures var r := CleanSegs(target)[|CleanSegs(base)|..];
            MaybeRel(base, target) == (if r[0] == ".." then Outside else Inside(Slashed(r)))
  {
    RelIsTail(base, target);
    CleanSegsNormal(target);
    var r := CleanSegs(target)[|CleanSegs(base)|..];
    assert NoSlash(r) && r[0] != "";
    RelText(r);
  }

  lemma ExtensionRoundTrip(base: string, target: string)
    requires IsAbs(base) == IsAbs(target) && CleanSegs(base) < CleanSegs(target)
    requires CleanSegs(target)[|CleanSegs(base)|] != ".."
    ensures Join([base, Slashed(CleanSegs(target)[|CleanSegs(base)|..])]) == Clean(target)
  {
    var bs, ts := CleanSegs(base), CleanSegs(target);
    var r := ts[|bs|..];
    CleanSegsNormal(target);
    NormalTail(IsAbs(target), ts, |bs|);
    assert ts == bs + r;
    RelRoundTrip(base, target, r);
  }

  lemma RelOfOther(base: string, target: string)
    requires IsAbs(base) == IsAbs(target) && !(CleanSegs(base) <= CleanSegs(target))
    ensures !MaybeRel(base, target).Inside?
  {
    RelIsTail(base, target);
    CleanSegsNormal(target);
    var segs := RelSegs(CleanSegs(base), CleanSegs(target));
    if segs.Some? {
      RelNoSlash(CleanSegs(base), CleanSegs(target));
      RelText(segs.value);
    }
  }

  lemma {:induction false} DotDotsPlain(n: nat)
    ensures NoSlash(DotDots(n)) && |DotDots(n)| == n
  {
    if n > 0 {
      DotDotsPlain(n - 1);
      assert '/' !in "..";
    }
  }

  lemma RelNoSlash(bs: seq<string>, ts: seq<string>)
    requires NoSlash(ts)
    ensures RelSegs(bs, ts).Some? ==> NoSlash(RelSegs(bs, ts).value)
  {
    DotDotsPlain(|bs| - CommonLen(bs, ts));
  }

  lemma RelRoundTrip(base: string, target: string, r: seq<string>)
    requires IsAbs(base) == IsAbs(target) && CleanSegs(target) == CleanSegs(base) + r
    requires Normal(false, r) && (r == [] || r[0] != "..")
    ensures var rel := if r == [] then "." else Slashed(r);
            Join([base, rel]) == Clean(target)
  {
    var rel := Render(false, r);
    RenderReads(false, r);
    RejectedIff(rel);
    JoinUnder(base, rel);
    JoinNotEmpty(base, rel);
  }

  lemma JoinNotEmpty(a: string, b: string)
    requires b != ""
    ensures Join([a, b]) != ""
  {
    assert [a, b][1..] == [b];
    CleanNotEmpty(b);
    CleanNotEmpty(Slashed([a, b]));
    assert Slashed([b]) == b && Join([b]) == Clean(b);
  }

  lemma CleanNotEmpty(s: string)
    ensures Clean(s) != ""
  {
    CleanSegsNormal(s);
    if !IsAbs(s) && CleanSegs(s) != [] {
      SlashedStart(CleanSegs(s));
    }
  }
}
