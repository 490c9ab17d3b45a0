/** What a RuleBuilder of android/rule_builder.go knows, in terms of the calls that were made on it
    and on its commands. */
module RuleHistory {
  import opened Filter
  import opened GoPath
  import opened Lex
  import opened Options
  import opened RuleBuilder
  import Strings = Text

  /** A builder after these calls, none of which panicked. */
  ghost predicate After(ops: seq<Op>, b: Builder) {
    Run(NewBuilder(), ops) == Some(b)
  }

  lemma AfterInit(ops: seq<Op>, b: Builder) returns (b0: Builder)
    requires After(ops, b) && ops != []
    ensures After(ops[..|ops| - 1], b0) && Step(b0, ops[|ops| - 1]) == Some(b)
    ensures ops == ops[..|ops| - 1] + [ops[|ops| - 1]]
  {
    b0 := Run(NewBuilder(), ops[..|ops| - 1]).value;
  }

  /*** The builder's own settings ***/

  ghost predicate SboxCalled(ops: seq<Op>) {
    exists dir :: Op.Sbox(dir) in ops
  }

  ghost predicate MissingCalled(ops: seq<Op>, m: string) {
    exists deps :: m in deps && Op.MissingDeps(deps) in ops
  }

  /** The settings say which calls were made, and there is a command for each call of Command. */
  ghost predicate SettingsOk(ops: seq<Op>, b: Builder) {
    && (b.restat <==> Op.Restat in ops)
    && (b.sbox <==> SboxCalled(ops))
    && (b.sbox ==> Op.Sbox(b.sboxOutDir) in ops)
    && (forall p :: p in b.temporaries <==> Op.Temporary(p) in ops)
    && (forall m :: m in b.missingDeps <==> MissingCalled(ops, m))
    && |b.commands| == multiset(ops)[Op.NewCommand]
  }

  lemma SettingsNext(init: seq<Op>, b0: Builder, o: Op, ops: seq<Op>, b: Builder)
    requires SettingsOk(init, b0) && Step(b0, o) == Some(b) && ops == init + [o]
    ensures SettingsOk(ops, b)
  {
    assert forall x :: x in ops <==> x in init || x == o;
    if o.MissingDeps? {
      forall m ensures m in b.missingDeps <==> MissingCalled(ops, m) {
        assert m in b.missingDeps <==> m in b0.missingDeps || m in o.deps;
      }
    }
    if o.Sbox? {
      assert Op.Sbox(o.outputDir) in ops;
    }
  }

  lemma {:induction false} Settings(ops: seq<Op>, b: Builder)
    requires After(ops, b)
    ensures SettingsOk(ops, b)
  {
    if ops != [] {
      var b0 := AfterInit(ops, b);
      Settings(ops[..|ops| - 1], b0);
      SettingsNext(ops[..|ops| - 1], b0, ops[|ops| - 1], ops, b);
    }
  }

  /** Exactly when the next call panics, or is made on a command that does not exist. */
  lemma PanicsIff(ops: seq<Op>, b: Builder, o: Op)
    requires After(ops, b)
    ensures Step(b, o).None? <==>
            match o
            case Restat => SboxCalled(ops)
            case Sbox(_) => SboxCalled(ops) || Op.Restat in ops || Op.NewCommand in ops
            case On(i, c) => i >= multiset(ops)[Op.NewCommand] || (c.OutputDir? && !SboxCalled(ops))
            case _ => false
  {
    Settings(ops, b);
    RunOk(ops);
    assert Op.NewCommand in ops <==> multiset(ops)[Op.NewCommand] > 0;
    if o.On? && o.i < |b.commands| {
      assert CommandOk(b, b.commands[o.i]);
    }
  }

  /*** What a command has recorded ***/

  function PathOf(o: Op): string {
    if !o.On? then "" else
      match o.op
      case Tool(p) => p
      case Input(_, p) => p
      case Implicit(p) => p
      case Output(_, p) => p
      case ImplicitOutput(p) => p
      case DepFile(_, p) => p
      case ImplicitDepFile(p) => p
      case _ => ""
  }

  /** The lists of a command other than its inputs. */
  datatype Kind = Outputs | DepFiles | Tools

  function ListOf(c: Command, kind: Kind): seq<string> {
    match kind
    case Outputs => c.outputs
    case DepFiles => c.depFiles
    case Tools => c.tools
  }

  /** The call names a path for the list. */
  predicate Names(kind: Kind, op: CommandOp) {
    match kind
    case Outputs => op.Output? || op.ImplicitOutput?
    case DepFiles => op.DepFile? || op.ImplicitDepFile?
    case Tools => op.Tool?
  }

  /** The calls on command i that name a path for the list; those that name an input outside the
      sandbox; and those that add to the command line. */
  function Calls(kind: Kind, i: nat): Op -> bool {
    (o: Op) => o.On? && o.i == i && Names(kind, o.op)
  }

  function InputCalls(i: nat, sbox: bool, dir: string): Op -> bool {
    (o: Op) =>
      && o.On? && o.i == i && (o.op.Input? || o.op.Implicit?)
      && !(sbox && MaybeRel(dir, PathOf(o)).Inside?)
  }

  function TextCalls(i: nat): Op -> bool {
    (o: Op) => o.On? && o.i == i && !o.op.Implicit? && !o.op.ImplicitOutput? && !o.op.ImplicitDepFile?
  }

  /** Command i, as new if it does not exist yet. */
  function CommandAt(b: Builder, i: nat): Command {
    if i < |b.commands| then b.commands[i] else Fresh(b)
  }

  lemma OtherCallsKeep(b0: Builder, o: Op, b: Builder, i: nat)
    requires Step(b0, o) == Some(b) && !(o.On? && o.i == i)
    ensures var c0, c := CommandAt(b0, i), CommandAt(b, i);
            && c.outputs == c0.outputs && c.depFiles == c0.depFiles && c.tools == c0.tools
            && c.inputs == c0.inputs && c.buf == c0.buf
  {}

  lemma ListNext(b0: Builder, o: Op, b: Builder, i: nat, kind: Kind)
    requires Step(b0, o) == Some(b)
    ensures var list0, list := ListOf(CommandAt(b0, i), kind), ListOf(CommandAt(b, i), kind);
            list == if Calls(kind, i)(o) then list0 + [PathOf(o)] else list0
  {
    if !(o.On? && o.i == i) {
      OtherCallsKeep(b0, o, b, i);
    }
  }

  /** Outputs, depfiles and tools of command i are the paths of the calls that name them, in order. */
  lemma {:induction false} ListRecorded(ops: seq<Op>, b: Builder, i: nat, kind: Kind)
    requires After(ops, b)
    ensures Filtered(ops, Calls(kind, i), PathOf, ListOf(CommandAt(b, i), kind))
  {
    if ops == [] {
      FilteredNone(ops, Calls(kind, i), PathOf);
    } else {
      var b0 := AfterInit(ops, b);
      var init, o := ops[..|ops| - 1], ops[|ops| - 1];
      ListRecorded(init, b0, i, kind);
      ListNext(b0, o, b, i, kind);
      FilteredNext(init, Calls(kind, i), PathOf, ListOf(CommandAt(b0, i), kind), o,
                   ops, ListOf(CommandAt(b, i), kind));
    }
  }

  /** Sbox comes before all commands, so no call on a command was made before it. */
  lemma NoCommandCalled(ops: seq<Op>, b: Builder)
    requires After(ops, b) && b.commands == []
    ensures forall k :: 0 <= k < |ops| ==> !ops[k].On?
  {
    forall k | 0 <= k < |ops| ensures !ops[k].On? {
      CommandExists(ops, b, k);
    }
  }

  lemma {:induction false} CommandExists(ops: seq<Op>, b: Builder, k: nat)
    requires After(ops, b) && k < |ops|
    ensures ops[k].On? ==> ops[k].i < |b.commands|
  {
    var b0 := AfterInit(ops, b);
    if k < |ops| - 1 {
      CommandExists(ops[..|ops| - 1], b0, k);
    }
  }

  lemma InputsNext(b0: Builder, o: Op, b: Builder, i: nat)
    requires Step(b0, o) == Some(b) && Ok(b0) && !o.Sbox?
    ensures b.sbox == b0.sbox && b.sboxOutDir == b0.sboxOutDir
    ensures var c0, c := CommandAt(b0, i), CommandAt(b, i);
            c.inputs == if InputCalls(i, b.sbox, b.sboxOutDir)(o) then c0.inputs + [PathOf(o)] else c0.inputs
  {
    if o.On? && o.i == i {
      assert CommandOk(b0, b0.commands[i]);
    } else {
      OtherCallsKeep(b0, o, b, i);
    }
  }

  /** The inputs of command i are the paths of the input calls that lie outside the sandbox. */
  lemma {:induction false} InputsRecorded(ops: seq<Op>, b: Builder, i: nat)
    requires After(ops, b)
    ensures Filtered(ops, InputCalls(i, b.sbox, b.sboxOutDir), PathOf, CommandAt(b, i).inputs)
  {
    if b.commands == [] {
      NoCommandCalled(ops, b);
      FilteredNone(ops, InputCalls(i, b.sbox, b.sboxOutDir), PathOf);
    } else {
      var b0 := AfterInit(ops, b);
      var init, o := ops[..|ops| - 1], ops[|ops| - 1];
      InputsRecorded(init, b0, i);
      RunOk(init);
      InputsNext(b0, o, b, i);
      FilteredNext(init, InputCalls(i, b.sbox, b.sboxOutDir), PathOf, CommandAt(b0, i).inputs, o,
                   ops, CommandAt(b, i).inputs);
    }
  }

  /*** The command line ***/

  /** What a call adds to the command line of a command with the sbox settings of c. */
  function Shown(c: Command): Op -> string {
    (o: Op) =>
      if !o.On? then "" else
        match o.op
        case Text(t) => t
        case Tool(p) => p
        case Input(f, p) => f + InputStr(c, p)
        case Output(f, p) => f + OutputStr(c, p)
        case DepFile(f, p) => f + OutputStr(c, p)
        case OutputDir => SBOX_OUT_DIR
        case _ => ""
  }

  function SkipEmpty(texts: seq<string>): seq<string> {
    if texts != [] && texts[0] == "" then SkipEmpty(texts[1..]) else texts
  }

  /** The texts with a space between them, where leading empty texts leave no space. */
  function Line(texts: seq<string>): string {
    Strings.Joined(SkipEmpty(texts), " ")
  }

  lemma {:induction false} SkipEmptySnoc(texts: seq<string>, t: string)
    ensures SkipEmpty(texts + [t]) == if SkipEmpty(texts) == [] then SkipEmpty([t]) else SkipEmpty(texts) + [t]
    ensures SkipEmpty(texts) != [] ==> SkipEmpty(texts)[0] != ""
  {
    if texts == [] {
      assert texts + [t] == [t];
    } else if texts[0] == "" {
      assert (texts + [t])[1..] == texts[1..] + [t];
      SkipEmptySnoc(texts[1..], t);
    }
  }

  lemma {:induction false} JoinedSnoc(texts: seq<string>, t: string)
    requires texts != []
    ensures Strings.Joined(texts + [t], " ") == Strings.Joined(texts, " ") + " " + t
  {
    if |texts| == 1 {
      assert (texts + [t])[1..] == [t];
    } else {
      assert (texts + [t])[1..] == texts[1..] + [t];
      JoinedSnoc(texts[1..], t);
      Strings.Assoc(texts[0] + " ", Strings.Joined(texts[1..], " ") + " ", t);
      Strings.Assoc(texts[0] + " ", Strings.Joined(texts[1..], " "), " ");
    }
  }

  lemma LineSnoc(texts: seq<string>, t: string)
    ensures Line(texts + [t]) == if Line(texts) == "" then t else Line(texts) + " " + t
  {
    SkipEmptySnoc(texts, t);
    if SkipEmpty(texts) == [] {
      assert t == "" ==> [t][1..] == [];
    } else {
      JoinedSnoc(SkipEmpty(texts), t);
    }
  }

  lemma LineNext(b0: Builder, o: Op, b: Builder, i: nat)
    requires Step(b0, o) == Some(b) && Ok(b0) && !o.Sbox?
    ensures Fresh(b) == Fresh(b0)
    ensures var line0, line := CommandAt(b0, i).buf, CommandAt(b, i).buf;
            line == if !TextCalls(i)(o) then line0
                    else if line0 == "" then Shown(Fresh(b))(o) else line0 + " " + Shown(Fresh(b))(o)
  {
    if o.On? && o.i == i {
      assert CommandOk(b0, b0.commands[i]);
    } else {
      OtherCallsKeep(b0, o, b, i);
    }
  }

  /** The command line of command i is the texts of its calls, in order, with a space between them. */
  lemma {:induction false} LineRecorded(ops: seq<Op>, b: Builder, i: nat) returns (texts: seq<string>)
    requires After(ops, b)
    ensures Filtered(ops, TextCalls(i), Shown(Fresh(b)), texts) && CommandAt(b, i).buf == Line(texts)
  {
    if b.commands == [] {
      NoCommandCalled(ops, b);
      FilteredNone(ops, TextCalls(i), Shown(Fresh(b)));
      texts := [];
    } else {
      var b0 := AfterInit(ops, b);
      var init, o := ops[..|ops| - 1], ops[|ops| - 1];
      var texts0 := LineRecorded(init, b0, i);
      RunOk(init);
      LineNext(b0, o, b, i);
      LineSnoc(texts0, Shown(Fresh(b))(o));
      texts := if TextCalls(i)(o) then texts0 + [Shown(Fresh(b))(o)] else texts0;
      FilteredNext(init, TextCalls(i), Shown(Fresh(b)), texts0, o, ops, texts);
    }
  }

  /*** The whole rule ***/

  function SetOf(commands: seq<Command>, kind: Kind): set<string> {
    match kind
    case Outputs => OutputSet(commands)
    case DepFiles => DepFileSet(commands)
    case Tools => ToolSet(commands)
  }

  lemma {:induction false} SetElements(commands: seq<Command>, kind: Kind, p: string)
    ensures p in SetOf(commands, kind) <==> exists i :: 0 <= i < |commands| && p in ListOf(commands[i], kind)
  {
    if commands != [] {
      var n := |commands| - 1;
      SetElements(commands[..n], kind, p);
      assert forall i :: 0 <= i < n ==> commands[..n][i] == commands[i];
    }
  }

  lemma {:induction false} InputSetElements(commands: seq<Command>, p: string)
    ensures p in InputSet(commands) <==> exists i :: 0 <= i < |commands| && p in commands[i].inputs
  {
    if commands != [] {
      var n := |commands| - 1;
      InputSetElements(commands[..n], p);
      assert forall i :: 0 <= i < n ==> commands[..n][i] == commands[i];
    }
  }

  /** Some call on a command named p for the list. */
  ghost predicate Called(ops: seq<Op>, kind: Kind, p: string) {
    exists k :: 0 <= k < |ops| && ops[k].On? && Names(kind, ops[k].op) && PathOf(ops[k]) == p
  }

  ghost predicate InputCalled(ops: seq<Op>, p: string) {
    exists k :: 0 <= k < |ops| && ops[k].On? && (ops[k].op.Input? || ops[k].op.Implicit?) && PathOf(ops[k]) == p
  }

  lemma SetCalled(ops: seq<Op>, b: Builder, kind: Kind, p: string)
    requires After(ops, b)
    ensures p in SetOf(b.commands, kind) <==> Called(ops, kind, p)
  {
    SetElements(b.commands, kind, p);
    if i :| 0 <= i < |b.commands| && p in ListOf(b.commands[i], kind) {
      ListRecorded(ops, b, i, kind);
      FilteredElements(ops, Calls(kind, i), PathOf, ListOf(b.commands[i], kind), p);
    }
    if Called(ops, kind, p) {
      var k :| 0 <= k < |ops| && ops[k].On? && Names(kind, ops[k].op) && PathOf(ops[k]) == p;
      var i := ops[k].i;
      CommandExists(ops, b, k);
      ListRecorded(ops, b, i, kind);
      FilteredElements(ops, Calls(kind, i), PathOf, ListOf(b.commands[i], kind), p);
    }
  }

  lemma InputsCalled(ops: seq<Op>, b: Builder, p: string)
    requires After(ops, b)
    ensures p in InputSet(b.commands) <==> InputCalled(ops, p) && !InSandbox(Fresh(b), p)
  {
    InputSetElements(b.commands, p);
    if i :| 0 <= i < |b.commands| && p in b.commands[i].inputs {
      InputsRecorded(ops, b, i);
      FilteredElements(ops, InputCalls(i, b.sbox, b.sboxOutDir), PathOf, b.commands[i].inputs, p);
    }
    if InputCalled(ops, p) && !InSandbox(Fresh(b), p) {
      var k :| 0 <= k < |ops| && ops[k].On? && (ops[k].op.Input? || ops[k].op.Implicit?) && PathOf(ops[k]) == p;
      var i := ops[k].i;
      CommandExists(ops, b, k);
      InputsRecorded(ops, b, i);
      FilteredElements(ops, InputCalls(i, b.sbox, b.sboxOutDir), PathOf, b.commands[i].inputs, p);
    }
  }

  /** p is an output of the rule. */
  ghost predicate IsRuleOutput(ops: seq<Op>, p: string) {
    Called(ops, Outputs, p) && Op.Temporary(p) !in ops
  }

  ghost predicate ListsOutputs(ops: seq<Op>, list: seq<string>) {
    StrictlySorted(list) && forall p :: p in list <==> IsRuleOutput(ops, p)
  }

  /** Outputs() lists exactly what was named as an output and never as temporary. */
  lemma OutputsListed(ops: seq<Op>, b: Builder, list: seq<string>)
    requires After(ops, b)
    ensures OutputsOf(b, list) <==> ListsOutputs(ops, list)
  {
    Settings(ops, b);
    forall p ensures p in OutputSet(b.commands) - b.temporaries <==> IsRuleOutput(ops, p) {
      SetCalled(ops, b, Outputs, p);
    }
  }

  ghost predicate IsRuleInput(ops: seq<Op>, b: Builder, p: string) {
    InputCalled(ops, p) && !InSandbox(Fresh(b), p) && !Called(ops, Outputs, p) && !Called(ops, DepFiles, p)
  }

  ghost predicate ListsInputs(ops: seq<Op>, b: Builder, list: seq<string>) {
    StrictlySorted(list) && forall p :: p in list <==> IsRuleInput(ops, b, p)
  }

  /** Inputs() lists exactly what was named as an input, outside the sandbox, and neither as an output
      nor as a depfile. */
  lemma InputsListed(ops: seq<Op>, b: Builder, list: seq<string>)
    requires After(ops, b)
    ensures InputsOf(b, list) <==> ListsInputs(ops, b, list)
  {
    forall p ensures p in InputSet(b.commands) - OutputSet(b.commands) - DepFileSet(b.commands) <==>
                     IsRuleInput(ops, b, p)
    {
      InputsCalled(ops, b, p);
      SetCalled(ops, b, Outputs, p);
      SetCalled(ops, b, DepFiles, p);
    }
  }

  /*** Depfiles ***/

  /** DepFiles() goes through the commands in order. */
  lemma {:induction false} DepFilesAppend(a: seq<Command>, c: seq<Command>)
    ensures DepFilesOf(a + c) == DepFilesOf(a) + DepFilesOf(c)
  {
    if c == [] {
      assert a + c == a;
    } else {
      var n := |c| - 1;
      assert (a + c)[..|a| + n] == a + c[..n];
      DepFilesAppend(a, c[..n]);
      Strings.Assoc(DepFilesOf(a), DepFilesOf(c[..n]), c[n].depFiles);
    }
  }

  lemma DepFilesOne(c: Command)
    ensures DepFilesOf([c]) == c.depFiles
  {
    assert [c][..0] == [] && DepFilesOf([]) == [];
  }

  /** The depfile of the rule is the first one of the first command that has any. */
  lemma {:induction false} FirstDepFileIs(b: Builder, commands: seq<Command>, i: nat)
    requires b.commands == commands && i < |commands| && commands[i].depFiles != []
    requires forall j :: 0 <= j < i ==> commands[j].depFiles == []
    ensures FirstDepFile(b) == Some(commands[i].depFiles[0])
  {
    assert commands == commands[..i] + ([commands[i]] + commands[i + 1..]);
    DepFilesAppend(commands[..i], [commands[i]] + commands[i + 1..]);
    DepFilesAppend([commands[i]], commands[i + 1..]);
    DepFilesOne(commands[i]);
    NoDepFiles(commands[..i]);
  }

  lemma {:induction false} NoDepFiles(commands: seq<Command>)
    ensures DepFilesOf(commands) == [] <==> forall j :: 0 <= j < |commands| ==> commands[j].depFiles == []
  {
    if commands != [] {
      var n := |commands| - 1;
      NoDepFiles(commands[..n]);
      assert forall j :: 0 <= j < n ==> commands[..n][j] == commands[j];
    }
  }

  lemma {:induction false} InputsLine(c: Command, paths: seq<string>, texts: seq<string>, shown: seq<string>)
    requires c.buf == Line(texts) && |shown| == |paths|
    requires forall i :: 0 <= i < |paths| ==> shown[i] == InputStr(c, paths[i])
    ensures WithInputs(c, paths).buf == Line(texts + shown) && WithInputs(c, paths).tools == c.tools
  {
    if paths == [] {
      assert texts + shown == texts;
    } else {
      var n := |paths| - 1;
      InputsLine(c, paths[..n], texts, shown[..n]);
      WithInputsFrame(c, paths[..n]);
      InputLine(WithInputs(c, paths[..n]), paths[n], texts + shown[..n], shown[n]);
      assert shown == shown[..n] + [shown[n]];
      Strings.Assoc(texts, shown[..n], [shown[n]]);
    }
  }

  lemma InputLine(c: Command, path: string, texts: seq<string>, shown: string)
    requires c.buf == Line(texts) && shown == InputStr(c, path)
    ensures WithText(WithInput(c, path), InputStr(c, path)).buf == Line(texts + [shown])
  {
    LineSnoc(texts, shown);
  }

  /** The command that merges depfiles calls the tool with the names of all of them. */
  lemma MergerLine(b: Builder, tool: string, shown: seq<string>)
    requires |shown| == |DepFilesOf(b.commands)|
    requires forall i :: 0 <= i < |shown| ==> shown[i] == InputStr(Fresh(b), DepFilesOf(b.commands)[i])
    ensures var c := MergerCommand(b, tool, DepFilesOf(b.commands));
            c.buf == Line([tool] + shown) && c.tools == [tool]
  {
    var start := CommandStep(Fresh(b), Tool(tool)).value;
    LineSnoc([], tool);
    assert [] + [tool] == [tool];
    InputsLine(start, DepFilesOf(b.commands), [tool], shown);
  }

  /** The positions of the calls that name a depfile. */
  ghost function DepFileCallsIn(ops: seq<Op>): set<nat> {
    set k: nat | k < |ops| && ops[k].On? && Names(DepFiles, ops[k].op)
  }

  lemma DepFilesUpdate(commands: seq<Command>, i: nat, c: Command)
    requires i < |commands|
    ensures |DepFilesOf(commands[i := c])| == |DepFilesOf(commands)| - |commands[i].depFiles| + |c.depFiles|
  {
    var a, z := commands[..i], commands[i + 1..];
    assert commands == a + ([commands[i]] + z) && commands[i := c] == a + ([c] + z);
    DepFilesAppend(a, [commands[i]] + z);
    DepFilesAppend([commands[i]], z);
    DepFilesAppend(a, [c] + z);
    DepFilesAppend([c], z);
    DepFilesOne(c);
    DepFilesOne(commands[i]);
  }

  lemma DepFilesNext(b0: Builder, o: Op, b: Builder)
    requires Step(b0, o) == Some(b)
    ensures |DepFilesOf(b.commands)| ==
            |DepFilesOf(b0.commands)| + if o.On? && Names(DepFiles, o.op) then 1 else 0
  {
    if o.On? {
      DepFilesUpdate(b0.commands, o.i, b.commands[o.i]);
      ListNext(b0, o, b, o.i, DepFiles);
    } else if o.NewCommand? {
      DepFilesAppend(b0.commands, [Fresh(b0)]);
      DepFilesOne(Fresh(b0));
    }
  }

  /** There are as many depfiles as there were calls that name one. */
  lemma {:induction false} DepFilesCounted(ops: seq<Op>, b: Builder)
    requires After(ops, b)
    ensures |DepFilesOf(b.commands)| == |DepFileCallsIn(ops)|
  {
    if ops != [] {
      var n := |ops| - 1;
      var b0 := AfterInit(ops, b);
      DepFilesCounted(ops[..n], b0);
      DepFilesNext(b0, ops[n], b);
      var before := DepFileCallsIn(ops[..n]);
      assert n !in before;
      assert DepFileCallsIn(ops) == if ops[n].On? && Names(DepFiles, ops[n].op) then before + {n} else before;
    }
  }

  /*** Build ***/

  lemma {:induction false} StraysElements(dir: string, paths: seq<string>, p: string)
    ensures p in Strays(dir, paths) <==> p in paths && !MaybeRel(dir, p).Inside?
  {
    if paths != [] {
      StraysElements(dir, paths[..|paths| - 1], p);
      assert paths == paths[..|paths| - 1] + [paths[|paths| - 1]];
    }
  }

  /** Rel is called for every output and every depfile of an sbox rule. */
  lemma RuleStrays(b: Builder, outputs: seq<string>, strays: seq<string>, p: string)
    requires strays == StrayDepFiles(b) + StrayOutputs(b.sbox, b.sboxOutDir, FirstDepFile(b), outputs)
    ensures p in strays <==>
            b.sbox && !MaybeRel(b.sboxOutDir, p).Inside? && (p in outputs || p in DepFilesOf(b.commands))
  {
    var files, dir := DepFilesOf(b.commands), b.sboxOutDir;
    StraysElements(dir, outputs, p);
    if files != [] {
      StraysElements(dir, files[1..], p);
      StraysElements(dir, [files[0]], p);
      assert files == [files[0]] + files[1..];
      assert |files| == 1 ==> files[1..] == [];
    }
  }

  ghost predicate NothingMissing(ops: seq<Op>) {
    forall m :: !MissingCalled(ops, m)
  }

  /** The merging command brings its tool with it. */
  ghost predicate ListsTools(ops: seq<Op>, tool: string, list: seq<string>) {
    StrictlySorted(list) && forall p :: p in list <==> Called(ops, Tools, p) || (Merges(ops) && p == tool)
  }

  ghost predicate Merges(ops: seq<Op>) {
    |DepFileCallsIn(ops)| > 1
  }

  /** A line for each command, and one for merging. */
  ghost predicate HasLines(ops: seq<Op>, b: Builder, tool: string, lines: seq<string>) {
    && |lines| == |b.commands| + (if Merges(ops) then 1 else 0)
    && (forall i :: 0 <= i < |b.commands| ==> lines[i] == b.commands[i].buf)
    && (Merges(ops) ==> lines[|b.commands|] == Line([tool] + ShownFiles(b)))
  }

  /** The names of all depfiles as they stand on a command line. */
  ghost function ShownFiles(b: Builder): (r: seq<string>)
    ensures |r| == |DepFilesOf(b.commands)|
    ensures forall i :: 0 <= i < |r| ==> r[i] == InputStr(Fresh(b), DepFilesOf(b.commands)[i])
  {
    var files := DepFilesOf(b.commands);
    seq(|files|, i requires 0 <= i < |files| => InputStr(Fresh(b), files[i]))
  }

  ghost predicate ReportsStrays(ops: seq<Op>, b: Builder, strays: seq<string>) {
    forall p :: p in strays <==>
      SboxCalled(ops) && !MaybeRel(b.sboxOutDir, p).Inside? && (IsRuleOutput(ops, p) || Called(ops, DepFiles, p))
  }

  /** What Build hands over, in terms of the calls. */
  ghost predicate BuildMeans(ops: seq<Op>, b: Builder, tool: string, r: BuildResult) {
    match r
    case ErrorRule(outs, missing) =>
      missing != [] && (forall m :: m in missing <==> MissingCalled(ops, m)) && ListsOutputs(ops, outs)
    case Nothing => NothingMissing(ops) && Op.NewCommand !in ops
    case NoOutputs => NothingMissing(ops) && Op.NewCommand in ops && ListsOutputs(ops, [])
    case Params(ins, out, outs, f, restat, tools, lines, strays) =>
      && NothingMissing(ops) && Op.NewCommand in ops
      && (restat <==> Op.Restat in ops) && (f.None? <==> DepFileCallsIn(ops) == {})
      && ListsOutputs(ops, [out] + outs) && ListsInputs(ops, b, ins) && ListsTools(ops, tool, tools)
      && HasLines(ops, b, tool, lines) && ReportsStrays(ops, b, strays)
  }

  lemma MergedTools(ops: seq<Op>, b: Builder, tool: string, list: seq<string>)
    requires After(ops, b) && Lists(list, ToolSet(Merged(b, tool).commands))
    ensures ListsTools(ops, tool, list)
  {
    forall p ensures p in list <==> Called(ops, Tools, p) || (Merges(ops) && p == tool) {
      SetCalled(ops, b, Tools, p);
      MergedToolSet(ops, b, tool);
    }
  }

  lemma MergedToolSet(ops: seq<Op>, b: Builder, tool: string)
    requires After(ops, b)
    ensures ToolSet(Merged(b, tool).commands) == ToolSet(b.commands) + (if Merges(ops) then {tool} else {})
  {
    DepFilesCounted(ops, b);
    var files := DepFilesOf(b.commands);
    if |files| > 1 {
      MergerLine(b, tool, ShownFiles(b));
      var cs := WithMerger(b, tool).commands;
      assert cs[..|b.commands|] == b.commands;
    }
  }

  lemma MergedLines(ops: seq<Op>, b: Builder, tool: string)
    requires After(ops, b)
    ensures HasLines(ops, b, tool, Bufs(Merged(b, tool).commands))
  {
    DepFilesCounted(ops, b);
    BufsLength(Merged(b, tool).commands);
    if Merges(ops) {
      MergerLine(b, tool, ShownFiles(b));
    }
  }

  lemma StraysReported(ops: seq<Op>, b: Builder, outputs: seq<string>, strays: seq<string>)
    requires After(ops, b) && ListsOutputs(ops, outputs)
    requires strays == StrayDepFiles(b) + StrayOutputs(b.sbox, b.sboxOutDir, FirstDepFile(b), outputs)
    ensures ReportsStrays(ops, b, strays)
  {
    Settings(ops, b);
    forall p ensures p in strays <==>
        SboxCalled(ops) && !MaybeRel(b.sboxOutDir, p).Inside? && (IsRuleOutput(ops, p) || Called(ops, DepFiles, p))
    {
      RuleStrays(b, outputs, strays, p);
      DepFilesElements(b.commands);
      SetCalled(ops, b, DepFiles, p);
    }
  }

  lemma CommandsMade(ops: seq<Op>, b: Builder)
    requires After(ops, b)
    ensures b.commands == [] <==> Op.NewCommand !in ops
  {
    Settings(ops, b);
    assert Op.NewCommand in ops <==> multiset(ops)[Op.NewCommand] > 0;
  }

  lemma ParamsMean(ops: seq<Op>, b: Builder, tool: string, r: BuildResult)
    requires After(ops, b) && BuildOk(b, tool, r) && r.Params?
    ensures BuildMeans(ops, b, tool, r)
  {
    var outputs := [r.output] + r.implicitOutputs;
    Settings(ops, b);
    CommandsMade(ops, b);
    OutputsListed(ops, b, outputs);
    InputsListed(ops, b, r.implicits);
    DepFilesCounted(ops, b);
    MergedTools(ops, b, tool, r.tools);
    MergedLines(ops, b, tool);
    StraysReported(ops, b, outputs, r.strays);
    assert DepFileCallsIn(ops) == {} <==> |DepFileCallsIn(ops)| == 0;
  }

  /** Whatever Build hands over says what the calls before it said. */
  lemma BuildFromCalls(ops: seq<Op>, b: Builder, tool: string, r: BuildResult)
    requires After(ops, b) && BuildOk(b, tool, r)
    ensures BuildMeans(ops, b, tool, r)
  {
    if r.Params? {
      ParamsMean(ops, b, tool, r);
    } else {
      Settings(ops, b);
      CommandsMade(ops, b);
      OutputsListed(ops, b, if r.ErrorRule? then r.outputs else []);
      assert b.missingDeps != [] ==> b.missingDeps[0] in b.missingDeps;
    }
  }
}
