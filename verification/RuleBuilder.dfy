/** RuleBuilder of android/rule_builder.go: collecting commands into one build rule. */
module RuleBuilder {
  import opened GoPath
  import opened Lex
  import opened Options
  import opened Unique

  /*** Values ***/

  datatype Command = Command(buf: string, inputs: seq<string>, outputs: seq<string>, depFiles: seq<string>,
                             tools: seq<string>, sbox: bool, sboxOutDir: string)

  datatype Builder = Builder(commands: seq<Command>, temporaries: set<string>, restat: bool, sbox: bool,
                             sboxOutDir: string, missingDeps: seq<string>)

  /** The calls on a command. Input, Output and DepFile are FlagWithInput, FlagWithOutput and
      FlagWithDepFile; the calls without a flag are those with the empty flag. */
  datatype CommandOp = Text(text: string) | Tool(path: string) | Input(flag: string, path: string)
                     | Implicit(path: string) | Output(flag: string, path: string) | ImplicitOutput(path: string)
                     | DepFile(flag: string, path: string) | ImplicitDepFile(path: string) | OutputDir

  /** The calls on a builder; On is a call on the command made by the i-th call of Command. */
  datatype Op = Restat | Sbox(outputDir: string) | NewCommand | Temporary(path: string) | MissingDeps(deps: seq<string>)
              | On(i: nat, op: CommandOp)

  const SBOX_OUT_DIR := "__SBOX_OUT_DIR__"

  function WithText(c: Command, text: string): Command {
    c.(buf := if |c.buf| > 0 then c.buf + " " + text else text)
  }

  /** Whether sbox replaces the path: it lies in the directory that sbox wipes. */
  predicate InSandbox(c: Command, path: string) {
    c.sbox && MaybeRel(c.sboxOutDir, path).Inside?
  }

  function WithInput(c: Command, path: string): Command {
    if InSandbox(c, path) then c else c.(inputs := c.inputs + [path])
  }

  function InputStr(c: Command, path: string): string {
    if InSandbox(c, path) then SBOX_OUT_DIR + "/" + MaybeRel(c.sboxOutDir, path).rel else path
  }

  function OutputStr(c: Command, path: string): string {
    if !c.sbox then path else
      var r := MaybeRel(c.sboxOutDir, path);
      SBOX_OUT_DIR + "/" + (if r.Inside? then r.rel else "")
  }

  /** None is a panic. */
  function CommandStep(c: Command, op: CommandOp): Option<Command> {
    match op
    case Text(t) => Some(WithText(c, t))
    case Tool(p) => Some(WithText(c.(tools := c.tools + [p]), p))
    case Input(f, p) => Some(WithText(WithInput(c, p), f + InputStr(c, p)))
    case Implicit(p) => Some(WithInput(c, p))
    case Output(f, p) => Some(WithText(c.(outputs := c.outputs + [p]), f + OutputStr(c, p)))
    case ImplicitOutput(p) => Some(c.(outputs := c.outputs + [p]))
    case DepFile(f, p) => Some(WithText(c.(depFiles := c.depFiles + [p]), f + OutputStr(c, p)))
    case ImplicitDepFile(p) => Some(c.(depFiles := c.depFiles + [p]))
    case OutputDir => if c.sbox then Some(WithText(c, SBOX_OUT_DIR)) else None
  }

  function NewBuilder(): Builder {
    Builder([], {}, false, false, "", [])
  }

  function Fresh(b: Builder): Command {
    Command("", [], [], [], [], b.sbox, b.sboxOutDir)
  }

  /** None is a panic, or a call on a command that does not exist. */
  function Step(b: Builder, op: Op): Option<Builder> {
    match op
    case Restat => if b.sbox then None else Some(b.(restat := true))
    case Sbox(dir) =>
      if b.sbox || |b.commands| > 0 || b.restat then None else Some(b.(sbox := true, sboxOutDir := dir))
    case NewCommand => Some(b.(commands := b.commands + [Fresh(b)]))
    case Temporary(p) => Some(b.(temporaries := b.temporaries + {p}))
    case MissingDeps(deps) => Some(b.(missingDeps := b.missingDeps + deps))
    case On(i, o) =>
      if i >= |b.commands| then None else
        var c := CommandStep(b.commands[i], o);
        if c.None? then None else Some(b.(commands := b.commands[i := c.value]))
  }

  function Run(b: Builder, ops: seq<Op>): Option<Builder> {
    if ops == [] then Some(b) else
      var s := Run(b, ops[..|ops| - 1]);
      if s.None? then None else Step(s.value, ops[|ops| - 1])
  }

  /*** The invariant ***/

  /** The command has the sbox setting of its rule, and no input that sbox would wipe. */
  ghost predicate CommandOk(b: Builder, c: Command) {
    && c.sbox == b.sbox && c.sboxOutDir == b.sboxOutDir
    && forall p :: p in c.inputs ==> !InSandbox(c, p)
  }

  ghost predicate Ok(b: Builder) {
    && !(b.sbox && b.restat)
    && forall i :: 0 <= i < |b.commands| ==> CommandOk(b, b.commands[i])
  }

  /** Adding text, outputs, depfiles or tools keeps the settings and the inputs. */
  lemma SameInputsOk(b: Builder, c: Command, c': Command)
    requires CommandOk(b, c) && c'.inputs == c.inputs && c'.sbox == c.sbox && c'.sboxOutDir == c.sboxOutDir
    ensures CommandOk(b, c')
  {
    forall p | p in c'.inputs ensures !InSandbox(c', p) {
      assert !InSandbox(c, p);
    }
  }

  lemma WithInputOk(b: Builder, c: Command, path: string)
    requires CommandOk(b, c)
    ensures CommandOk(b, WithInput(c, path))
  {
    var c' := WithInput(c, path);
    forall p | p in c'.inputs ensures !InSandbox(c', p) {
      assert p in c.inputs || p == path;
    }
  }

  lemma CommandStepOk(b: Builder, c: Command, op: CommandOp)
    requires CommandOk(b, c) && CommandStep(c, op).Some?
    ensures CommandOk(b, CommandStep(c, op).value)
  {
    var c' := CommandStep(c, op).value;
    match op
    case Input(f, p) =>
      WithInputOk(b, c, p);
      SameInputsOk(b, WithInput(c, p), c');
    case Implicit(p) =>
      WithInputOk(b, c, p);
    case _ =>
      SameInputsOk(b, c, c');
  }

  lemma StepOk(b: Builder, op: Op)
    requires Ok(b) && Step(b, op).Some?
    ensures Ok(Step(b, op).value)
  {
    var b' := Step(b, op).value;
    if op.On? {
      CommandStepOk(b, b.commands[op.i], op.op);
    }
    forall i | 0 <= i < |b'.commands| ensures CommandOk(b', b'.commands[i]) {
      assert i < |b.commands| ==> CommandOk(b, b.commands[i]);
    }
  }

  /** Whatever is called, in whatever order: a builder is never both sbox and restat, all its
      commands have its sbox setting, and none of them has an input inside the sandbox. */
  lemma {:induction false} RunOk(ops: seq<Op>)
    requires Run(NewBuilder(), ops).Some?
    ensures Ok(Run(NewBuilder(), ops).value)
  {
    if ops != [] {
      var init := ops[..|ops| - 1];
      RunOk(init);
      StepOk(Run(NewBuilder(), init).value, ops[|ops| - 1]);
    }
  }

  /*** Inputs and outputs ***/

  function InputSet(commands: seq<Command>): set<string> {
    if commands == [] then {} else
      var n := |commands| - 1;
      InputSet(commands[..n]) + set p | p in commands[n].inputs
  }

  lemma InputSetSnoc(commands: seq<Command>, i: nat, outputs: set<string>, depFiles: set<string>)
    requires i < |commands|
    ensures InputSet(commands[..i + 1]) - outputs - depFiles ==
            InputSet(commands[..i]) - outputs - depFiles + ((set p | p in commands[i].inputs) - outputs - depFiles)
  {
    assert commands[..i + 1][..i] == commands[..i];
  }

  function OutputSet(commands: seq<Command>): set<string> {
    if commands == [] then {} else
      var n := |commands| - 1;
      OutputSet(commands[..n]) + set p | p in commands[n].outputs
  }

  function DepFileSet(commands: seq<Command>): set<string> {
    if commands == [] then {} else
      var n := |commands| - 1;
      DepFileSet(commands[..n]) + set p | p in commands[n].depFiles
  }

  function ToolSet(commands: seq<Command>): set<string> {
    if commands == [] then {} else
      var n := |commands| - 1;
      ToolSet(commands[..n]) + set p | p in commands[n].tools
  }

  function Bufs(commands: seq<Command>): seq<string> {
    if commands == [] then [] else Bufs(commands[..|commands| - 1]) + [commands[|commands| - 1].buf]
  }

  /** The inputs of the rule: what its commands read and do not make themselves. */
  ghost predicate InputsOf(b: Builder, list: seq<string>) {
    Lists(list, InputSet(b.commands) - OutputSet(b.commands) - DepFileSet(b.commands))
  }

  ghost predicate OutputsOf(b: Builder, list: seq<string>) {
    Lists(list, OutputSet(b.commands) - b.temporaries)
  }

  /** All depfiles, in the order of the commands. */
  function DepFilesOf(commands: seq<Command>): seq<string> {
    if commands == [] then [] else DepFilesOf(commands[..|commands| - 1]) + commands[|commands| - 1].depFiles
  }

  lemma {:induction false} DepFilesElements(commands: seq<Command>)
    ensures forall p :: p in DepFilesOf(commands) <==> p in DepFileSet(commands)
  {
    if commands != [] {
      DepFilesElements(commands[..|commands| - 1]);
    }
  }

  /** Calls of Input for a list of paths. */
  function WithInputs(c: Command, paths: seq<string>): Command {
    if paths == [] then c else
      var n := |paths| - 1;
      var d := WithInputs(c, paths[..n]);
      WithText(WithInput(d, paths[n]), InputStr(d, paths[n]))
  }

  lemma {:induction false} WithInputsFrame(c: Command, paths: seq<string>)
    ensures var d := WithInputs(c, paths);
            && d.outputs == c.outputs && d.depFiles == c.depFiles && d.sbox == c.sbox && d.sboxOutDir == c.sboxOutDir
            && forall p :: p in d.inputs <==> p in c.inputs || (p in paths && !InSandbox(c, p))
  {
    if paths != [] {
      var n := |paths| - 1;
      WithInputsFrame(c, paths[..n]);
      assert paths == paths[..n] + [paths[n]];
    }
  }

  /** depFileMergerCmd: the command that merges all depfiles. */
  function MergerCommand(b: Builder, tool: string, depFiles: seq<string>): Command {
    WithInputs(CommandStep(Fresh(b), Tool(tool)).value, depFiles)
  }

  function WithMerger(b: Builder, tool: string): Builder {
    b.(commands := b.commands + [MergerCommand(b, tool, DepFilesOf(b.commands))])
  }

  lemma MergerSets(b: Builder, tool: string)
    ensures var cs := WithMerger(b, tool).commands;
            && OutputSet(cs) == OutputSet(b.commands) && DepFileSet(cs) == DepFileSet(b.commands)
            && InputSet(b.commands) <= InputSet(cs) <= InputSet(b.commands) + DepFileSet(b.commands)
  {
    var files := DepFilesOf(b.commands);
    WithInputsFrame(CommandStep(Fresh(b), Tool(tool)).value, files);
    DepFilesElements(b.commands);
    var cs := WithMerger(b, tool).commands;
    assert cs[..|b.commands|] == b.commands;
  }

  /** Adding the merge command changes neither the inputs nor the outputs of the rule. */
  lemma MergerChangesNothing(b: Builder, tool: string, list: seq<string>)
    ensures InputsOf(WithMerger(b, tool), list) <==> InputsOf(b, list)
    ensures OutputsOf(WithMerger(b, tool), list) <==> OutputsOf(b, list)
  {
    MergerSets(b, tool);
    var cs, cs' := b.commands, WithMerger(b, tool).commands;
    assert InputSet(cs') - OutputSet(cs') - DepFileSet(cs') == InputSet(cs) - OutputSet(cs) - DepFileSet(cs);
  }

  /** A path that sbox replaces is still the same file: joined to the output directory, what stands
      on the command line after the sandbox directory is the path. */
  lemma SandboxPath(c: Command, path: string)
    requires InSandbox(c, path)
    ensures InputStr(c, path) == OutputStr(c, path)
    ensures exists rel :: InputStr(c, path) == SBOX_OUT_DIR + "/" + rel && Join([c.sboxOutDir, rel]) == Clean(path)
  {
    MaybeRelCorrect(c.sboxOutDir, path);
    var rel := MaybeRel(c.sboxOutDir, path).rel;
    assert Join([c.sboxOutDir, rel]) == Clean(path);
  }

  /** Without sbox a path stands on the command line as it is; with sbox an input outside the sandbox
      does too, and an output outside it, which Build reports, is cut off. */
  lemma OutsideNames(c: Command, path: string)
    ensures !c.sbox ==> InputStr(c, path) == path && OutputStr(c, path) == path
    ensures c.sbox && !MaybeRel(c.sboxOutDir, path).Inside? ==>
              InputStr(c, path) == path && OutputStr(c, path) == "__SBOX_OUT_DIR__/"
  {
    assert SBOX_OUT_DIR + "/" + "" == "__SBOX_OUT_DIR__/";
  }

  /*** The objects ***/

  class RuleBuilderCommand {
    var buf: string
    var inputs: seq<string>
    var outputs: seq<string>
    var depFiles: seq<string>
    var tools: seq<string>
    const sbox: bool
    const sboxOutDir: string

    constructor (sbox: bool, sboxOutDir: string)
      ensures Value() == Command("", [], [], [], [], sbox, sboxOutDir)
    {
      this.sbox, this.sboxOutDir := sbox, sboxOutDir;
      buf, inputs, outputs, depFiles, tools := "", [], [], [], [];
    }

    ghost function Value(): Command
      reads this
    {
      Command(buf, inputs, outputs, depFiles, tools, sbox, sboxOutDir)
    }

    method AddInput(path: string) returns (s: string)
      modifies `inputs
      ensures Value() == WithInput(old(Value()), path) && s == InputStr(old(Value()), path)
    {
      if sbox {
        var r := MaybeRel(sboxOutDir, path);
        if r.Inside? {
          return SBOX_OUT_DIR + "/" + r.rel;
        }
      }
      inputs := inputs + [path];
      return path;
    }

    method PathOfOutput(path: string) returns (s: string)
      ensures s == OutputStr(Value(), path)
    {
      if sbox {
        var r := MaybeRel(sboxOutDir, path);
        return SBOX_OUT_DIR + "/" + (if r.Inside? then r.rel else "");
      }
      return path;
    }

    method AddText(text: string)
      modifies `buf
      ensures Some(Value()) == CommandStep(old(Value()), Text(text))
    {
      if |buf| > 0 {
        buf := buf + " ";
      }
      assert "" + text == text;
      buf := buf + text;
    }

    method AddTool(path: string)
      modifies `buf, `tools
      ensures Some(Value()) == CommandStep(old(Value()), Tool(path))
    {
      tools := tools + [path];
      AddText(path);
    }

    method FlagWithInput(flag: string, path: string)
      modifies `buf, `inputs
      ensures Some(Value()) == CommandStep(old(Value()), Input(flag, path))
    {
      var s := AddInput(path);
      AddText(flag + s);
    }

    method AddInputs(paths: seq<string>)
      modifies `buf, `inputs
      ensures Value() == WithInputs(old(Value()), paths)
    {
      for i := 0 to |paths|
        invariant Value() == WithInputs(old(Value()), paths[..i])
      {
        assert paths[..i + 1][..i] == paths[..i];
        FlagWithInput("", paths[i]);
      }
      assert paths[..|paths|] == paths;
    }

    method AddImplicit(path: string)
      modifies `inputs
      ensures Some(Value()) == CommandStep(old(Value()), Implicit(path))
      ensures path in inputs || InSandbox(Value(), path)
    {
      var _ := AddInput(path);
    }

    method FlagWithOutput(flag: string, path: string)
      modifies `buf, `outputs
      ensures Some(Value()) == CommandStep(old(Value()), Output(flag, path))
    {
      outputs := outputs + [path];
      var s := PathOfOutput(path);
      AddText(flag + s);
    }

    method AddImplicitOutput(path: string)
      modifies `outputs
      ensures Some(Value()) == CommandStep(old(Value()), ImplicitOutput(path))
      ensures path in outputs && old(outputs) <= outputs
    {
      outputs := outputs + [path];
    }

    method FlagWithDepFile(flag: string, path: string)
      modifies `buf, `depFiles
      ensures Some(Value()) == CommandStep(old(Value()), DepFile(flag, path))
    {
      depFiles := depFiles + [path];
      var s := PathOfOutput(path);
      AddText(flag + s);
    }

    method AddImplicitDepFile(path: string)
      modifies `depFiles
      ensures Some(Value()) == CommandStep(old(Value()), ImplicitDepFile(path))
      ensures path in depFiles && old(depFiles) <= depFiles
    {
      depFiles := depFiles + [path];
    }
  }

  ghost function Values(commands: seq<RuleBuilderCommand>): (r: seq<Command>)
    reads commands
    ensures |r| == |commands| && forall i :: 0 <= i < |r| ==> r[i] == commands[i].Value()
  {
    if commands == [] then [] else Values(commands[..|commands| - 1]) + [commands[|commands| - 1].Value()]
  }

  class RuleBuilder {
    var commands: seq<RuleBuilderCommand>
    var temporariesSet: set<string>
    var restat: bool
    var sbox: bool
    var sboxOutDir: string
    var missingDeps: seq<string>

    ghost predicate Valid()
      reads this
    {
      NoDup(commands)
    }

    ghost function Value(): Builder
      reads this, commands
    {
      Builder(Values(commands), temporariesSet, restat, sbox, sboxOutDir, missingDeps)
    }

    constructor ()
      ensures Valid() && Value() == NewBuilder()
    {
      commands, temporariesSet, restat, sbox, sboxOutDir, missingDeps := [], {}, false, false, "", [];
    }

    /** The result says whether the call returns; otherwise it panics. */
    method Restat() returns (ok: bool)
      requires Valid()
      modifies `restat
      ensures Valid()
      ensures Step(old(Value()), Op.Restat) == if ok then Some(Value()) else None
      ensures !ok ==> unchanged(this)
    {
      if sbox {
        return false;
      }
      restat := true;
      return true;
    }

    method Sbox(outputDir: string) returns (ok: bool)
      requires Valid()
      modifies `sbox, `sboxOutDir
      ensures Valid()
      ensures Step(old(Value()), Op.Sbox(outputDir)) == if ok then Some(Value()) else None
      ensures !ok ==> unchanged(this)
    {
      if sbox {
        return false;
      }
      if |commands| > 0 {
        return false;
      }
      if restat {
        return false;
      }
      sbox, sboxOutDir := true, outputDir;
      return true;
    }

    method NewCommand() returns (command: RuleBuilderCommand)
      requires Valid()
      modifies `commands
      ensures Valid() && fresh(command) && commands == old(commands) + [command]
      ensures Some(Value()) == Step(old(Value()), Op.NewCommand) && command.Value() == Fresh(old(Value()))
    {
      command := new RuleBuilderCommand(sbox, sboxOutDir);
      ghost var before := commands;
      commands := commands + [command];
      assert commands[..|before|] == before;
    }

    method Temporary(path: string)
      requires Valid()
      modifies `temporariesSet
      ensures Valid() && Some(Value()) == Step(old(Value()), Op.Temporary(path))
    {
      temporariesSet := temporariesSet + {path};
    }

    method MissingDeps(deps: seq<string>)
      requires Valid()
      modifies `missingDeps
      ensures Valid() && Some(Value()) == Step(old(Value()), Op.MissingDeps(deps))
    {
      missingDeps := missingDeps + deps;
    }

    method CollectOutputs(ghost b: Builder) returns (s: set<string>)
      requires b == Value()
      ensures b == Value() && s == OutputSet(b.commands)
    {
      s := {};
      for i := 0 to |commands|
        invariant s == OutputSet(Values(commands)[..i])
      {
        assert Values(commands)[..i + 1][..i] == Values(commands)[..i];
        s := s + set p | p in commands[i].outputs;
      }
      assert Values(commands)[..|commands|] == Values(commands);
    }

    method CollectDepFiles(ghost b: Builder) returns (s: set<string>)
      requires b == Value()
      ensures b == Value() && s == DepFileSet(b.commands)
    {
      s := {};
      for i := 0 to |commands|
        invariant s == DepFileSet(Values(commands)[..i])
      {
        assert Values(commands)[..i + 1][..i] == Values(commands)[..i];
        s := s + set p | p in commands[i].depFiles;
      }
      assert Values(commands)[..|commands|] == Values(commands);
    }

    method CollectNewInputs(ghost b: Builder, outputs: set<string>, depFiles: set<string>) returns (s: set<string>)
      requires b == Value()
      ensures b == Value() && s == InputSet(b.commands) - outputs - depFiles
    {
      s := {};
      ghost var values := Values(commands);
      for i := 0 to |commands|
        invariant s == InputSet(values[..i]) - outputs - depFiles
      {
        InputSetSnoc(values, i, outputs, depFiles);
        s := CollectInputs(s, commands[i].inputs, outputs, depFiles);
      }
      assert values[..|commands|] == values;
    }

    method Inputs() returns (list: seq<string>)
      ensures InputsOf(Value(), list)
    {
      ghost var b := Value();
      var outputs := CollectOutputs(b);
      var depFiles := CollectDepFiles(b);
      var inputs := CollectNewInputs(b, outputs, depFiles);
      list := SortedKeys(inputs);
      assert Value() == b;
    }

    method Outputs() returns (list: seq<string>)
      ensures OutputsOf(Value(), list)
    {
      ghost var b := Value();
      var outputs := CollectOutputs(b);
      var kept := set p | p in outputs && p !in temporariesSet;
      assert kept == OutputSet(b.commands) - b.temporaries;
      list := SortedKeys(kept);
      assert Value() == b;
    }

    method CollectTools() returns (s: set<string>)
      ensures s == ToolSet(Value().commands)
    {
      s := {};
      for i := 0 to |commands|
        invariant s == ToolSet(Values(commands)[..i])
      {
        assert Values(commands)[..i + 1][..i] == Values(commands)[..i];
        s := s + set p | p in commands[i].tools;
      }
      assert Values(commands)[..|commands|] == Values(commands);
    }

    method Tools() returns (list: seq<string>)
      ensures Lists(list, ToolSet(Value().commands))
    {
      var tools := CollectTools();
      list := SortedKeys(tools);
    }

    method Commands() returns (bufs: seq<string>)
      ensures bufs == Bufs(Value().commands)
    {
      bufs := [];
      for i := 0 to |commands|
        invariant bufs == Bufs(Values(commands)[..i])
      {
        assert Values(commands)[..i + 1][..i] == Values(commands)[..i];
        bufs := bufs + [commands[i].buf];
      }
      assert Values(commands)[..|commands|] == Values(commands);
    }

    method DepFiles() returns (depFiles: seq<string>)
      ensures depFiles == DepFilesOf(Value().commands)
    {
      depFiles := [];
      for i := 0 to |commands|
        invariant depFiles == DepFilesOf(Values(commands)[..i])
      {
        assert Values(commands)[..i + 1][..i] == Values(commands)[..i];
        depFiles := depFiles + commands[i].depFiles;
      }
      assert Values(commands)[..|commands|] == Values(commands);
    }

    method DepFileMergerCmd(tool: string, depFiles: seq<string>)
      requires Valid() && depFiles == DepFilesOf(Value().commands)
      modifies `commands
      ensures Valid() && Value() == WithMerger(old(Value()), tool)
    {
      ghost var b, before := Value(), commands;
      var command := NewCommand();
      command.AddTool(tool);
      command.AddInputs(depFiles);
      assert command.Value() == MergerCommand(b, tool, depFiles);
      assert Values(before) == b.commands;
      ValuesSnoc(before, command);
    }

    /** The start of Build: the depfile of the rule and the depfiles outside the sandbox, after
        adding a command that merges all depfiles into the first if there is more than one. */
    method MergeDepFiles(depFixer: string) returns (depFile: Option<string>, strays: seq<string>)
      requires Valid()
      modifies `commands
      ensures Valid() && Value() == Merged(old(Value()), depFixer)
      ensures depFile == FirstDepFile(old(Value())) && strays == StrayDepFiles(old(Value()))
    {
      var files := DepFiles();
      depFile, strays := None, [];
      if |files| > 0 {
        depFile := Some(files[0]);
        if |files| > 1 {
          DepFileMergerCmd(depFixer, files);
          if sbox {
            strays := FindStrays(sboxOutDir, files[1..]);
          }
        }
      }
    }

    /** Build, up to escaping and the sbox command line. */
    method Build(depFixer: string) returns (r: BuildResult)
      requires Valid()
      modifies `commands
      ensures Valid() && BuildOk(old(Value()), depFixer, r)
    {
      if |missingDeps| > 0 {
        var outputs := Outputs();
        return ErrorRule(outputs, missingDeps);
      }
      ghost var start := Value();
      var depFile, strays := MergeDepFiles(depFixer);
      r := Collect(depFile, strays, start, depFixer);
    }

    /** The end of Build. */
    method Collect(depFile: Option<string>, strays: seq<string>, ghost start: Builder, ghost depFixer: string)
      returns (r: BuildResult)
      requires start.missingDeps == [] && Value() == Merged(start, depFixer)
      requires depFile == FirstDepFile(start) && strays == StrayDepFiles(start)
      ensures BuildOk(start, depFixer, r)
    {
      ghost var b := Value();
      var tools, lines, outputs, inputs := Gather(b);
      if |lines| == 0 {
        NothingBuilt(start, depFixer, b, lines);
        return Nothing;
      }
      if |outputs| == 0 {
        NoOutputsBuilt(start, depFixer, b, lines, outputs);
        return NoOutputs;
      }
      var more := CollectStrays(depFile, outputs);
      ParamsBuilt(start, depFixer, b, inputs, outputs, tools, lines, strays + more);
      return Params(inputs, outputs[0], outputs[1..], depFile, restat, tools, lines, strays + more);
    }

    method Gather(ghost b: Builder)
      returns (tools: seq<string>, lines: seq<string>, outputs: seq<string>, inputs: seq<string>)
      requires b == Value()
      ensures b == Value()
      ensures Lists(tools, ToolSet(b.commands)) && lines == Bufs(b.commands)
      ensures OutputsOf(b, outputs) && InputsOf(b, inputs)
    {
      tools := Tools();
      assert Value() == b;
      lines := Commands();
      assert Value() == b;
      outputs := Outputs();
      assert Value() == b;
      inputs := Inputs();
      assert Value() == b;
    }

    /** The calls of Rel for the outputs and the depfile of an sbox rule. */
    method CollectStrays(depFile: Option<string>, outputs: seq<string>) returns (strays: seq<string>)
      ensures strays == StrayOutputs(sbox, sboxOutDir, depFile, outputs)
    {
      strays := [];
      if sbox {
        strays := FindStrays(sboxOutDir, outputs);
        if depFile.Some? {
          var more := FindStrays(sboxOutDir, [depFile.value]);
          strays := strays + more;
        }
      }
    }
  }

  /** What Build hands to the build graph. ErrorRule is the rule that fails for missing dependencies;
      NoOutputs is a panic; strays are the paths that Rel reports as outside the sandbox. */
  datatype BuildResult = ErrorRule(outputs: seq<string>, missing: seq<string>) | Nothing | NoOutputs
                       | Params(implicits: seq<string>, output: string, implicitOutputs: seq<string>,
                                depFile: Option<string>, restat: bool, tools: seq<string>, lines: seq<string>,
                                strays: seq<string>)

  function FirstDepFile(b: Builder): Option<string> {
    var files := DepFilesOf(b.commands);
    if files == [] then None else Some(files[0])
  }

  /** The builder after the start of Build. */
  function Merged(b: Builder, tool: string): Builder {
    if |DepFilesOf(b.commands)| > 1 then WithMerger(b, tool) else b
  }

  /** The paths that do not lie at or below dir. */
  function Strays(dir: string, paths: seq<string>): seq<string> {
    if paths == [] then [] else
      var n := |paths| - 1;
      Strays(dir, paths[..n]) + (if MaybeRel(dir, paths[n]).Inside? then [] else [paths[n]])
  }

  method FindStrays(dir: string, paths: seq<string>) returns (strays: seq<string>)
    ensures strays == Strays(dir, paths)
  {
    strays := [];
    for i := 0 to |paths|
      invariant strays == Strays(dir, paths[..i])
    {
      assert paths[..i + 1][..i] == paths[..i];
      if !MaybeRel(dir, paths[i]).Inside? {
        strays := strays + [paths[i]];
      }
    }
    assert paths[..|paths|] == paths;
  }

  function StrayDepFiles(b: Builder): seq<string> {
    var files := DepFilesOf(b.commands);
    if b.sbox && |files| > 1 then Strays(b.sboxOutDir, files[1..]) else []
  }

  function StrayOutputs(sbox: bool, dir: string, depFile: Option<string>, outputs: seq<string>): seq<string> {
    if !sbox then [] else Strays(dir, outputs) + (if depFile.Some? then Strays(dir, [depFile.value]) else [])
  }

  /** The rule depends on, and makes, what the commands said before the call, whether or not depfiles
      are merged; its command lines and tools include those of the merging command. */
  ghost predicate BuildOk(b: Builder, tool: string, r: BuildResult) {
    match r
    case ErrorRule(outs, missing) => b.missingDeps != [] && missing == b.missingDeps && OutputsOf(b, outs)
    case Nothing => b.missingDeps == [] && b.commands == []
    case NoOutputs => b.missingDeps == [] && b.commands != [] && OutputsOf(b, [])
    case Params(ins, out, outs, f, restat, tools, lines, strays) =>
      && b.missingDeps == [] && b.commands != [] && restat == b.restat && f == FirstDepFile(b)
      && InputsOf(b, ins) && OutputsOf(b, [out] + outs)
      && Lists(tools, ToolSet(Merged(b, tool).commands)) && lines == Bufs(Merged(b, tool).commands)
      && strays == StrayDepFiles(b) + StrayOutputs(b.sbox, b.sboxOutDir, f, [out] + outs)
  }

  ghost predicate SameRule(b: Builder, b': Builder) {
    && b'.restat == b.restat && b'.sbox == b.sbox && b'.sboxOutDir == b.sboxOutDir
    && (b'.commands == [] <==> b.commands == [])
    && (forall list :: InputsOf(b', list) <==> InputsOf(b, list))
    && (forall list :: OutputsOf(b', list) <==> OutputsOf(b, list))
  }

  lemma MergedSame(b: Builder, tool: string, b': Builder)
    requires b' == Merged(b, tool)
    ensures SameRule(b, b')
  {
    if |DepFilesOf(b.commands)| > 1 {
      forall list ensures InputsOf(b', list) <==> InputsOf(b, list) {
        MergerChangesNothing(b, tool, list);
      }
      forall list ensures OutputsOf(b', list) <==> OutputsOf(b, list) {
        MergerChangesNothing(b, tool, list);
      }
    }
  }

  lemma NothingBuilt(b: Builder, tool: string, b': Builder, lines: seq<string>)
    requires b.missingDeps == [] && b' == Merged(b, tool) && lines == Bufs(b'.commands) && lines == []
    ensures BuildOk(b, tool, Nothing)
  {
    MergedSame(b, tool, b');
    BufsLength(b'.commands);
  }

  lemma NoOutputsBuilt(b: Builder, tool: string, b': Builder, lines: seq<string>, outputs: seq<string>)
    requires b.missingDeps == [] && b' == Merged(b, tool) && lines == Bufs(b'.commands) && lines != []
    requires OutputsOf(b', outputs) && outputs == []
    ensures BuildOk(b, tool, NoOutputs)
  {
    MergedSame(b, tool, b');
    BufsLength(b'.commands);
  }

  lemma ParamsBuilt(b: Builder, tool: string, b': Builder, inputs: seq<string>, outputs: seq<string>,
                    tools: seq<string>, lines: seq<string>, strays: seq<string>)
    requires b.missingDeps == [] && b' == Merged(b, tool) && lines == Bufs(b'.commands) && lines != []
    requires InputsOf(b', inputs) && OutputsOf(b', outputs) && outputs != [] && Lists(tools, ToolSet(b'.commands))
    requires strays == StrayDepFiles(b) + StrayOutputs(b.sbox, b.sboxOutDir, FirstDepFile(b), outputs)
    ensures BuildOk(b, tool, Params(inputs, outputs[0], outputs[1..], FirstDepFile(b), b.restat, tools, lines, strays))
  {
    MergedSame(b, tool, b');
    BufsLength(b'.commands);
    assert [outputs[0]] + outputs[1..] == outputs;
  }

  lemma {:induction false} BufsLength(commands: seq<Command>)
    ensures |Bufs(commands)| == |commands|
    ensures forall i :: 0 <= i < |commands| ==> Bufs(commands)[i] == commands[i].buf
  {
    if commands != [] { BufsLength(commands[..|commands| - 1]); }
  }

  /** A call on the i-th command of a builder is the step On(i, op) of the builder. */
  twostate lemma CommandCall(b: RuleBuilder, i: nat, op: CommandOp)
    requires old(b.Valid()) && unchanged(b) && i < |b.commands|
    requires forall j :: 0 <= j < |b.commands| && j != i ==> unchanged(b.commands[j])
    requires Some(b.commands[i].Value()) == CommandStep(old(b.commands[i].Value()), op)
    ensures Some(b.Value()) == Step(old(b.Value()), On(i, op))
  {
    var before, after := old(b.Value()), b.Value();
    assert after.commands == before.commands[i := after.commands[i]];
  }

  lemma ValuesSnoc(commands: seq<RuleBuilderCommand>, c: RuleBuilderCommand)
    ensures Values(commands + [c]) == Values(commands) + [c.Value()]
  {
    assert (commands + [c])[..|commands|] == commands;
  }

  /** The inputs of one command that the rule does not make itself. */
  method CollectInputs(inputs: set<string>, paths: seq<string>, outputs: set<string>, depFiles: set<string>)
    returns (r: set<string>)
    ensures r == inputs + ((set p | p in paths) - outputs - depFiles)
  {
    r := inputs;
    for k := 0 to |paths|
      invariant r == inputs + ((set p | p in paths[..k]) - outputs - depFiles)
    {
      assert paths[..k + 1] == paths[..k] + [paths[k]];
      if paths[k] !in outputs {
        if paths[k] !in depFiles {
          r := r + {paths[k]};
        }
      }
    }
    assert paths[..|paths|] == paths;
  }
}
