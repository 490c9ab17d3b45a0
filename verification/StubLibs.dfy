/** The classes of cc/gen_stub_libs.py: a parser that moves through its input and a generator that
    appends to its two output files, proved against the functions of SymbolFile and StubGen. */
module StubLibs {
  import opened Text
  import opened StubFilter
  import opened SymbolFile
  import opened StubGen

  class SymbolFileParser {
    const apiMap: ApiMap
    const target: Target
    var inputFile: seq<string>  // the lines not read yet
    var currentLine: string

    constructor (text: string, apiMap: ApiMap, target: Target)
      ensures this.apiMap == apiMap && this.target == target && inputFile == Lines(text)
    {
      this.apiMap := apiMap;
      this.target := target;
      inputFile := Lines(text);
      currentLine := "";
    }

    /** input_file.readline() */
    method ReadLine() returns (line: string)
      modifies this`inputFile
      ensures old(inputFile) == [] ==> line == "" && inputFile == []
      ensures old(inputFile) != [] ==> line == old(inputFile)[0] && inputFile == old(inputFile)[1..]
    {
      if inputFile == [] {
        return "";
      }
      line := inputFile[0];
      inputFile := inputFile[1..];
    }

    /** next_line */
    method NextLine() returns (line: string)
      requires AllLines(inputFile)
      modifies this
      ensures AllLines(inputFile) && line == currentLine
      ensures var ls := old(Skip(inputFile));
              if ls == [] then line == "" && inputFile == [] else line == ls[0] && line != "" && inputFile == ls[1..]
    {
      ghost var ls := Skip(inputFile);
      SkipAllLines(inputFile);
      line := ReadLine();
      while Ignored(line)
        invariant AllLines(inputFile)
        invariant line == "" ==> inputFile == [] && ls == []
        invariant line != "" ==> Skip([line] + inputFile) == ls
        decreases |inputFile|, line != ""
      {
        assert ([line] + inputFile)[1..] == inputFile;
        line := ReadLine();
        if line == "" {
          break;
        }
      }
      currentLine := line;
    }

    /** parse_symbol, on the current line. */
    method ParseSymbolLine() returns (r: Result<Symbol>)
      ensures r == ParseSymbol(currentLine, apiMap)
    {
      if ';' !in currentLine {
        return ParseError;
      }
      if '*' in currentLine {
        return ParseError;
      }
      var name := Before(Strip(currentLine), ';');
      var tags := DecodeTags(Tags(currentLine), apiMap);
      if tags.IsFailure() {
        return tags.PropagateFailure();
      }
      return Ok(Symbol(name, tags.value));
    }

    /** parse_version, when the current line opens a block. */
    method ParseVersion() returns (r: Result<Version>)
      requires AllLines(inputFile)
      modifies this
      ensures AllLines(inputFile)
      ensures r == VersionFrom(old(currentLine), old(inputFile), apiMap)
      ensures r.Ok? ==> inputFile == ParseBody(old(inputFile), [], true, false, apiMap).value.rest
    {
      var name := Strip(Before(currentLine, '{'));
      var tags := DecodeTags(Tags(currentLine), apiMap);
      if tags.IsFailure() {
        return tags.PropagateFailure();
      }
      ghost var goal := ParseBody(inputFile, [], true, false, apiMap);
      var symbols: seq<Symbol> := [];
      var globalScope, cppSymbols := true, false;
      while true
        invariant AllLines(inputFile)
        invariant ParseBody(inputFile, symbols, globalScope, cppSymbols, apiMap) == goal
        decreases |inputFile|
      {
        var line := NextLine();
        if line == "" {
          return ParseError;
        }
        if '}' in line {
          var base := Closing(line);
          if !EndsWith(base, ";") {
            return ParseError;
          }
          if cppSymbols {
            cppSymbols := false;
          } else {
            return Ok(Version(name, BaseOf(base), tags.value, symbols));
          }
        } else if Contains(line, EXTERN_CPP) {
          cppSymbols := true;
        } else if !cppSymbols && ':' in line {
          var visibility := Strip(Before(line, ':'));
          if visibility == "local" {
            globalScope := false;
          } else if visibility == "global" {
            globalScope := true;
          } else {
            return ParseError;
          }
        } else if globalScope && !cppSymbols {
          var symbol := ParseSymbolLine();
          if symbol.IsFailure() {
            return symbol.PropagateFailure();
          }
          symbols := symbols + [symbol.value];
        }
      }
    }

    /** The inner loop of check_no_duplicate_symbols. */
    method RecordSymbols(symbols: seq<Symbol>, names: set<string>, repeated: set<string>, ghost seen: seq<string>)
      returns (names': set<string>, repeated': set<string>)
      requires DecodedSymbols(symbols) && Recorded(seen, names, repeated)
      ensures Recorded(seen + Names(Pruned(symbols, target)), names', repeated')
    {
      names', repeated' := names, repeated;
      ghost var all := seen;
      for j := 0 to |symbols|
        invariant all == seen + Names(Pruned(symbols[..j], target))
        invariant Recorded(all, names', repeated')
      {
        var symbol := symbols[j];
        PrunedSnoc(symbols, j, target);
        var omit := ShouldOmitSymbol(symbol, target);
        if !omit {
          RecordedSnoc(all, names', repeated', symbol.name);
          if symbol.name in names' {
            repeated' := repeated' + {symbol.name};
          }
          names' := names' + {symbol.name};
          all := all + [symbol.name];
        }
      }
      assert symbols[..|symbols|] == symbols;
    }

    /** check_no_duplicate_symbols: the names that are defined more than once for the target. */
    method CheckNoDuplicateSymbols(versions: seq<Version>) returns (multiplyDefined: set<string>)
      requires AllDecoded(versions)
      ensures multiplyDefined == Repeated(Names(Kept(versions, target)))
    {
      var symbolNames := {};
      multiplyDefined := {};
      ghost var seen: seq<string> := [];
      for i := 0 to |versions|
        invariant seen == Names(Kept(versions[..i], target))
        invariant Recorded(seen, symbolNames, multiplyDefined)
      {
        var version := versions[i];
        assert DecodedVersion(version);
        KeptSnoc(versions, i, target);
        var omit := ShouldOmitVersion(version, target);
        if !omit {
          symbolNames, multiplyDefined := RecordSymbols(version.symbols, symbolNames, multiplyDefined, seen);
          seen := seen + Names(KeptOf(version, target));
        } else {
          assert seen + Names([]) == seen;
        }
      }
      assert versions[..|versions|] == versions;
    }

    /** One round of the loop of parse, and the next_line() that starts the next round. */
    method ParseOne(versions: seq<Version>, ghost goal: Result<seq<Version>>) returns (r: Result<(Version, string)>)
      requires AllLines(inputFile) && currentLine != ""
      requires OnTrack(goal, versions, currentLine, inputFile, apiMap)
      modifies this
      ensures AllLines(inputFile)
      ensures r.IsFailure() ==> goal == r.PropagateFailure()
      ensures r.Ok? ==> r.value.1 == currentLine && |inputFile| <= |old(inputFile)|
      ensures r.Ok? ==> currentLine != "" ==> |inputFile| < |old(inputFile)|
      ensures r.Ok? ==> OnTrack(goal, versions + [r.value.0], currentLine, inputFile, apiMap)
    {
      OnTrackStep(goal, versions, currentLine, inputFile, apiMap);
      if '{' !in currentLine {
        return ParseError;
      }
      var version := ParseVersion();
      if version.IsFailure() {
        return version.PropagateFailure();
      }
      ghost var lines := inputFile;
      var line := NextLine();
      OnTrackNext(goal, versions + [version.value], lines, line, inputFile, apiMap);
      return Ok((version.value, line));
    }

    /** The loop of parse. */
    method ParseAll() returns (r: Result<seq<Version>>)
      requires AllLines(inputFile)
      modifies this
      ensures r == ParseVersions(old(inputFile), apiMap)
    {
      var versions: seq<Version> := [];
      ghost var goal := ParseVersions(inputFile, apiMap);
      PrefixedNothing(goal);
      var line := NextLine();
      OnTrackNext(goal, versions, old(inputFile), line, inputFile, apiMap);
      while line != ""
        invariant AllLines(inputFile) && line == currentLine
        invariant OnTrack(goal, versions, line, inputFile, apiMap)
        decreases |inputFile|, line != ""
      {
        var one := ParseOne(versions, goal);
        if one.IsFailure() {
          return one.PropagateFailure();
        }
        versions, line := versions + [one.value.0], one.value.1;
      }
      assert versions + [] == versions;
      return Ok(versions);
    }

    /** parse */
    method Run() returns (r: Result<seq<Version>>)
      requires AllLines(inputFile)
      modifies this
      ensures r == ParseLines(old(inputFile), apiMap, target)
    {
      ParseVersionsDecodes(inputFile, apiMap);
      r := ParseAll();
      if r.Ok? {
        var multiplyDefined := CheckNoDuplicateSymbols(r.value);
        if multiplyDefined != {} {
          r := MultiplyDefined(multiplyDefined);
        }
      }
    }
  }

  lemma PrefixedNothing(rest: Result<seq<Version>>)
    ensures Prefixed([], rest) == rest
  {
    if rest.Ok? {
      assert [] + rest.value == rest.value;
    }
  }

  /** What parse_version returns for a block that opens with `line`. */
  function VersionFrom(line: string, rest: seq<string>, apiMap: ApiMap): Result<Version> {
    var tags :- DecodeTags(Tags(line), apiMap);
    var body :- ParseBody(rest, [], true, false, apiMap);
    Ok(Version(Strip(Before(line, '{')), body.base, tags, body.symbols))
  }

  function Prefixed(versions: seq<Version>, rest: Result<seq<Version>>): Result<seq<Version>> {
    var vs :- rest;
    Ok(versions + vs)
  }

  lemma PrefixedSnoc(versions: seq<Version>, v: Version, rest: Result<seq<Version>>)
    ensures Prefixed(versions + [v], rest) == Prefixed(versions, Prefixed([v], rest))
  {
    if rest.Ok? {
      assert versions + [v] + rest.value == versions + ([v] + rest.value);
    }
  }

  /** What is left to parse when `line` is the current line; it is empty at the end of the file. */
  function Remaining(line: string, rest: seq<string>, apiMap: ApiMap): Result<seq<Version>> {
    if line == "" then Ok([]) else ParseVersions([line] + rest, apiMap)
  }

  /** Whatever is left to parse completes `versions` to the result for the whole file. */
  ghost predicate OnTrack(goal: Result<seq<Version>>, versions: seq<Version>, line: string, rest: seq<string>,
                          apiMap: ApiMap)
  {
    (line != "" ==> !Ignored(line)) && goal == Prefixed(versions, Remaining(line, rest, apiMap))
  }

  lemma OnTrackNext(goal: Result<seq<Version>>, versions: seq<Version>, lines: seq<string>,
                    line: string, rest: seq<string>, apiMap: ApiMap)
    requires goal == Prefixed(versions, ParseVersions(lines, apiMap))
    requires var ls := Skip(lines);
             if ls == [] then line == "" && rest == [] else line == ls[0] && line != "" && rest == ls[1..]
    ensures OnTrack(goal, versions, line, rest, apiMap)
  {
    var ls := Skip(lines);
    if ls != [] {
      assert [line] + rest == ls && Skip(ls) == ls;
    }
  }

  lemma OnTrackStep(goal: Result<seq<Version>>, versions: seq<Version>, line: string, rest: seq<string>, apiMap: ApiMap)
    requires OnTrack(goal, versions, line, rest, apiMap) && line != ""
    ensures '{' !in line ==> goal == ParseError
    ensures var v := VersionFrom(line, rest, apiMap);
            '{' in line ==>
              goal == if v.IsFailure() then v.PropagateFailure()
                      else Prefixed(versions + [v.value],
                                    ParseVersions(ParseBody(rest, [], true, false, apiMap).value.rest, apiMap))
  {
    if '{' !in line {
      assert ([line] + rest)[0] == line;
    } else {
      ParseVersionsCons(line, rest, apiMap);
      var v := VersionFrom(line, rest, apiMap);
      if v.Ok? {
        PrefixedSnoc(versions, v.value, ParseVersions(ParseBody(rest, [], true, false, apiMap).value.rest, apiMap));
      }
    }
  }

  ghost predicate Recorded(seen: seq<string>, names: set<string>, repeated: set<string>) {
    (forall x :: x in names <==> x in seen) && repeated == Repeated(seen)
  }

  lemma RecordedSnoc(seen: seq<string>, names: set<string>, repeated: set<string>, x: string)
    requires Recorded(seen, names, repeated)
    ensures Recorded(seen + [x], names + {x}, if x in names then repeated + {x} else repeated)
  {
    var s := seen + [x];
    forall y ensures y in Repeated(s) <==> y in Repeated(seen) || (y == x && x in seen) {
      if y in Repeated(seen) {
        var i, j :| 0 <= i < j < |seen| && seen[i] == y && seen[j] == y;
        assert s[i] == y && s[j] == y;
      }
      if x in seen {
        var i :| 0 <= i < |seen| && seen[i] == x;
        assert s[i] == x && s[|seen|] == x;
      }
    }
  }

  lemma {:induction false} PrunedConcat(a: seq<Symbol>, b: seq<Symbol>, t: Target)
    requires DecodedSymbols(a) && DecodedSymbols(b)
    ensures DecodedSymbols(a + b) && Pruned(a + b, t) == Pruned(a, t) + Pruned(b, t)
  {
    assert DecodedSymbols(a + b);
    if a == [] {
      assert a + b == b;
    } else {
      assert (a + b)[1..] == a[1..] + b && (a + b)[0] == a[0];
      PrunedConcat(a[1..], b, t);
      Assoc(if KeepSymbol(a[0], t) then [a[0]] else [], Pruned(a[1..], t), Pruned(b, t));
    }
  }

  lemma PrunedSnoc(symbols: seq<Symbol>, j: nat, t: Target)
    requires DecodedSymbols(symbols) && j < |symbols|
    ensures Names(Pruned(symbols[..j + 1], t)) ==
            Names(Pruned(symbols[..j], t)) + (if KeepSymbol(symbols[j], t) then [symbols[j].name] else [])
    ensures Pruned(symbols[..j + 1], t) ==
            Pruned(symbols[..j], t) + (if KeepSymbol(symbols[j], t) then [symbols[j]] else [])
  {
    assert symbols[..j + 1] == symbols[..j] + [symbols[j]] && [symbols[j]][1..] == [];
    PrunedConcat(symbols[..j], [symbols[j]], t);
  }

  lemma {:induction false} KeptConcat(a: seq<Version>, b: seq<Version>, t: Target)
    requires AllDecoded(a) && AllDecoded(b)
    ensures AllDecoded(a + b) && Kept(a + b, t) == Kept(a, t) + Kept(b, t)
  {
    assert AllDecoded(a + b);
    if a == [] {
      assert a + b == b;
    } else {
      assert (a + b)[1..] == a[1..] + b && (a + b)[0] == a[0];
      KeptConcat(a[1..], b, t);
      Assoc(KeptOf(a[0], t), Kept(a[1..], t), Kept(b, t));
    }
  }

  lemma KeptSnoc(vs: seq<Version>, i: nat, t: Target)
    requires AllDecoded(vs) && i < |vs|
    ensures Kept(vs[..i + 1], t) == Kept(vs[..i], t) + KeptOf(vs[i], t)
    ensures Names(Kept(vs[..i + 1], t)) == Names(Kept(vs[..i], t)) + Names(KeptOf(vs[i], t))
  {
    assert vs[..i + 1] == vs[..i] + [vs[i]] && [vs[i]][1..] == [];
    KeptConcat(vs[..i], [vs[i]], t);
    NamesConcat(Kept(vs[..i], t), KeptOf(vs[i], t));
  }

  /*** The generator ***/

  lemma SourceConcat(a: seq<Symbol>, b: seq<Symbol>)
    ensures Source(a + b) == Source(a) + Source(b)
  {
    assert StubLines(a + b) == StubLines(a) + StubLines(b);
    ConcatAppend(StubLines(a), StubLines(b));
  }

  lemma SourceSnoc(symbols: seq<Symbol>, j: nat)
    requires j < |symbols|
    ensures Source(symbols[..j + 1]) == Source(symbols[..j]) + StubLine(symbols[j])
  {
    assert symbols[..j + 1] == symbols[..j] + [symbols[j]];
    SourceConcat(symbols[..j], [symbols[j]]);
    assert StubLines([symbols[j]]) == [StubLine(symbols[j])];
    ConcatOne(StubLine(symbols[j]));
  }

  /** What is written to the version script for the symbols of one version. */
  ghost function ScriptPart(symbols: seq<Symbol>, api: int, sectionVersioned: bool): seq<string>
    requires DecodedSymbols(symbols)
  {
    if sectionVersioned then SymbolLines(VersionedNames(symbols, api)) else []
  }

  lemma {:induction false} VersionedConcat(a: seq<Symbol>, b: seq<Symbol>, api: int)
    requires DecodedSymbols(a) && DecodedSymbols(b)
    ensures DecodedSymbols(a + b) && VersionedNames(a + b, api) == VersionedNames(a, api) + VersionedNames(b, api)
  {
    assert DecodedSymbols(a + b);
    if a == [] {
      assert a + b == b;
    } else {
      assert (a + b)[1..] == a[1..] + b && (a + b)[0] == a[0];
      VersionedConcat(a[1..], b, api);
      Assoc(if VersionedInApi(a[0].tags, api) then [a[0].name] else [],
            VersionedNames(a[1..], api), VersionedNames(b, api));
    }
  }

  lemma VersionedAppend(symbols: seq<Symbol>, s: Symbol, api: int)
    requires DecodedSymbols(symbols) && Decoded(s.tags)
    ensures DecodedSymbols(symbols + [s])
    ensures VersionedNames(symbols + [s], api) ==
            VersionedNames(symbols, api) + (if VersionedInApi(s.tags, api) then [s.name] else [])
  {
    assert [s][1..] == [];
    VersionedConcat(symbols, [s], api);
  }

  lemma VersionedSnoc(symbols: seq<Symbol>, j: nat, api: int)
    requires DecodedSymbols(symbols) && j < |symbols|
    ensures VersionedNames(symbols[..j + 1], api) ==
            VersionedNames(symbols[..j], api) + (if VersionedInApi(symbols[j].tags, api) then [symbols[j].name] else [])
  {
    VersionedAppend(symbols[..j], symbols[j], api);
    assert symbols[..j + 1] == symbols[..j] + [symbols[j]];
  }

  lemma SymbolLinesAppend(names: seq<string>, name: string)
    ensures Concat(SymbolLines(names + [name])) == Concat(SymbolLines(names)) + SymbolLine(name)
  {
    assert SymbolLines(names + [name]) == SymbolLines(names) + [SymbolLine(name)];
    ConcatAppend(SymbolLines(names), [SymbolLine(name)]);
    ConcatOne(SymbolLine(name));
  }

  lemma ScriptPartSnoc(symbols: seq<Symbol>, j: nat, api: int, sectionVersioned: bool)
    requires DecodedSymbols(symbols) && j < |symbols|
    ensures Concat(ScriptPart(symbols[..j + 1], api, sectionVersioned)) ==
            Concat(ScriptPart(symbols[..j], api, sectionVersioned)) +
            (if sectionVersioned && VersionedInApi(symbols[j].tags, api) then SymbolLine(symbols[j].name) else "")
  {
    VersionedSnoc(symbols, j, api);
    var names := VersionedNames(symbols[..j], api);
    if sectionVersioned && VersionedInApi(symbols[j].tags, api) {
      SymbolLinesAppend(names, symbols[j].name);
    } else {
      assert names + [] == names;
      assert Concat(ScriptPart(symbols[..j], api, sectionVersioned)) + "" ==
             Concat(ScriptPart(symbols[..j], api, sectionVersioned));
    }
  }

  class Generator {
    const target: Target
    var srcFile: string
    var versionScript: string

    constructor (target: Target)
      ensures this.target == target && srcFile == "" && versionScript == ""
    {
      this.target := target;
      srcFile := "";
      versionScript := "";
    }

    /** The first loop of write_version: the symbols that stay, and whether none of them is versioned. */
    method Prune(symbols: seq<Symbol>) returns (pruned: seq<Symbol>, versionEmpty: bool)
      requires DecodedSymbols(symbols)
      ensures pruned == Pruned(symbols, target) && DecodedSymbols(pruned)
      ensures versionEmpty <==> VersionedNames(pruned, target.api) == []
    {
      pruned, versionEmpty := [], true;
      for j := 0 to |symbols|
        invariant pruned == Pruned(symbols[..j], target) && DecodedSymbols(pruned)
        invariant versionEmpty <==> VersionedNames(pruned, target.api) == []
      {
        var symbol := symbols[j];
        PrunedSnoc(symbols, j, target);
        var omit := ShouldOmitSymbol(symbol, target);
        if !omit {
          var versioned := SymbolVersionedInApi(symbol.tags, target.api);
          if versioned {
            versionEmpty := false;
          }
          VersionedAppend(pruned, symbol, target.api);
          pruned := pruned + [symbol];
        }
      }
      assert symbols[..|symbols|] == symbols;
    }

    /** The definition that write_version writes for a symbol. */
    method Define(symbol: Symbol) returns (line: string)
      ensures line == StubLine(symbol)
    {
      var weak := "";
      if "weak" in symbol.tags {
        weak := "__attribute__((weak)) ";
      }
      if "var" in symbol.tags {
        line := weak + "int " + symbol.name + " = 0;\n";
      } else {
        line := weak + "void " + symbol.name + "() {}\n";
      }
    }

    /** The second loop of write_version. */
    method WriteSymbols(symbols: seq<Symbol>, sectionVersioned: bool)
      requires DecodedSymbols(symbols)
      modifies this
      ensures versionScript == old(versionScript) + Concat(ScriptPart(symbols, target.api, sectionVersioned))
      ensures srcFile == old(srcFile) + Source(symbols)
    {
      ghost var script, source := "", "";
      for j := 0 to |symbols|
        invariant script == Concat(ScriptPart(symbols[..j], target.api, sectionVersioned))
        invariant source == Source(symbols[..j])
        invariant versionScript == old(versionScript) + script && srcFile == old(srcFile) + source
      {
        var symbol := symbols[j];
        ScriptPartSnoc(symbols, j, target.api, sectionVersioned);
        SourceSnoc(symbols, j);
        var emitVersion := SymbolVersionedInApi(symbol.tags, target.api);
        if sectionVersioned && emitVersion {
          var line := SymbolLine(symbol.name);
          Assoc(old(versionScript), script, line);
          versionScript := versionScript + line;
          script := script + line;
        } else {
          assert script + "" == script;
        }
        var definition := Define(symbol);
        Assoc(old(srcFile), source, definition);
        srcFile := srcFile + definition;
        source := source + definition;
      }
      assert symbols[..|symbols|] == symbols;
    }

    /** write_version */
    method WriteVersion(version: Version)
      requires DecodedVersion(version)
      modifies this
      ensures versionScript == old(versionScript) + Script(BlocksOf(version, target))
      ensures srcFile == old(srcFile) + Source(KeptOf(version, target))
    {
      var omit := ShouldOmitVersion(version, target);
      if omit {
        assert versionScript + "" == versionScript && srcFile + "" == srcFile;
        return;
      }
      var sectionVersioned := SymbolVersionedInApi(version.tags, target.api);
      var pruned, versionEmpty := Prune(version.symbols);
      var written := !versionEmpty && sectionVersioned;
      ghost var b := Block(version.name, version.base, VersionedNames(pruned, target.api));
      if |pruned| > 0 {
        if written {
          versionScript := versionScript + HeaderLine(version.name);
          versionScript := versionScript + GLOBAL_LINE;
        }
        WriteSymbols(pruned, sectionVersioned);
        if written {
          versionScript := versionScript + FooterLine(version.base);
          ScriptOfOne(old(versionScript), b);
        }
      }
      if !written {
        assert ScriptPart(pruned, target.api, sectionVersioned) == [];
        assert old(versionScript) + "" == old(versionScript);
      }
      assert old(srcFile) + "" == old(srcFile);
    }

    /** write */
    method Write(versions: seq<Version>)
      requires AllDecoded(versions)
      modifies this
      ensures versionScript == old(versionScript) + Script(Blocks(versions, target))
      ensures srcFile == old(srcFile) + Source(Kept(versions, target))
    {
      for i := 0 to |versions|
        invariant versionScript == old(versionScript) + Script(Blocks(versions[..i], target))
        invariant srcFile == old(srcFile) + Source(Kept(versions[..i], target))
      {
        assert DecodedVersion(versions[i]);
        KeptSnoc(versions, i, target);
        SourceConcat(Kept(versions[..i], target), KeptOf(versions[i], target));
        ScriptSnoc(versions, i, target);
        Assoc(old(versionScript), Script(Blocks(versions[..i], target)), Script(BlocksOf(versions[i], target)));
        Assoc(old(srcFile), Source(Kept(versions[..i], target)), Source(KeptOf(versions[i], target)));
        WriteVersion(versions[i]);
      }
      assert versions[..|versions|] == versions;
    }
  }

  lemma ScriptOfOne(before: string, b: Block)
    ensures before + HeaderLine(b.name) + GLOBAL_LINE + Concat(SymbolLines(b.symbols)) + FooterLine(b.base) ==
            before + Script([b])
  {
    var h, g, c, f := HeaderLine(b.name), GLOBAL_LINE, Concat(SymbolLines(b.symbols)), FooterLine(b.base);
    assert ScriptLines([b]) == [h] + ([g] + (SymbolLines(b.symbols) + [f])) by {
      assert [b][1..] == [];
    }
    ConcatAppend([h], [g] + (SymbolLines(b.symbols) + [f]));
    ConcatAppend([g], SymbolLines(b.symbols) + [f]);
    ConcatAppend(SymbolLines(b.symbols), [f]);
    ConcatOne(h);
    ConcatOne(g);
    ConcatOne(f);
    Assoc(before, h, g + (c + f));
    Assoc(before + h, g, c + f);
    Assoc(before + h + g, c, f);
  }

  lemma {:induction false} BlocksConcat(a: seq<Version>, b: seq<Version>, t: Target)
    requires AllDecoded(a) && AllDecoded(b)
    ensures AllDecoded(a + b) && Blocks(a + b, t) == Blocks(a, t) + Blocks(b, t)
  {
    assert AllDecoded(a + b);
    if a == [] {
      assert a + b == b;
    } else {
      assert (a + b)[1..] == a[1..] + b && (a + b)[0] == a[0];
      BlocksConcat(a[1..], b, t);
      Assoc(BlocksOf(a[0], t), Blocks(a[1..], t), Blocks(b, t));
    }
  }

  lemma {:induction false} ScriptLinesConcat(a: seq<Block>, b: seq<Block>)
    ensures ScriptLines(a + b) == ScriptLines(a) + ScriptLines(b)
  {
    if a == [] {
      assert a + b == b;
    } else {
      assert (a + b)[1..] == a[1..] + b;
      ScriptLinesConcat(a[1..], b);
    }
  }

  lemma ScriptSnoc(vs: seq<Version>, i: nat, t: Target)
    requires AllDecoded(vs) && i < |vs|
    ensures Script(Blocks(vs[..i + 1], t)) == Script(Blocks(vs[..i], t)) + Script(BlocksOf(vs[i], t))
  {
    assert vs[..i + 1] == vs[..i] + [vs[i]] && [vs[i]][1..] == [];
    BlocksConcat(vs[..i], [vs[i]], t);
    var a, b := Blocks(vs[..i], t), BlocksOf(vs[i], t);
    assert Blocks([vs[i]], t) == b;
    ScriptLinesConcat(a, b);
    ConcatAppend(ScriptLines(a), ScriptLines(b));
  }

  /** main: parse the symbol file and, if that succeeds, write both outputs. */
  method GenerateStubs(text: string, apiMap: ApiMap, target: Target) returns (r: Result<(string, string)>)
    ensures var vs := Parse(text, apiMap, target);
            r == if vs.IsFailure() then vs.PropagateFailure()
                 else Ok((Source(Kept(vs.value, target)), Script(Blocks(vs.value, target))))
  {
    var parser := new SymbolFileParser(text, apiMap, target);
    var versions := parser.Run();
    if versions.IsFailure() {
      return versions.PropagateFailure();
    }
    var generator := new Generator(target);
    generator.Write(versions.value);
    assert "" + Source(Kept(versions.value, target)) == Source(Kept(versions.value, target));
    assert "" + Script(Blocks(versions.value, target)) == Script(Blocks(versions.value, target));
    return Ok((generator.srcFile, generator.versionScript));
  }
}
