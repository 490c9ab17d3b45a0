/** The NDK symbol file format: SymbolFileParser of cc/gen_stub_libs.py. */
module SymbolFile {
  import opened Options
  import opened Text
  import opened StubFilter

  /** ValueError is an uncaught Python error, for an API level tag without a value. */
  datatype Result<+T> = Ok(value: T) | ParseError | ValueError | MultiplyDefined(symbols: set<string>)
  {
    predicate IsFailure() { !Ok? }
    function PropagateFailure<U>(): Result<U>
      requires IsFailure()
    {
      match this
      case ParseError => ParseError
      case ValueError => ValueError
      case MultiplyDefined(symbols) => MultiplyDefined(symbols)
    }
    function Extract(): T
      requires !IsFailure()
    {
      value
    }
  }

  type ApiMap = map<string, int>

  const EXTERN_CPP := "extern \"C++\" {"

  /*** Lines and tags ***/

  /** Lines that next_line passes over. */
  predicate Ignored(line: string) {
    Strip(line) == "" || Strip(line)[0] == '#'
  }

  /** A line is passed over exactly if it is blank or its first visible character is a #. */
  lemma IgnoredIff(line: string)
    ensures Ignored(line) <==>
            forall i :: 0 <= i < |line| && !IsSpace(line[i]) && (forall j :: 0 <= j < i ==> IsSpace(line[j])) ==>
              line[i] == '#'
  {
    LStripFacts(line);
    RStripFacts(LStrip(line));
    var l := LStrip(line);
    var k := |line| - |l|;
    assert l != "" ==> l[0] == line[k] && Strip(line) != "" && Strip(line)[0] == l[0];
    assert forall i :: 0 <= i < |line| && !IsSpace(line[i]) ==> k <= i;
  }

  /** The lines from the next one that counts; empty at the end of the file. */
  function Skip(lines: seq<string>): (r: seq<string>)
    ensures |r| <= |lines| && (r != [] ==> !Ignored(r[0]))
  {
    if lines != [] && Ignored(lines[0]) then Skip(lines[1..]) else lines
  }

  /** get_tags */
  function Tags(line: string): seq<string> {
    Tokens(After(Strip(line), '#'))
  }

  /** decode_api_level: None is a KeyError. */
  function DecodeApiLevel(api: string, apiMap: ApiMap): Option<int> {
    if IsInt(api) then Some(Int(api))
    else if api == "current" then Some(FUTURE_API_LEVEL)
    else if api in apiMap then Some(apiMap[api]) else None
  }

  function DecodeTag(tag: string, apiMap: ApiMap): Result<string> {
    if !IsApiLevelTag(tag) then Ok(tag)
    else if '=' !in tag then ValueError
    else match DecodeApiLevel(After(tag, '='), apiMap)
         case None => ParseError
         case Some(level) => Ok(Before(tag, '=') + ['='] + Str(level))
  }

  /** Only tags for API levels are decoded, and those need a value. */
  lemma OtherTagsStay(tag: string, apiMap: ApiMap)
    ensures !IsApiLevelTag(tag) ==> DecodeTag(tag, apiMap) == Ok(tag)
    ensures IsApiLevelTag(tag) && '=' !in tag ==> DecodeTag(tag, apiMap) == ValueError
  {}

  /** A tag with an API level keeps its name and gets the number: itself for a number, 10000 for
      `current`, and the level of the map for a codename; there is no other codename. */
  lemma LevelDecodes(name: string, v: string, apiMap: ApiMap)
    requires '=' !in name && IsApiLevelTag(name + "=" + v)
    ensures var r := DecodeTag(name + "=" + v, apiMap);
            && (IsInt(v) ==> r == Ok(name + "=" + Str(Int(v))))
            && (v == "current" ==> r == Ok(name + "=10000"))
            && (!IsInt(v) && v != "current" ==>
                  r == if v in apiMap then Ok(name + "=" + Str(apiMap[v])) else ParseError)
  {
    assert name + "=" + v == name + ['='] + v;
    Partition(name, '=', v);
    assert (name + ['='] + v)[|name|] == '=';
    if v == "current" {
      assert !IsDigit(v[0]);
      FutureLevelShown();
      assert name + ['='] + "10000" == name + "=10000";
    }
  }

  lemma FutureLevelShown()
    ensures Str(FUTURE_API_LEVEL) == "10000"
  {
    assert Digits(1) == "1" && Digits(10) == "10" && Digits(100) == "100" && Digits(1000) == "1000";
  }

  /** decode_api_level_tags */
  function DecodeTags(tags: seq<string>, apiMap: ApiMap): (r: Result<seq<string>>)
    ensures r.Ok? ==> |r.value| == |tags|
  {
    if tags == [] then Ok([]) else
      var first :- DecodeTag(tags[0], apiMap);
      var rest :- DecodeTags(tags[1..], apiMap);
      Ok([first] + rest)
  }

  /** Each tag is decoded by itself. */
  lemma {:induction false} DecodeTagsEach(tags: seq<string>, apiMap: ApiMap, decoded: seq<string>)
    ensures DecodeTags(tags, apiMap) == Ok(decoded) <==>
            |decoded| == |tags| && forall i :: 0 <= i < |tags| ==> DecodeTag(tags[i], apiMap) == Ok(decoded[i])
  {
    if tags != [] && decoded != [] {
      DecodeTagsEach(tags[1..], apiMap, decoded[1..]);
      assert decoded == [decoded[0]] + decoded[1..];
      assert forall i :: 0 < i < |tags| ==> tags[i] == tags[1..][i - 1];
      assert forall i :: 0 < i < |decoded| ==> decoded[i] == decoded[1..][i - 1];
    }
  }

  lemma DecodeTagDecodes(tag: string, apiMap: ApiMap)
    ensures DecodeTag(tag, apiMap).Ok? ==> Decoded([DecodeTag(tag, apiMap).value])
  {
    if IsApiLevelTag(tag) && DecodeTag(tag, apiMap).Ok? {
      var level := DecodeApiLevel(After(tag, '='), apiMap).value;
      Partition(Before(tag, '='), '=', Str(level));
      StrRoundTrip(level);
    }
  }

  lemma {:induction false} DecodeTagsDecodes(tags: seq<string>, apiMap: ApiMap)
    ensures DecodeTags(tags, apiMap).Ok? ==> Decoded(DecodeTags(tags, apiMap).value)
  {
    if tags != [] && DecodeTags(tags, apiMap).Ok? {
      DecodeTagsDecodes(tags[1..], apiMap);
      DecodeTagDecodes(tags[0], apiMap);
      var r := DecodeTags(tags, apiMap).value;
      assert r[0] == [r[0]][0];
    }
  }

  /*** The parser ***/

  /** parse_symbol */
  function ParseSymbol(line: string, apiMap: ApiMap): Result<Symbol> {
    if ';' !in line || '*' in line then ParseError else
      var tags :- DecodeTags(Tags(line), apiMap);
      Ok(Symbol(Before(Strip(line), ';'), tags))
  }

  /** What stands between } and # in the last line of a block. */
  function Closing(line: string): string {
    Strip(Before(After(line, '}'), '#'))
  }

  function BaseOf(closing: string): Option<string> {
    var base := RStrip(RStripSemis(closing));
    if base == "" then None else Some(base)
  }

  /** The rest of a version block: its base, its symbols, and the lines that follow it. */
  datatype Body = Body(base: Option<string>, symbols: seq<Symbol>, rest: seq<string>)

  /** The loop of parse_version, after its first line. */
  function ParseBody(lines: seq<string>, symbols: seq<Symbol>, globalScope: bool, cpp: bool, apiMap: ApiMap)
    : (r: Result<Body>)
    ensures r.Ok? ==> |r.value.rest| < |lines|
    decreases |lines|
  {
    var ls := Skip(lines);
    if ls == [] then ParseError else
      var line, rest := ls[0], ls[1..];
      if '}' in line then
        if !EndsWith(Closing(line), ";") then ParseError
        else if cpp then ParseBody(rest, symbols, globalScope, false, apiMap)
        else Ok(Body(BaseOf(Closing(line)), symbols, rest))
      else if Contains(line, EXTERN_CPP) then ParseBody(rest, symbols, globalScope, true, apiMap)
      else if !cpp && ':' in line then
        var visibility := Strip(Before(line, ':'));
        if visibility == "local" then ParseBody(rest, symbols, false, cpp, apiMap)
        else if visibility == "global" then ParseBody(rest, symbols, true, cpp, apiMap)
        else ParseError
      else if globalScope && !cpp then
        var symbol :- ParseSymbol(line, apiMap);
        ParseBody(rest, symbols + [symbol], globalScope, cpp, apiMap)
      else ParseBody(rest, symbols, globalScope, cpp, apiMap)
  }

  /** parse without the check for duplicates. */
  function ParseVersions(lines: seq<string>, apiMap: ApiMap): Result<seq<Version>>
    decreases |lines|
  {
    var ls := Skip(lines);
    if ls == [] then Ok([])
    else if '{' !in ls[0] then ParseError
    else
      var tags :- DecodeTags(Tags(ls[0]), apiMap);
      var body :- ParseBody(ls[1..], [], true, false, apiMap);
      var versions :- ParseVersions(body.rest, apiMap);
      Ok([Version(Strip(Before(ls[0], '{')), body.base, tags, body.symbols)] + versions)
  }

  ghost function Names(symbols: seq<Symbol>): (r: seq<string>)
    ensures |r| == |symbols| && forall i :: 0 <= i < |r| ==> r[i] == symbols[i].name
  {
    seq(|symbols|, i requires 0 <= i < |symbols| => symbols[i].name)
  }

  /** The names that occur more than once. */
  ghost function Repeated(names: seq<string>): set<string> {
    set x | x in names && exists i, j :: 0 <= i < j < |names| && names[i] == x && names[j] == x
  }

  lemma {:induction false} ParseBodyDecodes(lines: seq<string>, symbols: seq<Symbol>,
                                            globalScope: bool, cpp: bool, apiMap: ApiMap)
    requires DecodedSymbols(symbols)
    ensures var r := ParseBody(lines, symbols, globalScope, cpp, apiMap);
            r.Ok? ==> DecodedSymbols(r.value.symbols)
    decreases |lines|
  {
    var ls := Skip(lines);
    if ls != [] {
      var line, rest := ls[0], ls[1..];
      if '}' in line {
        if cpp { ParseBodyDecodes(rest, symbols, globalScope, false, apiMap); }
      } else if Contains(line, EXTERN_CPP) {
        ParseBodyDecodes(rest, symbols, globalScope, true, apiMap);
      } else if !cpp && ':' in line {
        ParseBodyDecodes(rest, symbols, false, cpp, apiMap);
        ParseBodyDecodes(rest, symbols, true, cpp, apiMap);
      } else if globalScope && !cpp {
        DecodeTagsDecodes(Tags(line), apiMap);
        if ParseSymbol(line, apiMap).Ok? {
          ParseBodyDecodes(rest, symbols + [ParseSymbol(line, apiMap).value], globalScope, cpp, apiMap);
        }
      } else {
        ParseBodyDecodes(rest, symbols, globalScope, cpp, apiMap);
      }
    }
  }

  /** Every API level tag that the parser returns holds a number. */
  lemma {:induction false} ParseVersionsDecodes(lines: seq<string>, apiMap: ApiMap)
    ensures ParseVersions(lines, apiMap).Ok? ==> AllDecoded(ParseVersions(lines, apiMap).value)
    decreases |lines|
  {
    var ls := Skip(lines);
    if ParseVersions(lines, apiMap).Ok? && ls != [] {
      DecodeTagsDecodes(Tags(ls[0]), apiMap);
      ParseBodyDecodes(ls[1..], [], true, false, apiMap);
      var body := ParseBody(ls[1..], [], true, false, apiMap).value;
      ParseVersionsDecodes(body.rest, apiMap);
      var vs, rest := ParseVersions(lines, apiMap).value, ParseVersions(body.rest, apiMap).value;
      var v := Version(Strip(Before(ls[0], '{')), body.base, DecodeTags(Tags(ls[0]), apiMap).value, body.symbols);
      assert vs == [v] + rest && DecodedVersion(v);
    }
  }

  /** parse, from the lines of the file, for a target whose symbols must not be multiply defined. */
  ghost function ParseLines(lines: seq<string>, apiMap: ApiMap, t: Target): (r: Result<seq<Version>>)
    ensures r.Ok? ==> AllDecoded(r.value)
  {
    var versions :- ParseVersions(lines, apiMap);
    ParseVersionsDecodes(lines, apiMap);
    var repeated := Repeated(Names(Kept(versions, t)));
    if repeated != {} then MultiplyDefined(repeated) else Ok(versions)
  }

  ghost function Parse(text: string, apiMap: ApiMap, t: Target): (r: Result<seq<Version>>)
    ensures r.Ok? ==> AllDecoded(r.value)
  {
    ParseLines(Lines(text), apiMap, t)
  }

  /*** What names look like when they come out of the parser ***/

  predicate VersionNameOk(name: string) {
    Trimmed(name) && '{' !in name && '\n' !in name && (name != "" ==> name[0] != '#')
  }

  predicate SymbolNameOk(name: string) {
    && '}' !in name && ':' !in name && ';' !in name && '*' !in name && '\n' !in name
    && !Contains(name, EXTERN_CPP)
    && (name != "" ==> !IsSpace(name[0]) && name[0] != '#')
  }

  predicate BaseOk(base: Option<string>) {
    base.Some? ==> Trimmed(base.value) && base.value != "" && '#' !in base.value && '\n' !in base.value
  }

  ghost predicate SymbolNamesOk(symbols: seq<Symbol>) {
    forall i :: 0 <= i < |symbols| ==> SymbolNameOk(symbols[i].name)
  }

  ghost predicate NamesOk(v: Version) {
    VersionNameOk(v.name) && BaseOk(v.base) && SymbolNamesOk(v.symbols)
  }

  ghost predicate VersionsOk(vs: seq<Version>) {
    forall i :: 0 <= i < |vs| ==> NamesOk(vs[i])
  }

  predicate AllLines(lines: seq<string>) {
    forall i :: 0 <= i < |lines| ==> IsLine(lines[i])
  }

  lemma NewlineIsStripped(line: string)
    requires IsLine(line)
    ensures '\n' !in Strip(line)
  {
    LStripFacts(line);
    RStripFacts(LStrip(line));
    var l, s := LStrip(line), Strip(line);
    assert s <= l && l == line[|line| - |l|..];
    forall i | 0 <= i < |s| ensures s[i] != '\n' {
      var k := |line| - |l| + i;
      assert s[i] == l[i] == line[k];
      if k == |line| - 1 {
        assert i == |s| - 1;
      } else {
        assert line[k] == line[..|line| - 1][k];
      }
    }
  }

  lemma NoNewlineBefore(line: string, c: char)
    requires (line == "" || IsLine(line)) && c in line
    ensures '\n' !in Before(line, c) && (After(line, c) == "" || IsLine(After(line, c)))
  {
    PartitionJoin(line, c);
    var b, a := Before(line, c), After(line, c);
    forall i | 0 <= i < |b| ensures b[i] != '\n' {
      assert b[i] == line[..|line| - 1][i];
    }
    if a != "" {
      var init := a[..|a| - 1];
      forall i | 0 <= i < |init| ensures init[i] != '\n' {
        assert init[i] == line[..|line| - 1][|b| + 1 + i];
      }
    }
  }

  lemma {:induction false} LStripConcat(a: string, b: string)
    requires LStrip(a) != ""
    ensures LStrip(a + b) == LStrip(a) + b
  {
    if IsSpace(a[0]) {
      assert (a + b)[1..] == a[1..] + b;
      LStripConcat(a[1..], b);
    }
  }

  /** The first character of a stripped text is its first that is not white space. */
  lemma StripFirst(a: string, b: string)
    requires Strip(a) != ""
    ensures Strip(a + b) != "" && Strip(a + b)[0] == Strip(a)[0]
  {
    LStripFacts(a);
    LStripConcat(a, b);
    RStripFacts(LStrip(a));
    RStripFacts(LStrip(a) + b);
    assert LStrip(a) != "" && !IsSpace((LStrip(a) + b)[0]);
    assert Strip(a + b) <= LStrip(a) + b && Strip(a) <= LStrip(a);
  }

  lemma VersionNameFromLine(line: string)
    requires IsLine(line) && !Ignored(line) && '{' in line
    ensures VersionNameOk(Strip(Before(line, '{')))
  {
    var b := Before(line, '{');
    PartitionJoin(line, '{');
    NoNewlineBefore(line, '{');
    StripFacts(b);
    if Strip(b) != "" {
      StripFirst(b, ['{'] + After(line, '{'));
      assert line == b + (['{'] + After(line, '{'));
    }
  }

  lemma ContainsPart(a: string, b: string, c: string, sub: string)
    ensures Contains(b, sub) ==> Contains(a + b + c, sub)
  {
    if Contains(b, sub) {
      var i :| 0 <= i <= |b| && sub <= b[i..];
      assert (a + b + c)[|a| + i..] == b[i..] + c;
    }
  }

  lemma StripIsPart(s: string) returns (a: string, b: string)
    ensures s == a + Strip(s) + b
  {
    LStripFacts(s);
    RStripFacts(LStrip(s));
    var l, t := LStrip(s), Strip(s);
    a, b := s[..|s| - |l|], l[|t|..];
    TakeDrop(s, |s| - |l|);
    TakeDrop(l, |t|);
    Assoc(a, t, b);
  }

  lemma SymbolNameFromLine(line: string)
    requires IsLine(line) && !Ignored(line) && ';' in line
    requires '}' !in line && ':' !in line && '*' !in line && !Contains(line, EXTERN_CPP)
    ensures SymbolNameOk(Before(Strip(line), ';'))
  {
    var s := Strip(line);
    var name := Before(s, ';');
    NewlineIsStripped(line);
    StripFacts(line);
    PartitionChars(s, ';');
    var a, b := StripIsPart(line);
    SemicolonSurvives(line);
    PartitionJoin(s, ';');
    assert line == a + name + ([';'] + After(s, ';') + b);
    ContainsPart(a, name, [';'] + After(s, ';') + b, EXTERN_CPP);
  }

  lemma SemicolonSurvives(line: string)
    requires ';' in line
    ensures ';' in Strip(line)
  {
    LStripFacts(line);
    RStripFacts(LStrip(line));
    var i :| 0 <= i < |line| && line[i] == ';';
    var k := |line| - |LStrip(line)|;
    assert LStrip(line)[i - k] == ';';
    assert Strip(line)[i - k] == ';';
  }

  lemma BaseFromLine(line: string)
    requires IsLine(line) && '}' in line
    ensures BaseOk(BaseOf(Closing(line)))
  {
    var after := After(line, '}');
    NoNewlineBefore(line, '}');
    var c := Closing(line);
    StripFacts(Before(after, '#'));
    PartitionChars(after, '#');
    if '#' in after {
      NoNewlineBefore(after, '#');
    } else {
      NoSeparator(after, '#');
      if after != "" { NewlineIsStripped(after); }
    }
    RStripSemisFacts(c);
    RStripFacts(RStripSemis(c));
  }

  lemma {:induction false} ParseBodyNamesOk(lines: seq<string>, symbols: seq<Symbol>,
                                            globalScope: bool, cpp: bool, apiMap: ApiMap)
    requires AllLines(lines) && SymbolNamesOk(symbols)
    ensures var r := ParseBody(lines, symbols, globalScope, cpp, apiMap);
            r.Ok? ==> AllLines(r.value.rest) && BaseOk(r.value.base) && SymbolNamesOk(r.value.symbols)
    decreases |lines|
  {
    SkipAllLines(lines);
    var ls := Skip(lines);
    if ls != [] {
      var line, rest := ls[0], ls[1..];
      if '}' in line {
        BaseFromLine(line);
        if cpp { ParseBodyNamesOk(rest, symbols, globalScope, false, apiMap); }
      } else if Contains(line, EXTERN_CPP) {
        ParseBodyNamesOk(rest, symbols, globalScope, true, apiMap);
      } else if !cpp && ':' in line {
        ParseBodyNamesOk(rest, symbols, false, cpp, apiMap);
        ParseBodyNamesOk(rest, symbols, true, cpp, apiMap);
      } else if globalScope && !cpp {
        if ParseSymbol(line, apiMap).Ok? {
          SymbolNameFromLine(line);
          ParseBodyNamesOk(rest, symbols + [ParseSymbol(line, apiMap).value], globalScope, cpp, apiMap);
        }
      } else {
        ParseBodyNamesOk(rest, symbols, globalScope, cpp, apiMap);
      }
    }
  }

  lemma {:induction false} SkipAllLines(lines: seq<string>)
    requires AllLines(lines)
    ensures AllLines(Skip(lines))
  {
    if lines != [] && Ignored(lines[0]) { SkipAllLines(lines[1..]); }
  }

  /** Whatever the text, the names in a parsed file have the form that the syntax leaves them. */
  lemma {:induction false} ParsedNamesOk(lines: seq<string>, apiMap: ApiMap)
    requires AllLines(lines)
    ensures var r := ParseVersions(lines, apiMap);
            r.Ok? ==> VersionsOk(r.value)
    decreases |lines|
  {
    SkipAllLines(lines);
    var ls := Skip(lines);
    if ParseVersions(lines, apiMap).Ok? && ls != [] {
      VersionNameFromLine(ls[0]);
      ParseBodyNamesOk(ls[1..], [], true, false, apiMap);
      var body := ParseBody(ls[1..], [], true, false, apiMap).value;
      ParsedNamesOk(body.rest, apiMap);
      var vs, rest := ParseVersions(lines, apiMap).value, ParseVersions(body.rest, apiMap).value;
      var v := Version(Strip(Before(ls[0], '{')), body.base, DecodeTags(Tags(ls[0]), apiMap).value, body.symbols);
      assert vs == [v] + rest && NamesOk(v);
    }
  }
}
