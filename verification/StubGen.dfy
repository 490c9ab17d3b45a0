/** The stub generator of cc/gen_stub_libs.py, and the round trip of its version script through the
    parser. */
module StubGen {
  import opened Unique
  import opened Options
  import opened Text
  import opened StubFilter
  import opened SymbolFile

  /** A block of a version script. */
  datatype Block = Block(name: string, base: Option<string>, symbols: seq<string>)

  /** The names of those symbols that are versioned at the given level. */
  ghost function VersionedNames(symbols: seq<Symbol>, api: int): seq<string>
    requires DecodedSymbols(symbols)
  {
    if symbols == [] then [] else
      (if VersionedInApi(symbols[0].tags, api) then [symbols[0].name] else []) + VersionedNames(symbols[1..], api)
  }

  lemma {:induction false} PrunedDecoded(symbols: seq<Symbol>, t: Target)
    requires DecodedSymbols(symbols)
    ensures DecodedSymbols(Pruned(symbols, t))
  {
    if symbols != [] { PrunedDecoded(symbols[1..], t); }
  }

  /** Symbol i has the name and is versioned at the level. */
  ghost predicate VersionedAt(symbols: seq<Symbol>, api: int, name: string, i: int)
    requires DecodedSymbols(symbols)
  {
    0 <= i < |symbols| && symbols[i].name == name && VersionedInApi(symbols[i].tags, api)
  }

  /** The script names exactly the versioned symbols. */
  lemma {:induction false} VersionedElements(symbols: seq<Symbol>, api: int, name: string)
    requires DecodedSymbols(symbols)
    ensures name in VersionedNames(symbols, api) <==> exists i :: VersionedAt(symbols, api, name, i)
  {
    if symbols != [] {
      VersionedElements(symbols[1..], api, name);
      if i :| VersionedAt(symbols[1..], api, name, i) {
        assert VersionedAt(symbols, api, name, i + 1);
      }
      if i :| VersionedAt(symbols, api, name, i) {
        assert i > 0 ==> VersionedAt(symbols[1..], api, name, i - 1);
      }
      assert VersionedAt(symbols, api, name, 0) <==> symbols[0].name == name && VersionedInApi(symbols[0].tags, api);
    }
  }

  /** The block that is written for a version: none if it would be empty or is not versioned. */
  ghost function BlocksOf(v: Version, t: Target): seq<Block>
    requires DecodedVersion(v)
  {
    PrunedDecoded(v.symbols, t);
    var names := VersionedNames(KeptOf(v, t), t.api);
    if names != [] && VersionedInApi(v.tags, t.api) then [Block(v.name, v.base, names)] else []
  }

  /** The blocks of the version script of a library. */
  ghost function Blocks(vs: seq<Version>, t: Target): seq<Block>
    requires AllDecoded(vs)
  {
    if vs == [] then [] else BlocksOf(vs[0], t) + Blocks(vs[1..], t)
  }

  function HeaderLine(name: string): string { name + " {\n" }

  const GLOBAL_LINE := "    global:\n"

  function SymbolLine(name: string): string { "        " + name + ";\n" }

  function FooterLine(base: Option<string>): string {
    "}" + (if base.Some? then " " + base.value else "") + ";\n"
  }

  function SymbolLines(names: seq<string>): (r: seq<string>)
    ensures |r| == |names| && forall i :: 0 <= i < |r| ==> r[i] == SymbolLine(names[i])
  {
    if names == [] then [] else SymbolLines(names[..|names| - 1]) + [SymbolLine(names[|names| - 1])]
  }

  function BlockLines(b: Block): seq<string> {
    [HeaderLine(b.name), GLOBAL_LINE] + SymbolLines(b.symbols) + [FooterLine(b.base)]
  }

  function ScriptLines(bs: seq<Block>): seq<string> {
    if bs == [] then [] else BlockLines(bs[0]) + ScriptLines(bs[1..])
  }

  /** The text of the version script. */
  function Script(bs: seq<Block>): string {
    Concat(ScriptLines(bs))
  }

  /** The definition of a symbol in the stub source. */
  function StubLine(s: Symbol): string {
    var weak := if "weak" in s.tags then "__attribute__((weak)) " else "";
    if "var" in s.tags then weak + "int " + s.name + " = 0;\n" else weak + "void " + s.name + "() {}\n"
  }

  /** A variable is defined as an int and a function as an empty one; a weak symbol is weak. */
  lemma StubLineForms(name: string, tags: seq<string>)
    ensures var line := StubLine(Symbol(name, tags));
            && ("weak" !in tags && "var" !in tags ==> line == "void " + name + "() {}\n")
            && ("weak" !in tags && "var" in tags ==> line == "int " + name + " = 0;\n")
            && ("weak" in tags && "var" !in tags ==> line == "__attribute__((weak)) void " + name + "() {}\n")
            && ("weak" in tags && "var" in tags ==> line == "__attribute__((weak)) int " + name + " = 0;\n")
  {
    var weak := "__attribute__((weak)) ";
    assert weak + "void " == "__attribute__((weak)) void " && weak + "int " == "__attribute__((weak)) int ";
    assert "" + "void " == "void " && "" + "int " == "int ";
  }

  function StubLines(symbols: seq<Symbol>): (r: seq<string>)
    ensures |r| == |symbols| && forall i :: 0 <= i < |r| ==> r[i] == StubLine(symbols[i])
  {
    seq(|symbols|, i requires 0 <= i < |symbols| => StubLine(symbols[i]))
  }

  /** The text of the stub source. */
  function Source(symbols: seq<Symbol>): string {
    Concat(StubLines(symbols))
  }

  /*** Reading lines that the generator wrote ***/

  ghost predicate Blank(s: string) {
    forall c :: c in s ==> IsSpace(c) && c != '\n'
  }

  /** A line that shows `text` is read as such. */
  lemma PaddedLine(pad: string, text: string, l: string)
    requires l == pad + text + "\n" && Blank(pad)
    requires Trimmed(text) && text != "" && text[0] != '#' && '\n' !in text
    ensures IsLine(l) && !Ignored(l) && Strip(l) == text
  {
    assert l[..|l| - 1] == pad + text;
    StripPadded(pad, text, "\n");
  }

  lemma {:induction false} HashBefore(x: string, y: string, b: string)
    requires '#' !in x && b != "" && !IsSpace(b[|b| - 1])
    ensures Tokens(After(x + ['#'] + y + b, '#')) != []
  {
    var t := y + b;
    assert x + ['#'] + y + b == x + ['#'] + t;
    Partition(x, '#', t);
    TokensOfText(t, |t| - 1);
  }

  /** A text that ends with something visible has tags exactly if it has a #. */
  lemma HashInText(a: string, b: string)
    requires '#' !in b && b != "" && !IsSpace(b[|b| - 1])
    ensures Tokens(After(a + b, '#')) == [] <==> '#' !in a
  {
    if '#' in a {
      PartitionJoin(a, '#');
      HashBefore(Before(a, '#'), After(a, '#'), b);
    } else {
      NoSeparator(a + b, '#');
    }
  }

  lemma HeaderReads(name: string)
    requires VersionNameOk(name)
    ensures IsLine(HeaderLine(name)) && !Ignored(HeaderLine(name)) && '{' in HeaderLine(name)
    ensures Strip(Before(HeaderLine(name), '{')) == name
    ensures Tags(HeaderLine(name)) == [] <==> '#' !in name
  {
    var l := HeaderLine(name);
    assert l == name + " " + ['{'] + "\n" && l[|name| + 1] == '{';
    Partition(name + " ", '{', "\n");
    StripPadded("", name, " ");
    assert "" + name + " " == name + " ";
    if name == "" {
      assert l == " " + "{" + "\n";
      PaddedLine(" ", "{", l);
      HashInText("", "{");
      assert "" + "{" == "{";
    } else {
      assert l == "" + (name + " {") + "\n";
      PaddedLine("", name + " {", l);
      HashInText(name, " {");
    }
  }

  lemma SymbolReads(name: string)
    requires SymbolNameOk(name)
    ensures var l := SymbolLine(name);
            && IsLine(l) && !Ignored(l) && ';' in l
            && '}' !in l && ':' !in l && '*' !in l && !Contains(l, EXTERN_CPP)
            && Before(Strip(l), ';') == name
            && (Tags(l) == [] <==> '#' !in name)
  {
    var l := SymbolLine(name);
    assert l == "        " + (name + ";") + "\n" && l[8 + |name|] == ';';
    PaddedLine("        ", name + ";", l);
    Partition(name, ';', "");
    assert name + [';'] + "" == name + ";";
    HashInText(name, ";");
    assert l == "        " + name + ";\n" && EXTERN_CPP[0] == 'e' && EXTERN_CPP[13] == '{' && |EXTERN_CPP| == 14;
    ContainedInside("        ", name, ";\n", EXTERN_CPP);
  }

  /** A text that cannot start in a nor end in c lies between them. */
  lemma ContainedInside(a: string, b: string, c: string, sub: string)
    requires sub != "" && sub[0] !in a && sub[|sub| - 1] !in c
    ensures Contains(a + b + c, sub) ==> Contains(b, sub)
  {
    var l := a + b + c;
    if Contains(l, sub) {
      var i :| 0 <= i <= |l| && sub <= l[i..];
      var j := i + |sub| - 1;
      assert l[i] == sub[0] && l[j] == sub[|sub| - 1];
      assert forall k :: 0 <= k < |a| ==> l[k] in a;
      assert forall k :: |a| + |b| <= k < |l| ==> l[k] in c;
      assert forall k :: 0 <= k < |sub| ==> sub[k] == l[i + k] == b[i - |a| + k];
      assert sub <= b[i - |a|..];
    }
  }

  lemma {:induction false} JoinedWords(words: seq<string>)
    requires words != [] && forall i :: 0 <= i < |words| ==> IsWord(words[i]) && '*' !in words[i]
    ensures var s := Joined(words, " ");
            s != "" && !IsSpace(s[|s| - 1]) && '\n' !in s && '*' !in s
  {
    assert words[0][|words[0]| - 1] in words[0];
    if |words| > 1 {
      JoinedWords(words[1..]);
    }
  }

  /** A symbol line with tags is read as the name and these tags, decoded. */
  lemma TaggedLineReads(name: string, tags: seq<string>, l: string, apiMap: ApiMap)
    requires SymbolNameOk(name) && name != "" && '#' !in name
    requires tags != [] && forall i :: 0 <= i < |tags| ==> IsWord(tags[i]) && '*' !in tags[i]
    requires l == name + "; # " + Joined(tags, " ") + "\n"
    ensures ParseSymbol(l, apiMap) ==
            var decoded :- DecodeTags(tags, apiMap);
            Ok(Symbol(name, decoded))
  {
    var shown := Joined(tags, " ");
    JoinedWords(tags);
    TokensOfJoined(tags);
    TaggedLine(name, shown, l);
    TaggedText(name, shown, Strip(l));
  }

  lemma TaggedLine(name: string, shown: string, l: string)
    requires SymbolNameOk(name) && name != "" && l == name + "; # " + shown + "\n"
    requires shown != "" && !IsSpace(shown[|shown| - 1]) && '\n' !in shown && '*' !in shown
    ensures Strip(l) == name + "; # " + shown && ';' in l && '*' !in l
  {
    var text := name + "; # " + shown;
    assert l == "" + text + "\n" && text[|text| - 1] == shown[|shown| - 1] && text[0] == name[0];
    PaddedLine("", text, l);
    assert l[|name|] == ';';
  }

  lemma TaggedText(name: string, shown: string, text: string)
    requires text == name + "; # " + shown && ';' !in name && '#' !in name
    ensures Before(text, ';') == name && Tokens(After(text, '#')) == Tokens(shown)
  {
    assert text == name + [';'] + (" # " + shown);
    Partition(name, ';', " # " + shown);
    assert text == (name + "; ") + ['#'] + (" " + shown);
    Partition(name + "; ", '#', " " + shown);
    assert (" " + shown)[1..] == shown;
  }

  lemma GlobalReads()
    ensures !Ignored(GLOBAL_LINE) && ':' in GLOBAL_LINE
    ensures Strip(Before(GLOBAL_LINE, ':')) == "global"
  {
    LabelReads("    ", "global", GLOBAL_LINE);
  }

  lemma GlobalIsPlain()
    ensures '}' !in GLOBAL_LINE && !Contains(GLOBAL_LINE, EXTERN_CPP)
  {
    assert |EXTERN_CPP| == 14 && |GLOBAL_LINE| == 12;
  }

  lemma LabelReads(pad: string, word: string, l: string)
    requires l == pad + word + ":\n" && Blank(pad) && ':' !in pad
    requires Trimmed(word) && word != "" && word[0] != '#' && '\n' !in word && ':' !in word
    ensures IsLine(l) && !Ignored(l) && ':' in l && Strip(Before(l, ':')) == word
  {
    assert l == pad + (word + ":") + "\n" && l == pad + word + [':'] + "\n";
    assert l[|pad| + |word|] == ':';
    PaddedLine(pad, word + ":", l);
    Partition(pad + word, ':', "\n");
    StripPadded(pad, word, "");
    assert pad + word + "" == pad + word;
  }

  lemma FooterReads(base: Option<string>)
    requires BaseOk(base)
    ensures var l := FooterLine(base);
            && !Ignored(l) && '}' in l && EndsWith(Closing(l), ";")
            && (BaseOf(Closing(l)) == base <==> !(base.Some? && EndsWith(base.value, ";")))
  {
    var l := FooterLine(base);
    if base.Some? {
      FooterText(" ", base.value + ";", l);
    } else {
      FooterText("", ";", l);
    }
    FooterBase(base, Closing(l));
  }

  lemma ClosingText(pad: string, text: string)
    requires Blank(pad) && '#' !in pad && Trimmed(text) && '#' !in text
    ensures Closing("" + ['}'] + (pad + text + "\n")) == text
  {
    var after := pad + text + "\n";
    Partition("", '}', after);
    NoSeparator(after, '#');
    StripPadded(pad, text, "\n");
  }

  lemma FooterText(pad: string, text: string, l: string)
    requires l == "}" + pad + text + "\n" && Blank(pad) && '#' !in pad
    requires Trimmed(text) && text != "" && '#' !in text && '\n' !in text && text[|text| - 1] == ';'
    ensures !Ignored(l) && '}' in l && Closing(l) == text && EndsWith(text, ";")
  {
    FooterShown(pad, text, l);
    assert text[|text| - 1..] == ";";
    assert l == "" + ['}'] + (pad + text + "\n");
    ClosingText(pad, text);
  }

  lemma FooterShown(pad: string, text: string, l: string)
    requires l == "}" + pad + text + "\n" && Blank(pad)
    requires Trimmed(text) && text != "" && '\n' !in text
    ensures !Ignored(l) && '}' in l
  {
    var shown := "}" + pad + text;
    assert l == "" + shown + "\n" && l[0] == '}';
    assert '\n' !in shown && shown[|shown| - 1] == text[|text| - 1];
    PaddedLine("", shown, l);
  }

  lemma FooterBase(base: Option<string>, text: string)
    requires BaseOk(base) && text == if base.Some? then base.value + ";" else ";"
    ensures BaseOf(text) == base <==> !(base.Some? && EndsWith(base.value, ";"))
  {
    if base.None? {
      assert text[..0] == "";
    } else {
      var b := base.value;
      assert text[..|text| - 1] == b && RStripSemis(text) == RStripSemis(b);
      RStripSemisFacts(b);
      RStripFacts(RStripSemis(b));
      assert EndsWith(b, ";") <==> b[|b| - 1] == ';';
    }
  }

  /*** Parsing a whole script ***/

  ghost predicate BlockNamesOk(b: Block) {
    VersionNameOk(b.name) && BaseOk(b.base) && AllNamesOk(b.symbols)
  }

  ghost predicate AllNamesOk(names: seq<string>) {
    forall i :: 0 <= i < |names| ==> SymbolNameOk(names[i])
  }

  /** What the parser makes of the symbol lines of a block. */
  function Reread(names: seq<string>, apiMap: ApiMap): (r: Result<seq<Symbol>>)
    ensures r.Ok? ==> |r.value| == |names|
  {
    if names == [] then Ok([]) else
      var tags :- DecodeTags(Tags(SymbolLine(names[0])), apiMap);
      var rest :- Reread(names[1..], apiMap);
      Ok([Symbol(names[0], tags)] + rest)
  }

  function RereadBlock(b: Block, apiMap: ApiMap): Result<Version> {
    var tags :- DecodeTags(Tags(HeaderLine(b.name)), apiMap);
    var symbols :- Reread(b.symbols, apiMap);
    Ok(Version(b.name, BaseOf(Closing(FooterLine(b.base))), tags, symbols))
  }

  function RereadScript(bs: seq<Block>, apiMap: ApiMap): (r: Result<seq<Version>>)
    ensures r.Ok? ==> |r.value| == |bs|
  {
    if bs == [] then Ok([]) else
      var v :- RereadBlock(bs[0], apiMap);
      var vs :- RereadScript(bs[1..], apiMap);
      Ok([v] + vs)
  }

  lemma {:induction false} SymbolLinesCons(names: seq<string>)
    requires names != []
    ensures SymbolLines(names) == [SymbolLine(names[0])] + SymbolLines(names[1..])
  {}

  /** One round of the loop of parse_version, on a symbol, a label and the last line. */
  lemma ParseBodySymbol(line: string, rest: seq<string>, acc: seq<Symbol>, apiMap: ApiMap)
    requires !Ignored(line) && '}' !in line && ':' !in line && !Contains(line, EXTERN_CPP)
    ensures ParseBody([line] + rest, acc, true, false, apiMap) ==
            var symbol :- ParseSymbol(line, apiMap);
            ParseBody(rest, acc + [symbol], true, false, apiMap)
  {
    var lines := [line] + rest;
    assert lines[0] == line && lines[1..] == rest;
  }

  lemma ParseBodyGlobal(line: string, rest: seq<string>, acc: seq<Symbol>, apiMap: ApiMap)
    requires !Ignored(line) && '}' !in line && ':' in line && !Contains(line, EXTERN_CPP)
    requires Strip(Before(line, ':')) == "global"
    ensures ParseBody([line] + rest, acc, true, false, apiMap) == ParseBody(rest, acc, true, false, apiMap)
  {
    var lines := [line] + rest;
    assert lines[0] == line && lines[1..] == rest;
  }

  lemma ParseBodyEnd(line: string, rest: seq<string>, acc: seq<Symbol>, apiMap: ApiMap)
    requires !Ignored(line) && '}' in line && EndsWith(Closing(line), ";")
    ensures ParseBody([line] + rest, acc, true, false, apiMap) == Ok(Body(BaseOf(Closing(line)), acc, rest))
  {
    var lines := [line] + rest;
    assert lines[0] == line && lines[1..] == rest;
  }

  /** The parser's result for the symbols and the end of a block. */
  function RereadBody(names: seq<string>, base: Option<string>, acc: seq<Symbol>, rest: seq<string>,
                      apiMap: ApiMap): Result<Body>
  {
    var symbols :- Reread(names, apiMap);
    Ok(Body(BaseOf(Closing(FooterLine(base))), acc + symbols, rest))
  }

  lemma RereadBodyCons(names: seq<string>, base: Option<string>, acc: seq<Symbol>, rest: seq<string>, apiMap: ApiMap)
    requires names != []
    ensures RereadBody(names, base, acc, rest, apiMap) ==
            var tags :- DecodeTags(Tags(SymbolLine(names[0])), apiMap);
            RereadBody(names[1..], base, acc + [Symbol(names[0], tags)], rest, apiMap)
  {
    var tags, later := DecodeTags(Tags(SymbolLine(names[0])), apiMap), Reread(names[1..], apiMap);
    if tags.Ok? && later.Ok? {
      var symbol := Symbol(names[0], tags.value);
      assert acc + ([symbol] + later.value) == acc + [symbol] + later.value;
    }
  }

  lemma SymbolStep(name: string, rest: seq<string>, acc: seq<Symbol>, apiMap: ApiMap)
    requires SymbolNameOk(name)
    ensures ParseBody([SymbolLine(name)] + rest, acc, true, false, apiMap) ==
            var tags :- DecodeTags(Tags(SymbolLine(name)), apiMap);
            ParseBody(rest, acc + [Symbol(name, tags)], true, false, apiMap)
  {
    SymbolReads(name);
    ParseBodySymbol(SymbolLine(name), rest, acc, apiMap);
  }

  lemma FooterStep(base: Option<string>, rest: seq<string>, acc: seq<Symbol>, apiMap: ApiMap)
    requires BaseOk(base)
    ensures ParseBody([FooterLine(base)] + rest, acc, true, false, apiMap) ==
            Ok(Body(BaseOf(Closing(FooterLine(base))), acc, rest))
  {
    FooterReads(base);
    ParseBodyEnd(FooterLine(base), rest, acc, apiMap);
  }

  lemma {:induction false} BodyReads(names: seq<string>, base: Option<string>, acc: seq<Symbol>,
                                     rest: seq<string>, apiMap: ApiMap)
    requires BaseOk(base) && AllNamesOk(names)
    ensures ParseBody(SymbolLines(names) + ([FooterLine(base)] + rest), acc, true, false, apiMap) ==
            RereadBody(names, base, acc, rest, apiMap)
  {
    var tail := [FooterLine(base)] + rest;
    if names == [] {
      FooterStep(base, rest, acc, apiMap);
      assert SymbolLines(names) + tail == tail && acc + [] == acc;
    } else {
      var line, later := SymbolLine(names[0]), SymbolLines(names[1..]) + tail;
      SymbolLinesCons(names);
      assert SymbolLines(names) + tail == [line] + later;
      SymbolStep(names[0], later, acc, apiMap);
      RereadBodyCons(names, base, acc, rest, apiMap);
      var tags := DecodeTags(Tags(line), apiMap);
      if tags.Ok? {
        BodyReads(names[1..], base, acc + [Symbol(names[0], tags.value)], rest, apiMap);
      }
    }
  }

  lemma ParseVersionsCons(line: string, rest: seq<string>, apiMap: ApiMap)
    requires !Ignored(line) && '{' in line
    ensures ParseVersions([line] + rest, apiMap) ==
            var tags :- DecodeTags(Tags(line), apiMap);
            var body :- ParseBody(rest, [], true, false, apiMap);
            var versions :- ParseVersions(body.rest, apiMap);
            Ok([Version(Strip(Before(line, '{')), body.base, tags, body.symbols)] + versions)
  {
    var lines := [line] + rest;
    assert lines[0] == line && lines[1..] == rest;
  }

  lemma BlockBodyReads(b: Block, rest: seq<string>, apiMap: ApiMap)
    requires BlockNamesOk(b)
    ensures ParseBody(BlockTail(b, rest), [], true, false, apiMap) ==
            RereadBody(b.symbols, b.base, [], rest, apiMap)
  {
    GlobalReads();
    GlobalIsPlain();
    ParseBodyGlobal(GLOBAL_LINE, SymbolLines(b.symbols) + ([FooterLine(b.base)] + rest), [], apiMap);
    BodyReads(b.symbols, b.base, [], rest, apiMap);
  }

  /** The lines of a block after its first, followed by further lines. */
  function BlockTail(b: Block, rest: seq<string>): seq<string> {
    [GLOBAL_LINE] + (SymbolLines(b.symbols) + ([FooterLine(b.base)] + rest))
  }

  lemma BlockLinesSplit(b: Block, rest: seq<string>)
    ensures BlockLines(b) + rest == [HeaderLine(b.name)] + BlockTail(b, rest)
  {}

  lemma RereadBodyStart(b: Block, rest: seq<string>, tags: seq<string>, apiMap: ApiMap)
    requires DecodeTags(Tags(HeaderLine(b.name)), apiMap) == Ok(tags)
    ensures RereadBlock(b, apiMap) ==
            var body :- RereadBody(b.symbols, b.base, [], rest, apiMap);
            Ok(Version(b.name, body.base, tags, body.symbols))
  {
    var symbols := Reread(b.symbols, apiMap);
    if symbols.Ok? {
      assert [] + symbols.value == symbols.value;
    }
  }

  lemma BlockReads(b: Block, rest: seq<string>, apiMap: ApiMap)
    requires BlockNamesOk(b)
    ensures ParseVersions(BlockLines(b) + rest, apiMap) ==
            var v :- RereadBlock(b, apiMap);
            var vs :- ParseVersions(rest, apiMap);
            Ok([v] + vs)
  {
    HeaderReads(b.name);
    BlockLinesSplit(b, rest);
    ParseVersionsCons(HeaderLine(b.name), BlockTail(b, rest), apiMap);
    BlockBodyReads(b, rest, apiMap);
    var tags := DecodeTags(Tags(HeaderLine(b.name)), apiMap);
    if tags.Ok? {
      RereadBodyStart(b, rest, tags.value, apiMap);
    }
  }

  lemma {:induction false} ScriptReads(bs: seq<Block>, apiMap: ApiMap)
    requires forall i :: 0 <= i < |bs| ==> BlockNamesOk(bs[i])
    ensures ParseVersions(ScriptLines(bs), apiMap) == RereadScript(bs, apiMap)
  {
    if bs != [] {
      ScriptReads(bs[1..], apiMap);
      BlockReads(bs[0], ScriptLines(bs[1..]), apiMap);
    }
  }

  /*** The round trip ***/

  ghost function PlainSymbols(names: seq<string>): (r: seq<Symbol>)
    ensures |r| == |names| && forall i :: 0 <= i < |r| ==> r[i] == Symbol(names[i], [])
  {
    seq(|names|, i requires 0 <= i < |names| => Symbol(names[i], []))
  }

  /** A block as a version without tags. */
  ghost function Plain(b: Block): Version {
    Version(b.name, b.base, [], PlainSymbols(b.symbols))
  }

  ghost function PlainAll(bs: seq<Block>): (r: seq<Version>)
    ensures |r| == |bs| && forall i :: 0 <= i < |r| ==> r[i] == Plain(bs[i])
  {
    seq(|bs|, i requires 0 <= i < |bs| => Plain(bs[i]))
  }

  /** The names that survive: no # in a name, no ; at the end of a base. */
  ghost predicate WellFormed(b: Block) {
    && '#' !in b.name
    && (forall i :: 0 <= i < |b.symbols| ==> '#' !in b.symbols[i])
    && !(b.base.Some? && EndsWith(b.base.value, ";"))
  }

  lemma SymbolTags(name: string, apiMap: ApiMap)
    requires SymbolNameOk(name)
    ensures DecodeTags(Tags(SymbolLine(name)), apiMap) == Ok([]) <==> '#' !in name
  {
    SymbolReads(name);
  }

  lemma {:induction false} RereadPlain(names: seq<string>, apiMap: ApiMap)
    requires AllNamesOk(names)
    ensures Reread(names, apiMap) == Ok(PlainSymbols(names)) <==> forall i :: 0 <= i < |names| ==> '#' !in names[i]
  {
    if names != [] {
      SymbolTags(names[0], apiMap);
      RereadPlain(names[1..], apiMap);
      RereadCons(names, apiMap);
      assert (forall i :: 0 <= i < |names| ==> '#' !in names[i]) <==>
             '#' !in names[0] && forall i :: 0 <= i < |names[1..]| ==> '#' !in names[1..][i];
    }
  }

  lemma RereadCons(names: seq<string>, apiMap: ApiMap)
    requires names != []
    ensures Reread(names, apiMap) == Ok(PlainSymbols(names)) <==>
            DecodeTags(Tags(SymbolLine(names[0])), apiMap) == Ok([]) &&
            Reread(names[1..], apiMap) == Ok(PlainSymbols(names[1..]))
  {
    var tags, rest := DecodeTags(Tags(SymbolLine(names[0])), apiMap), Reread(names[1..], apiMap);
    var plain := PlainSymbols(names);
    assert plain == [Symbol(names[0], [])] + PlainSymbols(names[1..]);
    if tags.Ok? && rest.Ok? {
      var r := [Symbol(names[0], tags.value)] + rest.value;
      assert r[0] == Symbol(names[0], tags.value) && r[1..] == rest.value;
      assert plain[0] == Symbol(names[0], []) && plain[1..] == PlainSymbols(names[1..]);
    }
  }

  lemma HeaderTags(name: string, apiMap: ApiMap)
    requires VersionNameOk(name)
    ensures DecodeTags(Tags(HeaderLine(name)), apiMap) == Ok([]) <==> '#' !in name
  {
    HeaderReads(name);
  }

  lemma FooterKeepsBase(base: Option<string>)
    requires BaseOk(base)
    ensures BaseOf(Closing(FooterLine(base))) == base <==> !(base.Some? && EndsWith(base.value, ";"))
  {
    FooterReads(base);
  }

  lemma RereadBlockPlain(b: Block, apiMap: ApiMap)
    requires BlockNamesOk(b)
    ensures RereadBlock(b, apiMap) == Ok(Plain(b)) <==> WellFormed(b)
  {
    HeaderTags(b.name, apiMap);
    FooterKeepsBase(b.base);
    RereadPlain(b.symbols, apiMap);
  }

  lemma RereadScriptCons(bs: seq<Block>, apiMap: ApiMap)
    requires bs != []
    ensures RereadScript(bs, apiMap) == Ok(PlainAll(bs)) <==>
            RereadBlock(bs[0], apiMap) == Ok(Plain(bs[0])) && RereadScript(bs[1..], apiMap) == Ok(PlainAll(bs[1..]))
  {
    var first, rest, plain := RereadBlock(bs[0], apiMap), RereadScript(bs[1..], apiMap), PlainAll(bs);
    assert plain == [Plain(bs[0])] + PlainAll(bs[1..]);
    assert plain[0] == Plain(bs[0]) && plain[1..] == PlainAll(bs[1..]);
    if first.Ok? && rest.Ok? {
      var r := [first.value] + rest.value;
      assert r[0] == first.value && r[1..] == rest.value;
    }
  }

  ghost predicate AllWellFormed(bs: seq<Block>) {
    forall i :: 0 <= i < |bs| ==> WellFormed(bs[i])
  }

  lemma {:induction false} RereadScriptPlain(bs: seq<Block>, apiMap: ApiMap)
    requires forall i :: 0 <= i < |bs| ==> BlockNamesOk(bs[i])
    ensures RereadScript(bs, apiMap) == Ok(PlainAll(bs)) <==> AllWellFormed(bs)
  {
    if bs != [] {
      assert BlockNamesOk(bs[0]);
      RereadBlockPlain(bs[0], apiMap);
      RereadScriptPlain(bs[1..], apiMap);
      RereadScriptCons(bs, apiMap);
      assert AllWellFormed(bs) <==> WellFormed(bs[0]) && AllWellFormed(bs[1..]);
    }
  }

  /** What every block of a generated script is like. */
  ghost predicate Emitted(b: Block) {
    BlockNamesOk(b) && !VersionIsPrivate(b.name) && b.symbols != []
  }

  ghost predicate AllEmitted(bs: seq<Block>) {
    forall i :: 0 <= i < |bs| ==> Emitted(bs[i])
  }

  lemma {:induction false} PrunedNamesOk(symbols: seq<Symbol>, t: Target)
    requires DecodedSymbols(symbols) && SymbolNamesOk(symbols)
    ensures SymbolNamesOk(Pruned(symbols, t))
  {
    if symbols != [] {
      PrunedNamesOk(symbols[1..], t);
    }
  }

  lemma {:induction false} VersionedNamesOk(symbols: seq<Symbol>, api: int)
    requires DecodedSymbols(symbols) && SymbolNamesOk(symbols)
    ensures AllNamesOk(VersionedNames(symbols, api))
  {
    if symbols != [] {
      VersionedNamesOk(symbols[1..], api);
    }
  }

  lemma BlocksOfEmitted(v: Version, t: Target)
    requires DecodedVersion(v) && NamesOk(v)
    ensures AllEmitted(BlocksOf(v, t))
  {
    PrunedDecoded(v.symbols, t);
    PrunedNamesOk(v.symbols, t);
    VersionedNamesOk(KeptOf(v, t), t.api);
  }

  lemma {:induction false} BlocksEmitted(vs: seq<Version>, t: Target)
    requires AllDecoded(vs) && VersionsOk(vs)
    ensures AllEmitted(Blocks(vs, t))
  {
    if vs != [] {
      assert NamesOk(vs[0]) && DecodedVersion(vs[0]);
      BlocksOfEmitted(vs[0], t);
      BlocksEmitted(vs[1..], t);
    }
  }

  ghost function AllNames(bs: seq<Block>): seq<string> {
    if bs == [] then [] else bs[0].symbols + AllNames(bs[1..])
  }

  lemma NamesConcat(a: seq<Symbol>, b: seq<Symbol>)
    ensures Names(a + b) == Names(a) + Names(b)
  {}

  lemma {:induction false} VersionedSubsequence(symbols: seq<Symbol>, api: int)
    requires DecodedSymbols(symbols)
    ensures Subsequence(VersionedNames(symbols, api), Names(symbols))
  {
    if symbols != [] {
      VersionedSubsequence(symbols[1..], api);
      assert Names(symbols) == [symbols[0].name] + Names(symbols[1..]);
      SubsequenceConcat(if VersionedInApi(symbols[0].tags, api) then [symbols[0].name] else [], [symbols[0].name],
                        VersionedNames(symbols[1..], api), Names(symbols[1..]));
    }
  }

  /** The version script names only symbols that the stub source defines, in the same order. */
  lemma {:induction false} ScriptNamesDefined(vs: seq<Version>, t: Target)
    requires AllDecoded(vs)
    ensures Subsequence(AllNames(Blocks(vs, t)), Names(Kept(vs, t)))
  {
    if vs != [] {
      var v := vs[0];
      assert DecodedVersion(v);
      PrunedDecoded(v.symbols, t);
      ScriptNamesDefined(vs[1..], t);
      VersionedSubsequence(KeptOf(v, t), t.api);
      AllNamesConcat(BlocksOf(v, t), Blocks(vs[1..], t));
      NamesConcat(KeptOf(v, t), Kept(vs[1..], t));
      assert AllNames(BlocksOf(v, t)) == if BlocksOf(v, t) == [] then [] else VersionedNames(KeptOf(v, t), t.api);
      SubsequenceConcat(AllNames(BlocksOf(v, t)), Names(KeptOf(v, t)),
                        AllNames(Blocks(vs[1..], t)), Names(Kept(vs[1..], t)));
    }
  }

  lemma {:induction false} AllNamesConcat(a: seq<Block>, b: seq<Block>)
    ensures AllNames(a + b) == AllNames(a) + AllNames(b)
  {
    if a == [] {
      assert a + b == b;
    } else {
      assert (a + b)[1..] == a[1..] + b;
      AllNamesConcat(a[1..], b);
    }
  }

  lemma {:induction false} SubsequenceNoDup(s: seq<string>, t: seq<string>)
    requires Subsequence(s, t) && NoDup(t)
    ensures NoDup(s) && forall x :: x in s ==> x in t
  {
    if s != [] {
      if s[0] == t[0] && Subsequence(s[1..], t[1..]) {
        SubsequenceNoDup(s[1..], t[1..]);
        assert s == [s[0]] + s[1..] && t == [t[0]] + t[1..];
        assert t[0] !in t[1..];
      } else {
        SubsequenceNoDup(s, t[1..]);
      }
    }
  }

  lemma NoRepeats(names: seq<string>)
    ensures Repeated(names) == {} <==> NoDup(names)
  {
    if Repeated(names) == {} {
      forall i, j | 0 <= i < j < |names| ensures names[i] != names[j] {
        assert names[i] !in Repeated(names);
      }
    }
  }

  /** A file that the parser accepts for a target defines each symbol at most once in the stub
      source for that target, and names each at most once in the version script. */
  lemma AcceptedDefinesOnce(text: string, apiMap: ApiMap, t: Target)
    requires Parse(text, apiMap, t).Ok?
    ensures var vs := Parse(text, apiMap, t).value;
            NoDup(Names(Kept(vs, t))) && NoDup(AllNames(Blocks(vs, t)))
  {
    var vs := Parse(text, apiMap, t).value;
    NoRepeats(Names(Kept(vs, t)));
    ScriptNamesDefined(vs, t);
    SubsequenceNoDup(AllNames(Blocks(vs, t)), Names(Kept(vs, t)));
  }

  /*** Raising the API level ***/

  lemma {:induction false} VersionedMonotone(symbols: seq<Symbol>, t: Target, b: int)
    requires DecodedSymbols(symbols) && t.api <= b && AllStay(Pruned(symbols, t), t.api, b)
    ensures DecodedSymbols(Pruned(symbols, t)) && DecodedSymbols(Pruned(symbols, t.(api := b)))
    ensures Subsequence(VersionedNames(Pruned(symbols, t), t.api), VersionedNames(Pruned(symbols, t.(api := b)), b))
  {
    var t' := t.(api := b);
    PrunedDecoded(symbols, t);
    PrunedDecoded(symbols, t');
    if symbols != [] {
      var s, rest := symbols[0], symbols[1..];
      StayCons(symbols, t, b, KeepSymbol(s, t));
      MonotoneIff(s.tags, t.arch, t.api, b);
      PrunedDecoded(rest, t);
      PrunedDecoded(rest, t');
      VersionedMonotone(rest, t, b);
      VersionedPrunedCons(symbols, t);
      VersionedPrunedCons(symbols, t');
      SubsequenceConcat(if KeepSymbol(s, t) && VersionedInApi(s.tags, t.api) then [s.name] else [],
                        if KeepSymbol(s, t') && VersionedInApi(s.tags, b) then [s.name] else [],
                        VersionedNames(Pruned(rest, t), t.api), VersionedNames(Pruned(rest, t'), b));
    }
  }

  lemma VersionedPrunedCons(symbols: seq<Symbol>, t: Target)
    requires DecodedSymbols(symbols) && symbols != []
    requires DecodedSymbols(Pruned(symbols, t)) && DecodedSymbols(Pruned(symbols[1..], t))
    ensures VersionedNames(Pruned(symbols, t), t.api) ==
            (if KeepSymbol(symbols[0], t) && VersionedInApi(symbols[0].tags, t.api) then [symbols[0].name] else []) +
            VersionedNames(Pruned(symbols[1..], t), t.api)
  {
    var s, rest := symbols[0], Pruned(symbols[1..], t);
    if KeepSymbol(s, t) {
      assert Pruned(symbols, t) == [s] + rest;
      VersionedNamesCons(s, rest, t.api);
    } else {
      assert Pruned(symbols, t) == [] + rest == rest;
      assert [] + VersionedNames(rest, t.api) == VersionedNames(rest, t.api);
    }
  }

  lemma VersionedNamesCons(s: Symbol, rest: seq<Symbol>, api: int)
    requires Decoded(s.tags) && DecodedSymbols(rest)
    ensures DecodedSymbols([s] + rest)
    ensures VersionedNames([s] + rest, api) ==
            (if VersionedInApi(s.tags, api) then [s.name] else []) + VersionedNames(rest, api)
  {
    assert ([s] + rest)[1..] == rest;
  }

  lemma BlocksOfMonotone(v: Version, t: Target, b: int)
    requires DecodedVersion(v) && t.api <= b && Stays(v, t, b)
    ensures Subsequence(AllNames(BlocksOf(v, t)), AllNames(BlocksOf(v, t.(api := b))))
  {
    MonotoneIff(v.tags, t.arch, t.api, b);
    AllNamesOfOne(v, t);
    AllNamesOfOne(v, t.(api := b));
    if KeptOf(v, t) != [] {
      VersionedMonotone(v.symbols, t, b);
    }
  }

  lemma AllNamesOfOne(v: Version, t: Target)
    requires DecodedVersion(v)
    ensures DecodedSymbols(KeptOf(v, t))
    ensures AllNames(BlocksOf(v, t)) ==
            if VersionedInApi(v.tags, t.api) then VersionedNames(KeptOf(v, t), t.api) else []
  {
    PrunedDecoded(v.symbols, t);
    if BlocksOf(v, t) != [] {
      assert BlocksOf(v, t)[1..] == [];
    }
  }

  /** Every name in the version script of a level is in that of each higher level, in order. */
  lemma {:induction false} ScriptMonotone(vs: seq<Version>, t: Target, b: int)
    requires AllDecoded(vs) && t.api <= b && NothingDropped(vs, t, b)
    ensures Subsequence(AllNames(Blocks(vs, t)), AllNames(Blocks(vs, t.(api := b))))
  {
    if vs != [] {
      var t' := t.(api := b);
      assert DecodedVersion(vs[0]) && Stays(vs[0], t, b);
      BlocksOfMonotone(vs[0], t, b);
      ScriptMonotone(vs[1..], t, b);
      AllNamesConcat(BlocksOf(vs[0], t), Blocks(vs[1..], t));
      AllNamesConcat(BlocksOf(vs[0], t'), Blocks(vs[1..], t'));
      SubsequenceConcat(AllNames(BlocksOf(vs[0], t)), AllNames(BlocksOf(vs[0], t')),
                        AllNames(Blocks(vs[1..], t)), AllNames(Blocks(vs[1..], t')));
    }
  }

  lemma {:induction false} SubsequenceNames(s: seq<Symbol>, t: seq<Symbol>)
    requires Subsequence(s, t)
    ensures Subsequence(Names(s), Names(t))
  {
    if s != [] {
      assert Names(s)[1..] == Names(s[1..]) && Names(t)[1..] == Names(t[1..]);
      if s[0] == t[0] && Subsequence(s[1..], t[1..]) {
        SubsequenceNames(s[1..], t[1..]);
      } else {
        SubsequenceNames(s, t[1..]);
      }
    }
  }

  /** A file accepted for some level is accepted, with the same contents, for every lower one from
      which nothing is dropped; up to the future level that is all of them. */
  lemma AcceptedBelow(text: string, apiMap: ApiMap, t: Target, b: int)
    requires t.api <= b && Parse(text, apiMap, t.(api := b)).Ok?
    requires NothingDropped(Parse(text, apiMap, t.(api := b)).value, t, b)
    ensures Parse(text, apiMap, t) == Parse(text, apiMap, t.(api := b))
  {
    var vs := Parse(text, apiMap, t.(api := b)).value;
    KeptMonotone(vs, t, b);
    SubsequenceNames(Kept(vs, t), Kept(vs, t.(api := b)));
    NoRepeats(Names(Kept(vs, t.(api := b))));
    SubsequenceNoDup(Names(Kept(vs, t)), Names(Kept(vs, t.(api := b))));
    NoRepeats(Names(Kept(vs, t)));
  }

  /*** Untagged versions pass every filter ***/

  lemma {:induction false} PrunedPlain(names: seq<string>, t: Target)
    ensures DecodedSymbols(PlainSymbols(names)) && Pruned(PlainSymbols(names), t) == PlainSymbols(names)
    ensures VersionedNames(PlainSymbols(names), t.api) == names
  {
    if names != [] {
      PrunedPlain(names[1..], t);
      assert PlainSymbols(names)[1..] == PlainSymbols(names[1..]);
    }
  }

  lemma PlainKept(b: Block, t: Target)
    requires Emitted(b)
    ensures DecodedVersion(Plain(b)) && KeptOf(Plain(b), t) == PlainSymbols(b.symbols) && BlocksOf(Plain(b), t) == [b]
  {
    PrunedPlain(b.symbols, t);
    assert LastWith([], "introduced-" + t.arch + "=").None? && LastWith([], "introduced=").None?;
    assert KeepVersion(Plain(b), t);
  }

  /** Generating from the untagged versions gives the same blocks again, for every target. */
  lemma {:induction false} RegenerateSame(bs: seq<Block>, t: Target)
    requires AllEmitted(bs)
    ensures AllDecoded(PlainAll(bs)) && Blocks(PlainAll(bs), t) == bs
    ensures Names(Kept(PlainAll(bs), t)) == AllNames(bs)
  {
    if bs != [] {
      RegenerateSame(bs[1..], t);
      PlainKept(bs[0], t);
      assert PlainAll(bs)[1..] == PlainAll(bs[1..]) && bs == [bs[0]] + bs[1..];
      assert forall i :: 0 < i < |bs| ==> PlainAll(bs)[i] == PlainAll(bs[1..])[i - 1];
      NamesConcat(PlainSymbols(bs[0].symbols), Kept(PlainAll(bs[1..]), t));
      assert Names(PlainSymbols(bs[0].symbols)) == bs[0].symbols;
    }
  }

  predicate TerminatedLine(l: string) {
    IsLine(l) && l[|l| - 1] == '\n'
  }

  ghost predicate Terminated(lines: seq<string>) {
    forall i :: 0 <= i < |lines| ==> TerminatedLine(lines[i])
  }

  lemma NewlineLast(text: string, l: string)
    requires l == text + "\n" && '\n' !in text
    ensures TerminatedLine(l)
  {
    assert l[..|l| - 1] == text;
  }

  lemma SymbolLinesTerminated(names: seq<string>)
    requires AllNamesOk(names)
    ensures Terminated(SymbolLines(names))
  {
    forall i | 0 <= i < |names| ensures TerminatedLine(SymbolLine(names[i])) {
      NewlineLast("        " + names[i] + ";", SymbolLine(names[i]));
    }
  }

  lemma BlockLinesTerminated(b: Block)
    requires BlockNamesOk(b)
    ensures Terminated(BlockLines(b))
  {
    NewlineLast(b.name + " {", HeaderLine(b.name));
    NewlineLast("    global:", GLOBAL_LINE);
    SymbolLinesTerminated(b.symbols);
    NewlineLast("}" + (if b.base.Some? then " " + b.base.value else "") + ";", FooterLine(b.base));
  }

  lemma {:induction false} ScriptLinesTerminated(bs: seq<Block>)
    requires AllEmitted(bs)
    ensures Terminated(ScriptLines(bs))
  {
    if bs != [] {
      assert Emitted(bs[0]);
      BlockLinesTerminated(bs[0]);
      ScriptLinesTerminated(bs[1..]);
    }
  }

  lemma ScriptRereads(bs: seq<Block>, apiMap: ApiMap)
    requires AllEmitted(bs)
    ensures ParseVersions(Lines(Script(bs)), apiMap) == RereadScript(bs, apiMap)
  {
    ScriptLinesTerminated(bs);
    assert forall i :: 0 <= i < |ScriptLines(bs)| ==> TerminatedLine(ScriptLines(bs)[i]);
    LinesOfConcat(ScriptLines(bs));
    assert forall i :: 0 <= i < |bs| ==> Emitted(bs[i]);
    ScriptReads(bs, apiMap);
  }

  /** Parsing a generated script, for any target and API map. */
  lemma ScriptParses(bs: seq<Block>, apiMap: ApiMap, t: Target)
    requires AllEmitted(bs) && NoDup(AllNames(bs))
    ensures Parse(Script(bs), apiMap, t) == Ok(PlainAll(bs)) <==> AllWellFormed(bs)
  {
    ScriptRereads(bs, apiMap);
    RereadScriptWellFormed(bs, apiMap);
    RegenerateSame(bs, t);
    NoRepeats(AllNames(bs));
  }

  lemma RereadScriptWellFormed(bs: seq<Block>, apiMap: ApiMap)
    requires AllEmitted(bs)
    ensures RereadScript(bs, apiMap) == Ok(PlainAll(bs)) <==> AllWellFormed(bs)
  {
    assert forall i :: 0 <= i < |bs| ==> Emitted(bs[i]);
    RereadScriptPlain(bs, apiMap);
  }

  lemma ParsedBlocksEmitted(text: string, apiMap: ApiMap, t: Target)
    requires Parse(text, apiMap, t).Ok?
    ensures AllEmitted(Blocks(Parse(text, apiMap, t).value, t))
  {
    ParsedNamesOk(Lines(text), apiMap);
    BlocksEmitted(Parse(text, apiMap, t).value, t);
  }

  /** The round trip.  Take any symbol file that parses, generate its version script, and parse that
      for any target and API map: this gives exactly the emitted blocks, without tags, if and only
      if no emitted name holds a # and no emitted base ends with a semicolon.  Generating again from
      those blocks gives the same script. */
  lemma RoundTrip(text: string, apiMap: ApiMap, t: Target, apiMap': ApiMap, t': Target)
    requires Parse(text, apiMap, t).Ok?
    ensures var bs := Blocks(Parse(text, apiMap, t).value, t);
            && (Parse(Script(bs), apiMap', t') == Ok(PlainAll(bs)) <==> AllWellFormed(bs))
            && AllDecoded(PlainAll(bs)) && Blocks(PlainAll(bs), t') == bs
            && AllEmitted(bs)
  {
    var bs := Blocks(Parse(text, apiMap, t).value, t);
    ParsedBlocksEmitted(text, apiMap, t);
    AcceptedDefinesOnce(text, apiMap, t);
    ScriptParses(bs, apiMap', t');
    RegenerateSame(bs, t');
  }

  /*** A script that is not read back ***/

  /** What follows a # in a name comes back as a tag. */
  lemma HashBecomesTag(x: string, tag: string, name: string)
    requires name + ";" == x + ['#'] + tag && SymbolNameOk(name) && name != ""
    requires '#' !in x && tag != "" && forall c :: c in tag ==> !IsSpace(c)
    ensures Tags(SymbolLine(name)) == [tag]
  {
    var l, text := SymbolLine(name), name + ";";
    assert l == "        " + text + "\n";
    assert text[|text| - 1] == ';';
    PaddedLine("        ", text, l);
    Partition(x, '#', tag);
    OneToken(tag);
  }

  lemma OneSymbolRereads(b: Block, tag: string, apiMap: ApiMap)
    requires Emitted(b) && '#' !in b.name && b.base.None? && |b.symbols| == 1
    requires Tags(SymbolLine(b.symbols[0])) == [tag] && !IsApiLevelTag(tag)
    ensures RereadBlock(b, apiMap) == Ok(Version(b.name, None, [], [Symbol(b.symbols[0], [tag])]))
  {
    HeaderTags(b.name, apiMap);
    FooterKeepsBase(b.base);
    assert [tag][1..] == [] && [tag] + [] == [tag] && DecodeTags([tag], apiMap) == Ok([tag]);
    var s := Symbol(b.symbols[0], [tag]);
    assert b.symbols[1..] == [] && [s] + [] == [s] && Reread(b.symbols, apiMap) == Ok([s]);
  }

  /** A tag that no filter knows. */
  predicate NeutralTag(tag: string) {
    !IsApiLevelTag(tag) && tag !in ["vndk", "apex", "future"] && tag !in ALL_ARCHITECTURES
  }

  lemma NeutralKept(name: string, s: Symbol, tag: string, t: Target)
    requires s.tags == [tag] && NeutralTag(tag) && !VersionIsPrivate(name)
    ensures var v := Version(name, None, [], [s]);
            DecodedVersion(v) && KeptOf(v, t) == [s] && BlocksOf(v, t) == [Block(name, None, [s.name])]
  {
    var v := Version(name, None, [], [s]);
    assert [s][1..] == [] && [tag][1..] == [] && [tag][..0] == [];
    assert "introduced-" <= "introduced-" + t.arch + "=";
    assert LastWith([tag][..0], "introduced-" + t.arch + "=").None? && LastWith([tag][..0], "introduced=").None?;
    assert LastWith([tag], "introduced-" + t.arch + "=").None? && LastWith([tag], "introduced=").None?;
    assert KeepSymbol(s, t) && VersionedInApi(s.tags, t.api);
    assert KeepVersion(v, t) && VersionedInApi(v.tags, t.api);
    assert [s] + [] == [s] && Pruned([s], t) == [s];
    assert [s.name] + [] == [s.name] && VersionedNames([s], t.api) == [s.name];
  }

  lemma HashedOk(b: Block)
    requires b == Block("V", None, ["a#b"])
    ensures Emitted(b) && Tags(SymbolLine(b.symbols[0])) == ["b;"] && NeutralTag("b;")
  {
    var name := b.symbols[0];
    assert |EXTERN_CPP| == 14 && name == "a#b" && name + ";" == "a" + ['#'] + "b;";
    HashBecomesTag("a", "b;", name);
  }

  lemma OneBlockRereads(bs: seq<Block>, apiMap: ApiMap)
    requires |bs| == 1 && RereadBlock(bs[0], apiMap).Ok?
    ensures RereadScript(bs, apiMap) == Ok([RereadBlock(bs[0], apiMap).value])
  {
    var vs := [RereadBlock(bs[0], apiMap).value];
    assert bs[1..] == [] && vs + [] == vs;
  }

  lemma OneVersion(vs: seq<Version>, t: Target)
    requires |vs| == 1 && DecodedVersion(vs[0])
    ensures AllDecoded(vs) && Kept(vs, t) == KeptOf(vs[0], t) && Blocks(vs, t) == BlocksOf(vs[0], t)
  {
    assert vs[1..] == [];
    assert KeptOf(vs[0], t) + [] == KeptOf(vs[0], t) && BlocksOf(vs[0], t) + [] == BlocksOf(vs[0], t);
  }

  lemma HashedParses(bs: seq<Block>, b: Block, tag: string, apiMap: ApiMap, t: Target)
    requires bs == [b] && Emitted(b) && '#' !in b.name && b.base.None? && |b.symbols| == 1
    requires Tags(SymbolLine(b.symbols[0])) == [tag] && NeutralTag(tag)
    ensures var vs := [Version(b.name, None, [], [Symbol(b.symbols[0], [tag])])];
            Parse(Script(bs), apiMap, t) == Ok(vs) && AllDecoded(vs) && Blocks(vs, t) == bs
  {
    var s := Symbol(b.symbols[0], [tag]);
    var v := Version(b.name, None, [], [s]);
    ScriptRereads(bs, apiMap);
    OneSymbolRereads(b, tag, apiMap);
    OneBlockRereads(bs, apiMap);
    NeutralKept(b.name, s, tag, t);
    assert [b.symbols[0]] == b.symbols;
    OneVersion([v], t);
    NoRepeats(Names([s]));
  }

  /** The script whose only name is a#b is an accepted file for every target and API map.  Its blocks
      are those it was made from, and it does not parse to them. */
  lemma HashIsLost(bs: seq<Block>, apiMap: ApiMap, t: Target, apiMap': ApiMap, t': Target)
    requires bs == [Block("V", None, ["a#b"])]
    ensures Parse(Script(bs), apiMap, t) == Ok([Version("V", None, [], [Symbol("a#b", ["b;"])])])
    ensures Blocks(Parse(Script(bs), apiMap, t).value, t) == bs
    ensures Parse(Script(bs), apiMap', t') != Ok(PlainAll(bs))
  {
    HashedOk(bs[0]);
    HashedParses(bs, bs[0], "b;", apiMap, t);
    assert '#' in bs[0].symbols[0];
    RoundTrip(Script(bs), apiMap, t, apiMap', t');
  }
}
