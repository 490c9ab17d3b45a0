/** What a version block of a symbol file means, line by line: which lines are exported, where the
    block ends, and when SymbolFileParser.parse_version of cc/gen_stub_libs.py accepts it. */
module SymbolBlocks {
  import opened Filter
  import opened Options
  import opened StubFilter
  import opened StubGen
  import opened SymbolFile
  import opened Text
  import opened Unique

  /** The line closes a block or an extern "C++" part. */
  predicate Closes(line: string) {
    !Ignored(line) && '}' in line
  }

  /** The line opens an extern "C++" part. */
  predicate OpensCpp(line: string) {
    !Ignored(line) && '}' !in line && Contains(line, EXTERN_CPP)
  }

  /** Line j opens an extern "C++" part that is not closed before line p. */
  ghost predicate OpenSince(lines: seq<string>, p: nat, j: nat)
    requires p <= |lines|
  {
    j < p && OpensCpp(lines[j]) && forall k :: j < k < p ==> !Closes(lines[k])
  }

  /** Line p lies between a line that opens an extern "C++" part and the one that closes it. */
  ghost predicate InCpp(lines: seq<string>, p: nat)
    requires p <= |lines|
  {
    exists j: nat :: OpenSince(lines, p, j)
  }

  /** The line is neither a comment nor a brace. */
  ghost predicate IsContent(lines: seq<string>, p: nat)
    requires p < |lines|
  {
    !Ignored(lines[p]) && !Closes(lines[p]) && !OpensCpp(lines[p]) && !InCpp(lines, p)
  }

  ghost predicate IsLabel(lines: seq<string>, p: nat)
    requires p < |lines|
  {
    IsContent(lines, p) && ':' in lines[p]
  }

  function LabelOf(line: string): string {
    Strip(Before(line, ':'))
  }

  /** Line j has the last label before line p. */
  ghost predicate LastLabel(lines: seq<string>, p: nat, j: nat)
    requires p <= |lines|
  {
    j < p && IsLabel(lines, j) && forall k :: j < k < p ==> !IsLabel(lines, k)
  }

  /** There is no label before line p, or the last one is global. */
  ghost predicate InGlobal(lines: seq<string>, p: nat)
    requires p <= |lines|
  {
    forall j {:trigger LastLabel(lines, p, j)} :: 0 <= j < p && LastLabel(lines, p, j) ==> LabelOf(lines[j]) == "global"
  }

  /** The line names a symbol of the block. */
  ghost predicate Exported(lines: seq<string>, p: nat)
    requires p < |lines|
  {
    IsContent(lines, p) && ':' !in lines[p] && InGlobal(lines, p)
  }

  /** The line ends the block. */
  ghost predicate Ends(lines: seq<string>, p: nat)
    requires p < |lines|
  {
    Closes(lines[p]) && !InCpp(lines, p)
  }

  /** Nothing is wrong with the line: what closes is terminated, labels are known and exported lines
      are symbols. Any other line is fine. */
  ghost predicate Fine(lines: seq<string>, p: nat, apiMap: ApiMap)
    requires p < |lines|
  {
    && (Closes(lines[p]) ==> EndsWith(Closing(lines[p]), ";"))
    && (IsLabel(lines, p) ==> LabelOf(lines[p]) == "local" || LabelOf(lines[p]) == "global")
    && (Exported(lines, p) ==> ParseSymbol(lines[p], apiMap).Ok?)
  }

  /** The lines before p neither end the block nor are wrong. */
  ghost predicate OpenUpTo(lines: seq<string>, p: nat, apiMap: ApiMap)
    requires p <= |lines|
  {
    forall i :: 0 <= i < p ==> !Ends(lines, i) && Fine(lines, i, apiMap)
  }

  /** The block ends at line n, and nothing is wrong with it. */
  ghost predicate EndsAt(lines: seq<string>, n: nat, apiMap: ApiMap) {
    n < |lines| && Ends(lines, n) && Fine(lines, n, apiMap) && OpenUpTo(lines, n, apiMap)
  }

  /** The indices of the exported lines before line p, in order. */
  ghost predicate AreExported(lines: seq<string>, p: nat, ks: seq<nat>)
    requires p <= |lines|
  {
    && Increasing(ks)
    && (forall k :: k in ks <==> 0 <= k < p && Exported(lines, k))
  }

  ghost predicate ReadAt(lines: seq<string>, ks: seq<nat>, symbols: seq<Symbol>, apiMap: ApiMap) {
    && |symbols| == |ks|
    && forall i :: 0 <= i < |ks| ==> ks[i] < |lines| && ParseSymbol(lines[ks[i]], apiMap) == Ok(symbols[i])
  }

  /** The symbols are what the exported lines before line p read as, in order. */
  ghost predicate SymbolsOf(lines: seq<string>, p: nat, symbols: seq<Symbol>, apiMap: ApiMap)
    requires p <= |lines|
  {
    exists ks :: AreExported(lines, p, ks) && ReadAt(lines, ks, symbols, apiMap)
  }

  /*** One more line ***/

  lemma InCppNext(lines: seq<string>, p: nat)
    requires p < |lines|
    ensures InCpp(lines, p + 1) <==> !Closes(lines[p]) && (OpensCpp(lines[p]) || InCpp(lines, p))
  {
    var q := p + 1;
    if OpensCpp(lines[p]) {
      assert OpenSince(lines, q, p);
    }
    assert forall j: nat :: j < p ==> (OpenSince(lines, q, j) <==> OpenSince(lines, p, j) && !Closes(lines[p]));
  }

  lemma InGlobalNext(lines: seq<string>, p: nat)
    requires p < |lines|
    ensures InGlobal(lines, p + 1) <==> if IsLabel(lines, p) then LabelOf(lines[p]) == "global" else InGlobal(lines, p)
  {
    var q := p + 1;
    if IsLabel(lines, p) {
      assert LastLabel(lines, q, p);
      assert forall j: nat :: j < p ==> !LastLabel(lines, q, j);
    } else {
      assert forall j: nat :: LastLabel(lines, q, j) <==> LastLabel(lines, p, j);
    }
  }

  lemma ExportedNext(lines: seq<string>, p: nat, ks: seq<nat>, ks': seq<nat>)
    requires p < |lines| && AreExported(lines, p, ks)
    requires ks' == if Exported(lines, p) then ks + [p] else ks
    ensures AreExported(lines, p + 1, ks')
  {
    if Exported(lines, p) {
      assert forall i :: 0 <= i < |ks| ==> ks[i] in ks;
      assert forall k :: k in ks' <==> k in ks || k == p;
    }
  }

  lemma SymbolsNext(lines: seq<string>, p: nat, symbols: seq<Symbol>, symbols': seq<Symbol>, apiMap: ApiMap)
    requires p < |lines| && SymbolsOf(lines, p, symbols, apiMap) && Fine(lines, p, apiMap)
    requires symbols' == if Exported(lines, p) then symbols + [ParseSymbol(lines[p], apiMap).value] else symbols
    ensures SymbolsOf(lines, p + 1, symbols', apiMap)
  {
    var ks :| AreExported(lines, p, ks) && ReadAt(lines, ks, symbols, apiMap);
    var ks' := if Exported(lines, p) then ks + [p] else ks;
    ExportedNext(lines, p, ks, ks');
    ReadNext(lines, p, ks, symbols, apiMap);
    assert ReadAt(lines, ks', symbols', apiMap);
  }

  lemma ReadNext(lines: seq<string>, p: nat, ks: seq<nat>, symbols: seq<Symbol>, apiMap: ApiMap)
    requires p < |lines| && ReadAt(lines, ks, symbols, apiMap)
    ensures ParseSymbol(lines[p], apiMap).Ok? ==>
              ReadAt(lines, ks + [p], symbols + [ParseSymbol(lines[p], apiMap).value], apiMap)
  {}

  /*** The parser ***/

  /** The parser in front of line p, in the state that the lines before p determine. */
  ghost function ParseFrom(lines: seq<string>, p: nat, symbols: seq<Symbol>, apiMap: ApiMap): Result<Body>
    requires p <= |lines|
  {
    ParseBody(lines[p..], symbols, InGlobal(lines, p), InCpp(lines, p), apiMap)
  }

  lemma SkipNext(lines: seq<string>, p: nat)
    requires p < |lines|
    ensures Skip(lines[p..]) == if Ignored(lines[p]) then Skip(lines[p + 1..]) else lines[p..]
    ensures !Ignored(lines[p]) ==> lines[p..][0] == lines[p] && lines[p..][1..] == lines[p + 1..]
  {
    assert lines[p..][0] == lines[p] && lines[p..][1..] == lines[p + 1..];
  }

  /** The parser goes over a line that is fine and does not end the block. */
  lemma ParseNext(lines: seq<string>, p: nat, symbols: seq<Symbol>, symbols': seq<Symbol>, apiMap: ApiMap)
    requires p < |lines| && Fine(lines, p, apiMap) && !Ends(lines, p)
    requires symbols' == if Exported(lines, p) then symbols + [ParseSymbol(lines[p], apiMap).value] else symbols
    ensures ParseFrom(lines, p, symbols, apiMap) == ParseFrom(lines, p + 1, symbols', apiMap)
  {
    InCppNext(lines, p);
    InGlobalNext(lines, p);
    ParseLine(lines, p, symbols, symbols', apiMap, InGlobal(lines, p), InCpp(lines, p),
              InGlobal(lines, p + 1), InCpp(lines, p + 1));
  }

  lemma ParseLine(lines: seq<string>, p: nat, symbols: seq<Symbol>, symbols': seq<Symbol>, apiMap: ApiMap,
                  g: bool, c: bool, g': bool, c': bool)
    requires p < |lines| && !(Closes(lines[p]) && !c)
    requires var l := lines[p];
             var plain := !Ignored(l) && !Closes(l) && !OpensCpp(l) && !c;
             var read := ParseSymbol(l, apiMap);
             && (Closes(l) ==> EndsWith(Closing(l), ";"))
             && c' == (!Closes(l) && (OpensCpp(l) || c))
             && (plain && ':' in l ==> LabelOf(l) == "local" || LabelOf(l) == "global")
             && g' == (if plain && ':' in l then LabelOf(l) == "global" else g)
             && (plain && ':' !in l && g ==> read.Ok? && symbols' == symbols + [read.value])
             && (!(plain && ':' !in l && g) ==> symbols' == symbols)
    ensures ParseBody(lines[p..], symbols, g, c, apiMap) == ParseBody(lines[p + 1..], symbols', g', c', apiMap)
  {
    SkipNext(lines, p);
  }

  lemma ParseEnd(lines: seq<string>, p: nat, symbols: seq<Symbol>, apiMap: ApiMap)
    requires p < |lines| && Fine(lines, p, apiMap) && Ends(lines, p)
    ensures ParseFrom(lines, p, symbols, apiMap) == Ok(Body(BaseOf(Closing(lines[p])), symbols, lines[p + 1..]))
  {
    SkipNext(lines, p);
  }

  lemma ParseFault(lines: seq<string>, p: nat, symbols: seq<Symbol>, apiMap: ApiMap)
    requires p < |lines| && !Fine(lines, p, apiMap)
    ensures ParseFrom(lines, p, symbols, apiMap).IsFailure()
    ensures Exported(lines, p) ==>
              ParseFrom(lines, p, symbols, apiMap) == ParseSymbol(lines[p], apiMap).PropagateFailure()
    ensures !Exported(lines, p) ==> ParseFrom(lines, p, symbols, apiMap) == ParseError
  {
    SkipNext(lines, p);
  }

  /** As long as the block is open and nothing is wrong, the parser has exactly the exported lines. */
  lemma {:induction false} ParseUpTo(lines: seq<string>, p: nat, apiMap: ApiMap) returns (symbols: seq<Symbol>)
    requires p <= |lines| && OpenUpTo(lines, p, apiMap)
    ensures SymbolsOf(lines, p, symbols, apiMap)
    ensures ParseBody(lines, [], true, false, apiMap) == ParseFrom(lines, p, symbols, apiMap)
  {
    if p == 0 {
      symbols := [];
      ParseStart(lines, apiMap);
    } else {
      var before := ParseUpTo(lines, p - 1, apiMap);
      assert Fine(lines, p - 1, apiMap) && !Ends(lines, p - 1);
      symbols := ParseOneMore(lines, p - 1, before, apiMap);
    }
  }

  lemma ParseStart(lines: seq<string>, apiMap: ApiMap)
    ensures SymbolsOf(lines, 0, [], apiMap)
    ensures ParseBody(lines, [], true, false, apiMap) == ParseFrom(lines, 0, [], apiMap)
  {
    assert lines[0..] == lines;
    assert AreExported(lines, 0, []) && ReadAt(lines, [], [], apiMap);
    assert !InCpp(lines, 0) && InGlobal(lines, 0);
  }

  lemma ParseOneMore(lines: seq<string>, p: nat, before: seq<Symbol>, apiMap: ApiMap) returns (symbols: seq<Symbol>)
    requires p < |lines| && Fine(lines, p, apiMap) && !Ends(lines, p) && SymbolsOf(lines, p, before, apiMap)
    ensures SymbolsOf(lines, p + 1, symbols, apiMap)
    ensures ParseFrom(lines, p, before, apiMap) == ParseFrom(lines, p + 1, symbols, apiMap)
  {
    symbols := if Exported(lines, p) then before + [ParseSymbol(lines[p], apiMap).value] else before;
    SymbolsNext(lines, p, before, symbols, apiMap);
    ParseNext(lines, p, before, symbols, apiMap);
  }

  /** The first line that ends the block or is wrong; the number of lines if there is none. */
  lemma {:induction false} FirstStop(lines: seq<string>, p: nat, apiMap: ApiMap) returns (n: nat)
    requires p <= |lines| && OpenUpTo(lines, p, apiMap)
    ensures n <= |lines| && OpenUpTo(lines, n, apiMap)
    ensures n < |lines| ==> Ends(lines, n) || !Fine(lines, n, apiMap)
    decreases |lines| - p
  {
    if p == |lines| || Ends(lines, p) || !Fine(lines, p, apiMap) {
      n := p;
    } else {
      n := FirstStop(lines, p + 1, apiMap);
    }
  }

  /** A block that ends at line n, with nothing wrong up to there, is read as its base and the
      symbols on its exported lines, and the parser goes on behind it. */
  lemma BlockParses(lines: seq<string>, n: nat, apiMap: ApiMap)
    requires EndsAt(lines, n, apiMap)
    ensures var r := ParseBody(lines, [], true, false, apiMap);
            && r.Ok? && SymbolsOf(lines, n, r.value.symbols, apiMap)
            && r.value.base == BaseOf(Closing(lines[n])) && r.value.rest == lines[n + 1..]
  {
    var symbols := ParseUpTo(lines, n, apiMap);
    ParseEnd(lines, n, symbols, apiMap);
  }

  /** The first thing that is wrong decides the error: that of the symbol on an exported line, a
      parse error for anything else and for a block without an end. */
  lemma BlockFails(lines: seq<string>, n: nat, apiMap: ApiMap)
    requires n <= |lines| && OpenUpTo(lines, n, apiMap) && (n < |lines| ==> !Fine(lines, n, apiMap))
    ensures ParseBody(lines, [], true, false, apiMap) ==
            if n < |lines| && Exported(lines, n) then ParseSymbol(lines[n], apiMap).PropagateFailure() else ParseError
  {
    var symbols := ParseUpTo(lines, n, apiMap);
    if n < |lines| {
      ParseFault(lines, n, symbols, apiMap);
    }
  }

  /** A block is accepted exactly if it has an end and nothing is wrong up to there. */
  lemma BlockAcceptedIff(lines: seq<string>, apiMap: ApiMap)
    ensures ParseBody(lines, [], true, false, apiMap).Ok? <==> exists n: nat :: EndsAt(lines, n, apiMap)
  {
    if n: nat :| EndsAt(lines, n, apiMap) {
      BlockParses(lines, n, apiMap);
    } else {
      var n := FirstStop(lines, 0, apiMap);
      assert !EndsAt(lines, n, apiMap);
      BlockFails(lines, n, apiMap);
    }
  }

  /*** Whole files ***/

  /** Lines head to end - 1 are a header and a body that read as this version. */
  ghost predicate BlockAt(lines: seq<string>, head: nat, end: nat, v: Version, apiMap: ApiMap) {
    && head < end <= |lines| && !Ignored(lines[head]) && '{' in lines[head]
    && v.name == Strip(Before(lines[head], '{')) && DecodeTags(Tags(lines[head]), apiMap) == Ok(v.tags)
    && ParseBody(lines[head + 1..], [], true, false, apiMap) == Ok(Body(v.base, v.symbols, lines[end..]))
  }

  ghost predicate AllIgnored(lines: seq<string>, p: nat, q: nat)
    requires q <= |lines|
  {
    forall i :: p <= i < q ==> Ignored(lines[i])
  }

  /** The next line after p that is neither blank nor a comment starts this block. */
  ghost predicate NextBlock(lines: seq<string>, p: nat, head: nat, end: nat, v: Version, apiMap: ApiMap) {
    p <= head && BlockAt(lines, head, end, v, apiMap) && AllIgnored(lines, p, head)
  }

  /** From line p on, the lines are blocks that read as these versions, with only blank lines and
      comments between them. */
  ghost predicate BlocksFrom(lines: seq<string>, p: nat, heads: seq<nat>, ends: seq<nat>, vs: seq<Version>,
                             apiMap: ApiMap)
    requires p <= |lines| && |heads| == |ends| == |vs|
    decreases |vs|
  {
    if vs == [] then AllIgnored(lines, p, |lines|) else
      && NextBlock(lines, p, heads[0], ends[0], vs[0], apiMap)
      && BlocksFrom(lines, ends[0], heads[1..], ends[1..], vs[1..], apiMap)
  }

  lemma {:induction false} SkipTo(lines: seq<string>, p: nat, q: nat)
    requires p <= q <= |lines| && AllIgnored(lines, p, q) && (q < |lines| ==> !Ignored(lines[q]))
    ensures Skip(lines[p..]) == lines[q..]
    decreases q - p
  {
    if p < q {
      SkipNext(lines, p);
      SkipTo(lines, p + 1, q);
    } else if p < |lines| {
      SkipNext(lines, p);
    }
  }

  lemma {:induction false} NextCounted(lines: seq<string>, p: nat) returns (q: nat)
    requires p <= |lines|
    ensures p <= q <= |lines| && AllIgnored(lines, p, q) && (q < |lines| ==> !Ignored(lines[q]))
    decreases |lines| - p
  {
    q := p;
    if p < |lines| && Ignored(lines[p]) {
      q := NextCounted(lines, p + 1);
    }
  }

  ghost function Then(v: Version, rest: Result<seq<Version>>): Result<seq<Version>> {
    var vs :- rest;
    Ok([v] + vs)
  }

  /** Reading one block and what follows it. */
  lemma BlockThenRest(lines: seq<string>, p: nat, head: nat, end: nat, v: Version, apiMap: ApiMap)
    requires NextBlock(lines, p, head, end, v, apiMap)
    ensures ParseVersions(lines[p..], apiMap) == Then(v, ParseVersions(lines[end..], apiMap))
  {
    SkipTo(lines, p, head);
    assert lines[head..][0] == lines[head] && lines[head..][1..] == lines[head + 1..];
  }

  /** The block that a successful parse starts with. */
  lemma FirstBlock(lines: seq<string>, p: nat, head: nat, apiMap: ApiMap) returns (end: nat, v: Version)
    requires p <= head < |lines| && AllIgnored(lines, p, head) && !Ignored(lines[head])
    requires ParseVersions(lines[p..], apiMap).Ok?
    ensures NextBlock(lines, p, head, end, v, apiMap)
  {
    SkipTo(lines, p, head);
    var after := lines[head + 1..];
    assert lines[head..][0] == lines[head] && lines[head..][1..] == after;
    var body := ParseBody(after, [], true, false, apiMap).value;
    var n := BodyRest(after, apiMap);
    end := head + 1 + n;
    assert after[n..] == lines[end..];
    v := Version(Strip(Before(lines[head], '{')), body.base, DecodeTags(Tags(lines[head]), apiMap).value, body.symbols);
  }

  /** A block takes lines from the front. */
  lemma BodyRest(lines: seq<string>, apiMap: ApiMap) returns (n: nat)
    requires ParseBody(lines, [], true, false, apiMap).Ok?
    ensures n <= |lines| && ParseBody(lines, [], true, false, apiMap).value.rest == lines[n..]
  {
    BlockAcceptedIff(lines, apiMap);
    var k: nat :| EndsAt(lines, k, apiMap);
    BlockParses(lines, k, apiMap);
    n := k + 1;
  }

  lemma {:induction false} BlocksParse(lines: seq<string>, p: nat, heads: seq<nat>, ends: seq<nat>,
                                       vs: seq<Version>, apiMap: ApiMap)
    requires p <= |lines| && |heads| == |ends| == |vs| && BlocksFrom(lines, p, heads, ends, vs, apiMap)
    ensures ParseVersions(lines[p..], apiMap) == Ok(vs)
    decreases |vs|
  {
    if vs == [] {
      SkipTo(lines, p, |lines|);
    } else {
      BlocksParse(lines, ends[0], heads[1..], ends[1..], vs[1..], apiMap);
      BlocksParseCons(lines, p, heads[0], ends[0], vs, apiMap);
    }
  }

  lemma BlocksParseCons(lines: seq<string>, p: nat, head: nat, end: nat, vs: seq<Version>, apiMap: ApiMap)
    requires vs != [] && NextBlock(lines, p, head, end, vs[0], apiMap)
    requires ParseVersions(lines[end..], apiMap) == Ok(vs[1..])
    ensures ParseVersions(lines[p..], apiMap) == Ok(vs)
  {
    BlockThenRest(lines, p, head, end, vs[0], apiMap);
    assert vs == [vs[0]] + vs[1..];
  }

  lemma {:induction false} ParsedIsBlocks(lines: seq<string>, p: nat, vs: seq<Version>, apiMap: ApiMap)
    returns (heads: seq<nat>, ends: seq<nat>)
    requires p <= |lines| && ParseVersions(lines[p..], apiMap) == Ok(vs)
    ensures |heads| == |ends| == |vs| && BlocksFrom(lines, p, heads, ends, vs, apiMap)
    decreases |lines| - p
  {
    heads, ends := [], [];
    var head := NextCounted(lines, p);
    if head == |lines| {
      SkipTo(lines, p, head);
    } else {
      var end, v := FirstBlock(lines, p, head, apiMap);
      BlockThenRest(lines, p, head, end, v, apiMap);
      var rest := ParseVersions(lines[end..], apiMap).value;
      heads, ends := ParsedIsBlocks(lines, end, rest, apiMap);
      assert vs[0] == v && vs[1..] == rest;
      BlocksCons(lines, p, head, end, heads, ends, vs, apiMap);
      heads, ends := [head] + heads, [end] + ends;
    }
  }

  lemma BlocksCons(lines: seq<string>, p: nat, head: nat, end: nat, heads: seq<nat>, ends: seq<nat>,
                   vs: seq<Version>, apiMap: ApiMap)
    requires |heads| == |ends| == |vs| - 1 && NextBlock(lines, p, head, end, vs[0], apiMap)
    requires BlocksFrom(lines, end, heads, ends, vs[1..], apiMap)
    ensures BlocksFrom(lines, p, [head] + heads, [end] + ends, vs, apiMap)
  {
    assert ([head] + heads)[1..] == heads && ([end] + ends)[1..] == ends;
  }

  /** The file consists of blocks that read as these versions, in order, and of blank lines and
      comments outside the blocks. */
  ghost predicate FileOf(lines: seq<string>, vs: seq<Version>, apiMap: ApiMap) {
    exists heads, ends :: |heads| == |ends| == |vs| && BlocksFrom(lines, 0, heads, ends, vs, apiMap)
  }

  /** Before the check for duplicates, a file parses to exactly the versions that it consists of. */
  lemma FileMeaning(lines: seq<string>, vs: seq<Version>, apiMap: ApiMap)
    ensures ParseVersions(lines, apiMap) == Ok(vs) <==> FileOf(lines, vs, apiMap)
  {
    assert lines[0..] == lines;
    if heads, ends :| |heads| == |ends| == |vs| && BlocksFrom(lines, 0, heads, ends, vs, apiMap) {
      BlocksParse(lines, 0, heads, ends, vs, apiMap);
    } else if ParseVersions(lines, apiMap) == Ok(vs) {
      var heads, ends := ParsedIsBlocks(lines, 0, vs, apiMap);
    }
  }

  /** A file is accepted for a target exactly if the names of all symbols that are kept for the target
      are different; the error says which ones are not. */
  lemma AcceptedIff(text: string, apiMap: ApiMap, t: Target, vs: seq<Version>)
    requires FileOf(Lines(text), vs, apiMap)
    ensures AllDecoded(vs)
    ensures var names := Names(Kept(vs, t));
            && (NoDup(names) ==> Parse(text, apiMap, t) == Ok(vs))
            && (!NoDup(names) ==>
                  && Parse(text, apiMap, t).MultiplyDefined?
                  && forall x :: x in Parse(text, apiMap, t).symbols <==>
                       exists i, j :: 0 <= i < j < |names| && names[i] == x && names[j] == x)
  {
    FileMeaning(Lines(text), vs, apiMap);
    ParseVersionsDecodes(Lines(text), apiMap);
    NoRepeats(Names(Kept(vs, t)));
  }
}
