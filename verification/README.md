# Verified core of Soong

Soong is the build system of Android: it reads Blueprint files, runs mutators over the module graph
and emits Ninja rules. This project models its self-contained algorithms and protocols in Dafny and
proves what they promise for every input, every run and every module graph.

- **OncePer**, **OnceProgress** are the once-per-key memo that every singleton in Soong goes through,
  as a transition system: any number of `Once` and `Get` calls interleave, one atomic access to the
  shared map or one channel operation per step; constructors may panic and may make calls themselves.
- **Unique**, **LinkOrder** are the in-place removal of duplicates and the order in which static
  libraries go to the linker, over whole module graphs.
- **DepGraph**, **Defaults**, **DefaultsOrder**, **Lto**, **Apex** are the dependency walk with its
  `walkPath` stack and the three mutators that mark or change modules while walking.
- **Text**, **StubFilter**, **SymbolFile**, **SymbolBlocks**, **StubGen**, **StubLibs** are the NDK stub
  generator, at the level of characters: which lines of a symbol file count, what they mean, and that
  the version script that it writes is in the language that it reads.
- **Namespaces** is the name resolver with its lazily filled directory cache.
- **GoPath**, **Lex**, **DirSorted** are lexical paths (Go's `filepath.Clean`, `Join` and `Rel`),
  Go's order on strings, and what Soong builds on them.
- **SplitList**, **EnvDeps**, **Visibility**, **RuleBuilder**, **RuleHistory** are the breaking up of
  long command lines, the record of environment variables, visibility rules, and the collection of
  commands into one rule, with what that rule says in terms of the calls that were made.
- **Filter** says what it means that one list was filtered out of another; **Options** is the usual
  option type.

Objects that the source updates in place are classes; loops that update variables are methods with
loops. Each such method is proved against a function or predicate on values, and the theorems are
about those.

Where the code does not do what its documentation says, the model follows the code:

- `PathsInDirectory` is documented to return all entries of a directory. For `.`, `/` and directories
  such as `../..` it does not; `DirSorted.PrefixIsInsideIff` gives the exact condition.
- A stub script is read back as the blocks it was made from exactly if no name in it contains `#` and
  no base ends in `;` (`StubGen.RoundTrip`); the script for the name `a#b` is one that is not
  (`StubGen.HashIsLost`).
- Stub contents do not always grow with the API level: what is tagged `future` is in at the level for
  future APIs and out at every level above it (`StubFilter.FutureIsDropped`);
  `StubFilter.MonotoneIff` says that nothing else is ever dropped.
- A fully qualified name can find an undeclared directory, depending on earlier lookups
  (`Namespaces.QualifiedNamesSeeTheCache`).
- A module outside `vendor` is documented to be unable to name a single vendor package. This is
  checked before defaults are expanded, so lists from defaults inside `vendor` are not covered
  (`Visibility.VendorDefaultsSingleOut`; `Visibility.ListUniformIff` gives the exact condition), and the
  short form of a rule can turn into a nil rule (`Visibility.ShortFormBecomesNil`;
  `Visibility.ExpandedNilIff` gives the exact condition).
- The map from which a module takes the lists of its dependencies is keyed by output file, so of
  dependencies with the same file only the list of the last is kept. Files can get lost
  (`LinkOrder.SameFileLosesDeps`, `LinkOrder.ContentsFail`); `LinkOrder.ExactIff` and
  `LinkOrder.AllExactIff` say exactly when none is. A list with the right contents can still be in the
  wrong order (`LinkOrder.OrderFails`); it is enough for both that modules with the same file, among
  those that the module depends on, link the same files (`LinkOrder.FileOrderCorrect`).
- All methods that add text to a command are documented to add a space before it. After empty texts
  they do not: the command line is the texts joined by spaces with the leading empty ones left out
  (`RuleHistory.LineRecorded`).
- Constructors that ask for each other's keys in a cycle wait forever, and nothing in the code rules
  this out; `OnceProgress.ProgressIff` says that this is the only way to get stuck.

## Model

| member | source | states |
|---|---|---|
| `OncePer.InitInv` | android/onceper.go:45-69 | the protocol invariant holds before any call has started, for every well-nested set of calls |
| `OncePer.StepInv` | android/onceper.go:28-80 | every atomic step of every call keeps the invariant, and entries only move from absent to waiter to value |
| `OncePer.NextInv` | android/onceper.go:28-80 | the same for a step of any call, whatever its constructor returns |
| `OncePer.RunInv` | android/onceper.go:28-80 | the invariant holds in every state of every interleaving |
| `OncePer.RunAdvances` | android/onceper.go:28-80 | over any stretch of a run no entry goes back, no stored value changes, and no close or constructor call is forgotten |
| `OncePer.ConstructorRunsAtMostOnce` | android/onceper.go:42-69 | each key's constructor is started at most once, and exactly once if the key has an entry |
| `OncePer.ReturnsAgree` | android/onceper.go:28-80 | all normal returns for a key are equal, and nil if the constructor panicked |
| `OncePer.ReturnsWhatWasConstructed` | android/onceper.go:28-69 | in every run, if the constructor of a call returns v or panics, that call can only end the same way, and every other call of the key that returns gives v, or nil after a panic; only a Get can end otherwise |
| `OncePer.LateCallsReturn` | android/onceper.go:28-80 | a call, Once or Get, that starts after a constructor was started for its key can only end by returning |
| `OncePer.EarlyGetPanics` | android/onceper.go:73-77 | a Get that starts before any constructor was started for its key panics at once |
| `OncePer.NoInternalPanic` | android/onceper.go:28-40 | the panic for a completed waiter without a value is unreachable, and only `Get` can panic for a missing key |
| `OncePer.ClosedOnceAfterStore` | android/onceper.go:45-69 | each waiter is closed at most once, and only after the value of its key is stored |
| `OncePer.BlockedHasLiveOwner` | android/onceper.go:28-69 | a blocked call waits for a call with the same key that is constructing, storing or about to close |
| `OncePer.WaitsFor` | android/onceper.go:28-80 | for every call in progress there is a call with the same key that can take a step or whose constructor is waiting for a call of its own |
| `OncePer.SomeoneCanStep` | android/onceper.go:28-80 | if constructors only ask for keys of smaller rank, then as long as a call is in progress some call can take a step |
| `OncePer.StuckMeansFinished` | android/onceper.go:28-80 | with such constructors, a state without steps is one where all top-level calls have ended and every finished `Once` had its constructor run |
| `OncePer.RunsAreShort` | android/onceper.go:28-80 | a run has at most five steps for each call, so every schedule ends |
| `OnceProgress.RunKeyInv` | android/onceper.go:45-69 | in every state of every run, each key in the map was inserted by exactly one call |
| `OnceProgress.EveryWaiterClosed` | android/onceper.go:59-64 | once nothing can step, the waiter of each key has been closed by exactly that call, exactly once |
| `OnceProgress.CycleDeadlocks` | android/onceper.go:45-69 | constructors that ask for each other's keys around a cycle of any length: a run that gets stuck with every call in progress |
| `OnceProgress.RankOrCycle` | android/onceper.go:45-69 | any finite set of keys, with the keys their constructors ask for, has a rank or a cycle |
| `OnceProgress.ProgressIff` | android/onceper.go:28-80 | calls can never get stuck, whatever calls are made and however they interleave, iff the keys that constructors ask for have no cycle |
| `Unique.LastUniqueElements` | android/util.go:173-189 | the result has the elements of the list, without duplicates |
| `Unique.FirstUniqueElements` | android/util.go:156-171 | the result has the elements of the list, without duplicates |
| `Unique.LastUniqueIsLastOccurrences` | android/util.go:173-189 | the elements stand in the order of their last occurrences in the list |
| `Unique.LastUniqueIsReversedFirstUnique` | android/util.go:156-189 | keeping last occurrences is keeping first occurrences of the reversed list, reversed |
| `Unique.LastUniqueSplit` | android/util.go:173-189 | the step of the backwards loop: dropping earlier copies of the last element, then doing the rest |
| `Unique.FirstUniqueInPlace` | android/util.go:156-171 | the in-place loop leaves the first occurrences at the front of the array |
| `Unique.DropStep` | android/util.go:179-186 | one round of the inner loop: the unread part stays as it was and the kept part grows, or a copy is skipped |
| `Unique.DropCopies` | android/util.go:179-186 | the inner loop shifts the unread part over the copies of one element and loses nothing else |
| `Unique.LastUniqueInPlace` | android/paths.go:440-456 | the backwards-shifting loop leaves exactly the last occurrences at the end of the array, and overwrites no unread element |
| `LinkOrder.FilterPathList` | android/paths.go:484-494 | splits a list into the listed and the other paths, both in order |
| `LinkOrder.SelectFiltered` | android/paths.go:484-494 | each of the two lists has exactly the paths that are listed, or are not, in the order of the original list |
| `LinkOrder.LastUniquePaths` | android/paths.go:440-456 | the last occurrences of a list of paths |
| `LinkOrder.OrderDeps` | cc/cc.go:883-912 | both results: last occurrences of every dependency followed by its own dependencies, and the declared static ones among them |
| `LinkOrder.DeclaredDepsCorrect` | cc/cc.go:895-912 | the declared list is exactly the set of direct static dependencies, once each, in the order of the full list |
| `LinkOrder.LastUniqueKeepsClosed` | cc/cc.go:888-907 | if every file is followed by all that its modules link, this is still so after keeping last occurrences |
| `LinkOrder.FileOrderIsListed` | cc/cc.go:883-935 | for every acyclic graph, module and choice of output files: no duplicates, and the list holds exactly the files of direct dependencies and what comes, in turn, from dependencies whose map entry is kept |
| `LinkOrder.ListedIsDependency` | cc/cc.go:883-935 | nothing is listed that is not the file of a transitive dependency, whatever the output files |
| `LinkOrder.ExactIff` | cc/cc.go:883-935 | one list holds exactly the files of the transitive dependencies iff each of them is the file of a direct dependency or reached over kept entries |
| `LinkOrder.AllExactIff` | cc/cc.go:883-935 | all lists of a graph hold exactly the files of the transitive dependencies iff for every module each such file is that of a direct dependency or of a transitive dependency of one whose entry is kept |
| `LinkOrder.FileOrderClosed` | cc/cc.go:883-935 | invariant by induction over the graph, below a module whose dependencies with the same file link the same files: every file is followed by all that its modules link |
| `LinkOrder.FileOrderCorrect` | cc/cc.go:883-935 | if modules that m depends on and that share an output file link the same files: the list of m is exactly the files of the transitive dependencies, and the file of A is before that of B whenever A depends on B at any distance |
| `LinkOrder.DistinctIsConsistent` | cc/cc.go:914-935 | distinct output files are enough for that |
| `LinkOrder.SameFileLosesDeps` | cc/cc.go:914-935 | a file of a transitive dependency is missing if no direct dependency has it and only dependencies bring it whose map entry is overwritten |
| `LinkOrder.ContentsFail` | cc/cc.go:914-935 | an input: two dependencies with one output file, of which only the first links x; x is missing |
| `LinkOrder.OrderFails` | cc/cc.go:914-935 | an input: the same after x itself; the contents are right and x stands before the file of a module that depends on it |
| `LinkOrder.AnaloguesAre` | cc/cc.go:922-929 | the static analogues are, in order, the static variants of exactly those shared dependencies that have one |
| `LinkOrder.OrderStaticModuleDeps` | cc/cc.go:914-935 | the map of static dependencies and static analogues of shared ones is built and ordered; the list has the file of every static dependency and of every static variant of a shared one; only the module's own list is written |
| `LinkOrder.OrderedIsFileOrder` | cc/cc.go:914-935 | if the dependencies have the lists that the graph determines then the module gets its own |
| `LinkOrder.LinkOne` | cc/cc.go:914-935 | linking one module of a schedule keeps the lists of all others |
| `LinkOrder.LinkAll` | cc/cc.go:883-935 | the edges of a module being its static dependencies and then the static variants of those shared ones that have one: under any bottom-up schedule, and whatever the output files, every scheduled module ends with the list that the graph determines and every other list is unchanged |
| `DepGraph.ReachedIsReaches` | android/module.go:1217-1237 | the modules found by following open edges are exactly those at the end of an open path |
| `DepGraph.BaseModuleContext.Record` | android/module.go:1226-1232 | the pop loop stops at the parent without emptying the stack, and the stack is then the path to the child |
| `DepGraph.BaseModuleContext.WalkFrom` | android/module.go:1221-1237 | the walk below a module leaves at most entries below that module on the stack, and visits as the reference walk does |
| `DepGraph.BaseModuleContext.WalkDeps` | android/module.go:1221-1241 | every visitor sees, at every visit, the stack that the reference walk gives it: the path from the start module to the child |
| `DepGraph.WalkSeesOnlyTruePaths` | android/module.go:1221-1241 | the stack shown at a visit is always a true dependency path: visitors that agree on those cannot be told apart |
| `Defaults.PrependAllMeaning` | android/defaults.go:102-121 | after prepending structs one by one, a list is the lists in reverse order of application followed by its own, and a scalar is the first one set |
| `Defaults.WalkIsFirstVisits` | android/defaults.go:134-156 | the walk with a seen set collects first visits of the walk without one, whatever it has seen before |
| `Defaults.DefaultsListCorrect` | android/defaults.go:134-156 | the list of defaults has every defaults module reachable through defaults dependencies exactly once, diamonds included |
| `Defaults.Merge` | android/defaults.go:105-118 | one property struct with all matching structs prepended in turn |
| `Defaults.MergeOne` | android/defaults.go:105-118 | the structs of one defaults module are prepended to every struct of the module |
| `Defaults.ApplyDefaults` | android/defaults.go:102-121 | the structs of all listed defaults are prepended, in order; no defaults module is changed |
| `Defaults.DefaultsMutator` | android/defaults.go:134-156 | the module ends with what its reachable defaults hold at that time prepended to its own properties |
| `Defaults.InheritedNotYetRun` | android/defaults.go:123-126 | in a top-down schedule none of the inherited defaults has been flattened before |
| `Defaults.RunOne` | android/defaults.go:134-156 | one mutator call of a top-down schedule keeps all finished and all unfinished modules as they should be |
| `Defaults.RunDefaults` | android/defaults.go:123-156 | under any top-down schedule every module ends with the original properties of its reachable defaults prepended to its own |
| `Defaults.ExpectedMeaning` | android/defaults.go:102-156 | a list property ends as the reversed first-visit order of the reachable defaults' original lists, then its own list |
| `DefaultsOrder.MergedLists` | android/defaults.go:102-121 | flattening a module adds the inherited lists once for each struct of the kind, and otherwise nothing |
| `DefaultsOrder.EarlyIsRightIff` | android/defaults.go:123-156 | if a defaults module were flattened before a module that inherits from it, the result would be right iff it inherits nothing of that kind or has no struct of it |
| `Lto.WalkMarks` | cc/lto.go:138-161 | one walk marks exactly the reachable static dependencies that may be marked |
| `Lto.LtoModules.LtoDepsMutator` | cc/lto.go:133-164 | a module with LTO walks, any other changes no mark; an error iff it asks for both kinds |
| `Lto.MarkedCorrect` | cc/lto.go:133-164 | one more module keeps the marks exact |
| `Lto.LtoModules.RunLtoDeps` | cc/lto.go:133-164 | after any schedule a module has a full (thin) mark iff some full (thin) LTO module reaches it by static edges and it is neither disabled nor of that kind already |
| `Lto.MarksOrderIndependent` | cc/lto.go:133-164 | schedules of the same modules give the same marks |
| `Lto.LtoMutator` | cc/lto.go:166-215 | the variants of a module, and the variation names that it asks for its dependencies: `lto-full` iff it is full, `lto-thin` iff it is thin |
| `Lto.CreateVariations` | cc/lto.go:188-213 | each variation by its name: the original one as it was, the others of their kind, hidden and without marks |
| `Lto.StaticDepsHaveBitcode` | cc/lto.go:133-215 | whatever an LTO module reaches statically, unless opted out, is bitcode of its kind: the variant of the name that the module asks for, or the original one if the dependency is of that kind itself |
| `Lto.BitcodeVariantsAreWanted` | cc/lto.go:166-215 | every extra variant is hidden, has the name of its kind, and is reached by a scheduled module of that kind; the original one is unchanged and not hidden |
| `Apex.WalkRecords` | apex/apex.go:162-184 | one walk records exactly the modules reached through variant-capable modules, those seen at all, and those seen directly |
| `Apex.SeenIsVisits` | apex/apex.go:162-184 | the modules seen are exactly the children of modules entered |
| `Apex.ApexData.ApexDepsMutator` | apex/apex.go:160-184 | a bundle records its walk, any other module changes nothing |
| `Apex.ApexData.RunApexDeps` | apex/apex.go:160-184 | after any schedule a module is built for an APEX iff a path from such a bundle passes only through variant-capable modules, and its listed and direct flags are exact |
| `Apex.ApexData.BuildForApex` | android/apex.go:99-105 | the module's list has the APEX name, keeps what it had and stays free of duplicates |
| `Apex.ApexData.UpdateApexDependency` | android/apex.go:162-175 | the module is listed for the APEX; direct entries stay direct, and one becomes direct only by a direct dependency |
| `Apex.ApexData.CreateApexVariations` | android/apex.go:128-144 | the variants of a module; its list is sorted in place |
| `Apex.ApexVariationsCorrect` | android/apex.go:128-144 | variants are made iff the module is built for some APEX: the platform variant, then one for each such APEX in sorted order |
| `Apex.OrderIndependent` | android/apex.go:162-186 | schedules of the same modules give the same variants and the same listed and direct flags |
| `Text.TokensConcat` | cc/gen_stub_libs.py:45-48 | white space anywhere separates tags, and loses none |
| `Text.TokensOfJoined` | cc/gen_stub_libs.py:45-48 | words with a space between them are read as these words |
| `Text.LinesJoin` | cc/gen_stub_libs.py:357-370 | reading line by line loses nothing of the text |
| `StubFilter.SymbolInArch` | cc/gen_stub_libs.py:151-163 | in the architecture iff tagged with it or with none |
| `StubFilter.SymbolInApi` | cc/gen_stub_libs.py:166-185 | the loop over tags: the last matching introduced tag decides, the one for the architecture over the general one, and future over both |
| `StubFilter.SymbolVersionedInApi` | cc/gen_stub_libs.py:188-205 | the first versioned tag decides |
| `StubFilter.ShouldOmitSymbol` | cc/gen_stub_libs.py:136-148 | omitted iff not in the variant, the architecture or the API |
| `StubFilter.ShouldOmitVersion` | cc/gen_stub_libs.py:111-133 | omitted iff private, platform-only, or not in the variant, the architecture or the API |
| `StubFilter.ArchTags` | cc/gen_stub_libs.py:151-163 | a symbol with architecture tags is for exactly those, and one without for all |
| `StubFilter.VariantTags` | cc/gen_stub_libs.py:124-142 | which variant a vndk tag, an apex tag, both or none ask for |
| `StubFilter.InApiIff` | cc/gen_stub_libs.py:166-185 | by positions of tags: the last level for the architecture decides, or else the last common one; without either the symbol is always in; `future` is level 10000 only |
| `StubFilter.VersionedInApiIff` | cc/gen_stub_libs.py:188-205 | the first `versioned=` tag decides; without one the symbol is always versioned |
| `StubFilter.PrivateIff` | cc/gen_stub_libs.py:106-108 | private names are exactly those with one of the two endings |
| `StubFilter.PrunedElements` | cc/gen_stub_libs.py:136-148 | a symbol is kept iff its tags pass the variant, the architecture and the API filter |
| `StubFilter.KeptElements` | cc/gen_stub_libs.py:111-148 | the library has a symbol iff some section that is neither private nor platform-only and passes the filters keeps it |
| `StubFilter.MonotoneIff` | cc/gen_stub_libs.py:166-205 | for all levels a at or below b: what is in at a stays in at b iff it is not the case that it has a future tag, a is the level for future APIs and b lies above it; what is versioned stays versioned |
| `StubFilter.FutureIsDropped` | cc/gen_stub_libs.py:166-185 | an input on which monotonicity fails: the future tag, at every level above the one for future APIs |
| `StubFilter.PrunedMonotoneIff` | cc/gen_stub_libs.py:136-185 | the symbols kept at a level are a subsequence of those kept at a higher one iff none of them is dropped |
| `StubFilter.KeptOfMonotoneIff` | cc/gen_stub_libs.py:111-185 | the same for what one version contributes |
| `StubFilter.NothingDroppedBelow` | cc/gen_stub_libs.py:166-185 | up to the level for future APIs nothing is ever dropped |
| `StubFilter.KeptMonotone` | cc/gen_stub_libs.py:111-205 | for whole symbol files: where nothing is dropped, the stub library of a level is contained in that of a higher one, in order |
| `SymbolFile.DecodeTagsDecodes` | cc/gen_stub_libs.py:62-78 | after decoding every API level tag has an integer value |
| `SymbolFile.DecodeTagsEach` | cc/gen_stub_libs.py:62-78 | tags are decoded one by one, in place |
| `SymbolFile.LevelDecodes` | cc/gen_stub_libs.py:429-446 | a number stays, `current` is 10000, a codename is looked up, anything else is an error; the name of the tag stays |
| `SymbolFile.OtherTagsStay` | cc/gen_stub_libs.py:62-92 | other tags are unchanged, and a level tag without a value is an error |
| `SymbolFile.IgnoredIff` | cc/gen_stub_libs.py:357-370 | a line is passed over iff it is blank or its first visible character is `#` |
| `SymbolFile.ParseVersionsDecodes` | cc/gen_stub_libs.py:301-355 | so it is for everything the parser returns |
| `SymbolFile.ParsedNamesOk` | cc/gen_stub_libs.py:301-355 | names and bases that come out of the parser are trimmed, on one line and free of the parser's own delimiters |
| `SymbolBlocks.BlockParses` | cc/gen_stub_libs.py:301-341 | a block that ends at a line, with nothing wrong before it, is read as exactly the symbols on its exported lines, in order, its base, and the lines behind it; a line is exported if the last label before it is absent or `global` and it is not inside `extern "C++"` |
| `SymbolBlocks.BlockFails` | cc/gen_stub_libs.py:301-341 | the first thing that is wrong decides the error; a line that is neither exported, a label nor a closing brace is never wrong |
| `SymbolBlocks.BlockAcceptedIff` | cc/gen_stub_libs.py:301-341 | a block is accepted iff it has an end and nothing is wrong up to there |
| `SymbolBlocks.FileMeaning` | cc/gen_stub_libs.py:262-341 | before the check for duplicates, a file parses to versions iff it consists of blocks that read as them, in order, with only blank lines and comments outside |
| `SymbolBlocks.AcceptedIff` | cc/gen_stub_libs.py:262-299 | such a file is accepted iff no two symbols kept for the target have the same name; otherwise the error lists exactly the names that occur more than once |
| `StubGen.ScriptNamesDefined` | cc/gen_stub_libs.py:388-426 | the names in the version script are a subsequence of the symbols defined in the stub source |
| `StubGen.VersionedElements` | cc/gen_stub_libs.py:410-414 | the script names exactly the symbols that are versioned at the level |
| `StubGen.StubLineForms` | cc/gen_stub_libs.py:415-421 | the text of the definition of a function, a variable, and weak ones |
| `StubGen.TaggedLineReads` | cc/gen_stub_libs.py:343-355 | a symbol line with any tags is read as its name and these tags, decoded |
| `StubGen.AcceptedDefinesOnce` | cc/gen_stub_libs.py:275-299 | for an accepted file each symbol is defined at most once, in the source and in the script |
| `StubGen.ScriptMonotone` | cc/gen_stub_libs.py:388-426 | where nothing is dropped, the names in the script at a level are a subsequence of those at a higher one |
| `StubGen.AcceptedBelow` | cc/gen_stub_libs.py:262-299 | a file accepted at a level is accepted, with the same result, at every lower level from which nothing is dropped |
| `StubGen.BlockReads` | cc/gen_stub_libs.py:301-426 | the parser reads a written block, consumes just that block, and goes on behind it |
| `StubGen.ScriptReads` | cc/gen_stub_libs.py:262-426 | the parser reads a written script block by block |
| `StubGen.ScriptParses` | cc/gen_stub_libs.py:262-426 | a script parses to its blocks without tags iff its names and bases are well formed |
| `StubGen.RegenerateSame` | cc/gen_stub_libs.py:383-426 | generating from what a script parses to gives the same blocks again, for every target |
| `StubGen.RoundTrip` | cc/gen_stub_libs.py:262-426 | for every accepted file: the script parses to exactly its blocks iff they are well formed, blocks are nonempty, and generating again gives the same script |
| `StubGen.HashIsLost` | cc/gen_stub_libs.py:262-426 | an accepted file for every target, the script of one block with the name `a#b`, gives that block again and is not read back as it: `b;` has become a tag |
| `StubLibs.SymbolFileParser.NextLine` | cc/gen_stub_libs.py:357-370 | skips blank lines and comment lines, and nothing else |
| `StubLibs.SymbolFileParser.ParseSymbolLine` | cc/gen_stub_libs.py:343-355 | one symbol with its decoded tags, or the parse error |
| `StubLibs.SymbolFileParser.ParseVersion` | cc/gen_stub_libs.py:301-341 | the loop over a version block agrees with the recursive parser and stops behind the block |
| `StubLibs.SymbolFileParser.CheckNoDuplicateSymbols` | cc/gen_stub_libs.py:275-299 | finds exactly the names that the kept symbols repeat |
| `StubLibs.SymbolFileParser.ParseOne` | cc/gen_stub_libs.py:264-271 | one round of the top loop keeps the parse on track or fails as the whole parse must |
| `StubLibs.SymbolFileParser.ParseAll` | cc/gen_stub_libs.py:262-271 | the loop over versions agrees with the recursive parser |
| `StubLibs.SymbolFileParser.Run` | cc/gen_stub_libs.py:262-273 | parse: all versions, or the first error, or the duplicate symbols |
| `StubLibs.Generator.Prune` | cc/gen_stub_libs.py:391-405 | the symbols that are not omitted, and whether any of them is versioned |
| `StubLibs.Generator.WriteSymbols` | cc/gen_stub_libs.py:410-421 | appends the definitions to the source and the versioned names to the script |
| `StubLibs.Generator.WriteVersion` | cc/gen_stub_libs.py:388-426 | appends the block and the definitions of one version, or nothing if it is omitted |
| `StubLibs.Generator.Write` | cc/gen_stub_libs.py:383-386 | the source defines exactly the kept symbols in file order, the script has exactly the blocks |
| `StubLibs.GenerateStubs` | cc/gen_stub_libs.py:479-504 | both outputs of a whole run as functions of the text, or the error of the parser |
| `Namespaces.ClosestAfterDeclare` | android/namespace.go:124-163 | what a new declaration does to the closest namespace of any directory |
| `Namespaces.ClosestIsLongest` | android/namespace.go:150-163 | the reference: a declared directory at or above the given one, and the longest such |
| `Namespaces.ChainCached` | android/namespace.go:150-163 | with a directory, all directories up to its namespace are in the cache |
| `Namespaces.DeclareOk` | android/namespace.go:124-139 | a declaration that is accepted changes the answer for no cached directory |
| `Namespaces.CachedEntries` | android/namespace.go:150-163 | a lookup adds only directories between the asked one and its namespace, each with the closest namespace |
| `Namespaces.LookupOk` | android/namespace.go:150-163 | a lookup gives the closest declared ancestor and keeps the invariant |
| `Namespaces.RejectedIffItWouldMatter` | android/namespace.go:124-139 | a declaration is rejected iff it is a repetition or would change the answer to an earlier lookup |
| `Namespaces.DeclareOutcome` | android/namespace.go:124-139 | an accepted declaration makes the directory its own namespace and changes no other declaration; a rejected one changes nothing; a new one panics iff it comes after sorting |
| `Namespaces.SortedIff` | android/namespace.go:49-60 | in every run the namespaces are sorted iff they were asked for in order |
| `Namespaces.SortedIsFinal` | android/namespace.go:40-60 | no sequence of operations declares anything after sorting |
| `Namespaces.StepOk` | android/namespace.go:124-163 | every operation keeps the invariant and every cached answer |
| `Namespaces.RunOk` | android/namespace.go:90-163 | the cache agrees with the closest declared ancestor after every sequence of declarations, lookups and sorts |
| `Namespaces.AnswersAreStable` | android/namespace.go:124-163 | the namespace of a directory never changes once it has been looked up |
| `Namespaces.QualifiedNamesSeeTheCache` | android/namespace.go:141-148 | a directory is found by name iff it is declared or lies between an earlier lookup and its namespace, and then with its closest namespace |
| `Namespaces.UndeclaredDirectoryResolves` | android/namespace.go:233-274 | an undeclared directory that is found by name after a lookup and not before |
| `Namespaces.NameResolver.constructor` | android/namespace.go:90-100 | only the root namespace is declared, and the invariant holds |
| `Namespaces.NameResolver.NamespaceAt` | android/namespace.go:141-148 | the closest namespace for a cached directory, nothing for others |
| `Namespaces.NameResolver.AddNamespace` | android/namespace.go:124-139 | accepts or rejects, with all three errors, and keeps the invariant |
| `Namespaces.NameResolver.Find` | android/namespace.go:150-163 | the recursion fills the cache along the chain of parents |
| `Namespaces.NameResolver.FindNamespace` | android/namespace.go:150-163 | returns the closest declared ancestor-or-self |
| `GoPath.RenderReads` | android/paths.go:1161-1172 | a clean path written out is read back as the same components |
| `GoPath.CleanIdempotent` | android/paths.go:1161-1172 | cleaning a clean path changes nothing |
| `GoPath.JoinSegs` | android/paths.go:1161-1172 | the components of a join are those of all elements reduced together |
| `GoPath.ReduceOnTop` | android/paths.go:1159-1172 | components that stay inside go on top of whatever directory they start from |
| `GoPath.StaysInsideIffNeverAbove` | android/paths.go:1159-1172 | the lexical test is exact: it fails iff some step of the path leads above its start |
| `GoPath.RejectedIff` | android/paths.go:1161-1172 | a component is rejected iff it is absolute or leaves the directory it starts from |
| `GoPath.ValidateSafePath` | android/paths.go:1159-1172 | the joined path, or an error iff some component is rejected |
| `GoPath.SafeJoin` | android/paths.go:1159-1172 | a join of accepted components is relative, safe again, and consists of the clean components of each element in turn |
| `GoPath.ValidatePath` | android/paths.go:1174-1184 | also an error if a component contains a dollar sign |
| `GoPath.ValidatedPlainIff` | android/paths.go:1174-1184 | succeeds iff no component is rejected or has a dollar sign, with the join as the result |
| `GoPath.JoinUnder` | android/paths.go:832-848 | a safe path joined to any path lands below it, component by component |
| `GoPath.OutputJoinStaysBelow` | android/paths.go:813-848 | an output path extended by any components stays safe and below itself; rejected components change nothing |
| `GoPath.OutputBelowBuildDir` | android/paths.go:832-834 | the file of a safe output path lies below the build directory and no component leads up |
| `GoPath.MaybeRelCorrect` | android/paths.go:1296-1308 | accepts iff the target is at or below the base, and joining the base with the result gives the clean target back |
| `GoPath.RelErrorIff` | android/paths.go:1296-1308 | an error iff both are absolute or both relative and the base has `..` where it leaves the target |
| `Lex.SortSorted` | android/paths.go:534-540 | the result is in nondecreasing order of Go's string comparison |
| `Lex.SortElements` | android/paths.go:534-540 | sorting keeps all elements with their multiplicities |
| `Lex.LessIff` | android/paths.go:534-540 | the order is decided by the first character that differs, and a proper prefix comes first |
| `Lex.StrictlySortedUnique` | android/rule_builder.go:174-176 | a strictly sorted list is determined by its elements, so map order does not matter |
| `Lex.SortedKeys` | android/rule_builder.go:169-178 | the keys of a map gone through in any order, strictly sorted |
| `DirSorted.Search` | android/paths.go:546-554 | the least index at which a monotone predicate holds |
| `DirSorted.PrefixConvex` | android/paths.go:552-554 | in Go's order, what lies between a prefix and a string with that prefix has the prefix |
| `DirSorted.SearchStart` | android/paths.go:546-548 | the first entry behind the prefix |
| `DirSorted.SearchEnd` | android/paths.go:552-554 | the first entry behind that without the prefix |
| `DirSorted.PathsInDirectory` | android/paths.go:542-559 | on every sorted list: one contiguous slice, equal to filtering the whole list for strict extensions of the directory prefix |
| `DirSorted.PrefixIsInside` | android/paths.go:542-545 | for a directory with a name of its own, a clean path strictly extends the prefix iff it lies in the directory or a subdirectory |
| `DirSorted.RootDiffers` | android/paths.go:542-545 | for `.` and `/`: a clean path inside that is not found |
| `DirSorted.DotDotDiffers` | android/paths.go:542-545 | for a chain of `..`: a clean path outside that is found |
| `DirSorted.PrefixIsInsideIff` | android/paths.go:542-545 | the result is right for all clean paths iff the directory is none of these |
| `SplitList.SplitListForSize` | cc/builder.go:823-851 | succeeds iff no element exceeds the limit; chunks concatenate to the list, fit, are not empty and have no room for the next element; the final panic is unreachable |
| `SplitList.TotalLen` | cc/builder.go:843-846 | the number of elements in all chunks |
| `SplitList.StretchFits` | cc/builder.go:833-838 | a chunk fits only if every stretch of it fits |
| `SplitList.GreedyStaysAhead` | cc/builder.go:823-851 | whatever another split has done so far, the greedy one is not behind |
| `SplitList.GreedyIsShortest` | cc/builder.go:823-851 | no other split of the list into chunks that fit has fewer chunks |
| `EnvDeps.Config.Getenv` | android/config.go:453-469 | a recorded value, or the value of the environment which is then recorded, or a panic if frozen |
| `EnvDeps.Config.EnvDeps` | android/config.go:489-494 | returns the record and freezes it |
| `EnvDeps.RecordGrows` | android/config.go:453-494 | in every run nothing recorded is dropped or changed, and nothing is added after the freeze |
| `EnvDeps.RecordIsWhatWasRead` | android/config.go:453-494 | the record has exactly the variables read, with their values |
| `EnvDeps.FrozenIff` | android/config.go:489-494 | in every run the record is frozen iff it was asked for |
| `EnvDeps.ReadOutcome` | android/config.go:453-469 | a read gives the value of the variable, and panics iff the record is frozen without it |
| `EnvDeps.WriteEnvFile` | env/env.go:30-51 | the entries of the record, strictly sorted by name |
| `EnvDeps.FileUnique` | env/env.go:30-51 | the file does not depend on the order in which the map is gone through |
| `EnvDeps.StaleEnvFile` | env/env.go:53-85 | stale iff the file cannot be read or some entry differs from the environment |
| `EnvDeps.FreshIffAgrees` | env/env.go:53-85 | fresh iff the environment gives every recorded variable its recorded value |
| `EnvDeps.SameRun` | android/env.go:24-29 | for every adaptive client, environments that agree on the record give the same run |
| `EnvDeps.SameOutcomesAgree` | android/env.go:24-29 | the record is minimal: if all outcomes are the same, the environments agree on it |
| `EnvDeps.FreshIffSameRun` | android/env.go:24-29 | the file written by a client is fresh in another environment iff all calls of that client have the same outcomes there |
| `Visibility.IsAncestorIsPrefix` | android/visibility.go:131-133 | the textual test is exactly prefix of path components |
| `Visibility.SplitRuleReads` | android/visibility.go:339-359 | a full rule gives its package and name in every current package |
| `Visibility.PackageFormReads` | android/visibility.go:354-356 | a rule without a name stands for the package itself |
| `Visibility.SplitRuleIff` | android/visibility.go:339-359 | an expression is accepted iff it is a package, a package and a name, or a name |
| `Visibility.OtherNames` | android/visibility.go:283-308 | other names stand for no rule, and for a nil rule in package visibility |
| `Visibility.RuleStringReads` | android/visibility.go:113-155 | a printed rule is read back as the same rule |
| `Visibility.CompositeMatches` | android/visibility.go:90-97 | panics iff a nil rule comes before any match, and otherwise says whether some rule matches |
| `Visibility.FirstRuleDecides` | android/visibility.go:90-97 | the first rule that is nil or matches decides between a panic and a match |
| `Visibility.CheckRules` | android/visibility.go:207-256 | reports exactly the offending rules in order; silent iff the list is accepted |
| `Visibility.OffendingFiltered` | android/visibility.go:207-256 | errors are about exactly the rules that are not as they should be, in order |
| `Visibility.AcceptedRules` | android/visibility.go:207-256 | in an accepted list private and public stand alone, no rule is nil, and outside vendor no rule singles out a part of vendor |
| `Visibility.PlainListAccepted` | android/visibility.go:207-256 | every nonempty list of rules for packages and subpackages outside vendor, and for the subpackages of vendor, is accepted |
| `Visibility.SingleAccepted` | android/visibility.go:225-239 | private or public alone is accepted |
| `Visibility.ParseRule` | android/visibility.go:283-318 | the rule that one expression stands for, nil included, or none |
| `Visibility.ParseRules` | android/visibility.go:279-326 | the rules of a list, or only private if private is mixed with anything else |
| `Visibility.WholeVendorMatches` | android/visibility.go:113-133 | a rule for all or nothing of vendor treats all vendor packages alike |
| `Visibility.UniformIff` | android/visibility.go:90-133 | rules are uniform over the vendor tree iff one covers all of it or none singles out a part of it |
| `Visibility.ListUniformIff` | android/visibility.go:279-326 | a list, before or after expansion, is uniform over the vendor tree iff it has a private or public rule or one for the subpackages of vendor, or no rule singles out a part of it |
| `Visibility.AcceptedIsUniform` | android/visibility.go:207-337 | an accepted list of a module outside vendor gives no nil rule and is visible to all of the vendor tree or to none of it |
| `Visibility.AcceptedHasNoNil` | android/visibility.go:207-326 | an accepted list has no nil rule in its own package, inside vendor or not |
| `Visibility.ExpandedNilIff` | android/visibility.go:279-326 | after defaults expansion a nil rule appears iff the module is in package visibility, some list has a rule of the form :name other than :private and :public, and no list has a private rule |
| `Visibility.ExpandedIsUniform` | android/visibility.go:157-205 | uniformity survives defaults expansion if the module and all defaults are outside vendor, and there is no nil rule unless the module is in package visibility |
| `Visibility.VendorDefaultsSingleOut` | android/visibility.go:241-253 | with defaults inside vendor a module can be visible to any single vendor package |
| `Visibility.ShortFormBecomesNil` | android/visibility.go:293-300 | a family of such lists: a short form accepted in one package is a nil rule in a package called visibility |
| `Visibility.Enforce` | android/visibility.go:361-388 | panics iff some direct dependency in another package has a nil rule before any match; otherwise no error iff every direct dependency is in the same package, has no rules, or has a matching rule |
| `Visibility.VisibleMeans` | android/visibility.go:361-388 | a module is visible in its own package, everywhere if it has no rules, and with one rule exactly where that rule says besides |
| `Visibility.VendorSeesAllOrNone` | README.md:205-208 | at enforcement, a module outside vendor is open to all vendor packages or to none |
| `RuleBuilder.CommandStepOk` | android/rule_builder.go:401-440 | every call on a command keeps its sbox setting and keeps sandboxed paths out of its inputs |
| `RuleBuilder.StepOk` | android/rule_builder.go:82-132 | every call that does not panic keeps the invariant |
| `RuleBuilder.RunOk` | android/rule_builder.go:82-132 | after every sequence of calls: never both sbox and restat, all commands agree with the builder, no input lies in the sandbox |
| `RuleBuilder.MergerChangesNothing` | android/rule_builder.go:285-324 | appending the depfile-merge command changes neither inputs nor outputs of the rule |
| `RuleBuilder.SandboxPath` | android/rule_builder.go:401-418 | what a sandboxed path is replaced by, joined to the output directory, is the path |
| `RuleBuilder.OutsideNames` | android/rule_builder.go:401-418 | the names of paths outside the sandbox, and of all paths without sbox, on the command line |
| `RuleBuilder.RuleBuilderCommand.AddInput` | android/rule_builder.go:401-409 | records the input unless it lies in the sandbox, and gives its name on the command line |
| `RuleBuilder.RuleBuilderCommand.PathOfOutput` | android/rule_builder.go:411-418 | the name of an output on the command line |
| `RuleBuilder.RuleBuilderCommand.AddInputs` | android/rule_builder.go:487-494 | the same for each path in turn |
| `RuleBuilder.RuleBuilderCommand.AddImplicit` | android/rule_builder.go:496-501 | records the input unless it lies in the sandbox; the command line stays |
| `RuleBuilder.RuleBuilderCommand.AddImplicitOutput` | android/rule_builder.go:545-550 | records the output; the command line stays |
| `RuleBuilder.RuleBuilderCommand.AddImplicitDepFile` | android/rule_builder.go:559-566 | records the depfile; the command line stays |
| `RuleBuilder.CommandCall` | android/rule_builder.go:420-607 | a call on one command (text, tool, input, output, depfile and the others, each of which makes its own step) is one step of its builder and leaves all other commands alone |
| `RuleBuilder.RuleBuilder.Restat` | android/rule_builder.go:79-88 | marks the rule, or panics and changes nothing |
| `RuleBuilder.RuleBuilder.Sbox` | android/rule_builder.go:90-108 | marks the rule, or panics, in three cases, and changes nothing |
| `RuleBuilder.RuleBuilder.NewCommand` | android/rule_builder.go:116-126 | appends a new command with the sbox setting of the builder |
| `RuleBuilder.RuleBuilder.Inputs` | android/rule_builder.go:150-179 | strictly sorted, exactly the inputs of all commands that are neither outputs nor depfiles |
| `RuleBuilder.RuleBuilder.Outputs` | android/rule_builder.go:191-208 | strictly sorted, exactly the outputs that are not temporary |
| `RuleBuilder.RuleBuilder.Tools` | android/rule_builder.go:239-264 | strictly sorted, exactly the tools of all commands |
| `RuleBuilder.RuleBuilder.Commands` | android/rule_builder.go:266-273 | the command lines in order |
| `RuleBuilder.RuleBuilder.DepFiles` | android/rule_builder.go:220-232 | all depfiles in the order of the commands |
| `RuleBuilder.RuleBuilder.DepFileMergerCmd` | android/rule_builder.go:285-289 | appends the command that reads all depfiles |
| `RuleBuilder.RuleBuilder.MergeDepFiles` | android/rule_builder.go:308-324 | the first depfile, the others that lie outside the sandbox, and a merge command exactly if there are more than one |
| `RuleBuilder.RuleBuilder.Build` | android/rule_builder.go:291-384 | depends on exactly the inputs and makes exactly the outputs collected before the call; tools and command lines with those of the merge command; every path outside the sandbox is reported; an error rule for missing dependencies, nothing without commands, a panic without outputs |
| `RuleHistory.Settings` | android/rule_builder.go:70-132 | after any calls: restat, sbox, temporaries and missing dependencies are exactly what was called for, and there is a command for each call of Command |
| `RuleHistory.PanicsIff` | android/rule_builder.go:79-108 | exactly which calls before it make a call panic |
| `RuleHistory.ListRecorded` | android/rule_builder.go:474-607 | outputs, depfiles and tools of each command are the paths of exactly the calls that name them, in order |
| `RuleHistory.InputsRecorded` | android/rule_builder.go:401-409 | the inputs of each command are the paths of exactly the input calls outside the sandbox, in order |
| `RuleHistory.LineRecorded` | android/rule_builder.go:420-607 | the command line of each command is the texts of its calls, in order, joined by spaces after the leading empty ones |
| `RuleHistory.OutputsListed` | android/rule_builder.go:191-208 | Outputs lists exactly what was named as an output and never as temporary |
| `RuleHistory.InputsListed` | android/rule_builder.go:150-179 | Inputs lists exactly what was named as an input outside the sandbox and neither as an output nor as a depfile |
| `RuleHistory.FirstDepFileIs` | android/rule_builder.go:308-312 | the depfile of the rule is the first one of the first command that has any |
| `RuleHistory.DepFilesCounted` | android/rule_builder.go:220-232 | there are as many depfiles as there were calls that name one |
| `RuleHistory.MergerLine` | android/rule_builder.go:285-289 | the merging command calls the tool with the names of all depfiles |
| `RuleHistory.BuildFromCalls` | android/rule_builder.go:291-384 | everything that Build hands over, in terms of the calls before it: inputs, outputs, tools, depfile, restat, command lines, paths outside the sandbox, and the three other results |

## Left out

- `OncePer.ReturnsAgree`: a constructor that returns a waiter channel as its value is not modelled.
- `Defaults.RunDefaults`: a property struct is one list and one scalar; other kinds of fields, the hooks and the error for dependencies that are not defaults are not modelled.
- `Defaults.ApplyDefaults`: the errors of PrependProperties are not modelled.
- `Defaults.DefaultsMutator`: the error for a dependency that is not a defaults module is not modelled.
- `SymbolFile.ParsedNamesOk`: white space is ASCII; Python also takes 0x1c to 0x1f and Unicode spaces in text strings.
- `StubFilter.SymbolInApi`: integers are as Python's `int` reads plain decimal text; white space and underscores inside numbers are not accepted.
- `Namespaces.RunOk`: lookups and declarations are sequential and paths are relative; concurrent use of the cache and the ids, exports and imports of namespaces are not modelled.
- `DirSorted.PrefixIsInside`: entries are clean paths, as all of Soong's path constructors make them.
- `EnvDeps.WriteEnvFile`: JSON and files are not modelled.
- `Lto.LtoModules.RunLtoDeps`: the visitor of a walk is a function on the marks, which are written back to the fields after the walk and not during it; the same holds for `Apex.ApexData.RunApexDeps`, whose locks are left out.
- `Visibility.CheckRules`: the texts of the error messages are not modelled.
- `RuleBuilder.RuleBuilder.Build`: escaping, the sbox command line and its tool, and installs are not modelled.
- `RuleBuilder.RuleBuilder.Outputs`: paths are their strings, so temporary files are told apart by name and not by path value.
- Blueprint, proptools and pathtools: their graph is an explicit acyclic graph with ordered, tagged edges; a module is its place in Blueprint's sorted list.
- Mutator registration and parallel mutators: a mutator is one call per module in a given order.
- Reflection over property structs, architecture and product variables, neverallow rules.
- Ninja, Make and CMake output, flag assembly, toolchain tables, signing and install rules.
- Bazel-style query and compdb generation, globbing, file access and command-line handling.
- Simple list helpers of android/util.go other than the removal of duplicates.
