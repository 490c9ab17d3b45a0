/** Which symbols of a symbol file belong into a stub library: the tag predicates of
    cc/gen_stub_libs.py. */
module StubFilter {
  import opened Options
  import opened Text

  const FUTURE_API_LEVEL := 10000

  const ALL_ARCHITECTURES := ["arm", "arm64", "mips", "mips64", "x86", "x86_64"]

  datatype Symbol = Symbol(name: string, tags: seq<string>)

  datatype Version = Version(name: string, base: Option<string>, tags: seq<string>, symbols: seq<Symbol>)

  /** What a stub library is generated for. */
  datatype Target = Target(arch: string, api: int, vndk: bool, apex: bool)

  /** is_api_level_tag */
  predicate IsApiLevelTag(tag: string) {
    "introduced=" <= tag || "introduced-" <= tag || "versioned=" <= tag
  }

  /** get_tag_value, for a tag with a value. */
  function TagValue(tag: string): string {
    After(tag, '=')
  }

  /** int() takes the value of every API level tag: decode_api_level_tags has been applied. */
  ghost predicate Decoded(tags: seq<string>) {
    forall i :: 0 <= i < |tags| && IsApiLevelTag(tags[i]) ==> '=' in tags[i] && IsInt(TagValue(tags[i]))
  }

  /** The last tag that starts with the given prefix. */
  function LastWith(tags: seq<string>, prefix: string): Option<string> {
    if tags == [] then None else
    if prefix <= tags[|tags| - 1] then Some(tags[|tags| - 1]) else LastWith(tags[..|tags| - 1], prefix)
  }

  /** The tag that says when a symbol was introduced: one for this architecture overrides the
      common one. */
  function Introduced(tags: seq<string>, arch: string): Option<string> {
    var specific := LastWith(tags, "introduced-" + arch + "=");
    if specific.Some? then specific else LastWith(tags, "introduced=")
  }

  lemma {:induction false} LastWithFacts(tags: seq<string>, prefix: string)
    ensures var r := LastWith(tags, prefix); r.Some? ==> r.value in tags && prefix <= r.value
  {
    if tags != [] && !(prefix <= tags[|tags| - 1]) {
      LastWithFacts(tags[..|tags| - 1], prefix);
    }
  }

  lemma IntroducedIsLevel(tags: seq<string>, arch: string)
    requires Decoded(tags)
    ensures Introduced(tags, arch).Some? ==> IsInt(TagValue(Introduced(tags, arch).value))
  {
    LastWithFacts(tags, "introduced-" + arch + "=");
    LastWithFacts(tags, "introduced=");
    var t := Introduced(tags, arch);
    if t.Some? {
      assert "introduced-" <= "introduced-" + arch + "=";
      assert IsApiLevelTag(t.value);
    }
  }

  /** What symbol_in_arch decides. */
  ghost predicate InArch(tags: seq<string>, arch: string) {
    arch in tags || forall tag :: tag in tags ==> tag !in ["arm", "arm64", "mips", "mips64", "x86", "x86_64"]
  }

  /** What symbol_in_api decides. */
  ghost predicate InApi(tags: seq<string>, arch: string, api: int)
    requires Decoded(tags)
  {
    if "future" in tags then api == FUTURE_API_LEVEL else
      IntroducedIsLevel(tags, arch);
      var t := Introduced(tags, arch);
      t.Some? ==> api >= Int(TagValue(t.value))
  }

  /** The first `versioned=` tag. */
  function FirstVersioned(tags: seq<string>): (r: Option<string>)
    ensures r.Some? ==> r.value in tags && "versioned=" <= r.value
  {
    if tags == [] then None else if "versioned=" <= tags[0] then Some(tags[0]) else FirstVersioned(tags[1..])
  }

  /** What symbol_versioned_in_api decides. */
  ghost predicate VersionedInApi(tags: seq<string>, api: int)
    requires Decoded(tags)
  {
    var t := FirstVersioned(tags);
    t.Some? ==> (assert IsApiLevelTag(t.value); api >= Int(TagValue(t.value)))
  }

  /** symbol_in_arch */
  method SymbolInArch(tags: seq<string>, arch: string) returns (r: bool)
    ensures r == InArch(tags, arch)
  {
    var hasArchTags := false;
    for i := 0 to |tags|
      invariant arch !in tags[..i]
      invariant hasArchTags <==> exists j :: 0 <= j < i && tags[j] in ALL_ARCHITECTURES
    {
      if tags[i] == arch {
        return true;
      }
      if tags[i] in ALL_ARCHITECTURES {
        hasArchTags := true;
      }
    }
    assert tags[..|tags|] == tags;
    return !hasArchTags;
  }

  /** symbol_in_api */
  method SymbolInApi(tags: seq<string>, arch: string, api: int) returns (r: bool)
    requires Decoded(tags)
    ensures r == InApi(tags, arch, api)
  {
    var introducedTag: Option<string> := None;
    var archSpecific := false;
    for i := 0 to |tags|
      invariant "future" !in tags[..i]
      invariant archSpecific == LastWith(tags[..i], "introduced-" + arch + "=").Some?
      invariant introducedTag == Introduced(tags[..i], arch)
    {
      var tag := tags[i];
      assert tags[..i + 1][..i] == tags[..i] && tags[..i + 1][i] == tag;
      assert "introduced="[10] == '=' && ("introduced-" + arch + "=")[10] == '-';
      if "introduced=" <= tag && !archSpecific {
        assert !("introduced-" + arch + "=" <= tag);
        introducedTag := Some(tag);
      } else if "introduced-" + arch + "=" <= tag {
        introducedTag := Some(tag);
        archSpecific := true;
      } else if tag == "future" {
        return api == FUTURE_API_LEVEL;
      }
    }
    assert tags[..|tags|] == tags;
    if introducedTag.None? {
      return true;
    }
    IntroducedIsLevel(tags, arch);
    return api >= Int(TagValue(introducedTag.value));
  }

  /** symbol_versioned_in_api */
  method SymbolVersionedInApi(tags: seq<string>, api: int) returns (r: bool)
    requires Decoded(tags)
    ensures r == VersionedInApi(tags, api)
  {
    for i := 0 to |tags|
      invariant FirstVersioned(tags) == FirstVersioned(tags[i..])
    {
      if "versioned=" <= tags[i] {
        assert IsApiLevelTag(tags[i]);
        return api >= Int(TagValue(tags[i]));
      }
    }
    assert tags[|tags|..] == [];
    return true;
  }

  /** version_is_private */
  predicate VersionIsPrivate(name: string) {
    EndsWith(name, "_PRIVATE") || EndsWith(name, "_PLATFORM")
  }

  /** The part of should_omit_version and should_omit_symbol that looks at variants. */
  predicate InVariant(tags: seq<string>, t: Target) {
    || ("vndk" !in tags && "apex" !in tags)
    || ("vndk" in tags && t.vndk)
    || ("apex" in tags && t.apex)
  }

  /** A symbol is for the architectures that it is tagged with, and for all if it has no such tag. */
  lemma ArchTags(tags: seq<string>, arch: string, other: string)
    requires other in tags && other in ["arm", "arm64", "mips", "mips64", "x86", "x86_64"]
    ensures InArch(tags, other)
    ensures InArch(tags, arch) <==> arch in tags
    ensures InArch([], arch)
  {}

  /** A vndk tag needs the VNDK variant, an apex tag the APEX variant; with both, one of them is
      enough, and without them every variant has it. */
  lemma VariantTags(tags: seq<string>, t: Target)
    ensures "vndk" in tags && "apex" !in tags ==> (InVariant(tags, t) <==> t.vndk)
    ensures "apex" in tags && "vndk" !in tags ==> (InVariant(tags, t) <==> t.apex)
    ensures "vndk" in tags && "apex" in tags ==> (InVariant(tags, t) <==> t.vndk || t.apex)
    ensures "vndk" !in tags && "apex" !in tags ==> InVariant(tags, t)
  {}

  /** not should_omit_symbol */
  ghost predicate KeepSymbol(s: Symbol, t: Target)
    requires Decoded(s.tags)
  {
    InVariant(s.tags, t) && InArch(s.tags, t.arch) && InApi(s.tags, t.arch, t.api)
  }

  /** not should_omit_version */
  ghost predicate KeepVersion(v: Version, t: Target)
    requires Decoded(v.tags)
  {
    && !VersionIsPrivate(v.name) && "platform-only" !in v.tags
    && InVariant(v.tags, t) && InArch(v.tags, t.arch) && InApi(v.tags, t.arch, t.api)
  }

  /** should_omit_symbol */
  method ShouldOmitSymbol(s: Symbol, t: Target) returns (r: bool)
    requires Decoded(s.tags)
    ensures r == !KeepSymbol(s, t)
  {
    if !InVariant(s.tags, t) {
      return true;
    }
    var inArch := SymbolInArch(s.tags, t.arch);
    if !inArch {
      return true;
    }
    var inApi := SymbolInApi(s.tags, t.arch, t.api);
    return !inApi;
  }

  /** should_omit_version */
  method ShouldOmitVersion(v: Version, t: Target) returns (r: bool)
    requires Decoded(v.tags)
    ensures r == !KeepVersion(v, t)
  {
    if VersionIsPrivate(v.name) || "platform-only" in v.tags || !InVariant(v.tags, t) {
      return true;
    }
    var inArch := SymbolInArch(v.tags, t.arch);
    if !inArch {
      return true;
    }
    var inApi := SymbolInApi(v.tags, t.arch, t.api);
    return !inApi;
  }

  ghost predicate DecodedSymbols(symbols: seq<Symbol>) {
    forall i :: 0 <= i < |symbols| ==> Decoded(symbols[i].tags)
  }

  ghost predicate DecodedVersion(v: Version) {
    Decoded(v.tags) && DecodedSymbols(v.symbols)
  }

  ghost predicate AllDecoded(vs: seq<Version>) {
    forall i :: 0 <= i < |vs| ==> DecodedVersion(vs[i])
  }

  /** The symbols of a list that are kept, in order. */
  ghost function Pruned(symbols: seq<Symbol>, t: Target): seq<Symbol>
    requires DecodedSymbols(symbols)
  {
    if symbols == [] then [] else
      (if KeepSymbol(symbols[0], t) then [symbols[0]] else []) + Pruned(symbols[1..], t)
  }

  /** The kept symbols of a version; none if the version is not kept. */
  ghost function KeptOf(v: Version, t: Target): seq<Symbol>
    requires DecodedVersion(v)
  {
    if KeepVersion(v, t) then Pruned(v.symbols, t) else []
  }

  /** All symbols of the stub library, in file order. */
  ghost function Kept(vs: seq<Version>, t: Target): seq<Symbol>
    requires AllDecoded(vs)
  {
    if vs == [] then [] else KeptOf(vs[0], t) + Kept(vs[1..], t)
  }

  /*** What the filters decide, tag by tag ***/

  /** Tag i is the last one with the prefix. */
  ghost predicate LastAt(tags: seq<string>, prefix: string, i: nat) {
    i < |tags| && prefix <= tags[i] && forall j :: i < j < |tags| ==> !(prefix <= tags[j])
  }

  ghost predicate NoneWith(tags: seq<string>, prefix: string) {
    forall j :: 0 <= j < |tags| ==> !(prefix <= tags[j])
  }

  lemma {:induction false} LastWithIs(tags: seq<string>, prefix: string)
    ensures forall i: nat :: LastAt(tags, prefix, i) ==> LastWith(tags, prefix) == Some(tags[i])
    ensures NoneWith(tags, prefix) ==> LastWith(tags, prefix) == None
  {
    if tags != [] {
      var n := |tags| - 1;
      LastWithIs(tags[..n], prefix);
      forall i: nat | LastAt(tags, prefix, i) ensures LastWith(tags, prefix) == Some(tags[i]) {
        if i < n {
          assert LastAt(tags[..n], prefix, i);
        }
      }
      assert NoneWith(tags, prefix) ==> NoneWith(tags[..n], prefix);
    }
  }

  /** Tag i says when the symbol was introduced: the last one for the architecture, or the last
      common one if there is none for the architecture. */
  ghost predicate Decides(tags: seq<string>, arch: string, i: nat) {
    var specific := "introduced-" + arch + "=";
    LastAt(tags, specific, i) || (NoneWith(tags, specific) && LastAt(tags, "introduced=", i))
  }

  /** A symbol is in the API from the level that decides on, and always without such a tag; what is
      tagged `future` is in the API of level 10000 only. */
  lemma InApiIff(tags: seq<string>, arch: string, api: int)
    requires Decoded(tags)
    ensures "future" in tags ==> (InApi(tags, arch, api) <==> api == 10000)
    ensures "future" !in tags ==>
              forall i: nat :: Decides(tags, arch, i) ==>
                IsInt(TagValue(tags[i])) && (InApi(tags, arch, api) <==> api >= Int(TagValue(tags[i])))
    ensures "future" !in tags && NoneWith(tags, "introduced-" + arch + "=") && NoneWith(tags, "introduced=") ==>
              InApi(tags, arch, api)
  {
    LastWithIs(tags, "introduced-" + arch + "=");
    LastWithIs(tags, "introduced=");
    IntroducedIsLevel(tags, arch);
  }

  /** Tag i is the first one with the prefix. */
  ghost predicate FirstAt(tags: seq<string>, prefix: string, i: nat) {
    i < |tags| && prefix <= tags[i] && forall j :: 0 <= j < i ==> !(prefix <= tags[j])
  }

  lemma {:induction false} FirstVersionedIs(tags: seq<string>)
    ensures forall i: nat :: FirstAt(tags, "versioned=", i) ==> FirstVersioned(tags) == Some(tags[i])
    ensures NoneWith(tags, "versioned=") ==> FirstVersioned(tags) == None
  {
    if tags != [] {
      FirstVersionedIs(tags[1..]);
      forall i: nat | FirstAt(tags, "versioned=", i) ensures FirstVersioned(tags) == Some(tags[i]) {
        if i > 0 {
          assert FirstAt(tags[1..], "versioned=", i - 1);
        }
      }
      assert NoneWith(tags, "versioned=") ==> NoneWith(tags[1..], "versioned=");
    }
  }

  /** A symbol is versioned from the level of its first `versioned=` tag on, and always without one. */
  lemma VersionedInApiIff(tags: seq<string>, api: int)
    requires Decoded(tags)
    ensures forall i: nat :: FirstAt(tags, "versioned=", i) ==>
              IsInt(TagValue(tags[i])) && (VersionedInApi(tags, api) <==> api >= Int(TagValue(tags[i])))
    ensures NoneWith(tags, "versioned=") ==> VersionedInApi(tags, api)
  {
    FirstVersionedIs(tags);
    forall i: nat | FirstAt(tags, "versioned=", i) ensures IsInt(TagValue(tags[i])) {
      assert IsApiLevelTag(tags[i]);
    }
  }

  lemma PrivateIff(name: string)
    ensures VersionIsPrivate(name) <==> exists p :: name == p + "_PRIVATE" || name == p + "_PLATFORM"
  {
    if EndsWith(name, "_PRIVATE") {
      assert name == name[..|name| - 8] + "_PRIVATE";
    }
    if EndsWith(name, "_PLATFORM") {
      assert name == name[..|name| - 9] + "_PLATFORM";
    }
    if p :| name == p + "_PRIVATE" || name == p + "_PLATFORM" {
      assert name[|p|..] == "_PRIVATE" || name[|p|..] == "_PLATFORM";
    }
  }

  /** A symbol is kept in a version exactly if its tags pass all three filters. */
  lemma {:induction false} PrunedElements(symbols: seq<Symbol>, t: Target, s: Symbol)
    requires DecodedSymbols(symbols)
    ensures s in Pruned(symbols, t) <==>
            s in symbols && InVariant(s.tags, t) && InArch(s.tags, t.arch) && Decoded(s.tags) &&
            InApi(s.tags, t.arch, t.api)
  {
    if symbols != [] {
      PrunedElements(symbols[1..], t, s);
      assert symbols == [symbols[0]] + symbols[1..];
    }
  }

  /** The version section is for the target: it is neither private nor for the platform only, and its
      own tags pass the filters. */
  ghost predicate SectionFor(v: Version, t: Target)
    requires Decoded(v.tags)
  {
    && !(exists p :: v.name == p + "_PRIVATE" || v.name == p + "_PLATFORM") && "platform-only" !in v.tags
    && InVariant(v.tags, t) && InArch(v.tags, t.arch) && InApi(v.tags, t.arch, t.api)
  }

  /** The library has exactly the symbols that pass the filters in a section that passes them. */
  lemma {:induction false} KeptElements(vs: seq<Version>, t: Target, s: Symbol)
    requires AllDecoded(vs)
    ensures s in Kept(vs, t) <==>
            exists i :: 0 <= i < |vs| && DecodedVersion(vs[i]) && SectionFor(vs[i], t) && s in Pruned(vs[i].symbols, t)
  {
    if vs != [] {
      KeptElements(vs[1..], t, s);
      PrivateIff(vs[0].name);
      assert DecodedVersion(vs[0]);
      assert s in KeptOf(vs[0], t) <==> SectionFor(vs[0], t) && s in Pruned(vs[0].symbols, t);
      assert forall i :: 0 < i < |vs| ==> vs[i] == vs[1..][i - 1];
    }
  }

  /*** Monotonicity in the API level ***/

  /** Going up from level a to level b drops what is tagged `future`: a is the future level itself
      and b lies above it. */
  predicate Drops(tags: seq<string>, a: int, b: int) {
    "future" in tags && a == FUTURE_API_LEVEL < b
  }

  /** For all levels, with arch-specific and future tags: what is in at a level stays in at a higher
      one exactly if it is not dropped, and what is versioned stays versioned. */
  lemma MonotoneIff(tags: seq<string>, arch: string, a: int, b: int)
    requires Decoded(tags) && a <= b
    ensures (InApi(tags, arch, a) ==> InApi(tags, arch, b)) <==> !Drops(tags, a, b)
    ensures VersionedInApi(tags, a) ==> VersionedInApi(tags, b)
  {}

  /** A tag that is dropped at every level above the future level. */
  lemma FutureIsDropped(arch: string, b: int)
    requires b > FUTURE_API_LEVEL
    ensures Decoded(["future"]) && InApi(["future"], arch, FUTURE_API_LEVEL) && !InApi(["future"], arch, b)
  {
    var tag := "future";
    assert tag[0] == 'f' && "introduced="[0] == 'i' && "introduced-"[0] == 'i' && "versioned="[0] == 'v';
    assert !IsApiLevelTag(tag);
  }

  /** s is t with some elements left out. */
  ghost predicate Subsequence<T>(s: seq<T>, t: seq<T>) {
    s == [] || (t != [] && ((s[0] == t[0] && Subsequence(s[1..], t[1..])) || Subsequence(s, t[1..])))
  }

  lemma {:induction false} SubsequenceConcat<T(!new)>(a: seq<T>, b: seq<T>, c: seq<T>, d: seq<T>)
    requires Subsequence(a, b) && Subsequence(c, d)
    ensures Subsequence(a + c, b + d)
    decreases |a| + |b|
  {
    if b == [] {
      assert a + c == c && b + d == d;
    } else {
      assert (b + d)[1..] == b[1..] + d;
      if a != [] && a[0] == b[0] && Subsequence(a[1..], b[1..]) {
        assert (a + c)[1..] == a[1..] + c;
        SubsequenceConcat(a[1..], b[1..], c, d);
      } else {
        SubsequenceConcat(a, b[1..], c, d);
      }
    }
  }

  lemma {:induction false} SubsequenceElements<T(!new)>(s: seq<T>, t: seq<T>, x: T)
    requires Subsequence(s, t) && x in s
    ensures x in t
  {
    if s[0] == t[0] && Subsequence(s[1..], t[1..]) {
      if x != s[0] { SubsequenceElements(s[1..], t[1..], x); }
    } else {
      SubsequenceElements(s, t[1..], x);
    }
  }

  /** None of the symbols is dropped on the way from level a to level b. */
  ghost predicate AllStay(symbols: seq<Symbol>, a: int, b: int) {
    forall i :: 0 <= i < |symbols| ==> !Drops(symbols[i].tags, a, b)
  }

  lemma {:induction false} PrunedKeeps(symbols: seq<Symbol>, t: Target, s: Symbol)
    requires DecodedSymbols(symbols) && s in Pruned(symbols, t)
    ensures Decoded(s.tags) && KeepSymbol(s, t)
  {
    if !(KeepSymbol(symbols[0], t) && s == symbols[0]) {
      PrunedKeeps(symbols[1..], t, s);
    }
  }

  lemma AllStayCons(s: Symbol, rest: seq<Symbol>, a: int, b: int)
    requires AllStay([s] + rest, a, b)
    ensures !Drops(s.tags, a, b) && AllStay(rest, a, b)
  {
    var all := [s] + rest;
    assert all[0] == s && forall i :: 0 <= i < |rest| ==> all[i + 1] == rest[i];
  }

  lemma StayCons(symbols: seq<Symbol>, t: Target, b: int, keep: bool)
    requires DecodedSymbols(symbols) && symbols != [] && keep == KeepSymbol(symbols[0], t)
    requires AllStay(Pruned(symbols, t), t.api, b)
    ensures AllStay(Pruned(symbols[1..], t), t.api, b) && (keep ==> !Drops(symbols[0].tags, t.api, b))
  {
    var rest := Pruned(symbols[1..], t);
    if keep {
      assert Pruned(symbols, t) == [symbols[0]] + rest;
      AllStayCons(symbols[0], rest, t.api, b);
    } else {
      assert Pruned(symbols, t) == [] + rest == rest;
    }
  }

  lemma {:induction false} PrunedStays(symbols: seq<Symbol>, t: Target, b: int)
    requires DecodedSymbols(symbols) && t.api <= b && AllStay(Pruned(symbols, t), t.api, b)
    ensures Subsequence(Pruned(symbols, t), Pruned(symbols, t.(api := b)))
  {
    if symbols != [] {
      var t', s := t.(api := b), symbols[0];
      StayCons(symbols, t, b, KeepSymbol(s, t));
      MonotoneIff(s.tags, t.arch, t.api, b);
      PrunedStays(symbols[1..], t, b);
      SubsequenceConcat(if KeepSymbol(s, t) then [s] else [], if KeepSymbol(s, t') then [s] else [],
                        Pruned(symbols[1..], t), Pruned(symbols[1..], t'));
    }
  }

  /** The symbols kept at a level are a subsequence of those kept at a higher one exactly if none of
      them is dropped. */
  lemma PrunedMonotoneIff(symbols: seq<Symbol>, t: Target, b: int)
    requires DecodedSymbols(symbols) && t.api <= b
    ensures Subsequence(Pruned(symbols, t), Pruned(symbols, t.(api := b))) <==> AllStay(Pruned(symbols, t), t.api, b)
  {
    var low, high := Pruned(symbols, t), Pruned(symbols, t.(api := b));
    if AllStay(low, t.api, b) {
      PrunedStays(symbols, t, b);
    }
    if Subsequence(low, high) {
      forall i | 0 <= i < |low| ensures !Drops(low[i].tags, t.api, b) {
        SubsequenceElements(low, high, low[i]);
        PrunedKeeps(symbols, t, low[i]);
        PrunedKeeps(symbols, t.(api := b), low[i]);
        MonotoneIff(low[i].tags, t.arch, t.api, b);
      }
    }
  }

  /** What a version contributes at level t.api is not dropped at level b. */
  ghost predicate Stays(v: Version, t: Target, b: int)
    requires DecodedVersion(v)
  {
    KeptOf(v, t) != [] ==> !Drops(v.tags, t.api, b) && AllStay(KeptOf(v, t), t.api, b)
  }

  ghost predicate NothingDropped(vs: seq<Version>, t: Target, b: int)
    requires AllDecoded(vs)
  {
    forall i :: 0 <= i < |vs| ==> Stays(vs[i], t, b)
  }

  /** The same for a version: it adds a subsequence of what it adds at a higher level exactly if
      nothing of it is dropped. */
  lemma KeptOfMonotoneIff(v: Version, t: Target, b: int)
    requires DecodedVersion(v) && t.api <= b
    ensures Subsequence(KeptOf(v, t), KeptOf(v, t.(api := b))) <==> Stays(v, t, b)
  {
    MonotoneIff(v.tags, t.arch, t.api, b);
    PrunedMonotoneIff(v.symbols, t, b);
  }

  /** Up to the future level nothing is ever dropped. */
  lemma NothingDroppedBelow(vs: seq<Version>, t: Target, b: int)
    requires AllDecoded(vs) && b <= FUTURE_API_LEVEL
    ensures NothingDropped(vs, t, b)
  {}

  /** Where nothing is dropped, and so always up to the future level, the stub library of a lower API
      level is contained in that of a higher one, in order. */
  lemma {:induction false} KeptMonotone(vs: seq<Version>, t: Target, b: int)
    requires AllDecoded(vs) && t.api <= b && NothingDropped(vs, t, b)
    ensures Subsequence(Kept(vs, t), Kept(vs, t.(api := b)))
  {
    if vs != [] {
      var t', v := t.(api := b), vs[0];
      assert DecodedVersion(v) && Stays(v, t, b);
      KeptOfMonotoneIff(v, t, b);
      KeptMonotone(vs[1..], t, b);
      SubsequenceConcat(KeptOf(v, t), KeptOf(v, t'), Kept(vs[1..], t), Kept(vs[1..], t'));
    }
  }
}
