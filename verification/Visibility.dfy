/** Visibility rules: android/visibility.go. */
module Visibility {
  import opened Filter
  import opened GoPath
  import opened Options
  import opened Text

  /*** Packages ***/

  predicate IsAncestor(p1: string, p2: string) {
    p1 + "/" <= p2 + "/"
  }

  predicate InVendor(pkg: string) {
    IsAncestor("vendor", pkg)
  }

  /** The textual test is exactly that the components of p1 are the first components of p2. */
  lemma IsAncestorIsPrefix(p1: string, p2: string)
    ensures IsAncestor(p1, p2) <==> Split(p1) <= Split(p2)
  {
    if IsAncestor(p1, p2) { AncestorIsPrefix(p1, p2); }
    if Split(p1) <= Split(p2) { PrefixIsAncestor(p1, p2); }
  }

  lemma AncestorIsPrefix(p1: string, p2: string)
    requires IsAncestor(p1, p2)
    ensures Split(p1) <= Split(p2)
  {
    var rest := (p2 + "/")[|p1| + 1..];
    assert p2 + "/" == p1 + "/" + rest && p2 + "/" == p2 + "/" + "";
    SplitConcat(p1, rest);
    SplitConcat(p2, "");
    assert Split(p1) + Split(rest) == Split(p2) + Split("") && |Split("")| == 1;
    assert Split(p1) == (Split(p2) + Split(""))[..|Split(p1)|] == Split(p2)[..|Split(p1)|];
  }

  lemma PrefixIsAncestor(p1: string, p2: string)
    requires Split(p1) <= Split(p2)
    ensures IsAncestor(p1, p2)
  {
    SlashedSplit(p1);
    SlashedSplit(p2);
    var t := Split(p2)[|Split(p1)|..];
    assert Split(p2) == Split(p1) + t;
    if t != [] {
      SlashedAppend(Split(p1), t);
      Assoc(p1 + "/", Slashed(t), "/");
    } else {
      assert Split(p2) == Split(p1);
    }
  }

  /** Two ancestors of one package are ancestors of each other, one way or the other. */
  lemma AncestorsMeet(p: string, q: string, m: string)
    requires IsAncestor(p, m) && IsAncestor(q, m) && |Split(p)| <= |Split(q)|
    ensures IsAncestor(p, q)
  {
    IsAncestorIsPrefix(p, m);
    IsAncestorIsPrefix(q, m);
    IsAncestorIsPrefix(p, q);
    assert Split(p) == Split(m)[..|Split(p)|] == Split(q)[..|Split(p)|];
  }

  lemma VendorSplit()
    ensures Split("vendor") == ["vendor"]
  {
    assert '/' !in "vendor";
  }

  /** Something that reaches into the vendor tree without being part of it does not exist. */
  lemma OutsideVendor(p: string, m: string)
    requires IsAncestor(p, m) && InVendor(m)
    ensures InVendor(p)
  {
    VendorSplit();
    AncestorsMeet("vendor", p, m);
  }

  /*** Rule expressions ***/

  predicate ValidName(name: string) {
    name != "" && '/' !in name && ':' !in name
  }

  predicate ValidPackage(pkg: string) {
    ':' !in pkg && "" !in Split(pkg)
  }

  /** The groups that the regular expression for rules captures. */
  function RuleGroups(v: string): Option<(string, string)> {
    var body := if "//" <= v then v[2..] else v;
    var pkg := Before(body, ':');
    var name := After(body, ':');
    if (if "//" <= v then ValidPackage(pkg) else pkg == "") && (':' in body ==> ValidName(name))
    then Some((pkg, name)) else None
  }

  /** splitRule */
  function SplitRule(v: string, currentPkg: string): Option<(string, string)> {
    var groups := RuleGroups(v);
    if v == "" || groups.None? then None else
      var (pkg, name) := groups.value;
      Some((if pkg == "" then currentPkg else pkg, if name == "" then "__pkg__" else name))
  }

  /** A rule expression in full. */
  function Expression(pkg: string, name: string): string {
    "//" + pkg + ":" + name
  }

  /** A full rule is read back as it was written, whatever the current package. */
  lemma SplitRuleReads(pkg: string, name: string, currentPkg: string)
    requires ValidPackage(pkg) && ValidName(name)
    ensures SplitRule(Expression(pkg, name), currentPkg) == Some((pkg, name))
  {
    var v := Expression(pkg, name);
    assert v[2..] == pkg + [':'] + name;
    assert "//" <= v;
    Partition(pkg, ':', name);
    assert pkg != "" by { assert Split("") == [""]; }
    assert v[2..][|pkg|] == ':';
  }

  /*** Rules ***/

  /** Nil is the nil interface that parseRules stores for an unknown rule of package visibility. */
  datatype Rule = Nil | PackageRule(pkg: string) | SubpackagesRule(pkgPrefix: string) | PublicRule | PrivateRule

  predicate Matches(r: Rule, pkg: string) {
    match r
    case PackageRule(p) => p == pkg
    case SubpackagesRule(p) => IsAncestor(p, pkg)
    case PublicRule => true
    case _ => false
  }

  ghost predicate NoNil(rules: seq<Rule>) {
    Nil !in rules
  }

  ghost predicate AnyMatches(rules: seq<Rule>, pkg: string) {
    exists i :: 0 <= i < |rules| && Matches(rules[i], pkg)
  }

  /** A nil rule comes before any rule that matches. */
  ghost predicate Panics(rules: seq<Rule>, pkg: string) {
    exists i :: 0 <= i < |rules| && rules[i].Nil? && forall j :: 0 <= j < i ==> !Matches(rules[j], pkg)
  }

  /** The first rule that is nil or matches decides: a panic or a match. */
  lemma FirstRuleDecides(rules: seq<Rule>, pkg: string, i: nat)
    requires i <= |rules| && forall j :: 0 <= j < i ==> !rules[j].Nil? && !Matches(rules[j], pkg)
    ensures i == |rules| ==> !Panics(rules, pkg) && !AnyMatches(rules, pkg)
    ensures i < |rules| && rules[i].Nil? ==> Panics(rules, pkg)
    ensures i < |rules| && Matches(rules[i], pkg) ==> !Panics(rules, pkg) && AnyMatches(rules, pkg)
  {}

  /** compositeRule.matches; calling a nil rule panics, which is None. */
  method CompositeMatches(rules: seq<Rule>, pkg: string) returns (r: Option<bool>)
    ensures r == if Panics(rules, pkg) then None else Some(AnyMatches(rules, pkg))
  {
    for i := 0 to |rules|
      invariant forall j :: 0 <= j < i ==> !rules[j].Nil? && !Matches(rules[j], pkg)
    {
      if rules[i].Nil? {
        return None;
      }
      if Matches(rules[i], pkg) {
        return Some(true);
      }
    }
    return Some(false);
  }

  predicate AllowedFromOutsideVendor(pkg: string, name: string) {
    if pkg == "vendor" then name == "__subpackages__" else !InVendor(pkg)
  }

  /** What checkRules demands of one rule of a list of count rules. */
  predicate EntryOk(currentPkg: string, v: string, count: nat) {
    var r := SplitRule(v, currentPkg);
    && r.Some?
    && (r.value.0 == "visibility" ==> (r.value.1 == "private" || r.value.1 == "public") && count == 1)
    && (!InVendor(currentPkg) ==> AllowedFromOutsideVendor(r.value.0, r.value.1))
  }

  ghost predicate AllOk(currentPkg: string, visibility: seq<string>, count: nat) {
    forall i :: 0 <= i < |visibility| ==> EntryOk(currentPkg, visibility[i], count)
  }

  ghost predicate Accepted(currentPkg: string, visibility: seq<string>) {
    visibility != [] && AllOk(currentPkg, visibility, |visibility|)
  }

  /** The rules of a list that checkRules objects to, in order. */
  function Offending(currentPkg: string, visibility: seq<string>, count: nat): seq<string> {
    if visibility == [] then [] else
      var n := |visibility| - 1;
      Offending(currentPkg, visibility[..n], count) +
      (if EntryOk(currentPkg, visibility[n], count) then [] else [visibility[n]])
  }

  /** The errors are about exactly the rules that are not as they should be, in order. */
  lemma {:induction false} OffendingFiltered(currentPkg: string, visibility: seq<string>, count: nat)
    ensures Filtered(visibility, Wrong(currentPkg, count), Itself, Offending(currentPkg, visibility, count))
  {
    if visibility == [] {
      FilteredNone(visibility, Wrong(currentPkg, count), Itself);
    } else {
      var n := |visibility| - 1;
      OffendingFiltered(currentPkg, visibility[..n], count);
      FilteredNext(visibility[..n], Wrong(currentPkg, count), Itself, Offending(currentPkg, visibility[..n], count),
                   visibility[n], visibility, Offending(currentPkg, visibility, count));
    }
  }

  function Wrong(currentPkg: string, count: nat): string -> bool {
    (v: string) => !EntryOk(currentPkg, v, count)
  }

  lemma {:induction false} OffendingNone(currentPkg: string, visibility: seq<string>, count: nat)
    ensures Offending(currentPkg, visibility, count) == [] <==> AllOk(currentPkg, visibility, count)
  {
    if visibility != [] {
      var n := |visibility| - 1;
      OffendingNone(currentPkg, visibility[..n], count);
      var ok := EntryOk(currentPkg, visibility[n], count);
      AllOkSnoc(currentPkg, visibility, count, ok);
    }
  }

  lemma AllOkSnoc(currentPkg: string, visibility: seq<string>, count: nat, ok: bool)
    requires visibility != [] && ok == EntryOk(currentPkg, visibility[|visibility| - 1], count)
    ensures AllOk(currentPkg, visibility, count) <==> AllOk(currentPkg, visibility[..|visibility| - 1], count) && ok
  {
    var init := visibility[..|visibility| - 1];
    assert forall i :: 0 <= i < |init| ==> init[i] == visibility[i];
  }

  /** checkRules: whether it objects to the list as a whole, and the rules it reports an error for. */
  method CheckRules(currentPkg: string, visibility: seq<string>) returns (empty: bool, errors: seq<string>)
    ensures empty <==> visibility == []
    ensures errors == Offending(currentPkg, visibility, |visibility|)
    ensures !empty && errors == [] <==> Accepted(currentPkg, visibility)
  {
    empty, errors := false, [];
    var ruleCount := |visibility|;
    if ruleCount == 0 {
      return true, [];
    }
    for i := 0 to |visibility|
      invariant errors == Offending(currentPkg, visibility[..i], ruleCount)
    {
      assert visibility[..i + 1][..i] == visibility[..i];
      var v := visibility[i];
      var r := SplitRule(v, currentPkg);
      if r.None? {
        errors := errors + [v];
        continue;
      }
      var (pkg, name) := r.value;
      if pkg == "visibility" {
        if name != "private" && name != "public" {
          errors := errors + [v];
          continue;
        }
        if ruleCount != 1 {
          errors := errors + [v];
          continue;
        }
      }
      if !InVendor(currentPkg) {
        if !AllowedFromOutsideVendor(pkg, name) {
          errors := errors + [v];
          continue;
        }
      }
    }
    assert visibility[..|visibility|] == visibility;
    OffendingNone(currentPkg, visibility, ruleCount);
  }

  /** The rule that one expression stands for; None if parseRules passes over it. */
  function RuleOf(currentPkg: string, v: string): Option<Rule> {
    var r := SplitRule(v, currentPkg);
    if r.None? then None else
      var (pkg, name) := r.value;
      if pkg == "visibility" then
        Some(if name == "private" then PrivateRule else if name == "public" then PublicRule else Nil)
      else if name == "__pkg__" then Some(PackageRule(pkg))
      else if name == "__subpackages__" then Some(SubpackagesRule(pkg))
      else None
  }

  /** What each expression of a list stands for. */
  function Readings(currentPkg: string, visibility: seq<string>): (r: seq<Option<Rule>>)
    ensures |r| == |visibility| && forall i :: 0 <= i < |r| ==> r[i] == RuleOf(currentPkg, visibility[i])
  {
    seq(|visibility|, i requires 0 <= i < |visibility| => RuleOf(currentPkg, visibility[i]))
  }

  function Present(readings: seq<Option<Rule>>): seq<Rule> {
    if readings == [] then [] else
      var n := |readings| - 1;
      Present(readings[..n]) + (if readings[n].Some? then [readings[n].value] else [])
  }

  lemma {:induction false} PresentElements(readings: seq<Option<Rule>>, r: Rule)
    ensures r in Present(readings) <==> Some(r) in readings
  {
    if readings != [] {
      var n := |readings| - 1;
      PresentElements(readings[..n], r);
      assert readings == readings[..n] + [readings[n]];
    }
  }

  function RulesOf(currentPkg: string, visibility: seq<string>): seq<Rule> {
    Present(Readings(currentPkg, visibility))
  }

  lemma RulesOfSnoc(currentPkg: string, visibility: seq<string>, i: nat, r: Option<Rule>)
    requires i < |visibility| && r == RuleOf(currentPkg, visibility[i])
    ensures RulesOf(currentPkg, visibility[..i + 1]) ==
            RulesOf(currentPkg, visibility[..i]) + (if r.Some? then [r.value] else [])
  {
    assert Readings(currentPkg, visibility[..i + 1])[..i] == Readings(currentPkg, visibility[..i]);
  }

  function Parsed(currentPkg: string, visibility: seq<string>): seq<Rule> {
    var rules := RulesOf(currentPkg, visibility);
    if PrivateRule in rules && HasNonPrivate(rules) then [PrivateRule] else rules
  }

  predicate HasNonPrivate(rules: seq<Rule>) {
    exists i :: 0 <= i < |rules| && rules[i] != PrivateRule
  }

  lemma HasNonPrivateSnoc(rules: seq<Rule>, r: Rule)
    ensures HasNonPrivate(rules + [r]) <==> HasNonPrivate(rules) || r != PrivateRule
  {
    assert (rules + [r])[|rules|] == r;
    assert forall i :: 0 <= i < |rules| ==> (rules + [r])[i] == rules[i];
  }

  /** One round of the loop of parseRules: the rule to append, if any, and whether it is private. */
  method ParseRule(currentPkg: string, v: string) returns (r: Option<Rule>, isPrivateRule: bool)
    ensures r == RuleOf(currentPkg, v) && (isPrivateRule <==> r == Some(PrivateRule))
  {
    r, isPrivateRule := None, false;
    var split := SplitRule(v, currentPkg);
    if split.None? {
      return;
    }
    var (pkg, name) := split.value;
    if pkg == "visibility" {
      r := Some(Nil);
      if name == "private" {
        r := Some(PrivateRule);
        isPrivateRule := true;
      } else if name == "public" {
        r := Some(PublicRule);
      }
    } else {
      if name == "__pkg__" {
        r := Some(PackageRule(pkg));
      } else if name == "__subpackages__" {
        r := Some(SubpackagesRule(pkg));
      }
    }
  }

  /** parseRules */
  method ParseRules(currentPkg: string, visibility: seq<string>) returns (rules: seq<Rule>)
    ensures rules == Parsed(currentPkg, visibility)
  {
    rules := [];
    var hasPrivateRule, hasNonPrivateRule := false, false;
    for i := 0 to |visibility|
      invariant rules == RulesOf(currentPkg, visibility[..i])
      invariant hasPrivateRule <==> PrivateRule in rules
      invariant hasNonPrivateRule <==> HasNonPrivate(rules)
    {
      var r, isPrivateRule := ParseRule(currentPkg, visibility[i]);
      RulesOfSnoc(currentPkg, visibility, i, r);
      if r.None? {
        continue;
      }
      if isPrivateRule {
        hasPrivateRule := true;
      } else {
        hasNonPrivateRule := true;
      }
      HasNonPrivateSnoc(rules, r.value);
      rules := rules + [r.value];
    }
    assert visibility[..|visibility|] == visibility;
    if hasPrivateRule && hasNonPrivateRule {
      return [PrivateRule];
    }
  }

  /*** The vendor tree ***/

  /** The rules treat all packages at or under vendor alike. */
  ghost predicate Uniform(rules: seq<Rule>) {
    forall p, q :: InVendor(p) && InVendor(q) ==> (AnyMatches(rules, p) <==> AnyMatches(rules, q))
  }

  /** A rule that no package of the vendor tree matches, or all of them do. */
  predicate WholeVendor(r: Rule) {
    match r
    case PackageRule(p) => !InVendor(p)
    case SubpackagesRule(p) => p == "vendor" || !InVendor(p)
    case _ => true
  }

  lemma WholeVendorMatches(r: Rule, p: string, q: string)
    requires WholeVendor(r) && InVendor(p) && InVendor(q)
    ensures Matches(r, p) == Matches(r, q)
  {
    if r.SubpackagesRule? && r.pkgPrefix != "vendor" {
      if Matches(r, p) { OutsideVendor(r.pkgPrefix, p); }
      if Matches(r, q) { OutsideVendor(r.pkgPrefix, q); }
    }
  }

  lemma WholeVendorUniform(rules: seq<Rule>)
    requires forall i :: 0 <= i < |rules| ==> WholeVendor(rules[i])
    ensures Uniform(rules)
  {
    forall p, q | InVendor(p) && InVendor(q) && AnyMatches(rules, p) ensures AnyMatches(rules, q) {
      var i :| 0 <= i < |rules| && Matches(rules[i], p);
      WholeVendorMatches(rules[i], p, q);
    }
  }

  ghost predicate CoversVendor(r: Rule) {
    r == PublicRule || r == SubpackagesRule("vendor")
  }

  function Longest(rules: seq<Rule>): (n: nat)
    ensures forall i :: 0 <= i < |rules| ==>
              && (rules[i].PackageRule? ==> |rules[i].pkg| <= n)
              && (rules[i].SubpackagesRule? ==> |rules[i].pkgPrefix| <= n)
  {
    if rules == [] then 0 else
      var n := Longest(rules[1..]);
      var m := match rules[0] case PackageRule(p) => |p| case SubpackagesRule(p) => |p| case _ => 0;
      if m > n then m else n
  }

  function Letters(n: nat): string {
    seq(n, i => 'x')
  }

  /** A package of the vendor tree that only a rule for the whole tree can match. */
  lemma FreshPackage(rules: seq<Rule>) returns (p: string)
    ensures InVendor(p)
    ensures forall i :: 0 <= i < |rules| && Matches(rules[i], p) ==> CoversVendor(rules[i])
  {
    var name := Letters(Longest(rules) + 1);
    p := "vendor" + "/" + name;
    assert "vendor" + "/" <= p + "/";
    forall i | 0 <= i < |rules| && Matches(rules[i], p) ensures CoversVendor(rules[i]) {
      if rules[i].SubpackagesRule? {
        ShortAncestor(rules[i].pkgPrefix, name);
      }
    }
  }

  lemma ShortAncestor(q: string, name: string)
    requires |q| < |name| && '/' !in name && IsAncestor(q, "vendor" + "/" + name)
    ensures q == "vendor"
  {
    var p := "vendor" + "/" + name;
    VendorSplit();
    SplitConcat("vendor", name);
    assert Split(p) == ["vendor", name];
    IsAncestorIsPrefix(q, p);
    SlashedSplit(q);
    SlashedSplit(p);
    assert |Split(q)| == 2 ==> Split(q) == Split(p) && q == p;
    assert |Split(q)| == 1 ==> Split(q)[0] == "vendor";
  }

  /** Exactly when rules are uniform: some rule covers the whole vendor tree, or none singles out
      a part of it. */
  lemma UniformIff(rules: seq<Rule>)
    ensures Uniform(rules) <==> (exists i :: 0 <= i < |rules| && CoversVendor(rules[i])) ||
                                (forall i :: 0 <= i < |rules| ==> WholeVendor(rules[i]))
  {
    if i :| 0 <= i < |rules| && CoversVendor(rules[i]) {
      assert forall p :: InVendor(p) ==> Matches(rules[i], p);
    } else if forall i :: 0 <= i < |rules| ==> WholeVendor(rules[i]) {
      WholeVendorUniform(rules);
    } else {
      var i :| 0 <= i < |rules| && !WholeVendor(rules[i]);
      var p := if rules[i].PackageRule? then rules[i].pkg else rules[i].pkgPrefix;
      var q := FreshPackage(rules);
      assert InVendor(p) && Matches(rules[i], p) && AnyMatches(rules, p);
      assert InVendor(q) && !AnyMatches(rules, q);
    }
  }

  /** The rule speaks of vendor as a whole or not at all. */
  predicate Harmless(currentPkg: string, v: string) {
    var r := SplitRule(v, currentPkg);
    r.Some? && AllowedFromOutsideVendor(r.value.0, r.value.1)
  }

  ghost predicate AllHarmless(currentPkg: string, visibility: seq<string>) {
    forall i :: 0 <= i < |visibility| ==> Harmless(currentPkg, visibility[i])
  }

  lemma HarmlessRule(currentPkg: string, v: string, r: Rule)
    requires Harmless(currentPkg, v) && RuleOf(currentPkg, v) == Some(r)
    ensures WholeVendor(r)
  {}

  lemma HarmlessParses(currentPkg: string, visibility: seq<string>)
    requires AllHarmless(currentPkg, visibility)
    ensures Uniform(Parsed(currentPkg, visibility))
  {
    var rules := Parsed(currentPkg, visibility);
    forall i | 0 <= i < |rules| ensures WholeVendor(rules[i]) {
      if rules[i] != PrivateRule {
        var k := ListedFrom(currentPkg, visibility, rules[i]);
        HarmlessRule(currentPkg, visibility[k], rules[i]);
      }
    }
    WholeVendorUniform(rules);
  }

  /** A list that is accepted for a module outside vendor gives rules without nil that are visible
      to the whole vendor tree or to nothing in it. */
  lemma AcceptedIsUniform(currentPkg: string, visibility: seq<string>)
    requires Accepted(currentPkg, visibility) && !InVendor(currentPkg)
    ensures NoNil(Parsed(currentPkg, visibility)) && Uniform(Parsed(currentPkg, visibility))
  {
    AcceptedHasNoNil(currentPkg, visibility);
    HarmlessParses(currentPkg, visibility);
  }

  /*** Nil rules ***/

  /** The textual forms :name that stand for no rule of package visibility. */
  predicate Short(v: string) {
    v != "" && v[0] == ':' && v[1..] != "private" && v[1..] != "public"
  }

  /** The two ways to write the private rule in package visibility. */
  predicate Private(v: string) {
    v == Expression("visibility", "private") || v == ":" + "private"
  }

  /** The short form is read with the current package. */
  lemma ShortReads(name: string, currentPkg: string)
    requires ValidName(name)
    ensures SplitRule(":" + name, currentPkg) == Some((currentPkg, name))
  {
    var v := ":" + name;
    assert v == "" + [':'] + name;
    Partition("", ':', name);
    assert v[0] == ':' && "//"[0] == '/';
  }

  /** The form without a name stands for the package itself. */
  lemma PackageFormReads(pkg: string, currentPkg: string)
    requires ValidPackage(pkg)
    ensures SplitRule("//" + pkg, currentPkg) == Some((pkg, "__pkg__"))
    ensures pkg != "visibility" ==> RuleOf(currentPkg, "//" + pkg) == Some(PackageRule(pkg))
  {
    var v := "//" + pkg;
    assert v[2..] == pkg;
    PackageNotEmpty(pkg);
    NoSeparator(pkg, ':');
  }

  /** Names other than the four stand for no rule; in package visibility they give a nil rule. */
  lemma OtherNames(pkg: string, name: string, currentPkg: string)
    requires ValidPackage(pkg) && ValidName(name)
    ensures pkg != "visibility" && name != "__pkg__" && name != "__subpackages__" ==>
              RuleOf(currentPkg, Expression(pkg, name)) == None
    ensures pkg == "visibility" && name != "private" && name != "public" ==>
              RuleOf(currentPkg, Expression(pkg, name)) == Some(Nil)
  {
    SplitRuleReads(pkg, name, currentPkg);
  }

  /** An expression without a package is : and a name. */
  lemma ShortGroups(v: string)
    requires v != "" && !("//" <= v) && RuleGroups(v).Some?
    ensures v[0] == ':' && RuleGroups(v).value == ("", v[1..]) && v == ":" + v[1..] && ValidName(v[1..])
  {}

  lemma FullGroups(v: string)
    requires "//" <= v && RuleGroups(v).Some?
    ensures RuleGroups(v).value.0 != "" && v[0] == '/'
    ensures var (pkg, name) := RuleGroups(v).value; ValidPackage(pkg) && (name != "" ==> ValidName(name))
    ensures var (pkg, name) := RuleGroups(v).value; v == if name == "" then "//" + pkg else Expression(pkg, name)
  {
    var body := v[2..];
    assert v == "//" + body && v[0] == "//"[0];
    PackageNotEmpty(Before(body, ':'));
    if ':' in body {
      ColonText(body);
    } else {
      NoSeparator(body, ':');
    }
  }

  lemma PackageNotEmpty(pkg: string)
    requires ValidPackage(pkg)
    ensures pkg != ""
  {
    assert Split("") == [""];
  }

  lemma ColonText(body: string)
    requires ':' in body
    ensures "//" + body == Expression(Before(body, ':'), After(body, ':'))
  {
    PartitionJoin(body, ':');
  }

  /** The forms of a rule expression: a package, a package and a name, or a name. */
  ghost predicate IsExpression(v: string, pkg: string, name: string) {
    || (ValidPackage(pkg) && v == "//" + pkg)
    || (ValidPackage(pkg) && ValidName(name) && v == Expression(pkg, name))
    || (ValidName(name) && v == ":" + name)
  }

  /** splitRule accepts exactly these forms. */
  lemma SplitRuleIff(v: string, currentPkg: string)
    ensures SplitRule(v, currentPkg).Some? <==> exists pkg, name :: IsExpression(v, pkg, name)
  {
    if SplitRule(v, currentPkg).Some? {
      var (pkg, name) := RuleGroups(v).value;
      if "//" <= v {
        FullGroups(v);
      } else {
        ShortGroups(v);
      }
      assert IsExpression(v, pkg, name);
    }
    if pkg, name :| IsExpression(v, pkg, name) {
      if ValidPackage(pkg) && v == "//" + pkg {
        PackageFormReads(pkg, currentPkg);
      } else if v == ":" + name {
        ShortReads(name, currentPkg);
      } else {
        SplitRuleReads(pkg, name, currentPkg);
      }
    }
  }

  /** A rule that was accepted in its own package becomes nil exactly if it has the short form and
      is read in package visibility. */
  lemma NilIff(currentPkg: string, v: string, pkg: string, count: nat)
    requires EntryOk(pkg, v, count)
    ensures RuleOf(currentPkg, v) == Some(Nil) <==> currentPkg == "visibility" && Short(v)
  {
    if "//" <= v {
      FullGroups(v);
    } else {
      ShortGroups(v);
    }
  }

  lemma PrivateReads(v: string)
    requires Private(v)
    ensures RuleOf("visibility", v) == Some(PrivateRule)
  {
    var (pkg, name) := RuleParts(PrivateRule);
    RulePartsValid(PrivateRule);
    if v == ":" + name {
      ShortReads(name, pkg);
    } else {
      SplitRuleReads(pkg, name, pkg);
    }
    RuleOfParts(PrivateRule, pkg, v);
  }

  lemma PrivateIsRead(v: string)
    requires RuleOf("visibility", v) == Some(PrivateRule)
    ensures Private(v)
  {
    if "//" <= v {
      FullGroups(v);
    } else {
      ShortGroups(v);
    }
  }

  /** Each expression puts its rule into the list, and each rule of the list comes from one. */
  lemma RuleIsListed(currentPkg: string, visibility: seq<string>, i: nat, r: Rule)
    requires i < |visibility| && RuleOf(currentPkg, visibility[i]) == Some(r)
    ensures r in RulesOf(currentPkg, visibility)
  {
    var readings := Readings(currentPkg, visibility);
    assert readings[i] == Some(r);
    PresentElements(readings, r);
  }

  lemma ListedFrom(currentPkg: string, visibility: seq<string>, r: Rule) returns (i: nat)
    requires r in RulesOf(currentPkg, visibility)
    ensures i < |visibility| && RuleOf(currentPkg, visibility[i]) == Some(r)
  {
    var readings := Readings(currentPkg, visibility);
    PresentElements(readings, r);
    i :| i < |readings| && readings[i] == Some(r);
  }

  ghost predicate Reads(currentPkg: string, visibility: seq<string>, r: Rule) {
    exists k :: 0 <= k < |visibility| && RuleOf(currentPkg, visibility[k]) == Some(r)
  }

  lemma ListedIff(currentPkg: string, visibility: seq<string>, r: Rule)
    ensures r in RulesOf(currentPkg, visibility) <==> Reads(currentPkg, visibility, r)
  {
    if r in RulesOf(currentPkg, visibility) {
      var k := ListedFrom(currentPkg, visibility, r);
    } else if k :| 0 <= k < |visibility| && RuleOf(currentPkg, visibility[k]) == Some(r) {
      RuleIsListed(currentPkg, visibility, k, r);
    }
  }

  /** Exactly when a list, as it is written, is uniform over the vendor tree: it has a private or a
      public rule or one for the subpackages of vendor, or no rule of it singles out a part. */
  lemma ListUniformIff(currentPkg: string, list: seq<string>)
    ensures Uniform(Parsed(currentPkg, list)) <==>
            || Reads(currentPkg, list, PrivateRule)
            || Reads(currentPkg, list, PublicRule)
            || Reads(currentPkg, list, SubpackagesRule("vendor"))
            || forall r :: Reads(currentPkg, list, r) ==> WholeVendor(r)
  {
    var rules := RulesOf(currentPkg, list);
    forall r ensures r in rules <==> Reads(currentPkg, list, r) {
      ListedIff(currentPkg, list, r);
    }
    if PrivateRule in rules {
      WholeVendorUniform([PrivateRule]);
      if !HasNonPrivate(rules) {
        WholeVendorUniform(rules);
      }
    } else {
      UniformIff(rules);
    }
  }

  /** A list that is accepted in its own package has no nil rule there. */
  lemma AcceptedHasNoNil(currentPkg: string, visibility: seq<string>)
    requires Accepted(currentPkg, visibility)
    ensures NoNil(Parsed(currentPkg, visibility))
  {
    if Nil in RulesOf(currentPkg, visibility) {
      var i := ListedFrom(currentPkg, visibility, Nil);
      NotNilAtHome(currentPkg, visibility[i], |visibility|);
    }
  }

  lemma NotNilAtHome(pkg: string, v: string, count: nat)
    ensures EntryOk(pkg, v, count) ==> RuleOf(pkg, v) != Some(Nil)
  {}

  /** In an accepted list, private and public stand alone, and no rule of a module outside vendor
      singles out a part of vendor. */
  lemma AcceptedRules(currentPkg: string, list: seq<string>, r: Rule)
    requires Accepted(currentPkg, list) && Reads(currentPkg, list, r)
    ensures r != Nil
    ensures r == PrivateRule || r == PublicRule ==> |list| == 1
    ensures !InVendor(currentPkg) ==> WholeVendor(r)
  {
    var k :| 0 <= k < |list| && RuleOf(currentPkg, list[k]) == Some(r);
    assert EntryOk(currentPkg, list[k], |list|);
  }

  /** Nothing else is asked of a list: any rules for packages and subpackages outside vendor, or for
      the subpackages of vendor, are accepted everywhere, and so are private and public alone. */
  lemma PlainListAccepted(currentPkg: string, list: seq<string>)
    requires list != []
    requires forall i :: 0 <= i < |list| ==> PlainEntry(list[i])
    ensures Accepted(currentPkg, list)
  {
    forall i | 0 <= i < |list| ensures EntryOk(currentPkg, list[i], |list|) {
      var pkg, name :| IsPlain(list[i], pkg, name);
      SplitRuleReads(pkg, name, currentPkg);
    }
  }

  ghost predicate IsPlain(v: string, pkg: string, name: string) {
    && v == Expression(pkg, name) && ValidPackage(pkg) && pkg != "visibility"
    && ((name == "__pkg__" && !InVendor(pkg)) || (name == "__subpackages__" && (pkg == "vendor" || !InVendor(pkg))))
  }

  ghost predicate PlainEntry(v: string) {
    exists pkg, name :: IsPlain(v, pkg, name)
  }

  lemma SingleAccepted(currentPkg: string, name: string)
    requires name == "private" || name == "public"
    ensures Accepted(currentPkg, [Expression("visibility", name)])
  {
    NotVendor();
    RulePartsValid(if name == "private" then PrivateRule else PublicRule);
    SplitRuleReads("visibility", name, currentPkg);
  }

  /** A property list after defaults expansion: lists checked in packages of their own. */
  datatype Part = Part(pkg: string, visibility: seq<string>)

  function Expanded(parts: seq<Part>): seq<string> {
    if parts == [] then [] else parts[0].visibility + Expanded(parts[1..])
  }

  ghost predicate AllAccepted(parts: seq<Part>) {
    forall i :: 0 <= i < |parts| ==> Accepted(parts[i].pkg, parts[i].visibility)
  }

  /** Each rule of the expanded list was accepted in the package of one of the parts. */
  lemma {:induction false} ExpandedFrom(parts: seq<Part>, k: nat) returns (i: nat)
    requires AllAccepted(parts) && k < |Expanded(parts)|
    ensures i < |parts| && EntryOk(parts[i].pkg, Expanded(parts)[k], |parts[i].visibility|)
  {
    var n := |parts[0].visibility|;
    if k < n {
      i := 0;
    } else {
      i := ExpandedFrom(parts[1..], k - n);
      i := i + 1;
    }
  }

  /** Exactly when defaults expansion gives a nil rule: the module is in package visibility, some
      list has a rule of the short form other than private and public, and none is private. */
  lemma ExpandedNilIff(currentPkg: string, parts: seq<Part>)
    requires AllAccepted(parts)
    ensures var list := Expanded(parts);
            Nil in Parsed(currentPkg, list) <==>
            && currentPkg == "visibility"
            && (exists k :: 0 <= k < |list| && Short(list[k]))
            && (forall k :: 0 <= k < |list| ==> !Private(list[k]))
  {
    var list := Expanded(parts);
    NilListedIff(currentPkg, parts);
    if currentPkg == "visibility" {
      PrivateListedIff(list);
    }
  }

  lemma NilListedIff(currentPkg: string, parts: seq<Part>)
    requires AllAccepted(parts)
    ensures var list := Expanded(parts);
            Nil in RulesOf(currentPkg, list) <==>
            currentPkg == "visibility" && exists k :: 0 <= k < |list| && Short(list[k])
  {
    var list := Expanded(parts);
    if Nil in RulesOf(currentPkg, list) {
      var k := ListedFrom(currentPkg, list, Nil);
      ShortIsNil(currentPkg, parts, k);
    } else if k :| currentPkg == "visibility" && 0 <= k < |list| && Short(list[k]) {
      ShortIsNil(currentPkg, parts, k);
      RuleIsListed(currentPkg, list, k, Nil);
    }
  }

  lemma PrivateListedIff(list: seq<string>)
    ensures PrivateRule in RulesOf("visibility", list) <==> exists k :: 0 <= k < |list| && Private(list[k])
  {
    if PrivateRule in RulesOf("visibility", list) {
      var k := ListedFrom("visibility", list, PrivateRule);
      PrivateIsRead(list[k]);
    } else if k :| 0 <= k < |list| && Private(list[k]) {
      PrivateReads(list[k]);
      RuleIsListed("visibility", list, k, PrivateRule);
    }
  }

  lemma ShortIsNil(currentPkg: string, parts: seq<Part>, k: nat)
    requires AllAccepted(parts) && k < |Expanded(parts)|
    ensures RuleOf(currentPkg, Expanded(parts)[k]) == Some(Nil) <==>
            currentPkg == "visibility" && Short(Expanded(parts)[k])
  {
    var i := ExpandedFrom(parts, k);
    NilIff(currentPkg, Expanded(parts)[k], parts[i].pkg, |parts[i].visibility|);
  }

  lemma ExpandedHarmless(currentPkg: string, parts: seq<Part>)
    requires !InVendor(currentPkg) && AllAccepted(parts)
    requires forall i :: 0 <= i < |parts| ==> !InVendor(parts[i].pkg)
    ensures AllHarmless(currentPkg, Expanded(parts))
  {
    var list := Expanded(parts);
    forall k | 0 <= k < |list| ensures Harmless(currentPkg, list[k]) {
      var i := ExpandedFrom(parts, k);
      HarmlessElsewhere(parts[i].pkg, currentPkg, list[k], |parts[i].visibility|);
    }
  }

  lemma HarmlessElsewhere(pkg: string, currentPkg: string, v: string, count: nat)
    requires EntryOk(pkg, v, count) && !InVendor(pkg) && !InVendor(currentPkg)
    ensures Harmless(currentPkg, v)
  {
    assert currentPkg != "vendor";
  }

  /** Uniformity survives defaults expansion if the module and all defaults are outside vendor; and
      unless the module is in package visibility there is no nil rule. */
  lemma ExpandedIsUniform(currentPkg: string, parts: seq<Part>)
    requires !InVendor(currentPkg) && AllAccepted(parts)
    requires forall i :: 0 <= i < |parts| ==> !InVendor(parts[i].pkg)
    ensures Uniform(Parsed(currentPkg, Expanded(parts)))
    ensures currentPkg != "visibility" ==> NoNil(Parsed(currentPkg, Expanded(parts)))
  {
    ExpandedHarmless(currentPkg, parts);
    HarmlessParses(currentPkg, Expanded(parts));
    ExpandedNilIff(currentPkg, parts);
  }

  /** Defaults inside vendor do let a module outside it be visible to a single vendor package. */
  lemma VendorDefaultsSingleOut(defaultsPkg: string, currentPkg: string, pkg: string)
    requires InVendor(defaultsPkg) && InVendor(pkg) && ValidPackage(pkg)
    ensures var list := [Expression(pkg, "__pkg__")];
            Accepted(defaultsPkg, list) && !Uniform(Parsed(currentPkg, list))
  {
    var v := Expression(pkg, "__pkg__");
    assert pkg != "visibility" by { NotVendor(); }
    SplitRuleReads(pkg, "__pkg__", defaultsPkg);
    SplitRuleReads(pkg, "__pkg__", currentPkg);
    ParsedOne(currentPkg, v);
    var rules := [PackageRule(pkg)];
    assert !WholeVendor(rules[0]);
    UniformIff(rules);
  }

  lemma NotVendor()
    ensures !InVendor("visibility")
  {
    assert ("vendor" + "/")[1] == 'e' && ("visibility" + "/")[1] == 'i';
  }

  lemma ParsedOne(currentPkg: string, v: string)
    requires RuleOf(currentPkg, v).Some?
    ensures Parsed(currentPkg, [v]) == [RuleOf(currentPkg, v).value]
  {
    assert [v][..0] == [] && RulesOf(currentPkg, []) == [];
  }

  /** The short form of a rule, read in a package called visibility, becomes a nil rule. */
  lemma ShortFormBecomesNil(defaultsPkg: string, name: string)
    requires ValidName(name) && name != "private" && name != "public"
    requires !InVendor(defaultsPkg) && defaultsPkg != "visibility"
    ensures Accepted(defaultsPkg, [":" + name]) && Parsed("visibility", [":" + name]) == [Nil]
  {
    var v := ":" + name;
    ShortReads(name, defaultsPkg);
    ShortReads(name, "visibility");
    assert defaultsPkg != "vendor";
    ParsedOne("visibility", v);
  }

  /*** Enforcement ***/

  datatype QualifiedModuleName = QualifiedModuleName(pkg: string, name: string)

  ghost predicate Visible(ruleMap: map<QualifiedModuleName, seq<Rule>>, dep: QualifiedModuleName, pkg: string) {
    dep.pkg == pkg || dep !in ruleMap || AnyMatches(ruleMap[dep], pkg)
  }

  /** Checking this dependency panics at a nil rule. */
  ghost predicate PanicsAt(ruleMap: map<QualifiedModuleName, seq<Rule>>, dep: QualifiedModuleName, pkg: string) {
    dep.pkg != pkg && dep in ruleMap && Panics(ruleMap[dep], pkg)
  }

  /** Who sees a module: its own package always does, and everybody if it has no rules; with a
      single rule, those packages besides that the rule speaks of. */
  lemma VisibleMeans(ruleMap: map<QualifiedModuleName, seq<Rule>>, dep: QualifiedModuleName, pkg: string, r: Rule)
    ensures dep.pkg == pkg || dep !in ruleMap ==> Visible(ruleMap, dep, pkg)
    ensures dep in ruleMap && ruleMap[dep] == [r] ==>
              (Visible(ruleMap, dep, pkg) <==>
               || pkg == dep.pkg
               || r == PublicRule
               || (r.PackageRule? && pkg == r.pkg)
               || (r.SubpackagesRule? && Split(r.pkgPrefix) <= Split(pkg)))
  {
    if dep in ruleMap && ruleMap[dep] == [r] {
      assert AnyMatches([r], pkg) <==> Matches([r][0], pkg);
      if r.SubpackagesRule? {
        IsAncestorIsPrefix(r.pkgPrefix, pkg);
      }
    }
  }

  /** visibilityRuleEnforcer for a module of package pkg with these direct dependencies: whether no
      error is reported. A nil rule panics, which is None. */
  method Enforce(ruleMap: map<QualifiedModuleName, seq<Rule>>, pkg: string, deps: seq<QualifiedModuleName>)
    returns (ok: Option<bool>)
    ensures ok.None? <==> exists i :: 0 <= i < |deps| && PanicsAt(ruleMap, deps[i], pkg)
    ensures ok.Some? ==> ok.value == forall i :: 0 <= i < |deps| ==> Visible(ruleMap, deps[i], pkg)
  {
    var failed := false;
    for i := 0 to |deps|
      invariant forall j :: 0 <= j < i ==> !PanicsAt(ruleMap, deps[j], pkg)
      invariant !failed <==> forall j :: 0 <= j < i ==> Visible(ruleMap, deps[j], pkg)
    {
      if deps[i].pkg != pkg && deps[i] in ruleMap {
        var m := CompositeMatches(ruleMap[deps[i]], pkg);
        if m.None? {
          return None;
        }
        if !m.value {
          failed := true;
        }
      }
    }
    return Some(!failed);
  }

  /** A module outside vendor whose lists are accepted outside vendor is open to all of the vendor
      tree or to none of it. */
  lemma {:induction false} VendorSeesAllOrNone(ruleMap: map<QualifiedModuleName, seq<Rule>>, dep: QualifiedModuleName,
                                               parts: seq<Part>, p: string, q: string)
    requires !InVendor(dep.pkg) && InVendor(p) && InVendor(q)
    requires AllAccepted(parts) && forall i :: 0 <= i < |parts| ==> !InVendor(parts[i].pkg)
    requires dep in ruleMap ==> ruleMap[dep] == Parsed(dep.pkg, Expanded(parts))
    ensures Visible(ruleMap, dep, p) <==> Visible(ruleMap, dep, q)
  {
    ExpandedIsUniform(dep.pkg, parts);
  }

  /** The package and the name in the printed form of a rule. */
  function RuleParts(r: Rule): (string, string)
    requires !r.Nil?
  {
    match r
    case PackageRule(p) => (p, "__pkg__")
    case SubpackagesRule(p) => (p, "__subpackages__")
    case PublicRule => ("visibility", "public")
    case PrivateRule => ("visibility", "private")
  }

  lemma RulePartsValid(r: Rule)
    requires !r.Nil?
    ensures ValidName(RuleParts(r).1)
    ensures ValidPackage("visibility")
  {
    assert Split("visibility") == ["visibility"];
  }

  lemma RuleOfParts(r: Rule, currentPkg: string, v: string)
    requires !r.Nil? && (r.PublicRule? || r.PrivateRule? || RuleParts(r).0 != "visibility")
    requires SplitRule(v, currentPkg) == Some(RuleParts(r))
    ensures RuleOf(currentPkg, v) == Some(r)
  {}

  /** A printed rule is read back as the same rule in every package. */
  lemma RuleStringReads(r: Rule, currentPkg: string)
    requires !r.Nil?
    requires r.PublicRule? || r.PrivateRule? || (RuleParts(r).0 != "visibility" && ValidPackage(RuleParts(r).0))
    ensures RuleOf(currentPkg, Expression(RuleParts(r).0, RuleParts(r).1)) == Some(r)
  {
    var (pkg, name) := RuleParts(r);
    RulePartsValid(r);
    SplitRuleReads(pkg, name, currentPkg);
    RuleOfParts(r, currentPkg, Expression(pkg, name));
  }
}
