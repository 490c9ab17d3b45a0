/** DirectorySortedPaths of android/paths.go: the files of a directory by binary search. */
module DirSorted {
  import opened GoPath
  import opened Lex

  /** Go's sort.Search. */
  method Search(n: nat, f: nat --> bool) returns (i: nat)
    requires forall k :: 0 <= k < n ==> f.requires(k)
    requires forall a, b :: 0 <= a <= b < n && f(a) ==> f(b)
    ensures i <= n
    ensures forall k :: 0 <= k < i ==> !f(k)
    ensures forall k :: i <= k < n ==> f(k)
  {
    i := 0;
    var j := n;
    while i < j
      invariant i <= j <= n
      invariant forall k :: 0 <= k < i ==> !f(k)
      invariant forall k :: j <= k < n ==> f(k)
    {
      var h := (i + j) / 2;
      if !f(h) {
        i := h + 1;
      } else {
        j := h;
      }
    }
  }

  function DirPrefix(dir: string): string {
    Clean(dir) + "/"
  }

  /** The first entry after prefix. */
  method SearchStart(p: seq<string>, prefix: string) returns (start: nat)
    requires Sorted(p)
    ensures start <= |p|
    ensures forall k :: 0 <= k < start ==> !Less(prefix, p[k])
    ensures forall k :: start <= k < |p| ==> Less(prefix, p[k])
  {
    StartMonotone(prefix, p);
    var after: nat --> bool := (i: nat) requires i < |p| => Less(prefix, p[i]);
    start := Search(|p|, after);
    assert forall k :: 0 <= k < |p| ==> after(k) == Less(prefix, p[k]);
  }

  /** The first entry without prefix. */
  method SearchEnd(r: seq<string>, prefix: string) returns (end: nat)
    requires Sorted(r) && forall i :: 0 <= i < |r| ==> Less(prefix, r[i])
    ensures end <= |r|
    ensures forall k :: 0 <= k < end ==> prefix <= r[k]
    ensures forall k :: end <= k < |r| ==> !(prefix <= r[k])
  {
    EndMonotone(prefix, r);
    var outside: nat --> bool := (i: nat) requires i < |r| => !(prefix <= r[i]);
    end := Search(|r|, outside);
    assert forall k :: 0 <= k < |r| ==> outside(k) == !(prefix <= r[k]);
  }

  /** PathsInDirectory: the two searches find, as one slice, exactly the entries that a linear
      filter would keep. */
  method PathsInDirectory(p: seq<string>, dir: string) returns (r: seq<string>)
    requires Sorted(p)
    ensures r == Extensions(DirPrefix(dir), p)
    ensures exists start, end :: 0 <= start <= end <= |p| && r == p[start..end]
  {
    var prefix := DirPrefix(dir);
    var start := SearchStart(p, prefix);
    r := p[start..];
    var end := SearchEnd(r, prefix);
    FilterIsSlice(prefix, p, start, end);
    assert r[..end] == p[start..start + end];
    r := r[..end];
  }

  /** The entries that strictly extend prefix, by going through the whole list. */
  function Extensions(prefix: string, p: seq<string>): seq<string> {
    if p == [] then [] else (if prefix < p[0] then [p[0]] else []) + Extensions(prefix, p[1..])
  }

  lemma StartMonotone(prefix: string, p: seq<string>)
    requires Sorted(p)
    ensures forall a, b :: 0 <= a <= b < |p| && Less(prefix, p[a]) ==> Less(prefix, p[b])
  {
    forall a, b | 0 <= a <= b < |p| && Less(prefix, p[a]) ensures Less(prefix, p[b]) {
      if a < b {
        LessTotal(p[a], p[b]);
        if Less(p[a], p[b]) { LessTransitive(prefix, p[a], p[b]); }
      }
    }
  }

  /** The strings that start with prefix are convex: whatever lies between prefix and one of them
      starts with prefix too. */
  lemma {:induction false} PrefixConvex(prefix: string, x: string, y: string)
    requires Less(prefix, x) && !Less(y, x) && prefix <= y
    ensures prefix <= x
  {
    if prefix != [] {
      assert y[0] == prefix[0] && x[0] == prefix[0];
      PrefixConvex(prefix[1..], x[1..], y[1..]);
      assert x == [x[0]] + x[1..] && prefix == [prefix[0]] + prefix[1..];
    }
  }

  lemma EndMonotone(prefix: string, r: seq<string>)
    requires Sorted(r) && forall i :: 0 <= i < |r| ==> Less(prefix, r[i])
    ensures forall a, b :: 0 <= a <= b < |r| && !(prefix <= r[a]) ==> !(prefix <= r[b])
  {
    forall a, b | 0 <= a <= b < |r| && !(prefix <= r[a]) ensures !(prefix <= r[b]) {
      if a < b && prefix <= r[b] { PrefixConvex(prefix, r[a], r[b]); }
    }
  }

  lemma {:induction false} ProperPrefixIsLess(prefix: string, x: string)
    requires prefix < x
    ensures Less(prefix, x)
  {
    if prefix != [] {
      ProperPrefixIsLess(prefix[1..], x[1..]);
    }
  }

  lemma FilterIsSlice(prefix: string, p: seq<string>, start: nat, end: nat)
    requires start + end <= |p|
    requires forall i :: 0 <= i < start ==> !Less(prefix, p[i])
    requires var r := p[start..];
             && (forall i :: 0 <= i < |r| ==> Less(prefix, r[i]))
             && (forall i :: 0 <= i < end ==> prefix <= r[i])
             && (forall i :: end <= i < |r| ==> !(prefix <= r[i]))
    ensures Extensions(prefix, p) == p[start..][..end]
  {
    NoneExtends(prefix, p, start);
    AllExtend(prefix, p[start..], end);
  }

  lemma {:induction false} NoneExtends(prefix: string, p: seq<string>, n: nat)
    requires n <= |p| && forall i :: 0 <= i < n ==> !Less(prefix, p[i])
    ensures Extensions(prefix, p) == Extensions(prefix, p[n..])
  {
    if n > 0 {
      if prefix < p[0] { ProperPrefixIsLess(prefix, p[0]); }
      NoneExtends(prefix, p[1..], n - 1);
      assert p[1..][n - 1..] == p[n..];
    } else {
      assert p[0..] == p;
    }
  }

  lemma {:induction false} AllExtend(prefix: string, p: seq<string>, n: nat)
    requires n <= |p|
    requires forall i :: 0 <= i < n ==> Less(prefix, p[i]) && prefix <= p[i]
    requires forall i :: n <= i < |p| ==> !(prefix <= p[i])
    ensures Extensions(prefix, p) == p[..n]
  {
    if n > 0 {
      LessIrreflexive(p[0]);
      assert prefix != p[0];
      AllExtend(prefix, p[1..], n - 1);
      assert p[..n] == [p[0]] + p[1..][..n - 1];
    } else if p != [] {
      AllExtend(prefix, p[1..], 0);
    }
  }

  /*** What the textual prefix means ***/

  /** x lies in the directory or one of its subdirectories, component by component. */
  ghost predicate StrictlyInside(dir: string, x: string) {
    Below(dir, x) && CleanSegs(dir) != CleanSegs(x)
  }

  /** The directory has a name of its own: it is not ., / or a chain of .. . */
  ghost predicate Named(dir: string) {
    var segs := CleanSegs(dir);
    segs != [] && segs[|segs| - 1] != ".."
  }

  /** As text, a/ starts b exactly if the components of a properly start those of b. */
  lemma {:induction false} SlashedPrefix(a: seq<string>, b: seq<string>)
    requires a != [] && b != [] && NoSlash(a) && NoSlash(b) && "" !in b
    ensures Slashed(a) + "/" < Slashed(b) <==> a < b
  {
    var sa, sb := Slashed(a), Slashed(b);
    SplitSlashed(a);
    SplitSlashed(b);
    if sa + "/" <= sb {
      var rest := sb[|sa| + 1..];
      assert sb == sa + "/" + rest;
      SplitConcat(sa, rest);
      assert b == a + Split(rest);
    }
    if a < b {
      assert b == a + b[|a|..];
      SlashedAppend(a, b[|a|..]);
    }
  }

  /** For a directory with a name, and a clean path, the two agree. */
  lemma PrefixIsInside(dir: string, x: string)
    requires Named(dir) && Clean(x) == x
    ensures DirPrefix(dir) < x <==> StrictlyInside(dir, x)
  {
    var a, b := CleanSegs(dir), CleanSegs(x);
    CleanSegsNormal(dir);
    CleanSegsNormal(x);
    SlashedStart(a);
    if b == [] {
      assert |x| == 1;
      assert |DirPrefix(dir)| >= 2;
    } else {
      SlashedStart(b);
      SlashedPrefix(a, b);
      RenderPrefix(IsAbs(dir), a, IsAbs(x), b);
      assert a < b ==> b[|a| - 1] == a[|a| - 1];
    }
  }

  lemma RenderPrefix(absA: bool, a: seq<string>, absB: bool, b: seq<string>)
    requires a != [] && b != [] && a[0] != "" && b[0] != "" && a[0][0] != '/' && b[0][0] != '/'
    ensures Render(absA, a) + "/" < Render(absB, b) <==> absA == absB && Slashed(a) + "/" < Slashed(b)
  {
    SlashedStart(a);
    SlashedStart(b);
    var sa, sb := Slashed(a) + "/", Slashed(b);
    if absA {
      assert Render(absA, a) + "/" == "/" + sa;
    }
    assert "/" + sa < "/" + sb <==> sa < sb by {
      assert ("/" + sa)[1..] == sa && ("/" + sb)[1..] == sb;
    }
  }

  /** Nothing is found in . or / . */
  lemma RootDiffers(dir: string) returns (x: string)
    requires CleanSegs(dir) == []
    ensures Clean(x) == x && !(DirPrefix(dir) < x) && StrictlyInside(dir, x)
  {
    var abs, b := IsAbs(dir), ["a"];
    assert Normal(abs, b);
    x := Render(abs, b);
    RenderReads(abs, b);
    assert Slashed(b) == "a";
    assert DirPrefix(dir)[1] == '/' && (abs ==> x[1] == 'a');
  }

  /** What is found in ../.. includes directories above it. */
  lemma DotDotDiffers(dir: string) returns (x: string)
    requires CleanSegs(dir) != [] && !Named(dir)
    ensures Clean(x) == x && DirPrefix(dir) < x && !StrictlyInside(dir, x)
  {
    var abs, a := IsAbs(dir), CleanSegs(dir);
    CleanSegsNormal(dir);
    var b := a + [".."];
    NormalDotDot(abs, a);
    x := Render(abs, b);
    RenderReads(abs, b);
    assert a < b;
    SlashedPrefix(a, b);
    RenderPrefix(abs, a, abs, b);
  }

  lemma NormalDotDot(abs: bool, a: seq<string>)
    requires Normal(abs, a) && a != [] && a[|a| - 1] == ".."
    ensures Normal(abs, a + [".."])
  {
    assert '/' !in "..";
  }

  /** PathsInDirectory finds what is in the directory, for every list of clean paths, exactly if
      the directory has a name of its own. */
  lemma PrefixIsInsideIff(dir: string)
    ensures Named(dir) <==> forall x :: Clean(x) == x ==> (DirPrefix(dir) < x <==> StrictlyInside(dir, x))
  {
    if Named(dir) {
      forall x | Clean(x) == x ensures DirPrefix(dir) < x <==> StrictlyInside(dir, x) {
        PrefixIsInside(dir, x);
      }
    } else if CleanSegs(dir) == [] {
      var x := RootDiffers(dir);
    } else {
      var x := DotDotDiffers(dir);
    }
  }
}
