/** splitListForSize of cc/builder.go: breaking a list of file names into command lines. */
module SplitList {
  import opened Text

  datatype SplitResult = Lists(lists: seq<seq<string>>) | TooLong | Panic

  function Flatten(lists: seq<seq<string>>): seq<string> {
    if lists == [] then [] else lists[0] + Flatten(lists[1..])
  }

  ghost predicate Fits(chunk: seq<string>, limit: int) {
    |Joined(chunk, " ")| <= limit
  }

  ghost predicate AllFit(lists: seq<seq<string>>, limit: int) {
    forall i :: 0 <= i < |lists| ==> Fits(lists[i], limit)
  }

  ghost predicate NoneEmpty(lists: seq<seq<string>>) {
    forall i :: 0 <= i < |lists| ==> lists[i] != []
  }

  /** No chunk has room for the element that follows it. */
  ghost predicate Tight(lists: seq<seq<string>>, limit: int)
    requires NoneEmpty(lists)
  {
    forall i :: 0 <= i < |lists| - 1 ==> !Fits(lists[i] + [lists[i + 1][0]], limit)
  }

  /** Nonempty chunks that fit, each of them full. */
  ghost predicate Greedy(lists: seq<seq<string>>, limit: int) {
    NoneEmpty(lists) && AllFit(lists, limit) && Tight(lists, limit)
  }

  lemma GreedySnoc(lists: seq<seq<string>>, chunk: seq<string>, limit: int)
    requires Greedy(lists, limit) && chunk != [] && Fits(chunk, limit)
    requires lists != [] ==> !Fits(lists[|lists| - 1] + [chunk[0]], limit)
    ensures Greedy(lists + [chunk], limit)
  {
    var r := lists + [chunk];
    forall i | 0 <= i < |r| - 1 ensures !Fits(r[i] + [r[i + 1][0]], limit) {
      assert i < |lists| - 1 ==> r[i + 1] == lists[i + 1];
    }
  }

  /** The room a chunk takes if each element is followed by a space. */
  function Cost(chunk: seq<string>): nat {
    if chunk == [] then 0 else |chunk[0]| + 1 + Cost(chunk[1..])
  }

  lemma {:induction false} JoinedCost(chunk: seq<string>)
    requires chunk != []
    ensures |Joined(chunk, " ")| == Cost(chunk) - 1
  {
    if |chunk| > 1 { JoinedCost(chunk[1..]); }
  }

  lemma {:induction false} CostAppend(a: seq<string>, b: seq<string>)
    ensures Cost(a + b) == Cost(a) + Cost(b)
  {
    if a == [] {
      assert a + b == b;
    } else {
      assert (a + b)[1..] == a[1..] + b;
      CostAppend(a[1..], b);
    }
  }

  lemma {:induction false} FlattenSnoc(lists: seq<seq<string>>, chunk: seq<string>)
    ensures Flatten(lists + [chunk]) == Flatten(lists) + chunk
  {
    if lists == [] {
      assert [] + [chunk] == [chunk] && Flatten([chunk]) == chunk + [];
    } else {
      assert (lists + [chunk])[1..] == lists[1..] + [chunk];
      FlattenSnoc(lists[1..], chunk);
      Assoc(lists[0], Flatten(lists[1..]), chunk);
    }
  }

  method TotalLen(lists: seq<seq<string>>) returns (totalLen: nat)
    ensures totalLen == |Flatten(lists)|
  {
    totalLen := 0;
    for k := 0 to |lists|
      invariant totalLen == |Flatten(lists[..k])|
    {
      assert lists[..k + 1] == lists[..k] + [lists[k]];
      FlattenSnoc(lists[..k], lists[k]);
      totalLen := totalLen + |lists[k]|;
    }
    assert lists[..|lists|] == lists;
  }

  /** The chunks closed so far are closed for good reason: the next element starts the open chunk. */
  ghost predicate Closed(lists: seq<seq<string>>, list: seq<string>, start: nat, limit: int) {
    && start <= |list| && Flatten(lists) == list[..start] && Greedy(lists, limit)
    && (lists != [] ==> start < |list| && !Fits(lists[|lists| - 1] + [list[start]], limit))
  }

  /** The elements before i are dealt with; those from start on make the open chunk. */
  ghost predicate Scanned(lists: seq<seq<string>>, list: seq<string>, start: nat, i: nat, bytes: int, limit: int) {
    && start <= i <= |list| && (i > 0 ==> start < i && bytes - 1 <= limit) && (i == 0 ==> lists == [])
    && Closed(lists, list, start, limit) && bytes == Cost(list[start..i])
  }

  lemma ScanMore(lists: seq<seq<string>>, list: seq<string>, start: nat, i: nat, bytes: int, limit: int)
    requires Scanned(lists, list, start, i, bytes, limit) && i < |list| && bytes + |list[i]| <= limit
    ensures Scanned(lists, list, start, i + 1, bytes + |list[i]| + 1, limit)
  {
    assert list[start..i + 1] == list[start..i] + [list[i]];
    CostAppend(list[start..i], [list[i]]);
  }

  lemma ScanNew(lists: seq<seq<string>>, list: seq<string>, start: nat, i: nat, bytes: int, limit: int)
    requires Scanned(lists, list, start, i, bytes, limit) && i < |list| && |list[i]| <= limit < bytes + |list[i]|
    ensures Scanned(lists + [list[start..i]], list, i, i + 1, |list[i]| + 1, limit)
  {
    CloseChunk(lists, list, start, i, limit);
    assert list[i..i + 1] == [list[i]];
  }

  lemma CloseChunk(lists: seq<seq<string>>, list: seq<string>, start: nat, i: nat, limit: int)
    requires Closed(lists, list, start, limit) && start < i < |list|
    requires Cost(list[start..i]) - 1 <= limit < Cost(list[start..i]) + |list[i]|
    ensures Closed(lists + [list[start..i]], list, i, limit)
  {
    var chunk := list[start..i];
    FlattenSnoc(lists, chunk);
    assert list[..i] == list[..start] + chunk;
    JoinedCost(chunk);
    GreedySnoc(lists, chunk, limit);
    JoinedCost(chunk + [list[i]]);
    CostAppend(chunk, [list[i]]);
  }

  lemma CloseLast(lists: seq<seq<string>>, list: seq<string>, start: nat, limit: int)
    requires Closed(lists, list, start, limit) && start < |list| && Cost(list[start..]) - 1 <= limit
    ensures Flatten(lists + [list[start..]]) == list && Greedy(lists + [list[start..]], limit)
  {
    var chunk := list[start..];
    FlattenSnoc(lists, chunk);
    assert list[..start] + chunk == list;
    JoinedCost(chunk);
    GreedySnoc(lists, chunk, limit);
  }

  /** splitListForSize */
  method SplitListForSize(list: seq<string>, limit: int) returns (r: SplitResult)
    ensures r.Lists? <==> forall i :: 0 <= i < |list| ==> |list[i]| <= limit
    ensures r.Lists? ==> Flatten(r.lists) == list
    ensures r.Lists? && list != [] ==> Greedy(r.lists, limit)
    ensures r.Lists? && list == [] ==> r.lists == [[]]
    ensures !r.Panic?
  {
    var start, bytes := 0, 0;
    var lists: seq<seq<string>> := [];
    for i := 0 to |list|
      invariant Scanned(lists, list, start, i, bytes, limit)
      invariant forall j :: 0 <= j < i ==> |list[j]| <= limit
    {
      var l := |list[i]|;
      if l > limit {
        return TooLong;
      }
      if bytes + l > limit {
        ScanNew(lists, list, start, i, bytes, limit);
        lists := lists + [list[start..i]];
        start := i;
        bytes := 0;
      } else {
        ScanMore(lists, list, start, i, bytes, limit);
      }
      bytes := bytes + l + 1;
    }
    assert list[start..|list|] == list[start..];
    if list != [] {
      CloseLast(lists, list, start, limit);
    }
    lists := lists + [list[start..]];
    var totalLen := TotalLen(lists);
    if totalLen != |list| {
      return Panic;
    }
    return Lists(lists);
  }

  /** A chunk fits only if every stretch of it does. */
  lemma StretchFits(o: seq<string>, i: nat, j: nat, limit: int)
    requires i < j <= |o| && Fits(o, limit)
    ensures Fits(o[i..j], limit)
  {
    assert o == o[..i] + (o[i..j] + o[j..]);
    CostAppend(o[..i], o[i..j] + o[j..]);
    CostAppend(o[i..j], o[j..]);
    JoinedCost(o);
    JoinedCost(o[i..j]);
  }

  /** Any other way to break up the list, or more than the list, takes at least as many chunks. */
  lemma {:induction false} GreedyStaysAhead(lists: seq<seq<string>>, other: seq<seq<string>>,
                                            limit: int, pre: seq<string>)
    requires NoneEmpty(lists) && Tight(lists, limit) && AllFit(other, limit)
    requires Flatten(other) == pre + Flatten(lists)
    ensures |lists| <= |other|
    decreases |other|
  {
    if lists != [] {
      assert lists[0] != [] && other != [];
      var c, o := lists[0], other[0];
      if |o| > |pre| + |c| && |lists| > 1 {
        TightChunkIsFull(lists, other, pre, limit);
      } else if |lists| > 1 {
        var pre' := (pre + c)[|o|..];
        assert Flatten(other[1..]) == Flatten(other)[|o|..];
        Assoc(pre, c, Flatten(lists[1..]));
        assert (pre + c + Flatten(lists[1..]))[|o|..] == pre' + Flatten(lists[1..]);
        GreedyStaysAhead(lists[1..], other[1..], limit, pre');
      }
    }
  }

  lemma TightChunkIsFull(lists: seq<seq<string>>, other: seq<seq<string>>, pre: seq<string>, limit: int)
    requires |lists| > 1 && other != [] && NoneEmpty(lists) && Tight(lists, limit) && AllFit(other, limit)
    requires Flatten(other) == pre + Flatten(lists)
    ensures |other[0]| <= |pre| + |lists[0]|
  {
    var o, tail := other[0], lists[1][1..] + Flatten(lists[2..]);
    FlattenTwo(lists);
    assert Fits(o, limit) && !Fits(lists[0] + [lists[1][0]], limit);
    FullStretch(o, Flatten(other[1..]), pre, lists[0], lists[1][0], tail, limit);
  }

  lemma FullStretch(o: seq<string>, rest: seq<string>, pre: seq<string>, c: seq<string>, x: string,
                    tail: seq<string>, limit: int)
    requires o + rest == pre + (c + ([x] + tail)) && Fits(o, limit) && !Fits(c + [x], limit)
    ensures |o| <= |pre| + |c|
  {
    if |o| > |pre| + |c| {
      StretchOf(o, rest, pre, c, x, tail);
      StretchFits(o, |pre|, |pre| + |c| + 1, limit);
    }
  }

  lemma FlattenTwo(lists: seq<seq<string>>)
    requires |lists| > 1 && lists[1] != []
    ensures Flatten(lists) == lists[0] + ([lists[1][0]] + (lists[1][1..] + Flatten(lists[2..])))
  {
    assert lists[1..][1..] == lists[2..];
    assert lists[1] == [lists[1][0]] + lists[1][1..];
    Assoc([lists[1][0]], lists[1][1..], Flatten(lists[2..]));
  }

  lemma StretchOf(o: seq<string>, rest: seq<string>, pre: seq<string>, c: seq<string>, x: string, tail: seq<string>)
    requires o + rest == pre + (c + ([x] + tail)) && |o| > |pre| + |c|
    ensures o[|pre|..|pre| + |c| + 1] == c + [x]
  {
    var all := o + rest;
    assert all[|pre|..] == c + ([x] + tail);
    assert o[|pre|..|pre| + |c| + 1] == all[|pre|..][..|c| + 1];
  }

  /** What splitListForSize returns for a nonempty list is the shortest way to break it up. */
  lemma {:induction false} GreedyIsShortest(lists: seq<seq<string>>, other: seq<seq<string>>, limit: int)
    requires NoneEmpty(lists) && Tight(lists, limit)
    requires AllFit(other, limit) && Flatten(other) == Flatten(lists)
    ensures |lists| <= |other|
  {
    var pre: seq<string> := [];
    assert pre + Flatten(lists) == Flatten(lists);
    GreedyStaysAhead(lists, other, limit, pre);
  }
}
