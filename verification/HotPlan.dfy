/** Which stretches of the model file are kept resident, within a budget of bytes. */
module HotPlan {
  datatype Range = Range(offset: nat, bytes: nat)

  const MAX_RANGES: nat := 2048

  function AlignDown(v: nat, page: nat): (r: nat)
    requires page > 0
    ensures r <= v < r + page
  {
    v - v % page
  }

  function RoundUp(v: nat, page: nat): (r: nat)
    ensures r >= v
  {
    if page == 0 then v
    else
      var w := v + page - 1;
      w - w % page
  }

  predicate In(r: Range, x: nat) {
    r.offset <= x < r.offset + r.bytes
  }

  ghost predicate Has(rs: seq<Range>, x: nat) {
    exists i :: 0 <= i < |rs| && In(rs[i], x)
  }

  function Total(rs: seq<Range>): nat {
    if rs == [] then 0 else Total(rs[..|rs| - 1]) + rs[|rs| - 1].bytes
  }

  // ----- the size of a union -----

  ghost function Span(offset: nat, n: nat): set<nat> {
    if n == 0 then {} else Span(offset, n - 1) + {offset + n - 1}
  }

  ghost function Bytes(rs: seq<Range>): set<nat> {
    if rs == [] then {} else Bytes(rs[..|rs| - 1]) + Span(rs[|rs| - 1].offset, rs[|rs| - 1].bytes)
  }

  lemma {:induction false} SpanSize(offset: nat, n: nat)
    ensures |Span(offset, n)| == n && forall x: nat :: x in Span(offset, n) <==> offset <= x < offset + n
  {
    if n > 0 { SpanSize(offset, n - 1); }
  }

  lemma {:induction false} BytesHas(rs: seq<Range>, x: nat)
    ensures x in Bytes(rs) <==> Has(rs, x)
  {
    hide In;
    if rs != [] {
      var n := |rs| - 1;
      BytesHas(rs[..n], x);
      SpanIn(rs[n], x);
      assert forall i :: 0 <= i < n ==> rs[..n][i] == rs[i];
    }
  }

  lemma SpanIn(r: Range, x: nat)
    ensures x in Span(r.offset, r.bytes) <==> In(r, x)
  {
    SpanSize(r.offset, r.bytes);
  }

  /** Ranges cover at most the sum of their sizes. */
  lemma {:induction false} UnionAtMost(rs: seq<Range>)
    ensures |Bytes(rs)| <= Total(rs)
  {
    if rs != [] {
      var n := |rs| - 1;
      UnionAtMost(rs[..n]);
      SpanSize(rs[n].offset, rs[n].bytes);
      UnionSize(Bytes(rs[..n]), Span(rs[n].offset, rs[n].bytes));
    }
  }

  lemma UnionSize(a: set<nat>, b: set<nat>)
    ensures |a + b| <= |a| + |b| && (a !! b ==> |a + b| == |a| + |b|)
  {
    assert a + b == a + (b - a);
    assert a !! (b - a);
  }

  /** In order, without touching one another, and none of them empty. */
  ghost predicate Separated(rs: seq<Range>) {
    && (forall i :: 0 <= i < |rs| ==> rs[i].bytes > 0)
    && (forall i, j :: 0 <= i < j < |rs| ==> rs[i].offset + rs[i].bytes < rs[j].offset)
  }

  lemma {:induction false} SeparatedSize(rs: seq<Range>)
    requires Separated(rs)
    ensures |Bytes(rs)| == Total(rs)
  {
    if rs != [] {
      var n := |rs| - 1;
      SeparatedSize(rs[..n]);
      SpanSize(rs[n].offset, rs[n].bytes);
      forall x: nat | x in Bytes(rs[..n])
        ensures x !in Span(rs[n].offset, rs[n].bytes)
      {
        BytesHas(rs[..n], x);
        var i :| 0 <= i < n && In(rs[..n][i], x);
      }
      UnionSize(Bytes(rs[..n]), Span(rs[n].offset, rs[n].bytes));
    }
  }

  lemma SameSize(a: seq<Range>, b: seq<Range>)
    requires forall x: nat :: Has(a, x) <==> Has(b, x)
    ensures Bytes(a) == Bytes(b)
  {
    forall x: nat
      ensures x in Bytes(a) <==> x in Bytes(b)
    {
      BytesHas(a, x);
      BytesHas(b, x);
    }
  }

  // ----- sorting, as the library does -----

  predicate LessEq(a: Range, b: Range) {
    a.offset < b.offset || (a.offset == b.offset && a.bytes <= b.bytes)
  }

  function InsertSorted(r: Range, rs: seq<Range>): (s: seq<Range>)
    ensures |s| == |rs| + 1 && forall x :: x in s <==> x == r || x in rs
  {
    if rs == [] then [r] else if LessEq(r, rs[0]) then [r] + rs else [rs[0]] + InsertSorted(r, rs[1..])
  }

  function SortRanges(rs: seq<Range>): (s: seq<Range>)
    ensures |s| == |rs| && forall x :: x in s <==> x in rs
  {
    if rs == [] then [] else InsertSorted(rs[0], SortRanges(rs[1..]))
  }

  ghost predicate Sorted(rs: seq<Range>) {
    forall i, j :: 0 <= i < j < |rs| ==> LessEq(rs[i], rs[j])
  }

  lemma {:induction false} InsertKeeps(r: Range, rs: seq<Range>)
    requires Sorted(rs)
    ensures Sorted(InsertSorted(r, rs))
  {
    if rs != [] && !LessEq(r, rs[0]) {
      InsertKeeps(r, rs[1..]);
      var rest := InsertSorted(r, rs[1..]);
      assert forall j :: 0 <= j < |rest| ==> rest[j] in rest;
    }
  }

  lemma {:induction false} SortSorts(rs: seq<Range>)
    ensures Sorted(SortRanges(rs))
  {
    if rs != [] {
      SortSorts(rs[1..]);
      InsertKeeps(rs[0], SortRanges(rs[1..]));
    }
  }

  lemma SameHas(a: seq<Range>, b: seq<Range>)
    requires forall r :: r in a <==> r in b
    ensures forall x: nat :: Has(a, x) <==> Has(b, x)
  {
    forall x: nat
      ensures Has(a, x) <==> Has(b, x)
    {
      if Has(a, x) {
        var i :| 0 <= i < |a| && In(a[i], x);
        assert a[i] in b;
      }
      if Has(b, x) {
        var i :| 0 <= i < |b| && In(b[i], x);
        assert b[i] in a;
      }
    }
  }

  // ----- merging in place -----

  /** Joins ranges that overlap or touch, and drops empty ones, within the array;
      the first `m` elements are what is left. */
  method Compact(a: array<Range>) returns (m: nat)
    requires Sorted(a[..])
    modifies a
    ensures m <= a.Length && Separated(a[..m])
    ensures forall x: nat :: Has(a[..m], x) <==> Has(old(a[..]), x)
  {
    hide Has;
    m := 0;
    ghost var s := a[..];
    HasNone();
    assert s[..0] == [] && a[..0] == [];
    for i := 0 to a.Length
      invariant m <= i && a[i..] == s[i..]
      invariant Separated(a[..m])
      invariant i < |s| && m > 0 ==> a[m - 1].offset <= s[i].offset
      invariant forall x: nat :: Has(a[..m], x) <==> Has(s[..i], x)
    {
      var r := a[i];
      assert r == s[i];
      HasMore(s, i);
      ghost var out := a[..m];
      if r.bytes == 0 { continue; }
      if m != 0 && r.offset <= a[m - 1].offset + a[m - 1].bytes {
        var last := a[m - 1];
        if r.offset + r.bytes > last.offset + last.bytes {
          a[m - 1] := Range(last.offset, r.offset + r.bytes - last.offset);
        }
        assert a[..m] == out[m - 1 := a[m - 1]];
        LastGrows(out, a[m - 1], r);
        assert forall x: nat :: Has(a[..m], x) <==> Has(s[..i], x) || In(r, x);
        continue;
      }
      a[m] := r;
      assert a[..m + 1] == out + [r];
      HasAdded(out, r);
      m := m + 1;
      assert forall x: nat :: Has(a[..m], x) <==> Has(s[..i], x) || In(r, x);
    }
    assert s[..|s|] == s;
  }

  lemma HasNone()
    ensures forall x: nat :: !Has([], x)
  {
  }

  lemma HasMore(s: seq<Range>, i: nat)
    requires i < |s|
    ensures forall x: nat :: Has(s[..i + 1], x) <==> Has(s[..i], x) || In(s[i], x)
  {
    assert s[..i + 1] == s[..i] + [s[i]];
    HasAdded(s[..i], s[i]);
  }

  lemma HasAdded(s: seq<Range>, r: Range)
    ensures forall x: nat :: Has(s + [r], x) <==> Has(s, x) || In(r, x)
  {
    forall x: nat
      ensures Has(s + [r], x) <==> Has(s, x) || In(r, x)
    {
      if Has(s, x) {
        var i :| 0 <= i < |s| && In(s[i], x);
        assert In((s + [r])[i], x);
      }
      if In(r, x) { assert In((s + [r])[|s|], x); }
    }
  }

  /** The last range takes in the next one that overlaps or touches it. */
  lemma LastGrows(out: seq<Range>, last: Range, r: Range)
    requires out != [] && Separated(out) && r.bytes > 0
    requires var o := out[|out| - 1];
             && o.offset <= r.offset <= o.offset + o.bytes && last.offset == o.offset
             && last.bytes == if r.offset + r.bytes > o.offset + o.bytes then r.offset + r.bytes - o.offset else o.bytes
    ensures Separated(out[|out| - 1 := last])
    ensures forall x: nat :: Has(out[|out| - 1 := last], x) <==> Has(out, x) || In(r, x)
  {
    var n := |out| - 1;
    var o, init := out[n], out[..n];
    assert out == init + [o] && out[n := last] == init + [last];
    HasAdded(init, o);
    HasAdded(init, last);
  }

  // ----- the plan -----

  class Plan {
    const budget: nat
    var ranges: seq<Range>
    var selected: nat
    var skippedCount: nat
    var skippedBytes: nat

    ghost predicate Valid()
      reads this
    {
      selected == Total(ranges) && selected <= budget
    }

    constructor (budget: nat)
      ensures Valid() && ranges == [] && skippedCount == 0 && skippedBytes == 0 && this.budget == budget
    {
      this.budget := budget;
      ranges, selected, skippedCount, skippedBytes := [], 0, 0, 0;
    }

    /** Keeps the same bytes with as few ranges as possible. */
    method Merge()
      requires Valid()
      modifies `ranges, `selected
      ensures Valid() && selected <= old(selected)
      ensures forall x: nat :: Has(ranges, x) <==> Has(old(ranges), x)
      ensures selected == |Bytes(ranges)| == |Bytes(old(ranges))|
      ensures |old(ranges)| >= 2 ==> Separated(ranges)
      ensures |ranges| <= |old(ranges)|
    {
      UnionAtMost(ranges);
      if |ranges| < 2 {
        FewSize(ranges);
        return;
      }
      var s := SortRanges(ranges);
      SortSorts(ranges);
      SameHas(s, ranges);
      var a := new Range[|s|](i requires 0 <= i < |s| => s[i]);
      assert a[..] == s;
      var m := Compact(a);
      var sum := 0;
      for i := 0 to m
        invariant sum == Total(a[..i])
      {
        assert a[..i + 1][..i] == a[..i];
        sum := sum + a[i].bytes;
      }
      ranges, selected := a[..m], sum;
      SeparatedSize(ranges);
      SameSize(ranges, old(ranges));
    }

    lemma FewSize(rs: seq<Range>)
      requires |rs| < 2
      ensures |Bytes(rs)| == Total(rs)
    {
      if rs != [] {
        SpanSize(rs[0].offset, rs[0].bytes);
        assert rs[..0] == [] && Bytes(rs) == Span(rs[0].offset, rs[0].bytes);
      }
    }

    /** Adds the pages of a tensor. It is passed over exactly when they are no range
        already and there are too many ranges, or more bytes than the budget with
        those covered so far. */
    method AddTensor(absOffset: nat, dataBytes: nat, page: nat) returns (taken: bool)
      requires Valid() && page > 0
      modifies `ranges, `selected, `skippedCount, `skippedBytes
      ensures var view := View(absOffset, dataBytes, page);
        && Valid()
        && taken == (view in old(ranges) || (|old(ranges)| < MAX_RANGES && |Bytes(old(ranges))| + view.bytes <= budget))
        && (forall x: nat :: Has(ranges, x) <==> Has(old(ranges), x) || (taken && In(view, x)))
        && skippedCount == old(skippedCount) + (if taken then 0 else 1)
        && skippedBytes == old(skippedBytes) + (if taken then 0 else view.bytes)
        && |ranges| <= if |old(ranges)| < MAX_RANGES then MAX_RANGES else |old(ranges)|
    {
      var view := View(absOffset, dataBytes, page);
      taken := false;
      UnionAtMost(ranges);
      for i := 0 to |ranges|
        invariant view !in ranges[..i]
      {
        if ranges[i] == view {
          assert forall x: nat :: In(view, x) ==> In(ranges[i], x);
          return true;
        }
      }
      if |ranges| >= MAX_RANGES || view.bytes > budget {
        skippedCount, skippedBytes := skippedCount + 1, skippedBytes + view.bytes;
        return;
      }
      if selected > budget - view.bytes { Merge(); }
      if selected > budget - view.bytes {
        skippedCount, skippedBytes := skippedCount + 1, skippedBytes + view.bytes;
        return;
      }
      HasAdded(ranges, view);
      ghost var was := ranges;
      ranges := ranges + [view];
      assert ranges[..|ranges| - 1] == was;
      selected := selected + view.bytes;
      taken := true;
    }

    /** Plans all tensors, in order of importance. `accepted` are those not passed
        over: their bytes stay covered, whatever is added and merged after them. */
    method Build(tensors: seq<(nat, nat)>, page: nat) returns (ghost accepted: set<nat>)
      requires page > 0 && ranges == [] && selected == 0 && skippedCount == 0 && skippedBytes == 0
      modifies this
      ensures selected <= budget && selected == |Bytes(ranges)| && |ranges| <= MAX_RANGES
      ensures Separated(ranges) || |ranges| == 1
      ensures (forall k :: k in accepted ==> 0 <= k < |tensors|) && |accepted| + skippedCount == |tensors|
      ensures forall k, x: nat :: k in accepted && tensors[k].0 <= x < tensors[k].0 + tensors[k].1 ==> Has(ranges, x)
      ensures forall x: nat :: Has(ranges, x) ==>
        exists k :: k in accepted && In(View(tensors[k].0, tensors[k].1, page), x)
    {
      hide Total, Has, In, View;
      accepted := {};
      NoneHas();
      for i := 0 to |tensors|
        invariant Valid() && |ranges| <= MAX_RANGES
        invariant (forall k :: k in accepted ==> 0 <= k < i) && |accepted| + skippedCount == i
        invariant forall k, x: nat :: k in accepted && tensors[k].0 <= x < tensors[k].0 + tensors[k].1 ==>
          Has(ranges, x)
        invariant forall x: nat :: Has(ranges, x) ==>
          exists k :: k in accepted && In(View(tensors[k].0, tensors[k].1, page), x)
      {
        if tensors[i].1 == 0 {
          accepted := accepted + {i};
          continue;
        }
        ViewCovers(tensors[i].0, tensors[i].1, page);
        var taken := AddTensor(tensors[i].0, tensors[i].1, page);
        if taken { accepted := accepted + {i}; }
      }
      Merge();
    }
  }

  lemma NoneHas()
    ensures Total([]) == 0 && forall x: nat :: !Has([], x)
  {
  }

  /** The whole pages around a tensor. */
  function View(absOffset: nat, dataBytes: nat, page: nat): Range
    requires page > 0
  {
    var offset := AlignDown(absOffset, page);
    Range(offset, RoundUp(absOffset - offset + dataBytes, page))
  }

  lemma ViewCovers(absOffset: nat, dataBytes: nat, page: nat)
    requires page > 0
    ensures forall x: nat :: absOffset <= x < absOffset + dataBytes ==> In(View(absOffset, dataBytes, page), x)
    ensures View(absOffset, dataBytes, page).offset % page == 0 && View(absOffset, dataBytes, page).bytes % page == 0
  {
    Aligned(absOffset, page);
    Aligned(absOffset - AlignDown(absOffset, page) + dataBytes + page - 1, page);
  }

  /** No smaller range of whole pages covers the tensor. */
  lemma ViewLeast(absOffset: nat, dataBytes: nat, page: nat, r: Range)
    requires page > 0 && dataBytes > 0
    requires r.offset % page == 0 && r.bytes % page == 0
    requires forall x: nat :: absOffset <= x < absOffset + dataBytes ==> In(r, x)
    ensures forall x: nat :: In(View(absOffset, dataBytes, page), x) ==> In(r, x)
  {
    var v := View(absOffset, dataBytes, page);
    assert In(r, absOffset) && In(r, absOffset + dataBytes - 1);
    Aligned(absOffset, page);
    Aligned(absOffset - v.offset + dataBytes + page - 1, page);
    if v.offset < r.offset {
      WholeGap(v.offset, r.offset, page);
    }
    SumWhole(v.offset, v.bytes, page);
    SumWhole(r.offset, r.bytes, page);
    if r.offset + r.bytes < v.offset + v.bytes {
      WholeGap(r.offset + r.bytes, v.offset + v.bytes, page);
    }
  }

  lemma SumWhole(a: nat, b: nat, page: nat)
    requires page > 0 && a % page == 0 && b % page == 0
    ensures (a + b) % page == 0
  {
    var d := a / page + b / page - (a + b) / page;
    assert d * page == (a + b) % page;
    assert d >= 1 ==> d * page >= page;
    assert d <= -1 ==> d * page < 0;
  }

  /** Two different page starts are a page apart. */
  lemma WholeGap(a: nat, b: nat, page: nat)
    requires page > 0 && a % page == 0 && b % page == 0 && a < b
    ensures a + page <= b
  {
    var d := b / page - a / page;
    assert d * page == b - a;
    assert d <= 0 ==> d * page <= 0;
    assert d >= 1 ==> d * page >= page;
  }

  lemma Aligned(v: nat, page: nat)
    requires page > 0
    ensures (v - v % page) % page == 0
  {
    var w := v - v % page;
    var d: int := v / page - w / page;
    assert d * page == w % page;
    assert d >= 1 ==> d * page >= page;
    assert d <= -1 ==> d * page + page <= 0;
  }
}
