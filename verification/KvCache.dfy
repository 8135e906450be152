/** The ring caches of rows, and the choice of the compressed rows a token may see. */
module KvCache {
  import Compressor

  /** How many tokens of a layer make one compressed row; 0 for none. */
  function LayerRatio(il: nat): nat {
    if il < 2 then 0 else if il % 2 == 0 then 4 else 128
  }

  function CompCap(ctx: nat, ratio: nat): nat
    requires ratio > 0
  {
    ctx / ratio + 2
  }

  /** A context never makes more compressed rows than the cache holds. */
  lemma CapSuffices(ctx: nat, ratio: nat, tokens: nat)
    requires ratio > 0 && tokens <= ctx
    ensures tokens / ratio + 2 <= CompCap(ctx, ratio)
  {
    var a, b := tokens / ratio, ctx / ratio;
    assert a * ratio <= tokens && ctx < b * ratio + ratio;
    assert a >= b + 1 ==> a * ratio >= b * ratio + ratio by { assert (b + 1) * ratio == b * ratio + ratio; }
  }

  /** What a row becomes when it is stored in half precision. */
  function Halved(kv: seq<real>, half: real -> real): (r: seq<real>)
    ensures |r| == |kv| && forall i :: 0 <= i < |kv| ==> r[i] == half(kv[i])
  {
    seq(|kv|, i requires 0 <= i < |kv| => half(kv[i]))
  }

  /** The slot of row `i`, counted from the oldest of `n` that end before `write`. */
  function SlotAt(cap: nat, write: nat, n: nat, i: nat): int {
    var start := if write < n then write - n + cap else write - n;
    if start + i >= cap then start + i - cap else start + i
  }

  /** Each row keeps its slot when one is added; a full ring gives the slot of the
      oldest to the newest. */
  lemma SlotNext(cap: nat, write: nat, n: nat, i: nat)
    requires write < cap && n <= cap
    ensures var w' := if write + 1 >= cap then 0 else write + 1;
            var n' := if n < cap then n + 1 else n;
            && (i == n' - 1 ==> SlotAt(cap, w', n', i) == write)
            && (i < n' - 1 ==> SlotAt(cap, w', n', i) == SlotAt(cap, write, n, if n == cap then i + 1 else i) != write
                               && 0 <= SlotAt(cap, w', n', i) < cap)
  {
  }

  class Ring {
    const rowDim: nat
    const cap: nat
    const data: array2<real>
    var write: nat
    var n: nat
    // All rows ever pushed.
    ghost var history: seq<seq<real>>

    /** The slot of row `i`, from the oldest kept, holds that row of the history. */
    ghost predicate Holds(i: nat)
      requires data.Length0 == cap && data.Length1 == rowDim && i < n <= |history|
      reads this, data
    {
      var k, row := SlotAt(cap, write, n, i), history[|history| - n + i];
      |row| == rowDim && 0 <= k < cap && forall j :: 0 <= j < rowDim ==> data[k, j] == row[j]
    }

    ghost predicate Valid()
      reads this, data
    {
      && data.Length0 == cap && data.Length1 == rowDim
      && n == (if |history| < cap then |history| else cap)
      && (if cap == 0 then write == 0 else write < cap)
      && (forall r :: r in history ==> |r| == rowDim)
      && (forall i {:trigger Holds(i)} :: 0 <= i < n ==> Holds(i))
    }

    constructor (rowDim: nat, cap: nat)
      ensures Valid() && history == [] && this.rowDim == rowDim && this.cap == cap && fresh(data)
    {
      this.rowDim, this.cap := rowDim, cap;
      data := new real[cap, rowDim]((_, _) => 0.0);
      write, n, history := 0, 0, [];
    }

    /** Adds a row; a full ring loses its oldest. */
    method Push(kv: seq<real>, half: real -> real)
      requires Valid() && |kv| == rowDim
      modifies this, data
      ensures Valid()
      ensures history == if cap == 0 then old(history) else old(history) + [Halved(kv, half)]
    {
      if cap == 0 { return; }
      hide SlotAt, Halved;
      ghost var row, was, w0, n0 := Halved(kv, half), history, write, n;
      WriteRow(kv, half);
      forall i | 0 <= i < n && SlotAt(cap, write, n, i) != write
        ensures Holds(i)
      {
        assert old(Holds(i));
      }
      Advance(row);
    }

    /** The row just written becomes the newest. */
    method Advance(ghost row: seq<real>)
      requires cap > 0 && data.Length0 == cap && data.Length1 == rowDim && |row| == rowDim
      requires write < cap && n == (if |history| < cap then |history| else cap)
      requires forall r :: r in history ==> |r| == rowDim
      requires forall j :: 0 <= j < rowDim ==> data[write, j] == row[j]
      requires forall i {:trigger Holds(i)} :: 0 <= i < n && SlotAt(cap, write, n, i) != write ==> Holds(i)
      modifies this
      ensures Valid() && history == old(history) + [row]
    {
      hide SlotAt;
      ghost var was, w0, n0 := history, write, n;
      write := write + 1;
      if write >= cap { write := 0; }
      if n < cap { n := n + 1; }
      history := history + [row];
      assert forall r :: r in history ==> r in was || r == row;
      forall i | 0 <= i < n
        ensures Holds(i)
      {
        SlotNext(cap, w0, n0, i);
        if i == n - 1 {
          assert history[|history| - n + i] == row;
        } else {
          var o := if n0 == cap then i + 1 else i;
          assert old(Holds(o));
          assert history[|history| - n + i] == was[|was| - n0 + o];
        }
      }
    }

    method WriteRow(kv: seq<real>, half: real -> real)
      requires |kv| == rowDim && data.Length0 == cap && data.Length1 == rowDim && write < cap
      modifies data
      ensures forall k, j :: 0 <= k < cap && 0 <= j < rowDim ==>
        data[k, j] == if k == write then Halved(kv, half)[j] else old(data[k, j])
      ensures |Halved(kv, half)| == rowDim
    {
      for c := 0 to rowDim
        invariant forall k, j :: 0 <= k < cap && 0 <= j < rowDim ==>
          data[k, j] == if k == write && j < c then half(kv[j]) else old(data[k, j])
      {
        data[write, c] := half(kv[c]);
      }
    }

    /** Row `i` in order of time, 0 the oldest kept. */
    method Row(i: nat) returns (r: seq<real>)
      requires Valid() && i < n
      ensures r == history[|history| - n + i]
    {
      assert Holds(i);
      var start := if write < n then write - n + cap else write - n;
      var idx := start + i;
      if idx >= cap { idx := idx - cap; }
      assert idx == SlotAt(cap, write, n, i);
      r := [];
      for j := 0 to rowDim
        invariant |r| == j && forall k :: 0 <= k < j ==> r[k] == history[|history| - n + i][k]
      {
        r := r + [data[idx, j]];
      }
    }
  }

  // ----- the rows a token may see -----

  function Count(b: seq<bool>): nat {
    if b == [] then 0 else Count(b[..|b| - 1]) + if b[|b| - 1] then 1 else 0
  }

  lemma {:induction false} CountSet(b: seq<bool>, i: nat)
    requires i < |b| && !b[i]
    ensures Count(b[i := true]) == Count(b) + 1
  {
    var n := |b| - 1;
    if i < n {
      CountSet(b[..n], i);
      assert b[i := true][..n] == b[..n][i := true];
    } else {
      assert b[i := true][..n] == b[..n];
    }
  }

  /** Fewer rows count less, and exactly as much only when they are the same. */
  lemma {:induction false} CountWithin(a: seq<bool>, b: seq<bool>)
    requires |a| == |b| && forall i :: 0 <= i < |a| && a[i] ==> b[i]
    ensures Count(a) <= Count(b) && (Count(a) == Count(b) <==> a == b)
  {
    if a != [] {
      var n := |a| - 1;
      CountWithin(a[..n], b[..n]);
      assert a == a[..n] + [a[n]] && b == b[..n] + [b[n]];
    }
  }

  /** Among the best: no row left out is better, nor as good and earlier. */
  ghost predicate Best(scores: seq<real>, allowed: seq<bool>)
    requires |scores| == |allowed|
  {
    forall a, b :: 0 <= a < |scores| && 0 <= b < |scores| && allowed[a] && !allowed[b] ==>
      scores[a] > scores[b] || (scores[a] == scores[b] && a < b)
  }

  /** The rows with a score above that of an empty one. */
  function Scored(scores: seq<real>): (r: seq<bool>)
    ensures |r| == |scores| && forall i :: 0 <= i < |scores| ==> r[i] == (scores[i] > Compressor.EMPTY_SCORE)
  {
    seq(|scores|, i requires 0 <= i < |scores| => scores[i] > Compressor.EMPTY_SCORE)
  }

  function Least(a: nat, b: nat): nat {
    if a < b then a else b
  }

  /** All rows if there are no more than `topK`, else the best `topK` of those with a
      score; among equals the earlier. */
  method Allow(scores: seq<real>, topK: nat) returns (allowed: seq<bool>)
    ensures |allowed| == |scores|
    ensures topK >= |scores| ==> forall i :: 0 <= i < |scores| ==> allowed[i]
    ensures topK < |scores| ==> Count(allowed) == Least(topK, Count(Scored(scores)))
    ensures topK < |scores| ==> Best(scores, allowed) && forall i :: 0 <= i < |scores| && allowed[i] ==>
      Scored(scores)[i]
  {
    hide Count;
    var n := |scores|;
    allowed := seq(n, _ => false);
    var top := if topK > n then n else topK;
    NoneAllowed(n);
    if top == n {
      allowed := seq(n, _ => true);
      return;
    }
    for k := 0 to top
      invariant |allowed| == n && Best(scores, allowed) && forall i :: 0 <= i < n && allowed[i] ==> Scored(scores)[i]
      invariant Count(allowed) == Least(k, Count(Scored(scores)))
    {
      var best, bestScore := -1, Compressor.EMPTY_SCORE;
      for c := 0 to n
        invariant -1 <= best < c
        invariant best < 0 ==> bestScore == Compressor.EMPTY_SCORE && forall i :: 0 <= i < c ==>
          allowed[i] || !Scored(scores)[i]
        invariant best >= 0 ==> bestScore == scores[best] > Compressor.EMPTY_SCORE && !allowed[best]
        invariant best >= 0 ==> forall i :: 0 <= i < c && !allowed[i] ==>
          scores[i] < scores[best] || (scores[i] == scores[best] && best <= i)
      {
        if !allowed[c] && scores[c] > bestScore { best, bestScore := c, scores[c]; }
      }
      CountWithin(allowed, Scored(scores));
      if best >= 0 {
        CountSet(allowed, best);
        allowed := allowed[best := true];
      }
    }
  }

  lemma {:induction false} NoneAllowed(n: nat)
    ensures Count(seq(n, _ => false)) == 0
  {
    if n > 0 {
      NoneAllowed(n - 1);
      assert seq(n, _ => false)[..n - 1] == seq(n - 1, _ => false);
    }
  }
}
