/** The rolling window that turns every `ratio` tokens into one compressed row, and
    the ring caches that keep rows. Rows are the second index of a table where the
    program computes offsets into one slice; numbers are reals. */
module Compressor {
  const EMPTY_SCORE: real := -1000000000000000000000000000000.0

  // What one token brings to the window: its values and its scores, lane A before
  // lane B when there are two.
  datatype Token = Token(kv: seq<real>, score: seq<real>)

  // One weighted value of a pool.
  datatype Entry = Entry(score: real, kv: real)

  // ----- pooling -----

  function Larger(a: real, b: real): real { if b > a then b else a }

  function MaxScore(es: seq<Entry>): real {
    if es == [] then EMPTY_SCORE else Larger(MaxScore(es[..|es| - 1]), es[|es| - 1].score)
  }

  function Denominator(es: seq<Entry>, exp: real -> real, m: real): real {
    if es == [] then 0.0 else Denominator(es[..|es| - 1], exp, m) + exp(es[|es| - 1].score - m)
  }

  function Term(e: Entry, exp: real -> real, m: real): real {
    exp(e.score - m) * e.kv
  }

  function Weighted(es: seq<Entry>, exp: real -> real, m: real): real {
    if es == [] then 0.0 else Weighted(es[..|es| - 1], exp, m) + Term(es[|es| - 1], exp, m)
  }

  /** The softmax average of the entries. */
  function Pool(es: seq<Entry>, exp: real -> real): real {
    var m := MaxScore(es);
    if m <= EMPTY_SCORE * 0.5 then 0.0
    else
      var d := Denominator(es, exp, m);
      if d > 0.0 then Weighted(es, exp, m) / d else 0.0
  }

  /** The entries that have a score. */
  function Scored(es: seq<Entry>): seq<Entry> {
    if es == [] then []
    else
      var e := es[|es| - 1];
      Scored(es[..|es| - 1]) + if e.score == EMPTY_SCORE then [] else [e]
  }

  lemma {:induction false} ScoredMax(es: seq<Entry>)
    ensures MaxScore(Scored(es)) == MaxScore(es) >= EMPTY_SCORE
  {
    if es != [] {
      var rest, e := es[..|es| - 1], es[|es| - 1];
      ScoredMax(rest);
      if e.score != EMPTY_SCORE {
        OneMore(Scored(rest), e, x => 0.0, 0.0);
      } else {
        assert Scored(rest) + [] == Scored(rest);
      }
    }
  }

  /** The exponential of a very negative number is nothing. */
  ghost predicate Underflows(exp: real -> real) {
    forall x: real :: x <= EMPTY_SCORE * 0.5 ==> exp(x) == 0.0
  }

  lemma NoTerm(e: Entry, exp: real -> real, m: real)
    requires Underflows(exp) && e.score == EMPTY_SCORE && m > EMPTY_SCORE * 0.5
    ensures exp(e.score - m) == 0.0 && Term(e, exp, m) == 0.0
  {
  }

  lemma ScoredMore(es: seq<Entry>, a: Entry)
    ensures Scored(es + [a]) == Scored(es) + if a.score == EMPTY_SCORE then [] else [a]
  {
    assert (es + [a])[..|es|] == es;
  }

  lemma NoScored()
    ensures Scored([]) == []
  {
  }

  lemma {:induction false} ScoredSums(es: seq<Entry>, exp: real -> real, m: real)
    requires Underflows(exp)
    requires m > EMPTY_SCORE * 0.5
    ensures Denominator(Scored(es), exp, m) == Denominator(es, exp, m)
    ensures Weighted(Scored(es), exp, m) == Weighted(es, exp, m)
  {
    hide *;
    if es == [] {
      NoScored();
      return;
    }
    var rest, e := es[..|es| - 1], es[|es| - 1];
    assert es == rest + [e];
    ScoredSums(rest, exp, m);
    OneMore(rest, e, exp, m);
    ScoredMore(rest, e);
    if e.score != EMPTY_SCORE {
      OneMore(Scored(rest), e, exp, m);
    } else {
      NoTerm(e, exp, m);
      assert Scored(rest) + [] == Scored(rest);
    }
  }

  /** Entries without a score do not count, as the exponential of so negative a
      number is nothing. */
  lemma EmptyIgnored(es: seq<Entry>, exp: real -> real)
    requires Underflows(exp)
    ensures Pool(es, exp) == Pool(Scored(es), exp)
  {
    ScoredMax(es);
    if MaxScore(es) > EMPTY_SCORE * 0.5 { ScoredSums(es, exp, MaxScore(es)); }
  }

  // ----- what a pool is -----

  /** The exponential is nowhere negative on the entries that have a score, and positive at zero. */
  ghost predicate Weighs(es: seq<Entry>, exp: real -> real, m: real) {
    exp(0.0) > 0.0 && forall e :: e in es && e.score != EMPTY_SCORE ==> exp(e.score - m) >= 0.0
  }

  ghost predicate Between(es: seq<Entry>, lo: real, hi: real) {
    forall e :: e in es && e.score != EMPTY_SCORE ==> lo <= e.kv <= hi
  }

  lemma TermBetween(w: real, kv: real, lo: real, hi: real)
    requires w >= 0.0 && lo <= kv <= hi
    ensures lo * w <= w * kv <= hi * w
  {
  }

  lemma NoSums(exp: real -> real, m: real)
    ensures Denominator([], exp, m) == 0.0 && Weighted([], exp, m) == 0.0
  {
  }

  lemma TermIs(e: Entry, exp: real -> real, m: real)
    ensures Term(e, exp, m) == exp(e.score - m) * e.kv
  {
  }

  lemma Distribute(x: real, a: real, b: real)
    ensures x * (a + b) == x * a + x * b && (a + b) * x == a * x + b * x
  {
  }

  /** The weighted sum lies between the bounds, as often as the weights count. */
  lemma {:induction false} SumsBetween(es: seq<Entry>, exp: real -> real, m: real, lo: real, hi: real)
    requires Weighs(es, exp, m) && Between(es, lo, hi) && forall e :: e in es ==> e.score != EMPTY_SCORE
    ensures Denominator(es, exp, m) >= 0.0
    ensures lo * Denominator(es, exp, m) <= Weighted(es, exp, m) <= hi * Denominator(es, exp, m)
  {
    hide Denominator, Weighted, Term, MaxScore;
    if es == [] {
      NoSums(exp, m);
      assert lo * 0.0 == 0.0 == hi * 0.0;
    } else {
      var rest, e := es[..|es| - 1], es[|es| - 1];
      assert es == rest + [e];
      SumsBetween(rest, exp, m, lo, hi);
      OneMore(rest, e, exp, m);
      TermIs(e, exp, m);
      var w := exp(e.score - m);
      TermBetween(w, e.kv, lo, hi);
      Distribute(lo, Denominator(rest, exp, m), w);
      Distribute(hi, Denominator(rest, exp, m), w);
    }
  }

  lemma {:induction false} AllScored(es: seq<Entry>)
    ensures forall e :: e in Scored(es) <==> e in es && e.score != EMPTY_SCORE
  {
    if es != [] {
      var rest, e := es[..|es| - 1], es[|es| - 1];
      AllScored(rest);
      assert es == rest + [e];
    }
  }

  lemma LessTimes(a: real, b: real, d: real)
    requires d > 0.0
    ensures a < b ==> a * d < b * d
  {
  }

  lemma Quotient(n: real, d: real, lo: real, hi: real)
    requires d > 0.0 && lo * d <= n <= hi * d
    ensures lo <= n / d <= hi
  {
    var q := n / d;
    assert q * d == n;
    LessTimes(q, lo, d);
    LessTimes(hi, q, d);
  }

  /** A pool averages the values: it lies between any bounds of the values that have a score, and so is
      the value itself where they are all the same. */
  lemma PoolBetween(es: seq<Entry>, exp: real -> real, lo: real, hi: real)
    requires Underflows(exp) && MaxScore(es) > EMPTY_SCORE * 0.5
    requires Weighs(es, exp, MaxScore(es)) && Between(es, lo, hi)
    ensures lo <= Pool(es, exp) <= hi
  {
    hide MaxScore, Denominator, Weighted;
    var s, m := Scored(es), MaxScore(es);
    EmptyIgnored(es, exp);
    ScoredMax(es);
    AllScored(es);
    SumsBetween(s, exp, m, lo, hi);
    MaxCounts(s, exp);
    Quotient(Weighted(s, exp, m), Denominator(s, exp, m), lo, hi);
  }

  /** The entry with the largest score counts. */
  lemma {:induction false} MaxCounts(es: seq<Entry>, exp: real -> real)
    requires exp(0.0) > 0.0 && MaxScore(es) > EMPTY_SCORE
    requires forall e :: e in es ==> exp(e.score - MaxScore(es)) >= 0.0
    ensures Denominator(es, exp, MaxScore(es)) > 0.0
  {
    MaxIn(es, exp, MaxScore(es));
  }

  lemma {:induction false} MaxIn(es: seq<Entry>, exp: real -> real, m: real)
    requires exp(0.0) > 0.0 && forall e :: e in es ==> exp(e.score - m) >= 0.0
    ensures Denominator(es, exp, m) >= 0.0
    ensures MaxScore(es) == m && m > EMPTY_SCORE ==> Denominator(es, exp, m) > 0.0
  {
    if es != [] {
      var rest, e := es[..|es| - 1], es[|es| - 1];
      assert forall x :: x in rest ==> x in es;
      assert e in es;
      MaxIn(rest, exp, m);
      if e.score == m { assert e.score - m == 0.0; }
    }
  }

  lemma NothingScored()
    ensures MaxScore([]) == EMPTY_SCORE <= EMPTY_SCORE * 0.5
  {
  }

  /** Of two values each counts as much as the exponential of its score. */
  lemma PoolOfTwo(a: Entry, b: Entry, exp: real -> real)
    requires a.score > EMPTY_SCORE * 0.5 || b.score > EMPTY_SCORE * 0.5
    requires var m := if b.score > a.score then b.score else a.score;
             exp(a.score - m) >= 0.0 && exp(b.score - m) >= 0.0 && exp(0.0) > 0.0
    ensures var m := if b.score > a.score then b.score else a.score;
            var x, y := exp(a.score - m), exp(b.score - m);
            Pool([a, b], exp) * (x + y) == x * a.kv + y * b.kv
  {
    var m := if b.score > a.score then b.score else a.score;
    var x, y := exp(a.score - m), exp(b.score - m);
    assert [a, b][..1] == [a] && [a][..0] == [];
    assert MaxScore([a]) == Larger(EMPTY_SCORE, a.score);
    assert MaxScore([a, b]) == m;
    assert Denominator([a], exp, m) == 0.0 + x && Denominator([a, b], exp, m) == 0.0 + x + y;
    assert Weighted([a], exp, m) == 0.0 + x * a.kv && Weighted([a, b], exp, m) == 0.0 + x * a.kv + y * b.kv;
  }

  /** The sums of a softmax with the exponentials of the scores themselves. */
  function ExpSum(es: seq<Entry>, exp: real -> real): real {
    if es == [] then 0.0 else exp(es[0].score) + ExpSum(es[1..], exp)
  }

  function ValueSum(es: seq<Entry>, exp: real -> real): real {
    if es == [] then 0.0 else exp(es[0].score) * es[0].kv + ValueSum(es[1..], exp)
  }

  lemma {:induction false} SumsShift(es: seq<Entry>, exp: real -> real, m: real)
    requires forall e :: e in es ==> exp(e.score) == exp(e.score - m) * exp(m)
    ensures ExpSum(es, exp) == Denominator(es, exp, m) * exp(m)
    ensures ValueSum(es, exp) == Weighted(es, exp, m) * exp(m)
    decreases |es|
  {
    hide Denominator, Weighted, Term, ExpSum, ValueSum, MaxScore;
    if es == [] {
      NoSums(exp, m);
      NoExpSums(exp);
      assert 0.0 * exp(m) == 0.0;
    } else {
      var rest, e := es[..|es| - 1], es[|es| - 1];
      assert es == rest + [e];
      SumsShift(rest, exp, m);
      SumsLast(rest, e, exp);
      OneMore(rest, e, exp, m);
      TermIs(e, exp, m);
      var w, x := exp(e.score - m), exp(m);
      Distribute(x, Denominator(rest, exp, m), w);
      Distribute(x, Weighted(rest, exp, m), w * e.kv);
      SwapFactors(w, e.kv, x);
    }
  }

  lemma SwapFactors(w: real, v: real, x: real)
    ensures (w * v) * x == (w * x) * v
  {
  }

  lemma NoExpSums(exp: real -> real)
    ensures ExpSum([], exp) == 0.0 && ValueSum([], exp) == 0.0
  {
  }

  lemma {:induction false} SumsLast(es: seq<Entry>, e: Entry, exp: real -> real)
    ensures ExpSum(es + [e], exp) == ExpSum(es, exp) + exp(e.score)
    ensures ValueSum(es + [e], exp) == ValueSum(es, exp) + exp(e.score) * e.kv
  {
    if es == [] {
      assert ([] + [e])[1..] == [];
    } else {
      assert (es + [e])[1..] == es[1..] + [e];
      SumsLast(es[1..], e, exp);
    }
  }

  /** The pool is the softmax: with an exponential that turns sums into products, subtracting the
      largest score first changes nothing. */
  lemma PoolIsSoftmax(es: seq<Entry>, exp: real -> real)
    requires var m := MaxScore(es);
             && m > EMPTY_SCORE * 0.5 && exp(m) > 0.0
             && forall e :: e in es ==> exp(e.score) == exp(e.score - m) * exp(m) && exp(e.score - m) > 0.0
    ensures Pool(es, exp) * ExpSum(es, exp) == ValueSum(es, exp)
  {
    hide MaxScore, ExpSum, ValueSum;
    var m := MaxScore(es);
    SumsShift(es, exp, m);
    PositiveSum(es, exp, m);
    NothingScored();
    var d, w, x := Denominator(es, exp, m), Weighted(es, exp, m), exp(m);
    assert (w / d) * d == w;
    assert (w / d) * (d * x) == ((w / d) * d) * x;
  }

  lemma {:induction false} PositiveSum(es: seq<Entry>, exp: real -> real, m: real)
    requires forall e :: e in es ==> exp(e.score - m) > 0.0
    ensures Denominator(es, exp, m) >= 0.0 && (es != [] ==> Denominator(es, exp, m) > 0.0)
  {
    if es != [] {
      assert forall x :: x in es[..|es| - 1] ==> x in es;
      PositiveSum(es[..|es| - 1], exp, m);
    }
  }

  lemma OneMore(es: seq<Entry>, a: Entry, exp: real -> real, m: real)
    ensures MaxScore(es + [a]) == Larger(MaxScore(es), a.score)
    ensures Denominator(es + [a], exp, m) == Denominator(es, exp, m) + exp(a.score - m)
    ensures Weighted(es + [a], exp, m) == Weighted(es, exp, m) + Term(a, exp, m)
  {
    hide Term;
    assert (es + [a])[..|es|] == es;
  }

  // ----- the window -----

  /** The row that a block's slot holds before any token came. */
  function NoToken(width: nat): Token {
    Token(seq(width, _ => 0.0), seq(width, _ => EMPTY_SCORE))
  }

  /** Token `r` of block `b`; there is none before block 0. */
  function BlockToken(h: seq<Token>, ratio: nat, width: nat, b: int, r: nat): Token {
    if b >= 0 && b * ratio + r < |h| then h[b * ratio + r] else NoToken(width)
  }

  /** What row `k` of the tables holds when `n` tokens of block `b` have come: they
      fill the slots in order, and the rest still shows the block before. With two
      lanes the first half shows the block before in full. */
  function Expected(h: seq<Token>, ratio: nat, width: nat, b: int, n: nat, k: nat): Token {
    if ratio == 4 && k < ratio then BlockToken(h, ratio, width, b - 1, k)
    else
      var r := if ratio == 4 then k - ratio else k;
      BlockToken(h, ratio, width, if r < n then b else b - 1, r)
  }

  lemma ExpectedWide(h: seq<Token>, ratio: nat, width: nat)
    requires forall t :: t in h ==> |t.kv| == |t.score| == width
    ensures forall b: int, n: nat, k: nat :: var t := Expected(h, ratio, width, b, n, k); |t.kv| == |t.score| == width
  {
  }

  lemma DivUnique(n: nat, r: nat, q: nat, m: nat)
    requires n == q * r + m && m < r
    ensures n / r == q && n % r == m
  {
    var d: int := n / r - q;
    assert d * r == m - n % r;
    assert d >= 1 ==> d * r >= r;
    assert d <= -1 ==> d * r + r <= 0;
  }

  /** The next number is in the same block, unless it begins the next one. */
  lemma DivNext(n: nat, r: nat)
    requires r > 0
    ensures n == n / r * r + n % r
    ensures n % r + 1 < r ==> (n + 1) / r == n / r && (n + 1) % r == n % r + 1
    ensures n % r + 1 == r ==> (n + 1) / r == n / r + 1 && (n + 1) % r == 0
  {
    var q, m := n / r, n % r;
    if m + 1 < r { DivUnique(n + 1, r, q, m + 1); } else {
      assert (q + 1) * r == q * r + r;
      DivUnique(n + 1, r, q + 1, 0);
    }
  }

  /** A new token changes only its own slot. */
  lemma ExpectedNext(h: seq<Token>, t: Token, ratio: nat, width: nat, k: nat)
    requires ratio > 0 && k < if ratio == 4 then 2 * ratio else ratio
    ensures var b, n := |h| / ratio, |h| % ratio;
            var row := if ratio == 4 then ratio + n else n;
            Expected(h + [t], ratio, width, b, n + 1, k) == if k == row then t else Expected(h, ratio, width, b, n, k)
  {
    var b, n := |h| / ratio, |h| % ratio;
    DivNext(|h|, ratio);
    assert (b - 1) * ratio == b * ratio - ratio;
    ExpectedAt(h, t, ratio, width, b, n, k);
  }

  lemma ExpectedAt(h: seq<Token>, t: Token, ratio: nat, width: nat, b: nat, n: nat, k: nat)
    requires n < ratio && k < if ratio == 4 then 2 * ratio else ratio
    requires |h| == b * ratio + n && (b - 1) * ratio == b * ratio - ratio
    ensures Expected(h + [t], ratio, width, b, n + 1, k)
         == if k == (if ratio == 4 then ratio + n else n) then t else Expected(h, ratio, width, b, n, k)
  {
    var r := if ratio == 4 && k >= ratio then k - ratio else k;
    BlockTokenSame(h, t, ratio, width, b, r, b * ratio);
    BlockTokenSame(h, t, ratio, width, b - 1, r, b * ratio - ratio);
  }

  lemma BlockTokenSame(h: seq<Token>, t: Token, ratio: nat, width: nat, b: int, r: nat, x: int)
    requires b * ratio == x
    ensures BlockToken(h + [t], ratio, width, b, r) ==
            if b >= 0 && x + r == |h| then t else BlockToken(h, ratio, width, b, r)
  {
  }

  function Width(headDim: nat, ratio: nat): nat {
    if ratio == 4 then 2 * headDim else headDim
  }

  /** The pool of compressed row `i`, dimension `j`: with two lanes, lane A of the
      block before and lane B of block `i`, slot by slot; with one, block `i`. */
  function RowEntries(h: seq<Token>, headDim: nat, ratio: nat, i: nat, j: nat, n: nat): (es: seq<Entry>)
    requires j < headDim && 0 < ratio
    requires forall t :: t in h ==> |t.kv| == Width(headDim, ratio) && |t.score| == Width(headDim, ratio)
    ensures |es| == if ratio == 4 then 2 * n else n
  {
    if n == 0 then []
    else
      var w := Width(headDim, ratio);
      var c := BlockToken(h, ratio, w, i, n - 1);
      if ratio == 4 then
        var p := BlockToken(h, ratio, w, i - 1, n - 1);
        RowEntries(h, headDim, ratio, i, j, n - 1)
        + [Entry(p.score[j], p.kv[j]), Entry(c.score[headDim + j], c.kv[headDim + j])]
      else
        RowEntries(h, headDim, ratio, i, j, n - 1) + [Entry(c.score[j], c.kv[j])]
  }

  /** The entries of a row, one by one: with one lane, score and value of each token of the block; with
      two, lane A of a token of the block before and lane B of one of the block, in turn. */
  lemma {:induction false} RowEntriesAt(h: seq<Token>, headDim: nat, ratio: nat, i: nat, j: nat, n: nat, r: nat)
    requires j < headDim && 0 < ratio && r < n
    requires forall t :: t in h ==> |t.kv| == Width(headDim, ratio) && |t.score| == Width(headDim, ratio)
    ensures var es, w := RowEntries(h, headDim, ratio, i, j, n), Width(headDim, ratio);
      var c, p := BlockToken(h, ratio, w, i, r), BlockToken(h, ratio, w, i - 1, r);
      if ratio != 4 then es[r] == Entry(c.score[j], c.kv[j])
      else es[2 * r] == Entry(p.score[j], p.kv[j]) && es[2 * r + 1] == Entry(c.score[headDim + j], c.kv[headDim + j])
  {
    if r < n - 1 { RowEntriesAt(h, headDim, ratio, i, j, n - 1, r); }
  }

  /** Every token whose lane goes into dimension `j` of row `i` has its value between the bounds, or no
      score. */
  ghost predicate RowIn(h: seq<Token>, headDim: nat, ratio: nat, i: nat, j: nat, lo: real, hi: real)
    requires j < headDim && 0 < ratio
    requires forall t :: t in h ==> |t.kv| == Width(headDim, ratio) && |t.score| == Width(headDim, ratio)
  {
    forall r: nat {:trigger BlockToken(h, ratio, Width(headDim, ratio), i, r)} :: r < ratio ==>
      var w := Width(headDim, ratio);
      var c, p := BlockToken(h, ratio, w, i, r), BlockToken(h, ratio, w, i - 1, r);
      if ratio != 4 then c.score[j] == EMPTY_SCORE || lo <= c.kv[j] <= hi
      else
        && (p.score[j] == EMPTY_SCORE || lo <= p.kv[j] <= hi)
        && (c.score[headDim + j] == EMPTY_SCORE || lo <= c.kv[headDim + j] <= hi)
  }

  /** A compressed row averages the values of its tokens, dimension by dimension. */
  lemma RowBetween(h: seq<Token>, headDim: nat, ratio: nat, exp: real -> real, i: nat, j: nat, lo: real, hi: real)
    requires j < headDim && 0 < ratio
    requires forall t :: t in h ==> |t.kv| == Width(headDim, ratio) && |t.score| == Width(headDim, ratio)
    requires RowIn(h, headDim, ratio, i, j, lo, hi)
    requires var es := RowEntries(h, headDim, ratio, i, j, ratio);
             Underflows(exp) && MaxScore(es) > EMPTY_SCORE * 0.5 && Weighs(es, exp, MaxScore(es))
    ensures lo <= Pool(RowEntries(h, headDim, ratio, i, j, ratio), exp) <= hi
  {
    hide Pool, MaxScore, RowEntries, BlockToken;
    var es := RowEntries(h, headDim, ratio, i, j, ratio);
    forall e | e in es && e.score != EMPTY_SCORE
      ensures lo <= e.kv <= hi
    {
      var k :| 0 <= k < |es| && es[k] == e;
      var r := if ratio == 4 then k / 2 else k;
      RowEntriesAt(h, headDim, ratio, i, j, ratio, r);
      assert ratio == 4 ==> k == 2 * r || k == 2 * r + 1;
    }
    PoolBetween(es, exp, lo, hi);
  }

  class Window {
    const headDim: nat
    const ratio: nat
    const stateKV: array2<real>
    const stateScore: array2<real>
    ghost var h: seq<Token>

    ghost predicate Shape()
      reads this
    {
      && ratio > 0 && stateKV != stateScore
      && stateKV.Length0 == stateScore.Length0 == (if ratio == 4 then 2 * ratio else ratio)
      && stateKV.Length1 == stateScore.Length1 == Width(headDim, ratio)
      && (forall t :: t in h ==> |t.kv| == Width(headDim, ratio) && |t.score| == Width(headDim, ratio))
    }

    /** Row `k` of the tables holds the token. */
    ghost predicate Row(k: nat, t: Token)
      requires Shape() && k < stateKV.Length0 && |t.kv| == |t.score| == Width(headDim, ratio)
      reads this, stateKV, stateScore
    {
      forall j :: 0 <= j < Width(headDim, ratio) ==> stateKV[k, j] == t.kv[j] && stateScore[k, j] == t.score[j]
    }

    ghost predicate Rows(b: int, n: nat)
      requires Shape()
      reads this, stateKV, stateScore
    {
      forall k {:trigger Expected(h, ratio, Width(headDim, ratio), b, n, k)} :: 0 <= k < stateKV.Length0 ==>
        Row(k, Expected(h, ratio, Width(headDim, ratio), b, n, k))
    }

    ghost predicate Valid()
      reads this, stateKV, stateScore
    {
      Shape() && Rows(|h| / ratio, |h| % ratio)
    }

    constructor (headDim: nat, ratio: nat)
      requires ratio > 0
      ensures Valid() && h == [] && this.headDim == headDim && this.ratio == ratio
      ensures fresh(stateKV) && fresh(stateScore)
    {
      this.headDim, this.ratio := headDim, ratio;
      var rows := if ratio == 4 then 2 * ratio else ratio;
      var w := Width(headDim, ratio);
      stateKV := new real[rows, w]((_, _) => 0.0);
      stateScore := new real[rows, w]((_, _) => EMPTY_SCORE);
      h := [];
      new;
      forall k | 0 <= k < stateKV.Length0
        ensures Expected(h, ratio, w, 0, 0, k) == NoToken(w)
      {
      }
      DivUnique(0, ratio, 0, 0);
    }

    /** Copies row `from` of both tables to row `to`. */
    method CopyRow(from: nat, to: nat)
      requires Shape() && from < stateKV.Length0 && to < stateKV.Length0
      modifies stateKV, stateScore
      ensures forall k, j :: 0 <= k < stateKV.Length0 && 0 <= j < stateKV.Length1 ==>
        && stateKV[k, j] == old(stateKV[if k == to then from else k, j])
        && stateScore[k, j] == old(stateScore[if k == to then from else k, j])
    {
      for c := 0 to stateKV.Length1
        invariant forall k, j :: 0 <= k < stateKV.Length0 && 0 <= j < stateKV.Length1 ==>
          && stateKV[k, j] == old(stateKV[if k == to && j < c then from else k, j])
          && stateScore[k, j] == old(stateScore[if k == to && j < c then from else k, j])
      {
        stateKV[to, c] := stateKV[from, c];
        stateScore[to, c] := stateScore[from, c];
      }
    }

    /** When a block is complete: the block before and the block itself. */
    ghost predicate Full()
      requires Shape()
      reads this, stateKV, stateScore
    {
      && |h| >= ratio && |h| % ratio == 0 && |h| / ratio >= 1
      && Rows(|h| / ratio - 1, ratio)
    }

    /** Dimension `j` of the compressed row of the block just completed. */
    ghost function Pooled(j: nat, exp: real -> real): real
      requires Shape() && |h| >= ratio && j < headDim
      reads this
    {
      Pool(RowEntries(h, headDim, ratio, |h| / ratio - 1, j, ratio), exp)
    }

    /** One dimension of the pooled row. */
    method PoolOne(j: nat, exp: real -> real) returns (v: real)
      requires Shape() && Full() && j < headDim
      ensures v == Pooled(j, exp)
    {
      hide Pool, Larger, MaxScore, Denominator, Weighted, RowEntries, Full;
      NoEntries(j, exp);
      ghost var i := |h| / ratio - 1;
      var m := EMPTY_SCORE;
      for r := 0 to ratio
        invariant m == MaxScore(RowEntries(h, headDim, ratio, i, j, r))
      {
        Slot(i, j, r, exp, m);
        if ratio == 4 {
          m := Larger(m, stateScore[r, j]);
          m := Larger(m, stateScore[ratio + r, headDim + j]);
        } else {
          m := Larger(m, stateScore[r, j]);
        }
      }
      ghost var es := RowEntries(h, headDim, ratio, i, j, ratio);
      PoolIs(es, exp);
      if m <= EMPTY_SCORE * 0.5 { return 0.0; }
      var denom, sum := 0.0, 0.0;
      for r := 0 to ratio
        invariant denom == Denominator(RowEntries(h, headDim, ratio, i, j, r), exp, m)
        invariant sum == Weighted(RowEntries(h, headDim, ratio, i, j, r), exp, m)
      {
        Slot(i, j, r, exp, m);
        if ratio == 4 {
          var wp := exp(stateScore[r, j] - m);
          var wc := exp(stateScore[ratio + r, headDim + j] - m);
          denom := denom + (wp + wc);
          sum := sum + (wp * stateKV[r, j] + wc * stateKV[ratio + r, headDim + j]);
        } else {
          var w := exp(stateScore[r, j] - m);
          denom := denom + w;
          sum := sum + w * stateKV[r, j];
        }
      }
      v := if denom > 0.0 then sum / denom else 0.0;
    }

    lemma FullLong()
      requires Shape() && Full()
      ensures |h| >= ratio
    {
    }

    lemma NoEntries(j: nat, exp: real -> real)
      requires Shape() && Full() && j < headDim
      ensures |h| / ratio >= 1
      ensures var es := RowEntries(h, headDim, ratio, |h| / ratio - 1, j, 0);
              && MaxScore(es) == EMPTY_SCORE
              && forall m :: Denominator(es, exp, m) == 0.0 && Weighted(es, exp, m) == 0.0
    {
    }

    lemma PoolIs(es: seq<Entry>, exp: real -> real)
      ensures var m := MaxScore(es);
              Pool(es, exp) == if m <= EMPTY_SCORE * 0.5 then 0.0
                               else if Denominator(es, exp, m) > 0.0 then
                                 Weighted(es, exp, m) / Denominator(es, exp, m)
                               else 0.0
    {
    }

    /** The entries of one slot of the tables. */
    lemma Slot(i: nat, j: nat, r: nat, exp: real -> real, m: real)
      requires Shape() && Full() && j < headDim && r < ratio && i == |h| / ratio - 1
      ensures ratio == 4 ==>
        var es := RowEntries(h, headDim, ratio, i, j, r);
        var a, b := Entry(stateScore[r, j], stateKV[r, j]),
          Entry(stateScore[ratio + r, headDim + j], stateKV[ratio + r, headDim + j]);
        var es' := RowEntries(h, headDim, ratio, i, j, r + 1);
        && MaxScore(es') == Larger(Larger(MaxScore(es), a.score), b.score)
        && Denominator(es', exp, m) == Denominator(es, exp, m) + exp(a.score - m) + exp(b.score - m)
        && Weighted(es', exp, m) == Weighted(es, exp, m) + Term(a, exp, m) + Term(b, exp, m)
      ensures ratio != 4 ==>
        var es := RowEntries(h, headDim, ratio, i, j, r);
        var a := Entry(stateScore[r, j], stateKV[r, j]);
        var es' := RowEntries(h, headDim, ratio, i, j, r + 1);
        && MaxScore(es') == Larger(MaxScore(es), a.score)
        && Denominator(es', exp, m) == Denominator(es, exp, m) + exp(a.score - m)
        && Weighted(es', exp, m) == Weighted(es, exp, m) + Term(a, exp, m)
    {
      hide MaxScore, Denominator, Weighted, Larger;
      var es, w := RowEntries(h, headDim, ratio, i, j, r), Width(headDim, ratio);
      var c := BlockToken(h, ratio, w, i, r);
      assert Expected(h, ratio, w, i, ratio, if ratio == 4 then ratio + r else r) == c;
      if ratio == 4 {
        assert Expected(h, ratio, w, i, ratio, r) == BlockToken(h, ratio, w, i - 1, r);
        var p := BlockToken(h, ratio, w, i - 1, r);
        var a, b := Entry(p.score[j], p.kv[j]), Entry(c.score[headDim + j], c.kv[headDim + j]);
        OneMore(es, a, exp, m);
        OneMore(es + [a], b, exp, m);
        assert es + [a] + [b] == es + [a, b];
      } else {
        OneMore(es, Entry(c.score[j], c.kv[j]), exp, m);
      }
    }

    method PoolState(exp: real -> real) returns (out: seq<real>)
      requires Shape() && Full()
      ensures |out| == headDim
      ensures forall j :: 0 <= j < headDim ==> out[j] == Pooled(j, exp)
    {
      FullLong();
      hide Full, Pooled;
      out := [];
      for j := 0 to headDim
        invariant |out| == j && |h| >= ratio
        invariant forall k :: 0 <= k < j ==> out[k] == Pooled(k, exp)
      {
        var v := PoolOne(j, exp);
        out := out + [v];
      }
    }

    /** Writes the next token into its slot. */
    method Put(pos: nat, kv: seq<real>, score: seq<real>)
      requires Valid() && pos == |h| && |kv| == |score| == Width(headDim, ratio)
      modifies `h, stateKV, stateScore
      ensures Shape() && h == old(h) + [Token(kv, score)]
      ensures Rows(|old(h)| / ratio, |old(h)| % ratio + 1)
    {
      hide Expected;
      ghost var was, b, n, n1, w := h, pos / ratio, pos % ratio, pos % ratio + 1, Width(headDim, ratio);
      var row := if ratio == 4 then ratio + pos % ratio else pos % ratio;
      WriteRow(row, kv, score);
      ghost var t := Token(kv, score);
      h := h + [t];
      assert forall x :: x in h ==> x in was || x == t;
      ExpectedWide(was, ratio, w);
      ExpectedWide(h, ratio, w);
      forall k | 0 <= k < stateKV.Length0
        ensures Row(k, Expected(h, ratio, w, b, n1, k))
      {
        ExpectedNext(was, t, ratio, w, k);
        assert k == row || old(Row(k, Expected(h, ratio, w, b, n, k)));
      }
    }

    method WriteRow(row: nat, kv: seq<real>, score: seq<real>)
      requires Shape() && row < stateKV.Length0 && |kv| == |score| == Width(headDim, ratio)
      modifies stateKV, stateScore
      ensures forall k, c :: 0 <= k < stateKV.Length0 && 0 <= c < stateKV.Length1 ==>
        && stateKV[k, c] == (if k == row then kv[c] else old(stateKV[k, c]))
        && stateScore[k, c] == (if k == row then score[c] else old(stateScore[k, c]))
    {
      for j := 0 to stateKV.Length1
        invariant forall k, c :: 0 <= k < stateKV.Length0 && 0 <= c < stateKV.Length1 ==>
          && stateKV[k, c] == (if k == row && c < j then kv[c] else old(stateKV[k, c]))
          && stateScore[k, c] == (if k == row && c < j then score[c] else old(stateScore[k, c]))
      {
        stateKV[row, j] := kv[j];
        stateScore[row, j] := score[j];
      }
    }

    /** Takes the next token; the last of a block gives a compressed row. */
    method Decode(pos: nat, kv: seq<real>, score: seq<real>, exp: real -> real) returns (emitted: bool, out: seq<real>)
      requires Valid() && pos == |h| && |kv| == |score| == Width(headDim, ratio)
      modifies `h, stateKV, stateScore
      ensures Valid() && h == old(h) + [Token(kv, score)]
      ensures emitted <==> |h| % ratio == 0
      ensures emitted ==> |h| >= ratio && |out| == headDim
      ensures emitted ==> forall j :: 0 <= j < headDim ==> out[j] == Pooled(j, exp)
    {
      hide Rows, Pooled;
      Put(pos, kv, score);
      DivNext(pos, ratio);
      emitted, out := false, [];
      if (pos + 1) % ratio != 0 { return; }
      emitted := true;
      BlockPositive(pos);
      out := PoolState(exp);
      if ratio == 4 { NextBlock(); } else { OneLane(); }
    }

    lemma BlockPositive(pos: nat)
      requires ratio > 0 && (pos + 1) % ratio == 0
      ensures pos + 1 >= ratio && (pos + 1) / ratio >= 1
    {
      DivNext(pos, ratio);
    }

    /** With one lane the complete block is the block before the next one. */
    lemma OneLane()
      requires Shape() && Full() && ratio != 4
      ensures Rows(|h| / ratio, 0)
    {
      var b, w := |h| / ratio, Width(headDim, ratio);
      forall k | 0 <= k < stateKV.Length0
        ensures Row(k, Expected(h, ratio, w, b, 0, k))
      {
        assert Expected(h, ratio, w, b, 0, k) == Expected(h, ratio, w, b - 1, ratio, k);
      }
    }

    /** With two lanes the block moves to the first half; the copy back to the
        second half changes nothing. */
    method NextBlock()
      requires Shape() && Full() && ratio == 4
      modifies stateKV, stateScore
      ensures Rows(|h| / ratio, 0)
    {
      var w := Width(headDim, ratio);
      for r := 0 to ratio
        invariant forall k, j :: 0 <= k < 2 * ratio && 0 <= j < w ==>
          && stateKV[k, j] == old(stateKV[if k < r then ratio + k else k, j])
          && stateScore[k, j] == old(stateScore[if k < r then ratio + k else k, j])
      {
        CopyRow(ratio + r, r);
      }
      for r := 0 to ratio
        invariant forall k, j :: 0 <= k < 2 * ratio && 0 <= j < w ==>
          && stateKV[k, j] == old(stateKV[if k < ratio then ratio + k else k, j])
          && stateScore[k, j] == old(stateScore[if k < ratio then ratio + k else k, j])
      {
        CopyRow(r, ratio + r);
      }
      ghost var b := |h| / ratio;
      forall k | 0 <= k < stateKV.Length0
        ensures Row(k, Expected(h, ratio, w, b, 0, k))
      {
        var from := if k < ratio then ratio + k else k;
        assert Expected(h, ratio, w, b, 0, k) == Expected(h, ratio, w, b - 1, ratio, from);
        assert old(Row(from, Expected(h, ratio, w, b - 1, ratio, from)));
      }
    }
  }

  /** Lane B of the first tokens. */
  function OwnLane(h: seq<Token>, headDim: nat, j: nat, n: nat): seq<Entry>
    requires j < headDim && n <= |h| && forall t :: t in h ==> |t.kv| == |t.score| == 2 * headDim
  {
    if n == 0 then []
    else OwnLane(h, headDim, j, n - 1) + [Entry(h[n - 1].score[headDim + j], h[n - 1].kv[headDim + j])]
  }

  lemma {:induction false} FirstScored(h: seq<Token>, headDim: nat, j: nat, n: nat)
    requires j < headDim && n <= 4 <= |h|
    requires forall t :: t in h ==> |t.kv| == |t.score| == 2 * headDim
    ensures Scored(RowEntries(h, headDim, 4, 0, j, n)) == Scored(OwnLane(h, headDim, j, n))
  {
    hide Scored;
    if n > 0 {
      FirstScored(h, headDim, j, n - 1);
      var es, own := RowEntries(h, headDim, 4, 0, j, n - 1), OwnLane(h, headDim, j, n - 1);
      var p, e := NoToken(2 * headDim), Entry(h[n - 1].score[headDim + j], h[n - 1].kv[headDim + j]);
      var a := Entry(p.score[j], p.kv[j]);
      ScoredMore(es, a);
      ScoredMore(es + [a], e);
      ScoredMore(own, e);
      assert es + [a, e] == es + [a] + [e];
      assert Scored(es) + [] == Scored(es);
    }
  }

  /** The first row of a two-lane window pools only lane B of the tokens of block 0:
      the lane of the block before has no scores. */
  lemma FirstRow(h: seq<Token>, headDim: nat, j: nat, exp: real -> real)
    requires j < headDim && 4 <= |h|
    requires forall t :: t in h ==> |t.kv| == |t.score| == 2 * headDim
    requires Underflows(exp)
    ensures Pool(RowEntries(h, headDim, 4, 0, j, 4), exp) == Pool(OwnLane(h, headDim, j, 4), exp)
  {
    hide Pool;
    FirstScored(h, headDim, j, 4);
    EmptyIgnored(RowEntries(h, headDim, 4, 0, j, 4), exp);
    EmptyIgnored(OwnLane(h, headDim, j, 4), exp);
  }
}
