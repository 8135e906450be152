/** The packed product of a row of two-bit weights and a row of eight-bit values,
    against the sum of the products of the numbers they stand for. The scales are
    exact reals. */
module Quant {
  // One block of 256 two-bit weights: 16 bytes of scales and minimums, 64 bytes of
  // weights, and two factors.
  datatype BlockX = BlockX(sc: seq<nat>, q2: seq<nat>, d: real, dmin: real)

  // One block of 256 signed values: a factor, the values, and their sums in groups
  // of 16.
  datatype BlockY = BlockY(d: real, q8: seq<int>, bsums: seq<int>)

  ghost predicate OkX(x: BlockX) {
    && |x.sc| == 16 && |x.q2| == 64
    && (forall i :: 0 <= i < 16 ==> x.sc[i] < 256)
    && (forall i :: 0 <= i < 64 ==> x.q2[i] < 256)
  }

  ghost predicate OkY(y: BlockY) {
    && |y.q8| == 256 && |y.bsums| == 16
    && (forall i :: 0 <= i < 256 ==> -128 <= y.q8[i] <= 127)
    && (forall g :: 0 <= g < 16 ==> y.bsums[g] == Sum(y.q8, 16 * g, 16))
  }

  function Sum(s: seq<int>, from: nat, n: nat): int
    requires from + n <= |s|
  {
    if n == 0 then 0 else Sum(s, from, n - 1) + s[from + n - 1]
  }

  // ----- what the numbers stand for -----

  const POW4: seq<nat> := [1, 4, 16, 64]

  /** The weight of element `i` of group `g`: 128 elements share 32 bytes, four to
      a byte, and a group is 16 neighbours. */
  function Q(x: BlockX, g: nat, i: nat): (q: int)
    requires OkX(x) && g < 16 && i < 16
    ensures 0 <= q <= 3
  {
    x.q2[g / 8 * 32 + g % 2 * 16 + i] / POW4[g % 8 / 2] % 4
  }

  function Scale(x: BlockX, g: nat): (r: int)
    requires OkX(x) && g < 16
    ensures 0 <= r <= 15
  {
    x.sc[g] % 16
  }

  function Min(x: BlockX, g: nat): (r: int)
    requires OkX(x) && g < 16
    ensures 0 <= r <= 15
  {
    x.sc[g] / 16
  }

  /** Every byte of weights holds four of them, two bits each, from the four groups whose
      numbers differ by two within one half; every byte of scales holds a scale and a
      minimum. No bit is read twice and none is left out. */
  lemma EveryBit(x: BlockX, half: nat, part: nat, i: nat, g: nat)
    requires OkX(x) && half < 2 && part < 2 && i < 16 && g < 16
    ensures var first := 8 * half + part;
      x.q2[32 * half + 16 * part + i]
        == Q(x, first, i) + 4 * Q(x, first + 2, i) + 16 * Q(x, first + 4, i) + 64 * Q(x, first + 6, i)
    ensures x.sc[g] == Scale(x, g) + 16 * Min(x, g)
  {
    hide Q;
    FieldAt(x, half, part, 0, i);
    FieldAt(x, half, part, 1, i);
    FieldAt(x, half, part, 2, i);
    FieldAt(x, half, part, 3, i);
    FourParts(x.q2[32 * half + 16 * part + i]);
  }

  lemma FieldAt(x: BlockX, half: nat, part: nat, t: nat, i: nat)
    requires OkX(x) && half < 2 && part < 2 && t < 4 && i < 16
    ensures Q(x, 8 * half + part + 2 * t, i) == x.q2[32 * half + 16 * part + i] / POW4[t] % 4
  {
    hide OkX;
    var g := 8 * half + part + 2 * t;
    assert g / 8 == half && g % 2 == part && g % 8 / 2 == t;
  }

  lemma FourParts(b: nat)
    requires b < 256
    ensures b == b % 4 + 4 * (b / 4 % 4) + 16 * (b / 16 % 4) + 64 * (b / 64 % 4)
  {
    var q := b / 4;
    var r := q / 4;
    assert b / 16 == r && b / 64 == r / 4;
  }

  /** The value of element `i` of group `g`. */
  function ValueX(x: BlockX, g: nat, i: nat): real
    requires OkX(x) && g < 16 && i < 16
  {
    x.d * Scale(x, g) as real * Q(x, g, i) as real - x.dmin * Min(x, g) as real
  }

  function ValueY(y: BlockY, k: nat): real
    requires OkY(y) && k < 256
  {
    y.d * y.q8[k] as real
  }

  function Term(x: BlockX, y: BlockY, g: nat, i: nat): real
    requires OkX(x) && OkY(y) && g < 16 && i < 16
  {
    ValueX(x, g, i) * ValueY(y, 16 * g + i)
  }

  /** The products of the first `n` elements of a group, added up. */
  function GroupSum(x: BlockX, y: BlockY, g: nat, n: nat): real
    requires OkX(x) && OkY(y) && g < 16 && n <= 16
  {
    if n == 0 then 0.0 else GroupSum(x, y, g, n - 1) + Term(x, y, g, n - 1)
  }

  function BlockSum(x: BlockX, y: BlockY, n: nat): real
    requires OkX(x) && OkY(y) && n <= 16
  {
    if n == 0 then 0.0 else BlockSum(x, y, n - 1) + GroupSum(x, y, n - 1, 16)
  }

  function Product(xs: seq<BlockX>, ys: seq<BlockY>, n: nat): real
    requires n <= |xs| && n <= |ys|
    requires forall b :: 0 <= b < n ==> OkX(xs[b]) && OkY(ys[b])
  {
    if n == 0 then 0.0 else Product(xs, ys, n - 1) + BlockSum(xs[n - 1], ys[n - 1], 16)
  }

  // ----- the packed sums -----

  function IntTerm(x: BlockX, y: BlockY, g: nat, i: nat): (r: int)
    requires OkX(x) && OkY(y) && g < 16 && i < 16
    ensures -384 <= r <= 381
  {
    ProductBound(Q(x, g, i), y.q8[16 * g + i]);
    Q(x, g, i) * y.q8[16 * g + i]
  }

  function GroupDot(x: BlockX, y: BlockY, g: nat, n: nat): (r: int)
    requires OkX(x) && OkY(y) && g < 16 && n <= 16
    ensures -384 * n <= r <= 381 * n
  {
    if n == 0 then 0 else GroupDot(x, y, g, n - 1) + IntTerm(x, y, g, n - 1)
  }

  lemma ProductBound(q: int, v: int)
    requires 0 <= q <= 3 && -128 <= v <= 127
    ensures -384 <= q * v <= 381
  {
  }

  lemma ScaledBound(s: int, v: int, b: int)
    requires 0 <= s <= 15 && -b <= v <= b
    ensures -15 * b <= s * v <= 15 * b
  {
  }

  function ScaledDot(x: BlockX, y: BlockY, g: nat): (r: int)
    requires OkX(x) && OkY(y) && g < 16
    ensures -92160 <= r <= 92160
  {
    ScaledBound(Scale(x, g), GroupDot(x, y, g, 16), 6144);
    Scale(x, g) * GroupDot(x, y, g, 16)
  }

  /** The scaled dots of the first `n` groups; no such sum leaves 32 bits. */
  function IntSum(x: BlockX, y: BlockY, n: nat): (r: int)
    requires OkX(x) && OkY(y) && n <= 16
    ensures -92160 * n <= r <= 92160 * n
  {
    if n == 0 then 0 else IntSum(x, y, n - 1) + ScaledDot(x, y, n - 1)
  }

  lemma {:induction false} SumBound(s: seq<int>, from: nat, n: nat)
    requires from + n <= |s| && forall i :: 0 <= i < |s| ==> -128 <= s[i] <= 127
    ensures -128 * n <= Sum(s, from, n) <= 128 * n
  {
    if n > 0 { SumBound(s, from, n - 1); }
  }

  function MinTerm(x: BlockX, y: BlockY, g: nat): (r: int)
    requires OkX(x) && OkY(y) && g < 16
    ensures -30720 <= r <= 30720
  {
    SumBound(y.q8, 16 * g, 16);
    ScaledBound(Min(x, g), y.bsums[g], 2048);
    y.bsums[g] * Min(x, g)
  }

  function MinSum(x: BlockX, y: BlockY, n: nat): (r: int)
    requires OkX(x) && OkY(y) && n <= 16
    ensures -30720 * n <= r <= 30720 * n
  {
    if n == 0 then 0 else MinSum(x, y, n - 1) + MinTerm(x, y, n - 1)
  }

  lemma OneElement(d: real, m: real, s: real, q: real, n: real, yd: real, v: real)
    ensures (d * s * q - m * n) * (yd * v) == yd * d * s * (q * v) - yd * m * n * v
  {
  }

  lemma Distribute(c: real, a: real, b: real)
    ensures c * (a + b) == c * a + c * b
  {
  }

  /** What a group with these sums amounts to. */
  function GroupForm(x: BlockX, y: BlockY, g: nat, dot: real, sum: real): real
    requires OkX(x) && OkY(y) && g < 16
  {
    y.d * x.d * Scale(x, g) as real * dot - y.d * x.dmin * Min(x, g) as real * sum
  }

  lemma GroupStep(x: BlockX, y: BlockY, g: nat, i: nat, dot: int, sum: int)
    requires OkX(x) && OkY(y) && g < 16 && i < 16
    ensures |y.q8| == 256
    ensures GroupForm(x, y, g, dot as real, sum as real) + Term(x, y, g, i)
         == GroupForm(x, y, g, (dot + IntTerm(x, y, g, i)) as real, (sum + y.q8[16 * g + i]) as real)
  {
    hide Q, Scale, Min;
    var s, m, q, v := Scale(x, g) as real, Min(x, g) as real, Q(x, g, i), y.q8[16 * g + i];
    CastProduct(q, v);
    OneElement(x.d, x.dmin, s, q as real, m, y.d, v as real);
    Distribute(y.d * x.d * s, dot as real, q as real * v as real);
    Distribute(y.d * x.dmin * m, sum as real, v as real);
  }

  lemma CastProduct(a: int, b: int)
    ensures (a * b) as real == a as real * b as real
  {
  }

  /** A group of products is its scaled dot less its share of the minimum. */
  lemma {:induction false} GroupIs(x: BlockX, y: BlockY, g: nat, n: nat)
    requires OkX(x) && OkY(y) && g < 16 && n <= 16
    ensures |y.q8| == 256
    ensures GroupSum(x, y, g, n) == GroupForm(x, y, g, GroupDot(x, y, g, n) as real, Sum(y.q8, 16 * g, n) as real)
  {
    hide Term, IntTerm, GroupForm;
    if n == 0 {
      NoSums(x, y, g);
    } else {
      GroupIs(x, y, g, n - 1);
      GroupStep(x, y, g, n - 1, GroupDot(x, y, g, n - 1), Sum(y.q8, 16 * g, n - 1));
    }
  }

  lemma NoSums(x: BlockX, y: BlockY, g: nat)
    requires OkX(x) && OkY(y) && g < 16
    ensures GroupForm(x, y, g, 0.0, 0.0) == 0.0
  {
  }

  lemma Sizes(x: BlockX, y: BlockY)
    requires OkX(x) && OkY(y)
    ensures |x.sc| == 16 && |x.q2| == 64 && |y.q8| == 256 && |y.bsums| == 16
    ensures forall g :: 0 <= g < 16 ==> y.bsums[g] == Sum(y.q8, 16 * g, 16)
  {
  }

  /** What a block with these sums amounts to. */
  function BlockForm(x: BlockX, y: BlockY, isum: int, msum: int): real {
    y.d * x.d * isum as real - y.d * x.dmin * msum as real
  }

  lemma BlockStep(x: BlockX, y: BlockY, g: nat, isum: int, msum: int)
    requires OkX(x) && OkY(y) && g < 16
    ensures BlockForm(x, y, isum, msum) + GroupSum(x, y, g, 16)
         == BlockForm(x, y, isum + ScaledDot(x, y, g), msum + MinTerm(x, y, g))
  {
    hide Q, Scale, Min, GroupSum, GroupDot, Sum;
    Sizes(x, y);
    GroupIs(x, y, g, 16);
    var s, m, dot, bs := Scale(x, g), Min(x, g), GroupDot(x, y, g, 16), y.bsums[g];
    CastProduct(s, dot);
    CastProduct(bs, m);
    Scaled(y.d * x.d, s as real, dot as real, isum as real);
    Scaled(y.d * x.dmin, m as real, bs as real, msum as real);
  }

  lemma Scaled(c: real, s: real, v: real, before: real)
    ensures c * before + c * s * v == c * (before + s * v)
  {
    Distribute(c, before, s * v);
  }

  /** The factors of a block are applied once to its packed sums. */
  lemma {:induction false} BlockIs(x: BlockX, y: BlockY, n: nat)
    requires OkX(x) && OkY(y) && n <= 16
    ensures BlockSum(x, y, n) == BlockForm(x, y, IntSum(x, y, n), MinSum(x, y, n))
  {
    hide GroupSum, ScaledDot, MinTerm, BlockForm;
    if n == 0 {
      EmptyBlock(x, y);
    } else {
      BlockIs(x, y, n - 1);
      BlockStep(x, y, n - 1, IntSum(x, y, n - 1), MinSum(x, y, n - 1));
    }
  }

  lemma EmptyBlock(x: BlockX, y: BlockY)
    ensures BlockForm(x, y, 0, 0) == 0.0
  {
  }

  // ----- the loops -----

  method DotQ2K16(x: BlockX, y: BlockY, g: nat, q2off: nat, q8off: nat, shift: nat) returns (sum: int)
    requires OkX(x) && OkY(y) && g < 16 && shift < 4
    requires q2off == g / 8 * 32 + g % 2 * 16 && q8off == 16 * g && shift == g % 8 / 2
    ensures sum == GroupDot(x, y, g, 16) && -6144 <= sum <= 6096
  {
    hide Scale, Min;
    sum := 0;
    for i := 0 to 16
      invariant sum == GroupDot(x, y, g, i)
    {
      var q := x.q2[q2off + i] / POW4[shift] % 4;
      sum := sum + q * y.q8[q8off + i];
    }
  }

  method VecDot(xs: seq<BlockX>, ys: seq<BlockY>) returns (sum: real)
    requires |xs| == |ys| && forall b :: 0 <= b < |xs| ==> OkX(xs[b]) && OkY(ys[b])
    ensures sum == Product(xs, ys, |xs|)
  {
    hide OkX, OkY, BlockSum, MinSum, IntSum;
    sum := 0.0;
    for b := 0 to |xs|
      invariant sum == Product(xs, ys, b)
    {
      var x, y := xs[b], ys[b];
      var summs := Minimums(x, y);
      var isum := Dots(x, y);
      BlockIs(x, y, 16);
      sum := sum + (y.d * x.d * isum as real - y.d * x.dmin * summs as real);
    }
  }

  method Minimums(x: BlockX, y: BlockY) returns (summs: int)
    requires OkX(x) && OkY(y)
    ensures summs == MinSum(x, y, 16)
  {
    hide Q;
    summs := 0;
    for j := 0 to 16
      invariant summs == MinSum(x, y, j)
    {
      summs := summs + y.bsums[j] * (x.sc[j] / 16);
    }
  }

  method Dots(x: BlockX, y: BlockY) returns (isum: int)
    requires OkX(x) && OkY(y)
    ensures isum == IntSum(x, y, 16)
  {
    hide Q, GroupDot, ScaledDot, OkY;
    isum := 0;
    var sci, q2off, q8off := 0, 0, 0;
    for k := 0 to 2
      invariant sci == 8 * k && q2off == 32 * k && q8off == 128 * k
      invariant isum == IntSum(x, y, sci)
    {
      var shift := 0;
      for j := 0 to 4
        invariant sci == 8 * k + 2 * j && shift == j && q8off == 128 * k + 32 * j
        invariant isum == IntSum(x, y, sci)
      {
        var a := DotQ2K16(x, y, sci, q2off, q8off, shift);
        ScaledIs(x, y, sci);
        isum := isum + x.sc[sci] % 16 * a;
        sci := sci + 1;
        var b := DotQ2K16(x, y, sci, q2off + 16, q8off + 16, shift);
        ScaledIs(x, y, sci);
        isum := isum + x.sc[sci] % 16 * b;
        sci := sci + 1;
        shift := shift + 1;
        q8off := q8off + 32;
      }
      q2off := q2off + 32;
    }
  }

  lemma ScaledIs(x: BlockX, y: BlockY, g: nat)
    requires OkX(x) && OkY(y) && g < 16
    ensures ScaledDot(x, y, g) == x.sc[g] % 16 * GroupDot(x, y, g, 16)
  {
  }
}
