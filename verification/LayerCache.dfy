/** The compressor and the ring of one layer together: the rows in the ring are those of the token
    history. */
module LayerCache {
  import opened Compressor
  import opened KvCache

  ghost predicate KeepsLength(f: (seq<real>, nat) -> seq<real>) {
    forall row: seq<real>, pos: nat :: |f(row, pos)| == |row|
  }

  /** What becomes of a pooled row before it is stored, given the position of its first token. */
  type Finish = f: (seq<real>, nat) -> seq<real> | KeepsLength(f) witness KeepRow()

  function KeepRow(): (seq<real>, nat) -> seq<real> {
    (row, pos) => row
  }

  ghost predicate Wide(h: seq<Token>, headDim: nat, ratio: nat) {
    forall t :: t in h ==> |t.kv| == Width(headDim, ratio) && |t.score| == Width(headDim, ratio)
  }

  /** Compressed row `i` of a token history. */
  ghost function PooledRow(h: seq<Token>, headDim: nat, ratio: nat, exp: real -> real, i: nat): (r: seq<real>)
    requires ratio > 0 && Wide(h, headDim, ratio)
    ensures |r| == headDim
  {
    seq(headDim, j requires 0 <= j < headDim => Pool(RowEntries(h, headDim, ratio, i, j, ratio), exp))
  }

  lemma {:induction false} EntriesStay(h: seq<Token>, t: Token, headDim: nat, ratio: nat, i: nat, j: nat, n: nat)
    requires ratio > 0 && Wide(h, headDim, ratio) && Wide(h + [t], headDim, ratio) && j < headDim
    requires n <= ratio && i * ratio + n <= |h|
    ensures RowEntries(h + [t], headDim, ratio, i, j, n) == RowEntries(h, headDim, ratio, i, j, n)
  {
    if n > 0 {
      var w := Width(headDim, ratio);
      EntriesStay(h, t, headDim, ratio, i, j, n - 1);
      BlockTokenSame(h, t, ratio, w, i, n - 1, i * ratio);
      assert (i - 1) * ratio == i * ratio - ratio;
      BlockTokenSame(h, t, ratio, w, i - 1, n - 1, i * ratio - ratio);
    }
  }

  /** A row does not change any more once its block is complete. */
  lemma RowStays(h: seq<Token>, t: Token, headDim: nat, ratio: nat, exp: real -> real, i: nat)
    requires ratio > 0 && Wide(h, headDim, ratio) && Wide(h + [t], headDim, ratio) && i * ratio + ratio <= |h|
    ensures PooledRow(h + [t], headDim, ratio, exp, i) == PooledRow(h, headDim, ratio, exp, i)
  {
    hide RowEntries, Pool;
    forall j | 0 <= j < headDim
      ensures PooledRow(h + [t], headDim, ratio, exp, i)[j] == PooledRow(h, headDim, ratio, exp, i)[j]
    {
      EntriesStay(h, t, headDim, ratio, i, j, ratio);
    }
  }

  /** What the ring holds of row `i`. */
  ghost function StoredRow(h: seq<Token>, headDim: nat, ratio: nat, exp: real -> real, finish: Finish,
                           half: real -> real, i: nat): (r: seq<real>)
    requires ratio > 0 && Wide(h, headDim, ratio)
  {
    Halved(finish(PooledRow(h, headDim, ratio, exp, i), i * ratio), half)
  }

  /** Block `i` is complete. */
  lemma BlockWhole(n: nat, ratio: nat, i: nat)
    requires ratio > 0 && i < n / ratio
    ensures i * ratio + ratio <= n
  {
    var q := n / ratio;
    assert q * ratio <= n;
    assert (i + 1) * ratio == i * ratio + ratio;
    assert (q - i - 1) * ratio >= 0;
    assert q * ratio == (i + 1) * ratio + (q - i - 1) * ratio;
  }

  class Layer {
    const headDim: nat
    const ratio: nat
    const ctx: nat
    const exp: real -> real
    const finish: Finish
    const half: real -> real
    const window: Window
    const ring: Ring

    ghost predicate Parts()
      reads this, window, ring
    {
      && ratio > 0 && window.headDim == ring.rowDim == headDim && window.ratio == ratio &&
           ring.cap == CompCap(ctx, ratio)
      && window.stateKV != ring.data && window.stateScore != ring.data
    }

    /** The rows that were stored are those of the token history, one for each complete block. */
    ghost predicate Stored(rows: seq<seq<real>>, h: seq<Token>)
      requires ratio > 0 && Wide(h, headDim, ratio)
      reads this
    {
      && |rows| == |h| / ratio
      && forall i :: 0 <= i < |rows| ==> rows[i] == StoredRow(h, headDim, ratio, exp, finish, half, i)
    }

    ghost predicate Valid()
      reads this, window, window.stateKV, window.stateScore, ring, ring.data
    {
      && Parts() && window.Valid() && ring.Valid()
      && Wide(window.h, headDim, ratio) && Stored(ring.history, window.h)
    }

    /** Layer `il`, for a context of `ctx` tokens. */
    constructor (il: nat, headDim: nat, ctx: nat, exp: real -> real, finish: Finish, half: real -> real)
      requires LayerRatio(il) > 0
      ensures Valid() && window.h == []
      ensures fresh(window) && fresh(ring) && fresh(window.stateKV) && fresh(window.stateScore) && fresh(ring.data)
      ensures this.headDim == headDim && this.ratio == LayerRatio(il) && this.ctx == ctx
    {
      this.headDim, this.ratio, this.ctx := headDim, LayerRatio(il), ctx;
      this.exp, this.finish, this.half := exp, finish, half;
      window := new Window(headDim, LayerRatio(il));
      ring := new Ring(headDim, CompCap(ctx, LayerRatio(il)));
    }

    /** One token at position `pos`: the window takes it, and a row that it completes goes to the ring. */
    method Decode(pos: nat, kv: seq<real>, score: seq<real>)
      requires Valid() && pos == |window.h| && |kv| == |score| == Width(headDim, ratio)
      modifies window, window.stateKV, window.stateScore, ring, ring.data
      ensures Valid() && window.h == old(window.h) + [Token(kv, score)]
    {
      hide Wide, Window.Valid, Ring.Valid, Window.Pooled, Stored, Halved;
      ghost var h := window.h;
      var emitted, row := window.Decode(pos, kv, score, exp);
      StillWide();
      DivNext(pos, ratio);
      if emitted {
        PooledIs(row);
        ring.Push(finish(row, pos + 1 - ratio), half);
      }
      OneMoreStored(old(ring.history), h, Token(kv, score), ring.history);
    }

    lemma StillWide()
      requires Parts() && window.Valid()
      ensures Wide(window.h, headDim, ratio) && window.Shape()
    {
    }

    lemma PooledIs(row: seq<real>)
      requires Parts() && window.Shape() && Wide(window.h, headDim, ratio) && |row| == headDim
      requires |window.h| >= ratio && |window.h| % ratio == 0
      requires forall j :: 0 <= j < headDim ==> row[j] == window.Pooled(j, exp)
      ensures |window.h| / ratio >= 1 && row == PooledRow(window.h, headDim, ratio, exp, |window.h| / ratio - 1)
      ensures (|window.h| / ratio - 1) * ratio == |window.h| - ratio
    {
    }

    lemma OneMoreStored(rows: seq<seq<real>>, h: seq<Token>, t: Token, rows': seq<seq<real>>)
      requires ratio > 0 && Wide(h, headDim, ratio) && Wide(h + [t], headDim, ratio) && Stored(rows, h)
      requires if (|h| + 1) % ratio != 0 then rows' == rows
               else (|h| + 1) / ratio >= 1 &&
                    rows' == rows + [StoredRow(h + [t], headDim, ratio, exp, finish, half, (|h| + 1) / ratio - 1)]
      ensures Stored(rows', h + [t])
    {
      hide PooledRow, Halved;
      DivNext(|h|, ratio);
      forall i | 0 <= i < |h| / ratio
        ensures StoredRow(h + [t], headDim, ratio, exp, finish, half, i) == rows[i]
      {
        BlockWhole(|h|, ratio, i);
        RowStays(h, t, headDim, ratio, exp, i);
      }
    }

    /** Within the context no row is ever overwritten: row `i` of the ring is compressed row `i`. */
    method Row(i: nat) returns (r: seq<real>)
      requires Valid() && |window.h| <= ctx && i < |window.h| / ratio
      ensures i < ring.n == |window.h| / ratio && r == StoredRow(window.h, headDim, ratio, exp, finish, half, i)
    {
      NoRowLost();
      r := ring.Row(i);
    }

    /** No compressed row of a context is lost. */
    lemma NoRowLost()
      requires Valid() && |window.h| <= ctx
      ensures ring.n == |ring.history| == |window.h| / ratio
    {
      CapSuffices(ctx, ratio, |window.h|);
    }
  }
}
