/** Making room in the disk cache: the least valuable files go first. */
module DiskCache {
  import opened Common
  // One cache file; `live` says that it is a continued checkpoint of the session in
  // memory, which has `liveLen` tokens.
  datatype Entry = Entry(path: string, hits: nat, tokens: nat, fileSize: nat, lastUsed: nat, live: bool)

  /** The value of keeping an entry. */
  function Score(e: Entry, liveLen: nat): real {
    if e.fileSize == 0 then 0.0
    else
      var score := (e.hits as real + 1.0) * e.tokens as real / e.fileSize as real;
      if e.live && liveLen > 0 then
        score * (if e.hits > 0 then 0.25 else 0.02) * (e.tokens as real / liveLen as real)
      else score
  }

  /** `a` goes before `b`: a lower score, or the same and used longer ago. */
  predicate Before(a: Entry, b: Entry, liveLen: nat) {
    Score(a, liveLen) < Score(b, liveLen) || (Score(a, liveLen) == Score(b, liveLen) && a.lastUsed < b.lastUsed)
  }

  lemma ProductAtMost(a: real, b: real, c: real, d: real)
    requires 0.0 <= a <= b && 0.0 <= c <= d
    ensures 0.0 <= a * c <= b * d
    ensures a < b && 0.0 < c ==> a * c < b * d
  {
    assert a * c <= b * c <= b * d;
  }

  lemma ShareAtMost(v: real, w: real, a: nat, b: nat)
    requires 0.0 <= v <= w && a >= b > 0
    ensures 0.0 <= v / a as real <= w / b as real
    ensures 0.0 < v ==> 0.0 < v / a as real
    ensures v < w ==> v / a as real < w / b as real
  {
    var x, y := v / a as real, w / b as real;
    assert x * a as real == v && y * b as real == w;
    if y < x { ProductAtMost(y, x, b as real, a as real); }
    if y == x && v < w { ProductAtMost(x, x, b as real, a as real); }
  }

  /** A fresh file has a value too: only a file without bytes or without tokens has none. */
  lemma FreshIsWorth(e: Entry, liveLen: nat)
    ensures Score(e, liveLen) >= 0.0
    ensures Score(e, liveLen) > 0.0 <==> e.fileSize > 0 && e.tokens > 0
  {
    if e.fileSize > 0 {
      var h, t := e.hits as real + 1.0, e.tokens as real;
      ProductAtMost(1.0, h, t, t);
      ShareAtMost(h * t, h * t, e.fileSize, e.fileSize);
      if e.live && liveLen > 0 {
        var v, f, depth := h * t / e.fileSize as real, if e.hits > 0 then 0.25 else 0.02, t / liveLen as real;
        ShareAtMost(t, t, liveLen, liveLen);
        ProductAtMost(0.0, v, 0.02, f);
        ProductAtMost(0.0, v * f, depth, depth);
      }
    }
  }

  lemma UseIsWorthAlone(a: Entry, b: Entry)
    requires !a.live && !b.live && a.tokens <= b.tokens
    requires a.hits <= b.hits && a.fileSize >= b.fileSize > 0
    ensures 0.0 <= Score(a, 0) <= Score(b, 0)
    ensures a.hits < b.hits && a.tokens > 0 ==> Score(a, 0) < Score(b, 0)
  {
    var s, t := a.tokens as real, b.tokens as real;
    ProductAtMost(a.hits as real + 1.0, b.hits as real + 1.0, s, t);
    ShareAtMost((a.hits as real + 1.0) * s, (b.hits as real + 1.0) * t, a.fileSize, b.fileSize);
  }

  /** What a live checkpoint keeps of its value. */
  function Kept(e: Entry, liveLen: nat): real
    requires liveLen > 0
  {
    (if e.hits > 0 then 0.25 else 0.02) * (e.tokens as real / liveLen as real)
  }

  lemma LiveKeeps(e: Entry, liveLen: nat)
    requires e.live && liveLen > 0
    ensures Score(e, liveLen) == Score(e.(live := false), 0) * Kept(e, liveLen)
  {
  }

  lemma KeptGrows(a: Entry, b: Entry, liveLen: nat)
    requires a.tokens <= b.tokens && a.hits <= b.hits && liveLen > 0
    ensures 0.0 <= Kept(a, liveLen) <= Kept(b, liveLen)
    ensures a.tokens > 0 ==> 0.0 < Kept(a, liveLen)
  {
    ShareAtMost(a.tokens as real, b.tokens as real, liveLen, liveLen);
    var d, e := a.tokens as real / liveLen as real, b.tokens as real / liveLen as real;
    ProductAtMost(if a.hits > 0 then 0.25 else 0.02, if b.hits > 0 then 0.25 else 0.02, d, e);
    ProductAtMost(0.0, if a.hits > 0 then 0.25 else 0.02, d, d);
  }

  /** More hits, more tokens or fewer bytes never lower the value, and more hits
      raise it. */
  lemma UseIsWorth(a: Entry, b: Entry, liveLen: nat)
    requires a.tokens <= b.tokens && a.live == b.live
    requires a.hits <= b.hits && a.fileSize >= b.fileSize > 0
    ensures Score(a, liveLen) <= Score(b, liveLen)
    ensures a.hits < b.hits && a.tokens > 0 ==> Score(a, liveLen) < Score(b, liveLen)
  {
    hide Score, Kept;
    UseIsWorthAlone(a.(live := false), b.(live := false));
    NotLive(a, liveLen);
    NotLive(b, liveLen);
    if a.live && liveLen > 0 {
      LiveKeeps(a, liveLen);
      LiveKeeps(b, liveLen);
      KeptGrows(a, b, liveLen);
      ProductAtMost(Score(a.(live := false), 0), Score(b.(live := false), 0), Kept(a, liveLen), Kept(b, liveLen));
    }
  }

  lemma NotLive(e: Entry, liveLen: nat)
    ensures !e.live || liveLen == 0 ==> Score(e, liveLen) == Score(e.(live := false), 0)
  {
  }

  /** A checkpoint that the session in memory already continues is worth at most a
      quarter of what it were worth otherwise. */
  lemma LiveIsWorthLess(e: Entry, liveLen: nat)
    requires e.live && e.tokens < liveLen && e.tokens > 0 && e.fileSize > 0
    ensures 4.0 * Score(e, liveLen) < Score(e.(live := false), liveLen)
  {
    var v := Score(e.(live := false), liveLen);
    FreshIsWorth(e.(live := false), liveLen);
    var f, depth := if e.hits > 0 then 0.25 else 0.02, e.tokens as real / liveLen as real;
    ShareAtMost(e.tokens as real, liveLen as real, liveLen, liveLen);
    assert depth < 1.0;
    ProductAtMost(f, 0.25, v, v);
    assert v * f <= v * 0.25;
    assert 0.0 <= depth;
    ProductAtMost(depth, 1.0, v * f, v * 0.25);
  }

  lemma BeforeTrans(a: Entry, b: Entry, c: Entry, liveLen: nat)
    requires !Before(b, a, liveLen) && !Before(c, b, liveLen)
    ensures !Before(c, a, liveLen)
  {
    hide Score;
  }

  function Total(es: seq<Entry>): nat {
    if es == [] then 0 else Total(es[..|es| - 1]) + es[|es| - 1].fileSize
  }

  lemma {:induction false} TotalWithout(es: seq<Entry>, i: nat)
    requires i < |es|
    ensures Total(es) == Total(Removed(es, i)) + es[i].fileSize
  {
    var n := |es| - 1;
    if i < n {
      TotalWithout(es[..n], i);
      assert Removed(es, i)[..n - 1] == Removed(es[..n], i);
    } else {
      assert Removed(es, i) == es[..n];
    }
  }

  /** `victims` left `es` one by one, each the least of those still there, and
      `rest` stayed. */
  ghost predicate Evicted(es: seq<Entry>, liveLen: nat, victims: seq<Entry>, rest: seq<Entry>)
    decreases |victims|
  {
    if victims == [] then rest == es
    else exists i ::
      && 0 <= i < |es| && victims[0] == es[i]
      && (forall k :: 0 <= k < |es| ==> !Before(es[k], es[i], liveLen))
      && Evicted(Removed(es, i), liveLen, victims[1..], rest)
  }

  lemma InWithout(es: seq<Entry>, i: nat, x: Entry)
    requires i < |es| && x in Removed(es, i)
    ensures x in es
  {
  }

  lemma {:induction false} RestWas(es: seq<Entry>, liveLen: nat, victims: seq<Entry>, rest: seq<Entry>, x: Entry)
    requires Evicted(es, liveLen, victims, rest) && x in rest
    ensures x in es
    decreases |victims|
  {
    if victims != [] {
      var i :| 0 <= i < |es| && victims[0] == es[i] && (forall k :: 0 <= k < |es| ==> !Before(es[k], es[i], liveLen))
               && Evicted(Removed(es, i), liveLen, victims[1..], rest);
      RestWas(Removed(es, i), liveLen, victims[1..], rest, x);
      InWithout(es, i, x);
    }
  }

  /** No survivor goes before a victim. */
  lemma {:induction false} SurvivorsWorthMore(es: seq<Entry>, liveLen: nat, victims: seq<Entry>, rest: seq<Entry>,
                                              v: Entry, s: Entry)
    requires Evicted(es, liveLen, victims, rest) && v in victims && s in rest
    ensures !Before(s, v, liveLen)
    decreases |victims|
  {
    var i :| 0 <= i < |es| && victims[0] == es[i] && (forall k :: 0 <= k < |es| ==> !Before(es[k], es[i], liveLen))
             && Evicted(Removed(es, i), liveLen, victims[1..], rest);
    if v == victims[0] {
      RestWas(es, liveLen, victims, rest, s);
      var k :| 0 <= k < |es| && es[k] == s;
      assert !Before(es[k], es[i], liveLen);
    } else {
      SurvivorsWorthMore(Removed(es, i), liveLen, victims[1..], rest, v, s);
    }
  }

  lemma {:induction false} EvictedMore(es: seq<Entry>, liveLen: nat, victims: seq<Entry>, rest: seq<Entry>, i: nat)
    requires Evicted(es, liveLen, victims, rest) && i < |rest|
    requires forall k :: 0 <= k < |rest| ==> !Before(rest[k], rest[i], liveLen)
    ensures Evicted(es, liveLen, victims + [rest[i]], Removed(rest, i))
    decreases |victims|
  {
    var more := victims + [rest[i]];
    if victims == [] {
      assert more[1..] == [];
      assert Evicted(Removed(es, i), liveLen, more[1..], Removed(rest, i));
    } else {
      var j :| 0 <= j < |es| && victims[0] == es[j] && (forall k :: 0 <= k < |es| ==> !Before(es[k], es[j], liveLen))
               && Evicted(Removed(es, j), liveLen, victims[1..], rest);
      EvictedMore(Removed(es, j), liveLen, victims[1..], rest, i);
      assert more[1..] == victims[1..] + [rest[i]];
    }
  }

  class Cache {
    const budget: nat
    var entries: seq<Entry>

    constructor (budget: nat, entries: seq<Entry>)
      ensures this.budget == budget && this.entries == entries
    {
      this.budget, this.entries := budget, entries;
    }

    /** The entry to go first, the earliest of equals. */
    method Victim(liveLen: nat) returns (victim: nat)
      requires entries != []
      ensures victim < |entries|
      ensures forall k :: 0 <= k < |entries| ==> !Before(entries[k], entries[victim], liveLen)
    {
      hide Before, Score;
      Irreflexive(entries[0], liveLen);
      victim := 0;
      for i := 1 to |entries|
        invariant victim < |entries|
        invariant forall k :: 0 <= k < i ==> !Before(entries[k], entries[victim], liveLen)
      {
        Irreflexive(entries[i], liveLen);
        if Before(entries[i], entries[victim], liveLen) {
          forall k | 0 <= k < i
            ensures !Before(entries[k], entries[i], liveLen)
          {
            Asymmetric(entries[i], entries[victim], liveLen);
            BeforeTrans(entries[i], entries[victim], entries[k], liveLen);
          }
          victim := i;
        }
      }
    }

    lemma Irreflexive(a: Entry, liveLen: nat)
      ensures !Before(a, a, liveLen)
    {
    }

    lemma Asymmetric(a: Entry, b: Entry, liveLen: nat)
      requires Before(a, b, liveLen)
      ensures !Before(b, a, liveLen)
    {
    }

    /** Removes files until the rest fits the budget. `unlink` says whether a file
        could be removed; the first failure ends the removal. */
    method Evict(liveLen: nat, unlink: Entry -> bool) returns (ghost victims: seq<Entry>)
      modifies `entries
      ensures budget == 0 ==> entries == old(entries) && victims == []
      ensures budget > 0 ==> Evicted(old(entries), liveLen, victims, entries)
      ensures budget > 0 && (forall v :: v in victims ==> unlink(v)) ==>
        && (Total(entries) <= budget || entries == [])
        && (victims != [] ==> Total(entries) + victims[|victims| - 1].fileSize > budget)
      ensures forall i :: 0 <= i < |victims| - 1 ==> unlink(victims[i])
    {
      hide Evicted, Before, Score;
      victims := [];
      NoneEvicted(liveLen);
      if budget == 0 { return; }
      var total := 0;
      for i := 0 to |entries|
        invariant total == Total(entries[..i]) && entries == old(entries)
      {
        assert entries[..i + 1][..i] == entries[..i];
        total := total + entries[i].fileSize;
      }
      assert entries[..|entries|] == entries;
      ghost var ok := true;
      while total > budget && entries != []
        invariant Evicted(old(entries), liveLen, victims, entries)
        invariant ok ==> total == Total(entries) && forall v :: v in victims ==> unlink(v)
        invariant !ok ==> total == 0 && victims != [] && !unlink(victims[|victims| - 1])
        invariant ok && victims != [] ==> Total(entries) + victims[|victims| - 1].fileSize > budget
        invariant forall i :: 0 <= i < |victims| - 1 ==> unlink(victims[i])
        decreases |entries|
      {
        var victim := Victim(liveLen);
        var e := entries[victim];
        TotalWithout(entries, victim);
        EvictedMore(old(entries), liveLen, victims, entries, victim);
        if unlink(e) {
          total := if total >= e.fileSize then total - e.fileSize else 0;
        } else {
          total := 0;
          ok := false;
        }
        victims := victims + [e];
        entries := Removed(entries, victim);
      }
    }

    lemma NoneEvicted(liveLen: nat)
      ensures Evicted(entries, liveLen, [], entries)
    {
    }
  }
}
