/** Where a lookup stopped, seen as a position in the order of the keys. */
module RaxSeek {
  import opened RaxGraph
  import opened RaxEdits
  import opened RaxOrder

  /** What a forward step looks for: strings greater than `b`, not counting those that begin with
      `b` if the step leaves the subtree of `b` (`up`). */
  ghost predicate Beyond(up: bool, b: Key, q: Key) {
    if up then After(b, q) else Lt(b, q)
  }

  /** A forward step from `b` covers exactly the keys greater than `s`. */
  ghost predicate Covers(m: map<Key, Value>, up: bool, b: Key, s: Key) {
    forall q :: q in m ==> (Beyond(up, b, q) <==> Lt(s, q))
  }

  /** Among the keys, the strings smaller than `b` are `k` and everything smaller. */
  ghost predicate LastBefore(m: map<Key, Value>, b: Key, k: Key) {
    forall q :: q in m ==> (Lt(q, b) <==> q == k || Lt(q, k))
  }

  ghost predicate SameBefore(m: map<Key, Value>, b: Key, p: Key) {
    forall q :: q in m ==> (Lt(q, b) <==> Lt(q, p))
  }

  /** `k` is the greatest key that begins with `b`. */
  ghost predicate LastWithin(m: map<Key, Value>, b: Key, k: Key) {
    b <= k && k in m && forall q :: q in m && b <= q ==> q == k || Lt(q, k)
  }

  /** A key that begins with the prefix of the node where the lookup for `s` stopped. */
  lemma KeyAtStop(head: Node, g: Graph, m: map<Key, Value>, s: Key, h: Node, i: nat, j: nat, q: Key) returns (x: int)
    requires Linked(head, g) && Stores(g, m) && Stopped(g, s, h, i, j) && q in m && g[h].prefix <= q
    ensures g[h].prefix <= s && g[h].prefix == s[..i - j]
    ensures x < 0 ==> g[h].isKey && q == g[h].prefix
    ensures 0 <= x ==>
              && x < |g[h].edges.slots| && Reach(g[h], x) <= q && !(Reach(g[h], x) <= s)
              && |q| > i - j
              && (if g[h].edges.isCompr then s[..i] == q[..i] && |q| > i && q[i] == g[h].edges.chars[j]
                  else q[i] == g[h].edges.chars[x])
  {
    x := KeyBelow(head, g, m, h, q);
    if 0 <= x {
      NoEdgeOn(g, s, h, i, j, x);
      LongerThanPrefix(g[h], x);
      if g[h].edges.isCompr {
        var p, l := g[h].prefix, g[h].edges.chars;
        assert s[..i] == s[..i - j] + s[i - j..i] == p + l[..j];
        assert q[..|p| + j] == Reach(g[h], x)[..|p| + j] == p + l[..j];
        assert q[|p| + j] == Reach(g[h], x)[|p| + j];
      }
    }
  }

  // ---------------------------------------------------------------- mismatch in an ordinary node

  lemma AtMissingEdge(head: Node, g: Graph, m: map<Key, Value>, s: Key, h: Node, i: nat)
    requires Linked(head, g) && Stores(g, m) && Stopped(g, s, h, i, 0) && !g[h].edges.isCompr && i < |s|
    ensures Covers(m, true, s[..i + 1], s) && SameBefore(m, s, s[..i + 1])
  {
    var b := s[..i + 1];
    forall q | q in m
      ensures (After(b, q) <==> Lt(s, q)) && (Lt(q, s) <==> Lt(q, b))
    {
      NotWithin(head, g, m, s, h, i, q);
      if After(b, q) {
        AfterExtends(b, s, q);
      }
      if Lt(s, q) {
        GtPrefix(b, s, q);
      }
      if Lt(q, s) {
        LtBelow(q, b, s);
      }
      if Lt(q, b) {
        LtPrefix(q, b, s);
      }
    }
  }

  lemma NotWithin(head: Node, g: Graph, m: map<Key, Value>, s: Key, h: Node, i: nat, q: Key)
    requires Linked(head, g) && Stores(g, m) && Stopped(g, s, h, i, 0) && !g[h].edges.isCompr && i < |s| && q in m
    ensures !(s[..i + 1] <= q)
  {
    if s[..i + 1] <= q {
      assert q[..i] == s[..i + 1][..i] == s[..i] && q[i] == s[i];
      var x := KeyAtStop(head, g, m, s, h, i, 0, q);
      assert false;
    }
  }

  /** Greater than `s`, but not within the prefix `b` of `s`: after `b`. */
  lemma GtPrefix(b: Key, s: Key, q: Key)
    requires Lt(s, q) && b <= s && !(b <= q)
    ensures After(b, q)
  {
    if b == s {
    } else {
      PrefixLt(b, s);
      Transitive(b, s, q);
    }
  }

  // ---------------------------------------------------------------- mismatch in a run

  /** The run goes to greater keys than `s`. */
  lemma BeforeRun(head: Node, g: Graph, m: map<Key, Value>, s: Key, h: Node, i: nat, j: nat)
    requires Linked(head, g) && Stores(g, m) && Stopped(g, s, h, i, j) && g[h].edges.isCompr && i < |s|
    requires g[h].edges.chars[j] > s[i]
    ensures Covers(m, false, g[h].prefix, s) && SameBefore(m, s, Reach(g[h], 0))
  {
    var p, r := g[h].prefix, Reach(g[h], 0);
    assert s[i - j..i] == g[h].edges.chars[..j] && p + g[h].edges.chars[..j] == s[..i];
    assert r[..i] == s[..i] && r[i] == g[h].edges.chars[j];
    assert LtAt(s, r, i);
    assert g[h].edges.Label(0) == g[h].edges.chars;
    forall q | q in m
      ensures (Lt(p, q) <==> Lt(s, q)) && (Lt(q, s) <==> Lt(q, r))
    {
      NoPrevChild(head, g, m, h, g[h].edges.chars, q);
      if Lt(q, s) {
        Transitive(q, s, r);
      }
      PrefixCases(p, s, q);
      if p <= q {
        var x := KeyAtStop(head, g, m, s, h, i, j, q);
        if 0 <= x {
          assert LtAt(s, q, i);
          if p != q { PrefixLt(p, q); }
        } else {
          Irreflexive(p);
          PrefixLt(p, s);
        }
      }
      if Lt(q, p) {
        LtPrefix(q, p, s);
      }
      if q == p {
        PrefixLt(p, s);
      }
    }
  }

  /** `p` is a proper prefix of `s`: how `q` compares to one, if it is not within `p`, it compares to the other. */
  lemma PrefixCases(p: Key, s: Key, q: Key)
    requires p <= s && p != s
    ensures !(p <= q) ==> (Lt(p, q) <==> Lt(s, q)) && (Lt(q, p) <==> Lt(q, s))
    ensures Lt(s, q) ==> Lt(p, q)
  {
    PrefixLt(p, s);
    if Lt(s, q) {
      Transitive(p, s, q);
    }
    if !(p <= q) {
      if Lt(p, q) {
        AfterExtends(p, s, q);
      }
      if Lt(q, p) {
        LtPrefix(q, p, s);
      }
      if Lt(q, s) {
        LtBelow(q, p, s);
      }
    }
  }

  /** The run goes to smaller keys than `s`. */
  lemma AfterRun(head: Node, g: Graph, m: map<Key, Value>, s: Key, h: Node, i: nat, j: nat)
    requires Linked(head, g) && Stores(g, m) && Stopped(g, s, h, i, j) && g[h].edges.isCompr && i < |s|
    requires g[h].edges.chars[j] < s[i]
    ensures Covers(m, true, Reach(g[h], 0), s)
    ensures forall k :: LastWithin(m, g[h].prefix, k) ==> LastBefore(m, s, k)
  {
    var p, r := g[h].prefix, Reach(g[h], 0);
    assert p + g[h].edges.chars[..j] == s[..i];
    assert r[..i] == s[..i] && r[i] == g[h].edges.chars[j];
    assert LtAt(r, s, i);
    forall q | q in m
      ensures (After(r, q) <==> Lt(s, q)) && (Lt(q, s) <==> p <= q || Lt(q, p))
    {
      NoNextChild(head, g, m, h, g[h].edges.chars, q);
      PrefixCases(p, s, q);
      if p <= q {
        var x := KeyAtStop(head, g, m, s, h, i, j, q);
        if 0 <= x {
          assert LtAt(q, s, i);
          Asymmetric(q, s);
        } else {
          PrefixLt(p, s);
        }
      }
      if Lt(q, p) {
        LtPrefix(q, p, s);
      }
    }
    forall k | LastWithin(m, p, k)
      ensures LastBefore(m, s, k)
    {
      WithinIsBefore(m, p, s, k);
    }
  }

  lemma WithinIsBefore(m: map<Key, Value>, p: Key, s: Key, k: Key)
    requires LastWithin(m, p, k) && forall q :: q in m ==> (Lt(q, s) <==> p <= q || Lt(q, p))
    ensures LastBefore(m, s, k)
  {
    forall q | q in m
      ensures Lt(q, s) <==> q == k || Lt(q, k)
    {
      if Lt(q, p) {
        LtPrefix(q, p, k);
      }
      if Lt(q, k) && !(p <= q) {
        LtBelow(q, p, k);
      }
    }
  }

  // ---------------------------------------------------------------- all of `s` matched

  /** `s` ends at node `h` or inside its run. */
  lemma AtEnd(head: Node, g: Graph, m: map<Key, Value>, s: Key, h: Node, j: nat)
    requires Linked(head, g) && Stores(g, m) && Stopped(g, s, h, |s|, j)
    ensures Covers(m, false, g[h].prefix, s)
    ensures j > 0 && g[h].isKey ==> LastBefore(m, s, g[h].prefix)
    ensures j == 0 || !g[h].isKey ==> SameBefore(m, s, g[h].prefix)
  {
    var p := g[h].prefix;
    assert s[..|s|] == s;
    if j > 0 {
      assert p != s && p <= s;
      forall q | q in m
        ensures (Lt(p, q) <==> Lt(s, q)) && (Lt(q, s) <==> (g[h].isKey && q == p) || Lt(q, p))
      {
        PrefixCases(p, s, q);
        if p <= q {
          var x := KeyAtStop(head, g, m, s, h, |s|, j, q);
          if 0 <= x {
            PrefixLt(s, q);
            if p != q { PrefixLt(p, q); }
          } else {
            Irreflexive(p);
            PrefixLt(p, s);
          }
        }
        if Lt(q, p) {
          LtPrefix(q, p, s);
        }
      }
    }
  }

  // ---------------------------------------------------------------- an inline leaf

  /** The lookup for `s` met the inline leaf of the key `s[..i]`. */
  lemma AtLeaf(head: Node, g: Graph, m: map<Key, Value>, s: Key, h: Node, i: nat, x: nat)
    requires Linked(head, g) && Stores(g, m) && StoppedInline(g, s, h, i, x)
    ensures Covers(m, true, s[..i], s)
    ensures i < |s| ==> LastBefore(m, s, s[..i])
    ensures i == |s| ==> SameBefore(m, s, s[..i])
  {
    var k := s[..i];
    assert Holds(g, m, h);
    forall q | q in m
      ensures (After(k, q) <==> Lt(s, q)) && (i < |s| ==> (Lt(q, s) <==> q == k || Lt(q, k)))
    {
      if k <= q {
        InlineEnds(head, g, m, h, x, q);
        LtOrPrefix(q, s);
      }
      if i < |s| {
        PrefixCases(k, s, q);
        PrefixLt(k, s);
      } else {
        assert k == s;
        LtCases(s, q);
      }
    }
    assert i == |s| ==> k == s;
  }
}
