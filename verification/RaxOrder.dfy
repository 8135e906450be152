/** The order of keys, and how the edges of a node split the keys of a tree. */
module RaxOrder {
  import opened RaxGraph

  /** `a` is smaller than `b`, decided at position `i`: they agree before it. */
  predicate LtAt(a: Key, b: Key, i: nat) {
    i <= |a| && i < |b| && a[..i] == b[..i] && (i == |a| || a[i] < b[i])
  }

  /** Byte-wise lexicographic order; a proper prefix is smaller. */
  ghost predicate Lt(a: Key, b: Key) {
    exists i: nat :: LtAt(a, b, i)
  }

  /** `q` comes after `b` and after everything that starts with `b`. */
  ghost predicate After(b: Key, q: Key) {
    Lt(b, q) && !(b <= q)
  }

  lemma {:induction false} TotalOrder(a: Key, b: Key)
    ensures a == b || Lt(a, b) || Lt(b, a)
  {
    var i := 0;
    while i < |a| && i < |b| && a[i] == b[i]
      invariant i <= |a| && i <= |b| && a[..i] == b[..i]
    {
      i := i + 1;
    }
    if i == |a| && i == |b| {
      assert a == a[..i] && b == b[..i];
    } else if i < |b| && (i == |a| || a[i] < b[i]) {
      assert LtAt(a, b, i);
    } else {
      assert LtAt(b, a, i);
    }
  }

  lemma Transitive(a: Key, b: Key, c: Key)
    requires Lt(a, b) && Lt(b, c)
    ensures Lt(a, c)
  {
    var i: nat :| LtAt(a, b, i);
    var j: nat :| LtAt(b, c, j);
    var k := if i < j then i else j;
    assert a[..k] == a[..i][..k] && c[..k] == c[..j][..k] && b[..k] == b[..i][..k] == b[..j][..k];
    assert k < i ==> a[k] == b[..i][k];
    assert k < j ==> c[k] == b[..j][k];
    assert LtAt(a, c, k);
  }

  lemma Irreflexive(a: Key)
    ensures !Lt(a, a)
  {
  }

  lemma Asymmetric(a: Key, b: Key)
    requires Lt(a, b)
    ensures !Lt(b, a) && a != b
  {
    if Lt(b, a) {
      Transitive(a, b, a);
      Irreflexive(a);
    }
    Irreflexive(a);
  }

  lemma PrefixLt(a: Key, b: Key)
    requires a <= b && a != b
    ensures Lt(a, b) && !Lt(b, a)
  {
    assert LtAt(a, b, |a|);
    Asymmetric(a, b);
  }

  /** `Lt` splits into extension and `After`. */
  lemma LtCases(b: Key, q: Key)
    ensures Lt(b, q) <==> After(b, q) || (b <= q && b != q)
  {
    if b <= q && b != q {
      PrefixLt(b, q);
    }
    if b == q {
      Irreflexive(b);
    }
  }

  /** Coming after a string means coming after all its extensions. */
  lemma AfterExtends(b: Key, c: Key, q: Key)
    requires b <= c && After(b, q)
    ensures After(c, q)
  {
    var i: nat :| LtAt(b, q, i);
    if i == |b| {
      assert false;
    }
    assert c[..i] == b[..i] && c[i] == b[i];
    assert LtAt(c, q, i);
    if c <= q {
      Comparable(b, c, c);
    }
  }

  /** Coming after an extension `b + x` of `b`: either after `b` itself, or within `b` and beyond `x`. */
  lemma AfterBack(b: Key, x: Key, q: Key)
    requires After(b + x, q)
    ensures After(b, q) || (b <= q && b != q && After(x, q[|b|..]))
  {
    var c := b + x;
    var i: nat :| LtAt(c, q, i);
    if i < |b| {
      assert b[..i] == c[..i] && b[i] == c[i];
      assert LtAt(b, q, i);
    } else {
      assert b == c[..|b|] == c[..i][..|b|] == q[..i][..|b|] == q[..|b|];
      var t := q[|b|..];
      assert q == b + t && x == c[|b|..];
      assert x[..i - |b|] == c[|b|..i] == q[|b|..i] == t[..i - |b|];
      assert LtAt(x, t, i - |b|);
    }
  }

  // ---------------------------------------------------------------- keys around a node

  /** Strings decided before the end of a common prefix. */
  lemma LtBelow(q: Key, p: Key, s: Key)
    requires Lt(q, s) && p <= s && !(p <= q)
    ensures Lt(q, p)
  {
    var i: nat :| LtAt(q, s, i);
    if i < |p| {
      assert p[..i] == s[..i] && p[i] == s[i];
      assert LtAt(q, p, i);
    }
  }

  /** Below `b`, but not within it: then below everything within `b`. */
  lemma LtPrefix(q: Key, b: Key, c: Key)
    requires Lt(q, b) && b <= c
    ensures Lt(q, c)
  {
    if b != c {
      PrefixLt(b, c);
      Transitive(q, b, c);
    }
  }

  /** Two extensions of `p` that differ in the next character. */
  lemma LtNext(p: Key, a: Key, b: Key)
    requires p <= a && p <= b && |p| < |a| && |p| < |b| && a[|p|] < b[|p|]
    ensures Lt(a, b)
  {
    assert LtAt(a, b, |p|);
  }

  /** The keys beyond a node start at its first child. */
  lemma FirstChild(head: Node, g: Graph, m: map<Key, Value>, n: Node, q: Key)
    requires Linked(head, g) && Stores(g, m) && n in g && g[n].edges.slots != [] && q in m && Lt(g[n].prefix, q)
    ensures g[n].edges.Ok() && (q == Reach(g[n], 0) || Lt(Reach(g[n], 0), q))
  {
    assert g[n].edges.Ok();
    var v := g[n];
    var p, r := v.prefix, Reach(v, 0);
    if p <= q {
      Irreflexive(p);
      var x := KeyBelow(head, g, m, n, q);
      if x == 0 {
        if r != q {
          PrefixLt(r, q);
        }
      } else {
        LtNext(p, r, q);
      }
    } else {
      AfterExtends(p, r, q);
    }
  }

  /** After the subtrees of `n` up to the edge `c`, the next one starts at the first greater edge `i`. */
  lemma NextChild(head: Node, g: Graph, m: map<Key, Value>, n: Node, c: Byte, i: nat, q: Key)
    requires Linked(head, g) && Stores(g, m) && n in g && g[n].edges.Ok() && !g[n].edges.isCompr && q in m
    requires i < |g[n].edges.chars| && c < g[n].edges.chars[i] && forall j :: 0 <= j < i ==> g[n].edges.chars[j] <= c
    ensures After(g[n].prefix + [c], q) <==> q == Reach(g[n], i) || Lt(Reach(g[n], i), q)
  {
    var v := g[n];
    var p, r := v.prefix, Reach(v, i);
    var b := p + [c];
    LtNext(p, b, r);
    if After(b, q) {
      AfterBack(p, [c], q);
      if After(p, q) {
        AfterExtends(p, r, q);
      } else {
        var x := KeyBelow(head, g, m, n, q);
        Beyond1(c, q[|p|..]);
        if x == i {
          if r != q {
            PrefixLt(r, q);
          }
        } else {
          LtNext(p, r, q);
        }
      }
    }
    if q == r || Lt(r, q) {
      if Lt(r, q) {
        Transitive(b, r, q);
      }
      if b <= q {
        LtNext(p, q, r);
        Asymmetric(q, r);
      }
    }
  }

  lemma Beyond1(c: Byte, t: Key)
    requires After([c], t)
    ensures t != [] && t[0] > c
  {
    var i: nat :| LtAt([c], t, i);
  }

  /** If no edge of `n` is greater than `c`, or `n` is a run, what follows lies after `n`. */
  lemma NoNextChild(head: Node, g: Graph, m: map<Key, Value>, n: Node, l: Key, q: Key)
    requires Linked(head, g) && Stores(g, m) && n in g && g[n].edges.Ok() && q in m
    requires if g[n].edges.isCompr then l == g[n].edges.chars
             else |l| == 1 && forall j :: 0 <= j < |g[n].edges.chars| ==> g[n].edges.chars[j] <= l[0]
    ensures After(g[n].prefix + l, q) <==> After(g[n].prefix, q)
  {
    var v := g[n];
    var p := v.prefix;
    if After(p, q) {
      AfterExtends(p, p + l, q);
    }
    if After(p + l, q) && !After(p, q) {
      AfterBack(p, l, q);
      var x := KeyBelow(head, g, m, n, q);
      if !v.edges.isCompr {
        assert l == [l[0]];
        Beyond1(l[0], q[|p|..]);
      }
      assert false;
    }
  }

  /** Before the edge `c`, the subtree of the last smaller edge `i` of `n` comes last. */
  lemma PrevChild(head: Node, g: Graph, m: map<Key, Value>, n: Node, c: Byte, i: nat, q: Key)
    requires Linked(head, g) && Stores(g, m) && n in g && g[n].edges.Ok() && !g[n].edges.isCompr && q in m
    requires i < |g[n].edges.chars| && g[n].edges.chars[i] < c
    requires forall j :: i < j < |g[n].edges.chars| ==> c <= g[n].edges.chars[j]
    ensures Lt(q, g[n].prefix + [c]) <==> Reach(g[n], i) <= q || Lt(q, Reach(g[n], i))
  {
    var v := g[n];
    var p, r := v.prefix, Reach(v, i);
    var b := p + [c];
    LtNext(p, r, b);
    if Lt(q, b) {
      if p <= q {
        var x := KeyBelow(head, g, m, n, q);
        if x < 0 {
          PrefixLt(p, r);
        } else if x < i {
          LtNext(p, q, r);
        } else if x > i {
          if v.edges.chars[x] == c {
            assert b == Reach(v, x);
            LtOrPrefix(b, q);
          } else {
            LtNext(p, b, q);
            Asymmetric(b, q);
          }
        }
      } else {
        LtBelow(q, p, b);
        LtPrefix(q, p, r);
      }
    }
    if r <= q {
      LtNext(p, q, b);
    } else if Lt(q, r) {
      Transitive(q, r, b);
    }
  }

  lemma LtOrPrefix(b: Key, q: Key)
    requires b <= q
    ensures !Lt(q, b)
  {
    if b == q {
      Irreflexive(b);
    } else {
      PrefixLt(b, q);
    }
  }

  /** If no edge of `n` is smaller than `c`, or `n` is a run, only `n` itself and what lies before it is smaller. */
  lemma NoPrevChild(head: Node, g: Graph, m: map<Key, Value>, n: Node, l: Key, q: Key)
    requires Linked(head, g) && Stores(g, m) && n in g && g[n].edges.Ok() && q in m
    requires if g[n].edges.isCompr then l == g[n].edges.chars
             else |l| == 1 && forall j :: 0 <= j < |g[n].edges.chars| ==> l[0] <= g[n].edges.chars[j]
    ensures Lt(q, g[n].prefix + l) <==> (g[n].isKey && q == g[n].prefix) || Lt(q, g[n].prefix)
  {
    var v := g[n];
    var p := v.prefix;
    var b := p + l;
    PrefixLt(p, b);
    if Lt(q, b) {
      if p <= q {
        var x := KeyBelow(head, g, m, n, q);
        if 0 <= x {
          if b <= q {
            LtOrPrefix(b, q);
          } else {
            LtNext(p, b, q);
            Asymmetric(b, q);
          }
        }
      } else {
        LtBelow(q, p, b);
      }
    }
    if Lt(q, p) {
      Transitive(q, p, b);
    }
  }

  /** The greatest keys below a node lie behind its last edge. */
  lemma LastChild(head: Node, g: Graph, m: map<Key, Value>, n: Node, q: Key)
    requires Linked(head, g) && Stores(g, m) && n in g && g[n].edges.slots != [] && q in m && g[n].prefix <= q
    ensures g[n].edges.Ok()
    ensures var r := Reach(g[n], |g[n].edges.slots| - 1); r <= q || Lt(q, r)
  {
    assert g[n].edges.Ok();
    var v := g[n];
    var l := |v.edges.slots| - 1;
    var r := Reach(v, l);
    var x := KeyBelow(head, g, m, n, q);
    if x < 0 {
      PrefixLt(q, r);
    } else if x < l {
      LtNext(v.prefix, q, r);
    }
  }

  /** Nothing hangs below an inline leaf. */
  lemma InlineEnds(head: Node, g: Graph, m: map<Key, Value>, n: Node, x: nat, q: Key)
    requires Linked(head, g) && Stores(g, m) && n in g && x < |g[n].edges.slots| && g[n].edges.slots[x].Inline?
    requires q in m
    requires g[n].edges.Ok() && Reach(g[n], x) <= q
    ensures q == Reach(g[n], x)
  {
    var v := g[n];
    assert v.prefix <= Reach(v, x) <= q;
    var y := KeyBelow(head, g, m, n, q);
    TwoEdges(v, x, y, q);
  }
}
