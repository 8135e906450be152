/** The elementary edits that insertion and removal are made of, as functions from graph to
    graph, each with the proof that it keeps the tree well formed and what it does to the map. */
module RaxEdits {
  import opened Common
  import opened RaxGraph

  lemma LongerThanPrefix(v: NodeVal, i: nat)
    requires v.edges.Ok() && i < |v.edges.slots|
    ensures |Reach(v, i)| > |v.prefix|
  {
  }

  /** Distinct nodes have distinct prefixes. */
  lemma SamePrefix(head: Node, g: Graph, a: Node, b: Node)
    requires Linked(head, g) && a in g && b in g && g[a].prefix == g[b].prefix
    ensures a == b
  {
    if a != b {
      var v := g[a];
      var i := Descend(head, g, a, b);
      LongerThanPrefix(v, i);
    }
  }

  /** A node and an inline leaf never stand for one string. */
  lemma NodeNotInline(head: Node, g: Graph, h: Node, n: Node, i: nat)
    requires Linked(head, g) && h in g && n in g && i < |g[n].edges.slots| && g[n].edges.slots[i].Inline?
    ensures g[h].prefix != Reach(g[n], i)
  {
    if g[h].prefix == Reach(g[n], i) {
      var v := g[n];
      var s := g[h].prefix;
      var x := Descend(head, g, n, h);
      TwoEdges(v, x, i, s);
      assert false;
    }
  }

  // ---------------------------------------------------------------- keys of existing nodes

  /** raxSetData */
  function WithKey(v: NodeVal, value: Value): NodeVal {
    v.(isKey := true, data := value)
  }

  /** `b` is `a` up to its key fields. */
  predicate SameEdges(a: NodeVal, b: NodeVal) {
    a.prefix == b.prefix && a.parent == b.parent && a.edges == b.edges
  }

  lemma KeyFieldsLinked(head: Node, g: Graph, h: Node, v: NodeVal)
    requires Linked(head, g) && h in g && SameEdges(g[h], v)
    ensures Linked(head, g[h := v])
  {
    var g' := g[h := v];
    forall n | n in g'
      ensures g'[n].edges.Ok() && HasChildren(g', n) && (n != head ==> HasParent(g', n))
    {
      assert HasChildren(g, n);
      assert n != head ==> HasParent(g, n);
    }
  }

  lemma KeyFieldsLocated(g: Graph, h: Node, v: NodeVal, k: Key)
    requires h in g && Located(g, k) && g[h].edges.Ok() && SameEdges(g[h], v)
    requires k != g[h].prefix || v.isKey
    ensures Located(g[h := v], k)
  {
    var g' := g[h := v];
    if n :| n in g && KeyNode(g, k, n) {
      assert KeyNode(g', k, n);
    } else {
      var n, i: nat :| n in g && InlineKey(g, k, n, i);
      assert InlineKey(g', k, n, i);
    }
  }

  lemma SetKey(head: Node, g: Graph, m: map<Key, Value>, pending: Node?, h: Node, value: Value)
    requires WellFormed(head, g, m, pending) && h in g
    ensures WellFormed(head, g[h := WithKey(g[h], value)], m[g[h].prefix := value],
                       if pending == h then null else pending)
  {
    var g', m' := g[h := WithKey(g[h], value)], m[g[h].prefix := value];
    KeyFieldsLinked(head, g, h, g'[h]);
    forall n | n in g'
      ensures Holds(g', m', n)
    {
      assert Holds(g, m, n);
      KeyPlace(head, g, h, n);
    }
    forall k | k in m'
      ensures Located(g', k)
    {
      if k == g[h].prefix {
        assert KeyNode(g', k, h);
      } else {
        KeyFieldsLocated(g, h, g'[h], k);
      }
    }
  }

  /** No other node, and no inline leaf of any node, stands for the string of `h`. */
  lemma KeyPlace(head: Node, g: Graph, h: Node, n: Node)
    requires Linked(head, g) && h in g && n in g
    ensures g[n].prefix == g[h].prefix ==> n == h
    ensures g[n].edges.Ok()
    ensures forall i :: 0 <= i < |g[n].edges.slots| && g[n].edges.slots[i].Inline? ==> Reach(g[n], i) != g[h].prefix
  {
    if g[n].prefix == g[h].prefix {
      SamePrefix(head, g, n, h);
    }
    forall i | 0 <= i < |g[n].edges.slots| && g[n].edges.slots[i].Inline?
      ensures Reach(g[n], i) != g[h].prefix
    {
      NodeNotInline(head, g, h, n, i);
    }
  }

  lemma ClearKey(head: Node, g: Graph, m: map<Key, Value>, h: Node)
    requires WellFormed(head, g, m, null) && h in g && g[h].isKey
    ensures WellFormed(head, g[h := g[h].(isKey := false)], m - {g[h].prefix}, h)
    ensures g[h].prefix in m && m[g[h].prefix] == g[h].data
  {
    var g', m' := g[h := g[h].(isKey := false)], m - {g[h].prefix};
    assert Holds(g, m, h);
    KeyFieldsLinked(head, g, h, g'[h]);
    forall n | n in g'
      ensures Holds(g', m', n)
    {
      assert Holds(g, m, n);
      KeyPlace(head, g, h, n);
    }
    forall k | k in m'
      ensures Located(g', k)
    {
      KeyFieldsLocated(g, h, g'[h], k);
    }
  }

  // ---------------------------------------------------------------- one slot of one node

  /** `e` has an edge labelled `l` into slot `sl`. */
  ghost predicate Has(e: Edges, l: Key, sl: Slot) {
    e.Ok() && exists i :: 0 <= i < |e.slots| && e.Label(i) == l && e.slots[i] == sl
  }

  /** `e'` is `e` with the slot behind label `l` dropped, and `sl` put there if it is given. */
  ghost predicate Rewired(e: Edges, e': Edges, l: Key, sl: Option<Slot>) {
    && e.Ok() && e'.Ok() && |l| > 0
    && (forall i :: 0 <= i < |e.slots| && e.Label(i) != l ==>
          e.Label(i)[0] != l[0] && Has(e', e.Label(i), e.slots[i]))
    && (forall i :: 0 <= i < |e'.slots| ==>
          if e'.Label(i) == l then sl == Some(e'.slots[i]) else Has(e, e'.Label(i), e'.slots[i]))
    && (sl.Some? ==> Has(e', l, sl.value))
  }

  /** `c` is the child behind label `l` of `h`, a node that holds nothing; null if there is no child. */
  ghost predicate BareChild(g: Graph, h: Node, l: Key, c: Node?) {
    h in g && g[h].edges.Ok() &&
    if c == null then
      forall i :: 0 <= i < |g[h].edges.slots| && g[h].edges.Label(i) == l ==> g[h].edges.slots[i].Inline?
    else c in g && c != h && Has(g[h].edges, l, Child(c)) && g[c].edges == NoEdges && !g[c].isKey
  }

  /** The node a new child slot leads to: empty, and either without a key or with `key`. */
  function NewChild(prefix: Key, parent: Node, key: Option<Value>): NodeVal {
    var v := NodeVal(prefix, parent, NoEdges, false, Null);
    if key.None? then v else WithKey(v, key.value)
  }

  /** Put `sl` behind label `l` of `h` (dropping what was there, `gone` if that was a node). If
      `sl` is a node, it becomes an empty one with the key value `key`, if any. */
  function Rewire(g: Graph, h: Node, e': Edges, l: Key, gone: Node?, sl: Option<Slot>, key: Option<Value>): Graph
    requires h in g
  {
    var g1 := (if gone == null then g else g - {gone})[h := g[h].(edges := e')];
    if sl.Some? && sl.value.Child? then g1[sl.value.node := NewChild(g[h].prefix + l, h, key)] else g1
  }

  /** What `Rewire` does to the map. */
  function RewiredMap(m: map<Key, Value>, k: Key, sl: Option<Slot>, key: Option<Value>): map<Key, Value> {
    if sl.Some? && sl.value.Inline? then m[k := sl.value.value]
    else if sl.Some? && key.Some? then m[k := key.value]
    else m - {k}
  }

  ghost predicate CanRewire(head: Node, g: Graph, h: Node, e': Edges, l: Key, gone: Node?, sl: Option<Slot>) {
    && Linked(head, g) && h in g && Rewired(g[h].edges, e', l, sl) && BareChild(g, h, l, gone) && gone != head
    && (sl.Some? && sl.value.Child? ==> sl.value.node !in g)
  }

  lemma RewireLinked(head: Node, g: Graph, h: Node, e': Edges, l: Key, gone: Node?, sl: Option<Slot>,
                     key: Option<Value>)
    requires CanRewire(head, g, h, e', l, gone, sl)
    ensures Linked(head, Rewire(g, h, e', l, gone, sl, key))
  {
    var g' := Rewire(g, h, e', l, gone, sl, key);
    forall n | n in g'
      ensures g'[n].edges.Ok() && HasChildren(g', n)
    {
      if n == h {
        RewireChildren(head, g, h, e', l, gone, sl, key);
      } else if n in g {
        RewireOtherChildren(head, g, h, e', l, gone, sl, key, n);
      }
    }
    forall n | n in g' && n != head
      ensures HasParent(g', n)
    {
      RewireParent(head, g, h, e', l, gone, sl, key, n);
    }
  }

  lemma RewireChildren(head: Node, g: Graph, h: Node, e': Edges, l: Key, gone: Node?, sl: Option<Slot>,
                       key: Option<Value>)
    requires CanRewire(head, g, h, e', l, gone, sl)
    ensures HasChildren(Rewire(g, h, e', l, gone, sl, key), h)
  {
    var g' := Rewire(g, h, e', l, gone, sl, key);
    assert HasChildren(g, h);
    forall i | 0 <= i < |e'.slots| && e'.slots[i].Child?
      ensures var c := e'.slots[i].node; c in g' && g'[c].parent == h && g'[c].prefix == g[h].prefix + e'.Label(i)
    {
      var c, x := e'.slots[i].node, e'.Label(i);
      if x != l {
        assert Has(g[h].edges, x, Child(c));
        if c == gone {
          SameLabel(g, h, x, l, c);
          assert false;
        }
      }
    }
  }

  /** One child hangs behind one label. */
  lemma SameLabel(g: Graph, h: Node, x: Key, y: Key, c: Node)
    requires h in g && HasChildren(g, h) && Has(g[h].edges, x, Child(c)) && Has(g[h].edges, y, Child(c))
    ensures x == y
  {
    var p := g[h].prefix;
    assert g[c].prefix == p + x == p + y;
    assert (p + x)[|p|..] == x && (p + y)[|p|..] == y;
  }

  lemma RewireOtherChildren(head: Node, g: Graph, h: Node, e': Edges, l: Key, gone: Node?, sl: Option<Slot>,
                            key: Option<Value>, n: Node)
    requires CanRewire(head, g, h, e', l, gone, sl) && n in g && n != h && n != gone
    ensures HasChildren(Rewire(g, h, e', l, gone, sl, key), n)
  {
    assert HasChildren(g, n);
    assert HasChildren(g, h);
    var g' := Rewire(g, h, e', l, gone, sl, key);
    assert g'[n] == g[n];
  }

  lemma RewireParent(head: Node, g: Graph, h: Node, e': Edges, l: Key, gone: Node?, sl: Option<Slot>,
                     key: Option<Value>, n: Node)
    requires CanRewire(head, g, h, e', l, gone, sl) && n in Rewire(g, h, e', l, gone, sl, key) && n != head
    ensures HasParent(Rewire(g, h, e', l, gone, sl, key), n)
  {
    var g' := Rewire(g, h, e', l, gone, sl, key);
    if n in g {
      assert HasParent(g, n);
      var i := ParentSlot(head, g, n);
      if g[n].parent == h {
        var x := g[h].edges.Label(i);
        assert x != l;
        assert Has(e', x, Child(n));
      } else {
        assert g'[g[n].parent] == g[g[n].parent];
      }
    } else {
      assert Has(e', l, Child(n));
    }
  }

  /** Before the edit, only slots of `h` itself stand for the string behind label `l`. */
  lemma OnlyHere(head: Node, g: Graph, h: Node, e': Edges, l: Key, gone: Node?, sl: Option<Slot>, n: Node)
    requires CanRewire(head, g, h, e', l, gone, sl) && n in g && n != h && n != gone
    ensures g[n].edges.Ok() && g[n].prefix != g[h].prefix + l
    ensures forall i :: 0 <= i < |g[n].edges.slots| && g[n].edges.slots[i].Inline? ==> Reach(g[n], i) != g[h].prefix + l
  {
    var k := g[h].prefix + l;
    if g[n].prefix == k {
      var x := Descend(head, g, h, n);
      OnPath(head, g, h, e', l, gone, sl, x);
      SamePrefix(head, g, n, gone);
    }
    forall i | 0 <= i < |g[n].edges.slots| && g[n].edges.slots[i].Inline?
      ensures Reach(g[n], i) != k
    {
      if Reach(g[n], i) == k {
        var v := g[n];
        assert InlineKey(g, k, n, i);
        var x := InlineBelow(head, g, h, k, n, i);
        OnPath(head, g, h, e', l, gone, sl, x);
        NodeNotInline(head, g, gone, n, i);
      }
    }
  }

  lemma OnPath(head: Node, g: Graph, h: Node, e': Edges, l: Key, gone: Node?, sl: Option<Slot>, x: nat)
    requires CanRewire(head, g, h, e', l, gone, sl) && x < |g[h].edges.slots| && g[h].edges.slots[x].Child?
    requires Reach(g[h], x) <= g[h].prefix + l
    ensures gone != null && gone in g && g[h].edges.slots[x] == Child(gone) && g[gone].prefix == g[h].prefix + l
  {
    assert HasChildren(g, h);
    var p, y := g[h].prefix, g[h].edges.Label(x);
    assert y[0] == Reach(g[h], x)[|p|] == (p + l)[|p|] == l[0];
    assert y == l;
    var i :| 0 <= i < |g[h].edges.slots| && g[h].edges.Label(i) == l && g[h].edges.slots[i] == Child(gone);
    SameFirst(g[h], i, x);
  }

  lemma RewireHolds(head: Node, g: Graph, m: map<Key, Value>, h: Node, e': Edges, l: Key, gone: Node?,
                    sl: Option<Slot>, key: Option<Value>)
    requires CanRewire(head, g, h, e', l, gone, sl) && Stores(g, m)
    ensures Holds(Rewire(g, h, e', l, gone, sl, key), RewiredMap(m, g[h].prefix + l, sl, key), h)
  {
    var g', m' := Rewire(g, h, e', l, gone, sl, key), RewiredMap(m, g[h].prefix + l, sl, key);
    assert Holds(g, m, h);
    var p := g[h].prefix;
    assert |p + l| > |p|;
    forall i | 0 <= i < |e'.slots| && e'.slots[i].Inline?
      ensures p + e'.Label(i) in m' && m'[p + e'.Label(i)] == e'.slots[i].value
    {
      var x := e'.Label(i);
      if x != l {
        var j :| 0 <= j < |g[h].edges.slots| && g[h].edges.Label(j) == x && g[h].edges.slots[j] == e'.slots[i];
        assert (p + x)[|p|] == x[0] != l[0] == (p + l)[|p|];
        assert Reach(g[h], j) == p + x;
      }
    }
  }

  lemma RewireHoldsElsewhere(head: Node, g: Graph, m: map<Key, Value>, h: Node, e': Edges, l: Key, gone: Node?,
                             sl: Option<Slot>, key: Option<Value>, n: Node)
    requires CanRewire(head, g, h, e', l, gone, sl) && Stores(g, m) && n in g && n != gone && n != h
    ensures Holds(Rewire(g, h, e', l, gone, sl, key), RewiredMap(m, g[h].prefix + l, sl, key), n)
  {
    assert Holds(g, m, n);
    OnlyHere(head, g, h, e', l, gone, sl, n);
  }

  lemma RewireLocated(g: Graph, h: Node, e': Edges, l: Key, gone: Node?, sl: Option<Slot>, key: Option<Value>, k: Key)
    requires h in g && Rewired(g[h].edges, e', l, sl) && BareChild(g, h, l, gone)
    requires sl.Some? && sl.value.Child? ==> sl.value.node !in g
    requires k != g[h].prefix + l && Located(g, k)
    ensures Located(Rewire(g, h, e', l, gone, sl, key), k)
  {
    var g' := Rewire(g, h, e', l, gone, sl, key);
    if n :| n in g && KeyNode(g, k, n) {
      assert KeyNode(g', k, n);
    } else {
      var n, i: nat :| n in g && InlineKey(g, k, n, i);
      if n == h {
        RewireLocatedHere(g, h, e', l, gone, sl, key, k, i);
      } else {
        assert g'[n] == g[n];
        assert InlineKey(g', k, n, i);
      }
    }
  }

  lemma RewireLocatedHere(g: Graph, h: Node, e': Edges, l: Key, gone: Node?, sl: Option<Slot>, key: Option<Value>,
                          k: Key, i: nat)
    requires h in g && Rewired(g[h].edges, e', l, sl)
    requires sl.Some? && sl.value.Child? ==> sl.value.node !in g
    requires k != g[h].prefix + l && InlineKey(g, k, h, i)
    ensures Located(Rewire(g, h, e', l, gone, sl, key), k)
  {
    var g' := Rewire(g, h, e', l, gone, sl, key);
    var x := g[h].edges.Label(i);
    assert Has(e', x, g[h].edges.slots[i]);
    var i' :| 0 <= i' < |e'.slots| && e'.Label(i') == x && e'.slots[i'] == g[h].edges.slots[i];
    assert InlineKey(g', k, h, i');
  }

  lemma RewireLocatedNew(head: Node, g: Graph, h: Node, e': Edges, l: Key, gone: Node?, sl: Option<Slot>,
                         key: Option<Value>)
    requires CanRewire(head, g, h, e', l, gone, sl) && sl.Some? && (sl.value.Child? ==> key.Some?)
    ensures Located(Rewire(g, h, e', l, gone, sl, key), g[h].prefix + l)
  {
    var g', k := Rewire(g, h, e', l, gone, sl, key), g[h].prefix + l;
    if sl.value.Inline? {
      var i :| 0 <= i < |e'.slots| && e'.Label(i) == l && e'.slots[i] == sl.value;
      assert InlineKey(g', k, h, i);
    } else {
      assert KeyNode(g', k, sl.value.node);
    }
  }

  lemma RewireStores(head: Node, g: Graph, m: map<Key, Value>, h: Node, e': Edges, l: Key, gone: Node?,
                     sl: Option<Slot>, key: Option<Value>)
    requires CanRewire(head, g, h, e', l, gone, sl) && Stores(g, m)
    ensures Stores(Rewire(g, h, e', l, gone, sl, key), RewiredMap(m, g[h].prefix + l, sl, key))
  {
    var g', m' := Rewire(g, h, e', l, gone, sl, key), RewiredMap(m, g[h].prefix + l, sl, key);
    forall n | n in g'
      ensures Holds(g', m', n)
    {
      if n == h {
        RewireHolds(head, g, m, h, e', l, gone, sl, key);
      } else if n in g {
        RewireHoldsElsewhere(head, g, m, h, e', l, gone, sl, key, n);
      }
    }
    forall k | k in m'
      ensures Located(g', k)
    {
      if k == g[h].prefix + l {
        RewireLocatedNew(head, g, h, e', l, gone, sl, key);
      } else {
        RewireLocated(g, h, e', l, gone, sl, key, k);
      }
    }
  }

  /** The whole effect of one rewiring. `after` names a node that may be left bare. */
  lemma RewireKeeps(head: Node, g: Graph, m: map<Key, Value>, h: Node, e': Edges, l: Key, gone: Node?,
                    sl: Option<Slot>, key: Option<Value>,
                    before: Node?, after: Node?)
    requires WellFormed(head, g, m, before) && CanRewire(head, g, h, e', l, gone, sl)
    requires before == null || before == h || before == gone
    requires e'.slots == [] ==> g[h].isKey || h == head || h == after
    requires sl.Some? && sl.value.Child? && key.None? ==> sl.value.node == after
    ensures WellFormed(head, Rewire(g, h, e', l, gone, sl, key), RewiredMap(m, g[h].prefix + l, sl, key), after)
  {
    RewireLinked(head, g, h, e', l, gone, sl, key);
    RewireStores(head, g, m, h, e', l, gone, sl, key);
  }
}
