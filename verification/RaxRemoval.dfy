/** What removal needs to know about a tree: ancestors, chains of mergeable nodes, and the
    bound that a run can reach. */
module RaxRemoval {
  import opened RaxGraph
  import opened RaxEdits
  import opened RaxRuns
  import opened RaxSlots
  import opened RaxChanges
  import opened RaxSplits

  // ---------------------------------------------------------------- ancestors

  /** `ts` lists the ancestors of `h`, the head first. */
  ghost predicate Chain(head: Node, g: Graph, ts: seq<Node>, h: Node)
    decreases |ts|
  {
    h in g &&
    if ts == [] then h == head
    else h != head && g[h].parent == ts[|ts| - 1] && Chain(head, g, ts[..|ts| - 1], ts[|ts| - 1])
  }

  lemma ChainPush(head: Node, g: Graph, ts: seq<Node>, h: Node, c: Node)
    requires Chain(head, g, ts, h) && c in g && c != head && g[c].parent == h
    ensures Chain(head, g, ts + [h], c)
  {
    assert (ts + [h])[..|ts|] == ts;
  }

  lemma AncestorsOf(head: Node, g: Graph, ts: seq<Node>, h: Node)
    requires Chain(head, g, ts, h)
    ensures h != head ==> ts != [] && ts[|ts| - 1] in g && ts[|ts| - 1] == g[h].parent
    ensures h == head && Linked(head, g) ==> ts == []
  {
  }

  /** The ancestors and `h` in one row: the head comes first, and each is the parent of the next. */
  lemma {:induction false} ChainAt(head: Node, g: Graph, ts: seq<Node>, h: Node, j: nat)
    requires Chain(head, g, ts, h) && j <= |ts|
    ensures (ts + [h])[0] == head && (ts + [h])[j] in g
    ensures j > 0 ==> (ts + [h])[j] != head && g[(ts + [h])[j]].parent == (ts + [h])[j - 1]
    decreases |ts|
  {
    if ts != [] {
      var t := ts[..|ts| - 1];
      assert t + [ts[|ts| - 1]] == ts;
      ChainAt(head, g, t, ts[|ts| - 1], if j < |ts| then j else 0);
    }
  }

  /** A change that leaves the parents of all shorter prefixes alone leaves the ancestors alone. */
  lemma {:induction false} ChainKept(head: Node, g: Graph, g': Graph, ts: seq<Node>, h: Node)
    requires Linked(head, g) && Chain(head, g, ts, h)
    requires forall n :: n in g && |g[n].prefix| <= |g[h].prefix| ==> n in g' && g'[n].parent == g[n].parent
    ensures Chain(head, g', ts, h)
    decreases |ts|
  {
    if ts != [] {
      var i := ParentSlot(head, g, h);
      ChainKept(head, g, g', ts[..|ts| - 1], ts[|ts| - 1]);
    }
  }

  // ---------------------------------------------------------------- dropping a bare node

  /** `h` is nothing but a place in the tree: no child, no key. */
  ghost predicate Bare(g: Graph, h: Node) {
    h in g && g[h].edges.slots == [] && !g[h].isKey
  }

  /** Dropping the bare node `h` from its parent. */
  lemma DropBare(head: Node, g: Graph, m: map<Key, Value>, ts: seq<Node>, h: Node) returns (x: nat, next: Graph)
    requires WellFormed(head, g, m, h) && Bare(g, h) && h != head && Chain(head, g, ts, h) && ts != []
    ensures var p := ts[|ts| - 1];
            && p in g && p != h && g[p].edges.Ok() && x < |g[p].edges.slots| && g[p].edges.slots[x] == Child(h)
            && (forall i :: 0 <= i < |g[p].edges.slots| && g[p].edges.slots[i] == Child(h) ==> i == x)
            && next == RemoveBare(g, p, x) && WellFormed(head, next, m, p) && Chain(head, next, ts[..|ts| - 1], p)
            && |next| == |g| - 1 && (forall n: Node :: n in next <==> n in g && n != h)
            && next[p] == g[p].(edges := RemoveSlot(g[p].edges, x))
            && (forall n :: n in next && n != p ==> next[n] == g[n])
  {
    var p := ts[|ts| - 1];
    x := ParentSlot(head, g, h);
    forall i | 0 <= i < |g[p].edges.slots| && g[p].edges.slots[i] == Child(h)
      ensures i == x
    {
      assert HasChildren(g, p);
      TwoEdges(g[p], i, x, g[h].prefix);
    }
    RemoveBareKeeps(head, g, m, p, x, h);
    next := RemoveBare(g, p, x);
    ChainKept(head, g, next, ts[..|ts| - 1], p);
  }

  /** A node is no exception any more once it has a child or a key. */
  lemma NotPending(head: Node, g: Graph, m: map<Key, Value>, h: Node)
    requires WellFormed(head, g, m, h)
    requires h == head || (h in g && (g[h].edges.slots != [] || g[h].isKey))
    ensures WellFormed(head, g, m, null)
  {
  }

  // ---------------------------------------------------------------- keys below a node

  ghost predicate KeysFit(m: map<Key, Value>) {
    forall k :: k in m ==> |k| <= NODE_MAX_SIZE
  }

  ghost function Deeper(g: Graph, n: Node): set<Node>
    requires n in g
  {
    set q | q in g && |g[q].prefix| > |g[n].prefix|
  }

  /** Every edge leads towards a key. */
  lemma {:induction false} KeyUnder(head: Node, g: Graph, m: map<Key, Value>, n: Node, x: nat) returns (k: Key)
    requires WellFormed(head, g, m, null) && n in g && x < |g[n].edges.slots|
    ensures g[n].edges.Ok() && k in m && Reach(g[n], x) <= k
    decreases Deeper(g, n)
  {
    assert g[n].edges.Ok() && HasChildren(g, n);
    if g[n].edges.slots[x].Inline? {
      k := Reach(g[n], x);
      assert Holds(g, m, n);
    } else {
      var c := g[n].edges.slots[x].node;
      LongerThanPrefix(g[n], x);
      if g[c].isKey {
        k := g[c].prefix;
        assert Holds(g, m, c);
      } else {
        assert c in Deeper(g, n) && c !in Deeper(g, c) && Deeper(g, c) <= Deeper(g, n);
        k := KeyUnder(head, g, m, c, 0);
      }
    }
  }

  // ---------------------------------------------------------------- mergeable chains

  /** Inner nodes without a key and with one child: what a compressed run may absorb. */
  ghost predicate Link1(g: Graph, n: Node) {
    n in g && !g[n].isKey && |g[n].edges.slots| == 1
  }

  /** A node can absorb its only child if both runs fit into one. */
  lemma JoinFits(head: Node, g: Graph, h: Node, c: Node)
    requires Linked(head, g) && h in g && g[h].edges.slots == [Child(c)] && Link1(g, c)
    requires |g[h].edges.chars| + |g[c].edges.chars| <= NODE_MAX_SIZE
    ensures CanJoin(head, g, h, c)
  {
    assert HasChildren(g, h) && HasChildren(g, c);
  }

  lemma JoinFrame(head: Node, g: Graph, h: Node, c: Node)
    requires CanJoin(head, g, h, c)
    ensures var g' := Join(g, h, c);
            && |g'| == |g| - 1 && (forall n: Node :: n in g' <==> n in g && n != c)
            && g'[h] == g[h].(edges := Run(g[h].edges.chars + g[c].edges.chars, g[c].edges.slots[0]))
            && (forall n :: n in g' && n != h ==> SameUpToParent(g[n], g'[n]))
            && c != h && c != head
  {
    JoinNodes(head, g, h, c);
    var g1 := Adopt(g, g[c].edges.slots[0], h)
      [h := g[h].(edges := Run(g[h].edges.chars + g[c].edges.chars, g[c].edges.slots[0]))];
    assert g1.Keys == g.Keys;
    MinusOne(g1, c);
    assert |g1| == |g1.Keys| == |g|;
  }

  /** `ns` are the nodes of a mergeable chain, each the only child of the one before. */
  ghost predicate Path(g: Graph, ns: seq<Node>) {
    && ns != [] && (forall k :: 0 <= k < |ns| ==> Link1(g, ns[k]))
    && (forall k :: 0 <= k < |ns| - 1 ==> g[ns[k]].edges.slots == [Child(ns[k + 1])])
  }

  /** The number of characters on the chain. */
  ghost function Total(g: Graph, ns: seq<Node>): nat
    requires forall k :: 0 <= k < |ns| ==> ns[k] in g
  {
    if ns == [] then 0 else Total(g, ns[..|ns| - 1]) + |g[ns[|ns| - 1]].edges.chars|
  }

  /** The chain cannot be made longer at its end. */
  ghost predicate Maximal(g: Graph, ns: seq<Node>) {
    Path(g, ns) &&
    var sl := g[ns[|ns| - 1]].edges.slots[0];
    sl.Inline? || !Link1(g, sl.node)
  }

  lemma TotalPush(g: Graph, ns: seq<Node>, c: Node)
    requires (forall k :: 0 <= k < |ns| ==> ns[k] in g) && c in g
    ensures Total(g, ns + [c]) == Total(g, ns) + |g[c].edges.chars|
  {
    assert (ns + [c])[..|ns|] == ns;
  }

  lemma {:induction false} PathLength(head: Node, g: Graph, ns: seq<Node>)
    requires Linked(head, g) && Path(g, ns)
    ensures var l := ns[|ns| - 1]; g[l].edges.Ok() && |g[ns[0]].prefix| + Total(g, ns) == |Reach(g[l], 0)|
  {
    var l := ns[|ns| - 1];
    OkIsRun(g[l].edges);
    if |ns| > 1 {
      PathLength(head, g, ns[..|ns| - 1]);
      assert HasChildren(g, ns[|ns| - 2]);
      assert ns[..|ns| - 1][|ns| - 2] == ns[|ns| - 2];
    } else {
      assert ns[..0] == [];
    }
  }

  lemma PathOne(g: Graph, n: Node)
    requires Link1(g, n)
    ensures Path(g, [n])
  {
  }

  lemma PathUp(head: Node, g: Graph, p: Node, up: seq<Node>)
    requires Linked(head, g) && Link1(g, p) && Path(g, up) && up[0] != head && g[up[0]].parent == p
    ensures Path(g, [p] + up) && |[p] + up| == |up| + 1 && ([p] + up)[|up|] == up[|up| - 1]
  {
    assert HasParent(g, up[0]);
    assert g[p].edges.slots == [Child(up[0])];
  }

  /** If all keys fit, no chain is longer than one node can hold. */
  lemma PathFits(head: Node, g: Graph, m: map<Key, Value>, ns: seq<Node>)
    requires WellFormed(head, g, m, null) && KeysFit(m) && Path(g, ns)
    ensures Total(g, ns) <= NODE_MAX_SIZE
  {
    PathLength(head, g, ns);
    var k := KeyUnder(head, g, m, ns[|ns| - 1], 0);
  }

  /** The whole chain: it cannot be made longer at either end. */
  ghost predicate Whole(g: Graph, ns: seq<Node>) {
    Maximal(g, ns) && (g[ns[0]].parent == null || !Link1(g, g[ns[0]].parent))
  }

  /** Merging this chain loses characters: its first two nodes fit into one, so that the first scan
      finds something to merge, but the whole chain does not, and the second scan does not look at
      the limit again. */
  ghost predicate Overlong(g: Graph, ns: seq<Node>) {
    Path(g, ns) && |ns| > 1 && Total(g, ns[..2]) <= NODE_MAX_SIZE < Total(g, ns)
  }

  lemma {:induction false} TotalGrows(head: Node, g: Graph, ns: seq<Node>, k: nat)
    requires Linked(head, g) && Path(g, ns) && k <= |ns|
    ensures Total(g, ns[..k]) <= Total(g, ns) && (k < |ns| ==> Total(g, ns[..k]) < Total(g, ns))
    ensures k < |ns| ==> Total(g, ns[..k + 1]) == Total(g, ns[..k]) + |g[ns[k]].edges.chars|
    decreases |ns|
  {
    var n := |ns| - 1;
    if k == |ns| {
      assert ns[..k] == ns;
    } else {
      assert g[ns[n]].edges.Ok();
      assert ns[..k + 1][..k] == ns[..k];
      if k < n {
        TotalGrows(head, g, ns[..n], k);
        assert ns[..n][..k] == ns[..k];
      }
    }
  }

  /** A chain goes on to the end of the whole chain. */
  lemma {:induction false} Lengthen(head: Node, g: Graph, ns: seq<Node>) returns (all: seq<Node>)
    requires Linked(head, g) && Path(g, ns)
    ensures Maximal(g, all) && ns <= all
    decreases Deeper(g, ns[|ns| - 1])
  {
    var l := ns[|ns| - 1];
    var sl := g[l].edges.slots[0];
    if sl.Inline? || !Link1(g, sl.node) {
      all := ns;
    } else {
      var c := sl.node;
      assert HasChildren(g, l);
      LongerThanPrefix(g[l], 0);
      assert c in Deeper(g, l) && c !in Deeper(g, c) && Deeper(g, c) <= Deeper(g, l);
      all := Lengthen(head, g, ns + [c]);
    }
  }

  /** Chains from one node are beginnings of the longest. */
  lemma {:induction false} PathPrefix(g: Graph, up: seq<Node>, ns: seq<Node>)
    requires Path(g, up) && Maximal(g, ns) && up[0] == ns[0]
    ensures up <= ns
  {
    var n := |up| - 1;
    if n > 0 {
      PathPrefix(g, up[..n], ns);
      assert up[..n][n - 1] == up[n - 1] == ns[n - 1];
      assert g[up[n - 1]].edges.slots == [Child(up[n - 1 + 1])];
      if n < |ns| { assert g[ns[n - 1]].edges.slots == [Child(ns[n - 1 + 1])]; }
    } else {
      assert up == [ns[0]];
    }
  }

  /** One merging step: the run of `start` absorbs its child `c`. */
  lemma Absorb(head: Node, g: Graph, m: map<Key, Value>, start: Node, c: Node) returns (next: Graph)
    requires WellFormed(head, g, m, null) && start in g && g[start].edges.slots == [Child(c)] && Link1(g, c)
    requires |g[start].edges.chars| + |g[c].edges.chars| <= NODE_MAX_SIZE
    ensures WellFormed(head, next, m, null) && |next| == |g| - 1 && c != start
    ensures (forall n: Node :: n in next <==> n in g && n != c)
    ensures next[start] == g[start].(edges := Run(g[start].edges.chars + g[c].edges.chars, g[c].edges.slots[0]))
    ensures forall n :: n in next && n != start ==> SameUpToParent(g[n], next[n])
  {
    JoinFits(head, g, start, c);
    JoinKeeps(head, g, m, start, c);
    JoinFrame(head, g, start, c);
    next := Join(g, start, c);
  }

  lemma ChildIn(head: Node, g: Graph, n: Node)
    requires Linked(head, g) && n in g && |g[n].edges.slots| == 1 && g[n].edges.slots[0].Child?
    ensures g[n].edges.slots[0].node in g && g[n].edges.slots[0].node != n
  {
    assert HasChildren(g, n);
    ChildIsOther(g, n, 0);
  }

  /** In `g`, the run of `start` has absorbed the first `k` nodes of the chain `ns` of `g0`. */
  ghost predicate Merged(g0: Graph, g: Graph, start: Node, ns: seq<Node>, k: nat, chars: seq<Byte>) {
    && Path(g0, ns) && ns[0] == start && 0 < k <= |ns| && start in g
    && g[start] == g0[start].(edges := Run(chars, g0[ns[k - 1]].edges.slots[0]))
    && |chars| == Total(g0, ns[..k]) && |g| == |g0| + 1 - k && (forall j :: 0 < j < k ==> ns[j] !in g)
    && (forall n: Node :: n in g ==> n in g0)
    && (forall n :: n in g && n != start ==> SameUpToParent(g0[n], g[n]))
  }

  lemma MergeFirst(head: Node, g: Graph, start: Node, ns: seq<Node>)
    requires Linked(head, g) && Path(g, ns) && ns[0] == start
    ensures Merged(g, g, start, ns, 1, g[start].edges.chars)
  {
    OkIsRun(g[start].edges);
    assert ns[..1] == [] + [start] && ns[..1][..0] == [];
    TotalPush(g, [], start);
  }

  lemma MergeNext(head: Node, g0: Graph, g: Graph, m: map<Key, Value>, start: Node, ns: seq<Node>, k: nat,
                  chars: seq<Byte>) returns (next: Graph)
    requires WellFormed(head, g, m, null) && Merged(g0, g, start, ns, k, chars) && k < |ns|
    requires |chars| + |g0[ns[k]].edges.chars| <= NODE_MAX_SIZE
    ensures WellFormed(head, next, m, null) && Merged(g0, next, start, ns, k + 1, chars + g0[ns[k]].edges.chars)
    ensures forall n: Node :: n in next && n != start ==> n in g && SameUpToParent(g[n], next[n])
  {
    var c := ns[k];
    assert g0[ns[k - 1]].edges.slots == [Child(ns[k - 1 + 1])];
    ChildIn(head, g, start);
    next := Absorb(head, g, m, start, c);
    assert ns[..k + 1] == ns[..k] + [c];
    TotalPush(g0, ns[..k], c);
  }

  /** The end of the chain shows as the second scan meets it. */
  lemma MergeEnds(g0: Graph, ns: seq<Node>, k: nat)
    requires Maximal(g0, ns) && 0 < k <= |ns|
    ensures var sl := g0[ns[k - 1]].edges.slots[0];
            && (k < |ns| ==> sl == Child(ns[k]) && Link1(g0, ns[k]))
            && (k == |ns| ==> sl.Inline? || !Link1(g0, sl.node))
  {
    if k < |ns| {
      assert g0[ns[k - 1]].edges.slots == [Child(ns[k - 1 + 1])];
    }
  }

  // ---------------------------------------------------------------- subtrees

  /** The nodes of the subtree of `n`. */
  ghost function Subtree(g: Graph, n: Node): set<Node>
    requires n in g
  {
    set q | q in g && g[n].prefix <= g[q].prefix
  }

  /** The nodes below the slots of `n` from `i` on. */
  ghost function Below(g: Graph, n: Node, i: nat): set<Node>
    requires n in g && g[n].edges.Ok()
  {
    set q, j | q in g && i <= j < |g[n].edges.slots| && Reach(g[n], j) <= g[q].prefix :: q
  }

  /** One more slot: its whole subtree, or nothing if it is an inline leaf. */
  lemma BelowStep(head: Node, g: Graph, n: Node, i: nat)
    requires Linked(head, g) && n in g && g[n].edges.Ok() && i < |g[n].edges.slots|
    ensures g[n].edges.slots[i].Inline? ==> Below(g, n, i) == Below(g, n, i + 1)
    ensures g[n].edges.slots[i].Child? ==>
              var c := g[n].edges.slots[i].node;
              && c in g && Deeper(g, c) < Deeper(g, n)
              && Below(g, n, i) == Below(g, n, i + 1) + Subtree(g, c) && Below(g, n, i + 1) !! Subtree(g, c)
  {
    assert HasChildren(g, n);
    LongerThanPrefix(g[n], i);
    var v := g[n];
    if v.edges.slots[i].Inline? {
      forall q | q in g
        ensures !(Reach(v, i) <= g[q].prefix)
      {
        InlineHasNone(head, g, n, i, q);
      }
    } else {
      var c := v.edges.slots[i].node;
      assert c in Deeper(g, n) && c !in Deeper(g, c);
      forall q | q in Below(g, n, i + 1)
        ensures q !in Subtree(g, c)
      {
        var j :| i + 1 <= j < |v.edges.slots| && Reach(v, j) <= g[q].prefix;
        if g[c].prefix <= g[q].prefix {
          TwoEdges(v, i, j, g[q].prefix);
        }
      }
    }
  }

  lemma InlineHasNone(head: Node, g: Graph, n: Node, i: nat, q: Node)
    requires Linked(head, g) && n in g && q in g && i < |g[n].edges.slots| && g[n].edges.slots[i].Inline?
    requires g[n].edges.Ok()
    ensures !(Reach(g[n], i) <= g[q].prefix)
  {
    var v, s := g[n], g[q].prefix;
    LongerThanPrefix(v, i);
    assert v.prefix <= Reach(v, i);
    if Reach(v, i) <= s {
      var x := Descend(head, g, n, q);
      TwoEdges(v, i, x, s);
      assert false;
    }
  }

  /** A subtree is its root and what hangs below its slots. */
  lemma SubtreeParts(head: Node, g: Graph, n: Node)
    requires Linked(head, g) && n in g
    ensures g[n].edges.Ok() && Subtree(g, n) == {n} + Below(g, n, 0) && n !in Below(g, n, 0)
    ensures Below(g, n, |g[n].edges.slots|) == {}
  {
    assert g[n].edges.Ok();
    forall q | q in Subtree(g, n) && q != n
      ensures q in Below(g, n, 0)
    {
      var i := Descend(head, g, n, q);
    }
    forall q | q in Below(g, n, 0)
      ensures q in Subtree(g, n) && q != n
    {
      var j :| 0 <= j < |g[n].edges.slots| && Reach(g[n], j) <= g[q].prefix;
      LongerThanPrefix(g[n], j);
      assert g[n].prefix <= Reach(g[n], j);
    }
  }

  /** The same in numbers. */
  lemma BelowSize(head: Node, g: Graph, n: Node, i: nat)
    requires Linked(head, g) && n in g && g[n].edges.Ok() && i < |g[n].edges.slots|
    ensures g[n].edges.slots[i].Inline? ==> |Below(g, n, i)| == |Below(g, n, i + 1)|
    ensures g[n].edges.slots[i].Child? ==>
              var c := g[n].edges.slots[i].node;
              c in g && Deeper(g, c) < Deeper(g, n) && |Below(g, n, i)| == |Below(g, n, i + 1)| + |Subtree(g, c)|
    ensures |Below(g, n, i)| < |Subtree(g, n)|
  {
    BelowStep(head, g, n, i);
    SubtreeParts(head, g, n);
    SubsetSize(Below(g, n, i), Below(g, n, 0));
    assert |{n} + Below(g, n, 0)| == 1 + |Below(g, n, 0)|;
  }

  lemma SubtreeSize(head: Node, g: Graph, n: Node)
    requires Linked(head, g) && n in g && g[n].edges.Ok()
    ensures |Subtree(g, n)| == 1 + |Below(g, n, 0)| && |Below(g, n, |g[n].edges.slots|)| == 0
  {
    SubtreeParts(head, g, n);
  }

  lemma SubsetSize(a: set<Node>, b: set<Node>)
    requires a <= b
    ensures |a| <= |b|
  {
    assert b == a + (b - a);
  }

  /** The subtree of the head is the whole tree. */
  lemma WholeTree(head: Node, g: Graph)
    requires Linked(head, g)
    ensures Subtree(g, head) == g.Keys && |g.Keys| == |g|
  {
  }
}
