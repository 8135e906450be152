/** Splitting, joining and replacing nodes with a single child: the edits that reshape a
    chain of nodes without touching any key. */
module RaxRuns {
  import opened RaxGraph
  import opened RaxEdits

  /** The edges of a node with one child: a compressed run if it has more than one character. */
  function Run(s: seq<Byte>, sl: Slot): Edges {
    Edges(|s| > 1, NoBits()[0 := sl.Inline?], s, [sl])
  }

  lemma RunOk(s: seq<Byte>, sl: Slot)
    requires 0 < |s| <= NODE_MAX_SIZE
    ensures Run(s, sl).Ok() && Run(s, sl).Label(0) == s
  {
  }

  lemma OkIsRun(e: Edges)
    requires e.Ok() && |e.slots| == 1
    ensures e == Run(e.chars, e.slots[0]) && e.Label(0) == e.chars && |e.chars| > 0
  {
    var r := Run(e.chars, e.slots[0]);
    assert e.leafBitmap == r.leafBitmap;
    assert e.slots == r.slots;
  }

  /** Make `p` the parent recorded for the child in slot `sl`, if there is one. */
  function Adopt(g: Graph, sl: Slot, p: Node): Graph
    requires sl.Child? ==> sl.node in g
  {
    if sl.Child? then g[sl.node := g[sl.node].(parent := p)] else g
  }

  // ---------------------------------------------------------------- split

  /** Cut the run of `h` after `j` characters; the rest moves to the new node `b`. */
  function Split(g: Graph, h: Node, j: nat, b: Node): Graph
    requires h in g && |g[h].edges.slots| == 1 && j <= |g[h].edges.chars|
    requires g[h].edges.slots[0].Child? ==> g[h].edges.slots[0].node in g
  {
    var s, sl := g[h].edges.chars, g[h].edges.slots[0];
    Adopt(g, sl, b)
      [h := g[h].(edges := Run(s[..j], Child(b)))]
      [b := NodeVal(g[h].prefix + s[..j], h, Run(s[j..], sl), false, Null)]
  }

  ghost predicate CanSplit(head: Node, g: Graph, h: Node, j: nat, b: Node) {
    && Linked(head, g) && h in g && |g[h].edges.slots| == 1 && HasChildren(g, h)
    && 0 < j < |g[h].edges.chars| && b !in g
  }

  /** A node is not its own child. */
  lemma ChildIsOther(g: Graph, h: Node, i: nat)
    requires h in g && HasChildren(g, h) && i < |g[h].edges.slots| && g[h].edges.slots[i].Child?
    ensures g[h].edges.slots[i].node != h && g[h].edges.slots[i].node in g
  {
    LongerThanPrefix(g[h], i);
  }

  lemma SplitLinked(head: Node, g: Graph, h: Node, j: nat, b: Node)
    requires CanSplit(head, g, h, j, b)
    ensures Linked(head, Split(g, h, j, b))
  {
    var g' := Split(g, h, j, b);
    forall n | n in g'
      ensures g'[n].edges.Ok() && HasChildren(g', n)
    {
      if n == h || n == b {
        SplitHere(head, g, h, j, b);
      } else {
        SplitOther(head, g, h, j, b, n);
      }
    }
    forall n | n in g' && n != head
      ensures HasParent(g', n)
    {
      SplitParent(head, g, h, j, b, n);
    }
  }

  lemma SplitHere(head: Node, g: Graph, h: Node, j: nat, b: Node)
    requires CanSplit(head, g, h, j, b)
    ensures HasChildren(Split(g, h, j, b), h) && HasChildren(Split(g, h, j, b), b)
  {
    var s, sl := g[h].edges.chars, g[h].edges.slots[0];
    OkIsRun(g[h].edges);
    RunOk(s[..j], Child(b));
    RunOk(s[j..], sl);
    assert g[h].prefix + s[..j] + s[j..] == g[h].prefix + s;
    if sl.Child? {
      ChildIsOther(g, h, 0);
    }
  }

  lemma SplitOther(head: Node, g: Graph, h: Node, j: nat, b: Node, n: Node)
    requires CanSplit(head, g, h, j, b) && n in g && n != h
    ensures g[n].edges.Ok() && HasChildren(Split(g, h, j, b), n)
  {
    assert HasChildren(g, n);
  }

  lemma SplitParent(head: Node, g: Graph, h: Node, j: nat, b: Node, n: Node)
    requires CanSplit(head, g, h, j, b) && n in Split(g, h, j, b) && n != head
    ensures HasParent(Split(g, h, j, b), n)
  {
    if n != b {
      var i := ParentSlot(head, g, n);
      if g[h].edges.slots[0].Child? {
        ChildIsOther(g, h, 0);
      }
    }
  }

  lemma SplitStores(head: Node, g: Graph, m: map<Key, Value>, h: Node, j: nat, b: Node)
    requires CanSplit(head, g, h, j, b) && Stores(g, m)
    ensures Stores(Split(g, h, j, b), m)
  {
    var g' := Split(g, h, j, b);
    forall n | n in g'
      ensures Holds(g', m, n)
    {
      if n == h || n == b {
        SplitHolds(head, g, m, h, j, b);
      } else {
        assert Holds(g, m, n);
      }
    }
    forall k | k in m
      ensures Located(g', k)
    {
      SplitLocated(head, g, h, j, b, k);
    }
  }

  lemma SplitHolds(head: Node, g: Graph, m: map<Key, Value>, h: Node, j: nat, b: Node)
    requires CanSplit(head, g, h, j, b) && Stores(g, m)
    ensures Holds(Split(g, h, j, b), m, h) && Holds(Split(g, h, j, b), m, b)
  {
    assert Holds(g, m, h);
    var s, sl := g[h].edges.chars, g[h].edges.slots[0];
    OkIsRun(g[h].edges);
    RunOk(s[..j], Child(b));
    RunOk(s[j..], sl);
    assert g[h].prefix + s[..j] + s[j..] == Reach(g[h], 0);
  }

  lemma SplitLocated(head: Node, g: Graph, h: Node, j: nat, b: Node, k: Key)
    requires CanSplit(head, g, h, j, b) && Located(g, k)
    ensures Located(Split(g, h, j, b), k)
  {
    if n :| n in g && KeyNode(g, k, n) {
      assert KeyNode(Split(g, h, j, b), k, n);
    } else {
      var n, i: nat :| n in g && InlineKey(g, k, n, i);
      SplitInline(head, g, h, j, b, k, n, i);
    }
  }

  lemma SplitInline(head: Node, g: Graph, h: Node, j: nat, b: Node, k: Key, n: Node, i: nat)
    requires CanSplit(head, g, h, j, b) && InlineKey(g, k, n, i)
    ensures InlineKey(Split(g, h, j, b), k, if n == h then b else n, i)
  {
    if n == h {
      var s, sl := g[h].edges.chars, g[h].edges.slots[0];
      OkIsRun(g[h].edges);
      RunOk(s[j..], sl);
      assert g[h].prefix + s[..j] + s[j..] == Reach(g[h], 0);
    }
  }

  /** Splitting a run changes neither the keys nor anything else a lookup can see. */
  lemma SplitKeeps(head: Node, g: Graph, m: map<Key, Value>, pending: Node?, h: Node, j: nat, b: Node)
    requires WellFormed(head, g, m, pending) && CanSplit(head, g, h, j, b)
    ensures WellFormed(head, Split(g, h, j, b), m, pending)
  {
    SplitLinked(head, g, h, j, b);
    SplitStores(head, g, m, h, j, b);
  }

  // ---------------------------------------------------------------- join

  /** Append the run of `c`, the only child of `h`, to the run of `h`, and drop `c`. */
  function Join(g: Graph, h: Node, c: Node): Graph
    requires h in g && c in g && |g[c].edges.slots| == 1
    requires g[c].edges.slots[0].Child? ==> g[c].edges.slots[0].node in g
  {
    Adopt(g, g[c].edges.slots[0], h)
      [h := g[h].(edges := Run(g[h].edges.chars + g[c].edges.chars, g[c].edges.slots[0]))] - {c}
  }

  ghost predicate CanJoin(head: Node, g: Graph, h: Node, c: Node) {
    && Linked(head, g) && h in g && g[h].edges.slots == [Child(c)] && c in g && |g[c].edges.slots| == 1 && !g[c].isKey
    && HasChildren(g, h) && HasChildren(g, c)
    && |g[h].edges.chars| + |g[c].edges.chars| <= NODE_MAX_SIZE
  }

  lemma JoinNodes(head: Node, g: Graph, h: Node, c: Node)
    requires CanJoin(head, g, h, c)
    ensures c != h && c != head && g[c].parent == h
    ensures g[c].edges.slots[0].Child? ==> g[c].edges.slots[0].node != h && g[c].edges.slots[0].node != c
    ensures var e := Run(g[h].edges.chars + g[c].edges.chars, g[c].edges.slots[0]);
            e.Ok() && g[h].prefix + e.Label(0) == Reach(g[c], 0)
  {
    ChildIsOther(g, h, 0);
    LongerThanPrefix(g[h], 0);
    LongerThanPrefix(g[c], 0);
    OkIsRun(g[h].edges);
    OkIsRun(g[c].edges);
    var s := g[h].edges.chars + g[c].edges.chars;
    RunOk(s, g[c].edges.slots[0]);
    assert g[h].prefix + s == g[h].prefix + g[h].edges.chars + g[c].edges.chars;
  }

  lemma JoinLinked(head: Node, g: Graph, h: Node, c: Node)
    requires CanJoin(head, g, h, c)
    ensures Linked(head, Join(g, h, c))
  {
    var g' := Join(g, h, c);
    JoinNodes(head, g, h, c);
    forall n | n in g'
      ensures g'[n].edges.Ok() && HasChildren(g', n)
    {
      if n != h {
        JoinOther(head, g, h, c, n);
      }
    }
    forall n | n in g' && n != head
      ensures HasParent(g', n)
    {
      JoinParent(head, g, h, c, n);
    }
  }

  lemma JoinOther(head: Node, g: Graph, h: Node, c: Node, n: Node)
    requires CanJoin(head, g, h, c) && n in g && n != h && n != c
    ensures g[n].edges.Ok() && HasChildren(Join(g, h, c), n)
  {
    assert HasChildren(g, n);
    JoinNodes(head, g, h, c);
  }

  lemma JoinParent(head: Node, g: Graph, h: Node, c: Node, n: Node)
    requires CanJoin(head, g, h, c) && n in Join(g, h, c) && n != head
    ensures HasParent(Join(g, h, c), n)
  {
    JoinNodes(head, g, h, c);
    var i := ParentSlot(head, g, n);
  }

  lemma JoinStores(head: Node, g: Graph, m: map<Key, Value>, h: Node, c: Node)
    requires CanJoin(head, g, h, c) && Stores(g, m)
    ensures Stores(Join(g, h, c), m)
  {
    var g' := Join(g, h, c);
    forall n | n in g'
      ensures Holds(g', m, n)
    {
      JoinNodes(head, g, h, c);
      assert Holds(g, m, n);
      assert Holds(g, m, c);
    }
    forall k | k in m
      ensures Located(g', k)
    {
      JoinLocated(head, g, h, c, k);
    }
  }

  lemma JoinLocated(head: Node, g: Graph, h: Node, c: Node, k: Key)
    requires CanJoin(head, g, h, c) && Located(g, k)
    ensures Located(Join(g, h, c), k)
  {
    JoinNodes(head, g, h, c);
    if n :| n in g && KeyNode(g, k, n) {
      assert KeyNode(Join(g, h, c), k, n);
    } else {
      var n, i: nat :| n in g && InlineKey(g, k, n, i);
      JoinInline(head, g, h, c, k, n, i);
    }
  }

  lemma JoinInline(head: Node, g: Graph, h: Node, c: Node, k: Key, n: Node, i: nat)
    requires CanJoin(head, g, h, c) && InlineKey(g, k, n, i)
    ensures InlineKey(Join(g, h, c), k, if n == c then h else n, i)
  {
    JoinNodes(head, g, h, c);
  }

  lemma JoinKeeps(head: Node, g: Graph, m: map<Key, Value>, h: Node, c: Node)
    requires WellFormed(head, g, m, null) && CanJoin(head, g, h, c)
    ensures WellFormed(head, Join(g, h, c), m, null)
  {
    JoinLinked(head, g, h, c);
    JoinStores(head, g, m, h, c);
  }

  // ---------------------------------------------------------------- move

  /** The fresh node `r` takes over everything of `h`; slot `x` of its parent follows. */
  function Move(g: Graph, h: Node, r: Node, x: nat): Graph
    requires h in g && |g[h].edges.slots| == 1
    requires g[h].edges.slots[0].Child? ==> g[h].edges.slots[0].node in g
    requires r !in g
    requires g[h].parent != null ==>
               g[h].parent in g && g[h].parent != h && x < |g[g[h].parent].edges.slots|
  {
    var g1, p := Adopt(g, g[h].edges.slots[0], r)[r := g[h]], g[h].parent;
    (if p == null then g1 else g1[p := Relink(g1[p], x, r)]) - {h}
  }

  function Relink(v: NodeVal, x: nat, r: Node): NodeVal
    requires x < |v.edges.slots|
  {
    v.(edges := v.edges.(slots := v.edges.slots[x := Child(r)]))
  }

  ghost predicate CanMove(head: Node, g: Graph, h: Node, r: Node, x: nat) {
    && Linked(head, g) && h in g && |g[h].edges.slots| == 1 && HasChildren(g, h) && r !in g
    && (h != head ==>
          && g[h].parent != null && g[h].parent in g && g[h].parent != h && HasChildren(g, g[h].parent)
          && x < |g[g[h].parent].edges.slots| && g[g[h].parent].edges.slots[x] == Child(h))
  }

  lemma MoveNodes(head: Node, g: Graph, h: Node, r: Node, x: nat)
    requires CanMove(head, g, h, r, x)
    ensures var sl := g[h].edges.slots[0]; sl.Child? ==> sl.node != h && sl.node != g[h].parent && sl.node != head
  {
    if g[h].edges.slots[0].Child? {
      ChildIsOther(g, h, 0);
      LongerThanPrefix(g[h], 0);
      if h != head {
        LongerThanPrefix(g[g[h].parent], x);
      }
    }
  }

  lemma MoveLinked(head: Node, g: Graph, h: Node, r: Node, x: nat)
    requires CanMove(head, g, h, r, x)
    ensures Linked(if h == head then r else head, Move(g, h, r, x))
  {
    var g' := Move(g, h, r, x);
    var head' := if h == head then r else head;
    MoveNodes(head, g, h, r, x);
    forall n | n in g'
      ensures g'[n].edges.Ok() && HasChildren(g', n)
    {
      if n == g[h].parent {
        MoveParentSlots(head, g, h, r, x);
      } else if n != r {
        MoveOther(head, g, h, r, x, n);
      }
    }
    forall n | n in g' && n != head'
      ensures HasParent(g', n)
    {
      MoveParent(head, g, h, r, x, n);
    }
  }

  lemma MoveParentSlots(head: Node, g: Graph, h: Node, r: Node, x: nat)
    requires CanMove(head, g, h, r, x) && h != head
    ensures HasChildren(Move(g, h, r, x), g[h].parent)
  {
    MoveNodes(head, g, h, r, x);
    var p := g[h].parent;
    var e, e' := g[p].edges, Move(g, h, r, x)[p].edges;
    assert e'.slots == e.slots[x := Child(r)];
    assert e'.Ok();
    forall i | 0 <= i < |e.slots| && i != x && e.slots[i].Child?
      ensures e.slots[i].node != h
    {
      if e.slots[i].node == h {
        TwoEdges(g[p], i, x, g[h].prefix);
      }
    }
  }

  lemma MoveOther(head: Node, g: Graph, h: Node, r: Node, x: nat, n: Node)
    requires CanMove(head, g, h, r, x) && n in g && n != h && n != g[h].parent
    ensures g[n].edges.Ok() && HasChildren(Move(g, h, r, x), n)
  {
    assert HasChildren(g, n);
    MoveNodes(head, g, h, r, x);
  }

  lemma MoveParent(head: Node, g: Graph, h: Node, r: Node, x: nat, n: Node)
    requires CanMove(head, g, h, r, x) && n in Move(g, h, r, x) && n != (if h == head then r else head)
    ensures HasParent(Move(g, h, r, x), n)
  {
    var g' := Move(g, h, r, x);
    MoveNodes(head, g, h, r, x);
    if n == r {
      assert g'[g[h].parent].edges.slots[x] == Child(r);
    } else {
      var i := ParentSlot(head, g, n);
      var p := g[n].parent;
      if p == h {
        assert g'[r].edges.slots[0] == Child(n);
      } else {
        assert g'[p].edges.slots[i] == Child(n);
      }
    }
  }

  lemma MoveStores(head: Node, g: Graph, m: map<Key, Value>, h: Node, r: Node, x: nat)
    requires CanMove(head, g, h, r, x) && Stores(g, m)
    ensures Stores(Move(g, h, r, x), m)
  {
    var g' := Move(g, h, r, x);
    MoveNodes(head, g, h, r, x);
    forall n | n in g'
      ensures Holds(g', m, n)
    {
      MoveHolds(head, g, m, h, r, x, n);
    }
    forall k | k in m
      ensures Located(g', k)
    {
      MoveLocated(head, g, h, r, x, k);
    }
  }

  lemma MoveHolds(head: Node, g: Graph, m: map<Key, Value>, h: Node, r: Node, x: nat, n: Node)
    requires CanMove(head, g, h, r, x) && Stores(g, m) && n in Move(g, h, r, x)
    ensures Holds(Move(g, h, r, x), m, n)
  {
    MoveNodes(head, g, h, r, x);
    if n == r {
      assert Holds(g, m, h);
    } else {
      assert Holds(g, m, n);
      if n == g[h].parent {
        MoveParentSlots(head, g, h, r, x);
      }
    }
  }

  lemma MoveLocated(head: Node, g: Graph, h: Node, r: Node, x: nat, k: Key)
    requires CanMove(head, g, h, r, x) && Located(g, k)
    ensures Located(Move(g, h, r, x), k)
  {
    MoveNodes(head, g, h, r, x);
    if n :| n in g && KeyNode(g, k, n) {
      assert KeyNode(Move(g, h, r, x), k, if n == h then r else n);
    } else {
      var n, i: nat :| n in g && InlineKey(g, k, n, i);
      MoveInline(head, g, h, r, x, k, n, i);
    }
  }

  lemma MoveInline(head: Node, g: Graph, h: Node, r: Node, x: nat, k: Key, n: Node, i: nat)
    requires CanMove(head, g, h, r, x) && InlineKey(g, k, n, i)
    ensures InlineKey(Move(g, h, r, x), k, if n == h then r else n, i)
  {
    MoveNodes(head, g, h, r, x);
    if n == g[h].parent {
      MoveParentSlots(head, g, h, r, x);
    }
  }

  lemma MoveKeeps(head: Node, g: Graph, m: map<Key, Value>, h: Node, r: Node, x: nat)
    requires WellFormed(head, g, m, null) && CanMove(head, g, h, r, x)
    ensures WellFormed(if h == head then r else head, Move(g, h, r, x), m, null)
  {
    MoveLinked(head, g, h, r, x);
    MoveStores(head, g, m, h, r, x);
  }
}
