/** The two ways insertion splits a compressed node, composed from the edits of a run. */
module RaxSplits {
  import opened RaxGraph
  import opened RaxEdits
  import opened RaxRuns

  /** `b` is `a`, possibly below another parent. */
  predicate SameUpToParent(a: NodeVal, b: NodeVal) {
    a.prefix == b.prefix && a.edges == b.edges && a.isKey == b.isKey && a.data == b.data
  }

  /** Every other node is as before, but slot `x` of the parent of `h` leads to `top`. */
  ghost predicate Replaced(g: Graph, g': Graph, h: Node, x: nat, top: Node) {
    && h in g && (g[h].parent != null && g[h].parent in g ==> x < |g[g[h].parent].edges.slots|)
    && forall n :: n in g && n != h ==>
        n in g' && SameUpToParent(if n == g[h].parent then Relink(g[n], x, top) else g[n], g'[n])
  }

  lemma ReplacedThen(g: Graph, g1: Graph, g2: Graph, h: Node, x: nat, top: Node)
    requires Replaced(g, g1, h, x, top) && top !in g
    requires forall n :: n in g1 && n != top ==> n in g2 && SameUpToParent(g1[n], g2[n])
    ensures Replaced(g, g2, h, x, top)
  {
  }

  lemma SplitFrame(head: Node, g: Graph, h: Node, j: nat, b: Node)
    requires CanSplit(head, g, h, j, b)
    ensures var g', s, sl := Split(g, h, j, b), g[h].edges.chars, g[h].edges.slots[0];
            && g'.Keys == g.Keys + {b} && |g'| == |g| + 1
            && g'[h] == g[h].(edges := Run(s[..j], Child(b)))
            && g'[b] == NodeVal(g[h].prefix + s[..j], h, Run(s[j..], sl), false, Null)
            && forall n :: n in g && n != h ==> SameUpToParent(g[n], g'[n])
  {
    if g[h].edges.slots[0].Child? {
      ChildIsOther(g, h, 0);
    }
  }

  lemma MoveFrame(head: Node, g: Graph, h: Node, r: Node, x: nat)
    requires CanMove(head, g, h, r, x)
    ensures var g' := Move(g, h, r, x);
            g'.Keys == g.Keys - {h} + {r} && |g'| == |g| && g'[r] == g[h]
  {
    MoveNodes(head, g, h, r, x);
    MoveKeys(g, h, r, x);
  }

  lemma MoveReplaced(head: Node, g: Graph, h: Node, r: Node, x: nat)
    requires CanMove(head, g, h, r, x)
    ensures Replaced(g, Move(g, h, r, x), h, x, r)
  {
    MoveNodes(head, g, h, r, x);
    var g', p := Move(g, h, r, x), g[h].parent;
    hide CanMove, Linked, HasChildren, HasParent;
    forall n | n in g && n != h
      ensures n in g' && SameUpToParent(if n == p then Relink(g[n], x, r) else g[n], g'[n])
    {
    }
  }

  lemma MoveKeys(g: Graph, h: Node, r: Node, x: nat)
    requires h in g && |g[h].edges.slots| == 1 && r !in g
    requires g[h].edges.slots[0].Child? ==> g[h].edges.slots[0].node in g
    requires g[h].parent != null ==> g[h].parent in g && g[h].parent != h && x < |g[g[h].parent].edges.slots|
    ensures Move(g, h, r, x).Keys == g.Keys - {h} + {r} && |Move(g, h, r, x)| == |g|
  {
    var ks, g' := g.Keys, Move(g, h, r, x);
    assert g'.Keys == (ks + {r}) - {h};
    SwapSize(ks, h, r);
    assert |g'| == |g'.Keys|;
  }

  lemma SwapSize(s: set<Node>, a: Node, b: Node)
    requires a in s && b !in s
    ensures |s + {b} - {a}| == |s| && s + {b} - {a} == s - {a} + {b}
  {
    assert |s - {a}| == |s| - 1;
  }

  lemma CanMoveLinked(head: Node, g: Graph, h: Node, r: Node, x: nat)
    requires Linked(head, g) && h in g && |g[h].edges.slots| == 1 && r !in g
    requires h != head ==> g[h].parent != null && g[h].parent in g && x < |g[g[h].parent].edges.slots| &&
                           g[g[h].parent].edges.slots[x] == Child(h)
    ensures CanMove(head, g, h, r, x)
  {
    assert HasChildren(g, h);
    if h != head {
      assert HasChildren(g, g[h].parent);
      ChildIsOther(g, g[h].parent, x);
    }
  }

  lemma MoveThenSplit(head: Node, g: Graph, h: Node, r: Node, x: nat, j: nat, b: Node)
    requires CanMove(head, g, h, r, x) && 0 < j < |g[h].edges.chars| && b !in g && b != r
    ensures CanSplit(if h == head then r else head, Move(g, h, r, x), r, j, b)
  {
    MoveLinked(head, g, h, r, x);
    MoveFrame(head, g, h, r, x);
    assert HasChildren(Move(g, h, r, x), r);
  }

  /** `h` is at home in slot `x` of its parent, or is the head, and has one child. */
  ghost predicate OnlyChild(head: Node, g: Graph, h: Node, x: nat) {
    && Linked(head, g) && h in g && |g[h].edges.slots| == 1
    && (h != head ==> g[h].parent != null && g[h].parent in g && x < |g[g[h].parent].edges.slots| &&
                      g[g[h].parent].edges.slots[x] == Child(h))
  }

  /** Replace `h` by `top` in the tree, then cut it after `j` characters, the rest going to `b`. */
  ghost function Cut(head: Node, g: Graph, h: Node, x: nat, j: nat, top: Node, b: Node): Graph
    requires OnlyChild(head, g, h, x) && 0 < j < |g[h].edges.chars| && top !in g && b !in g && b != top
  {
    CanMoveLinked(head, g, h, top, x);
    MoveThenSplit(head, g, h, top, x, j, b);
    Split(Move(g, h, top, x), top, j, b)
  }

  lemma CutKeeps(head: Node, g: Graph, m: map<Key, Value>, h: Node, x: nat, j: nat, top: Node, b: Node)
    requires WellFormed(head, g, m, null) && OnlyChild(head, g, h, x)
    requires 0 < j < |g[h].edges.chars| && top !in g && b !in g && b != top
    ensures WellFormed(if h == head then top else head, Cut(head, g, h, x, j, top, b), m, null)
  {
    CanMoveLinked(head, g, h, top, x);
    MoveThenSplit(head, g, h, top, x, j, b);
    MoveKeeps(head, g, m, h, top, x);
    SplitKeeps(if h == head then top else head, Move(g, h, top, x), m, null, top, j, b);
  }

  lemma CutFrame(head: Node, g: Graph, h: Node, x: nat, j: nat, top: Node, b: Node)
    requires OnlyChild(head, g, h, x) && 0 < j < |g[h].edges.chars| && top !in g && b !in g && b != top
    ensures var g', s, sl := Cut(head, g, h, x, j, top, b), g[h].edges.chars, g[h].edges.slots[0];
            && g'.Keys == g.Keys - {h} + {top, b} && |g'| == |g| + 1
            && g'[top] == g[h].(edges := Run(s[..j], Child(b)))
            && g'[b] == NodeVal(g[h].prefix + s[..j], top, Run(s[j..], sl), false, Null)
  {
    CanMoveLinked(head, g, h, top, x);
    MoveThenSplit(head, g, h, top, x, j, b);
    MoveFrame(head, g, h, top, x);
    SplitFrame(if h == head then top else head, Move(g, h, top, x), top, j, b);
  }

  lemma CutReplaced(head: Node, g: Graph, h: Node, x: nat, j: nat, top: Node, b: Node)
    requires OnlyChild(head, g, h, x) && 0 < j < |g[h].edges.chars| && top !in g && b !in g && b != top
    ensures Replaced(g, Cut(head, g, h, x, j, top, b), h, x, top)
  {
    CanMoveLinked(head, g, h, top, x);
    MoveThenSplit(head, g, h, top, x, j, b);
    MoveReplaced(head, g, h, top, x);
    SplitFrame(if h == head then top else head, Move(g, h, top, x), top, j, b);
    ReplacedThen(g, Move(g, h, top, x), Cut(head, g, h, x, j, top, b), h, x, top);
  }

  lemma ParentIsOther(head: Node, g: Graph, h: Node)
    requires Linked(head, g) && h in g && h != head
    ensures g[h].parent != h && g[h].parent in g
  {
    var i := ParentSlot(head, g, h);
  }

  // ---------------------------------------------------------------- ALGO 1

  /** The nodes ALGO 1 allocates: `trimmed` unless the mismatch is at the first character of the
      run, `postfix` unless it is at the last. */
  ghost predicate SplitNodes(g: Graph, h: Node, j: nat, trimmed: Node?, split: Node, postfix: Node?) {
    && h in g && j < |g[h].edges.chars| && 1 < |g[h].edges.chars|
    && (trimmed == null <==> j == 0) && (postfix == null <==> j + 1 == |g[h].edges.chars|)
    && trimmed !in g && split !in g && postfix !in g
    && trimmed != split && split != postfix && (trimmed != null ==> trimmed != postfix)
  }

  /** The node that takes the place of `h`. */
  function Top(trimmed: Node?, split: Node): Node {
    if trimmed == null then split else trimmed
  }

  ghost function SplitAt(head: Node, g: Graph, h: Node, x: nat, j: nat, trimmed: Node?, split: Node,
                         postfix: Node?): Graph
    requires OnlyChild(head, g, h, x) && SplitNodes(g, h, j, trimmed, split, postfix)
  {
    if trimmed == null then Cut(head, g, h, x, 1, split, postfix)
    else if postfix == null then Cut(head, g, h, x, j, trimmed, split)
    else
      CutAgain(head, g, h, x, j, trimmed, split, postfix);
      Split(Cut(head, g, h, x, j, trimmed, split), split, 1, postfix)
  }

  lemma CutAgain(head: Node, g: Graph, h: Node, x: nat, j: nat, trimmed: Node, split: Node, postfix: Node)
    requires OnlyChild(head, g, h, x) && SplitNodes(g, h, j, trimmed, split, postfix)
    ensures CanSplit(if h == head then trimmed else head, Cut(head, g, h, x, j, trimmed, split), split, 1, postfix)
  {
    CanMoveLinked(head, g, h, trimmed, x);
    MoveThenSplit(head, g, h, trimmed, x, j, split);
    var head' := if h == head then trimmed else head;
    SplitLinked(head', Move(g, h, trimmed, x), trimmed, j, split);
    CutFrame(head, g, h, x, j, trimmed, split);
    assert HasChildren(Cut(head, g, h, x, j, trimmed, split), split);
  }

  lemma SplitAtKeeps(head: Node, g: Graph, m: map<Key, Value>, h: Node, x: nat, j: nat, trimmed: Node?, split: Node,
                     postfix: Node?)
    requires WellFormed(head, g, m, null)
    requires OnlyChild(head, g, h, x) && SplitNodes(g, h, j, trimmed, split, postfix)
    ensures WellFormed(if h == head then Top(trimmed, split) else head,
                       SplitAt(head, g, h, x, j, trimmed, split, postfix), m, null)
  {
    if trimmed == null {
      CutKeeps(head, g, m, h, x, 1, split, postfix);
    } else {
      CutKeeps(head, g, m, h, x, j, trimmed, split);
      if postfix != null {
        CutAgain(head, g, h, x, j, trimmed, split, postfix);
        var head' := if h == head then trimmed else head;
        SplitKeeps(head', Cut(head, g, h, x, j, trimmed, split), m, null, split, 1, postfix);
      }
    }
  }

  /** What ALGO 1 leaves behind, node by node. */
  lemma SplitAtFrame(head: Node, g: Graph, h: Node, x: nat, j: nat, trimmed: Node?, split: Node, postfix: Node?)
    requires OnlyChild(head, g, h, x) && SplitNodes(g, h, j, trimmed, split, postfix)
    ensures var g', s, sl := SplitAt(head, g, h, x, j, trimmed, split, postfix), g[h].edges.chars, g[h].edges.slots[0];
            && split in g' && g'[split].prefix == g[h].prefix + s[..j]
            && g'[split].edges == Run([s[j]], if postfix == null then sl else Child(postfix))
            && (if trimmed == null then g'[split].isKey == g[h].isKey && g'[split].data == g[h].data
                else
                  && !g'[split].isKey && trimmed in g' && g'[trimmed].isKey == g[h].isKey &&
                       g'[trimmed].data == g[h].data
                  && g'[trimmed].edges == Run(s[..j], Child(split)))
            && (postfix != null ==> postfix in g' && !g'[postfix].isKey && g'[postfix].edges == Run(s[j + 1..], sl))
  {
    var s := g[h].edges.chars;
    if trimmed == null {
      CutFrame(head, g, h, x, 1, split, postfix);
      assert s[..1] == [s[0]];
    } else {
      CutFrame(head, g, h, x, j, trimmed, split);
      if postfix == null {
        assert s[j..] == [s[j]];
      } else {
        CutAgain(head, g, h, x, j, trimmed, split, postfix);
        SplitFrame(if h == head then trimmed else head, Cut(head, g, h, x, j, trimmed, split), split, 1, postfix);
        assert s[j..][..1] == [s[j]] && s[j..][1..] == s[j + 1..];
      }
    }
  }

  lemma SplitAtReplaced(head: Node, g: Graph, h: Node, x: nat, j: nat, trimmed: Node?, split: Node, postfix: Node?)
    requires OnlyChild(head, g, h, x) && SplitNodes(g, h, j, trimmed, split, postfix)
    ensures Replaced(g, SplitAt(head, g, h, x, j, trimmed, split, postfix), h, x, Top(trimmed, split))
  {
    if trimmed == null {
      CutReplaced(head, g, h, x, 1, split, postfix);
    } else {
      CutReplaced(head, g, h, x, j, trimmed, split);
      if postfix != null {
        CutAgain(head, g, h, x, j, trimmed, split, postfix);
        var g1 := Cut(head, g, h, x, j, trimmed, split);
        SplitFrame(if h == head then trimmed else head, g1, split, 1, postfix);
        SplitBelow(g, g1, Split(g1, split, 1, postfix), h, x, trimmed, split);
      }
    }
  }

  lemma SplitAtKeys(head: Node, g: Graph, h: Node, x: nat, j: nat, trimmed: Node?, split: Node, postfix: Node?)
    requires OnlyChild(head, g, h, x) && SplitNodes(g, h, j, trimmed, split, postfix)
    ensures forall n: Node :: n in SplitAt(head, g, h, x, j, trimmed, split, postfix) <==>
                        (n in g && n != h) || n == split || n == trimmed || n == postfix
  {
    if trimmed == null {
      CutFrame(head, g, h, x, 1, split, postfix);
    } else {
      CutFrame(head, g, h, x, j, trimmed, split);
      if postfix != null {
        CutAgain(head, g, h, x, j, trimmed, split, postfix);
        SplitFrame(if h == head then trimmed else head, Cut(head, g, h, x, j, trimmed, split), split, 1, postfix);
      }
    }
  }

  lemma SplitAtSize(head: Node, g: Graph, h: Node, x: nat, j: nat, trimmed: Node?, split: Node, postfix: Node?)
    requires OnlyChild(head, g, h, x) && SplitNodes(g, h, j, trimmed, split, postfix)
    ensures |SplitAt(head, g, h, x, j, trimmed, split, postfix)| == |g| + NewNodes(trimmed, postfix)
  {
    if trimmed == null {
      CutFrame(head, g, h, x, 1, split, postfix);
    } else {
      CutFrame(head, g, h, x, j, trimmed, split);
      if postfix != null {
        CutAgain(head, g, h, x, j, trimmed, split, postfix);
        SplitFrame(if h == head then trimmed else head, Cut(head, g, h, x, j, trimmed, split), split, 1, postfix);
      }
    }
  }

  /** By how many ALGO 1 increases the number of nodes. */
  function NewNodes(trimmed: Node?, postfix: Node?): nat {
    (if trimmed != null then 1 else 0) + (if postfix != null then 1 else 0)
  }

  /** ALGO 1 as one step from the graph `g` to the graph `next`. */
  lemma SplitAtStep(head: Node, g: Graph, h: Node, x: nat, j: nat, trimmed: Node?, split: Node, postfix: Node?)
    returns (next: Graph)
    requires OnlyChild(head, g, h, x) && SplitNodes(g, h, j, trimmed, split, postfix)
    ensures next == SplitAt(head, g, h, x, j, trimmed, split, postfix)
    ensures Replaced(g, next, h, x, Top(trimmed, split)) && h !in next
    ensures forall n: Node :: n in next && n !in g ==> n == split || n == trimmed || n == postfix
  {
    SplitAtReplaced(head, g, h, x, j, trimmed, split, postfix);
    SplitAtKeys(head, g, h, x, j, trimmed, split, postfix);
    next := SplitAt(head, g, h, x, j, trimmed, split, postfix);
  }

  /** A split of a new node leaves all old nodes in place. */
  lemma SplitBelow(g: Graph, g1: Graph, g2: Graph, h: Node, x: nat, top: Node, split: Node)
    requires Replaced(g, g1, h, x, top) && split !in g
    requires forall n :: n in g1 && n != split ==> n in g2 && SameUpToParent(g1[n], g2[n])
    ensures Replaced(g, g2, h, x, top)
  {
  }

  // ---------------------------------------------------------------- ALGO 2

  /** The run is cut after `j` matching characters, and the rest is made the node of the new key. */
  ghost function SplitForKey(head: Node, g: Graph, h: Node, x: nat, j: nat, trimmed: Node, postfix: Node,
                             data: Value): Graph
    requires OnlyChild(head, g, h, x) && 0 < j < |g[h].edges.chars| && trimmed !in g && postfix !in g
    requires postfix != trimmed
  {
    CutFrame(head, g, h, x, j, trimmed, postfix);
    var g1 := Cut(head, g, h, x, j, trimmed, postfix);
    g1[postfix := WithKey(g1[postfix], data)]
  }

  lemma SplitForKeyKeeps(head: Node, g: Graph, m: map<Key, Value>, h: Node, x: nat, j: nat, trimmed: Node,
                         postfix: Node, data: Value)
    requires WellFormed(head, g, m, null) && OnlyChild(head, g, h, x)
    requires 0 < j < |g[h].edges.chars| && trimmed !in g && postfix !in g && postfix != trimmed
    ensures WellFormed(if h == head then trimmed else head, SplitForKey(head, g, h, x, j, trimmed, postfix, data),
                       m[g[h].prefix + g[h].edges.chars[..j] := data], null)
  {
    CutFrame(head, g, h, x, j, trimmed, postfix);
    CutKeeps(head, g, m, h, x, j, trimmed, postfix);
    SetKey(if h == head then trimmed else head, Cut(head, g, h, x, j, trimmed, postfix), m, null, postfix, data);
  }

  /** ALGO 2 as one step from the graph `g` to the graph `next`. */
  lemma SplitForKeyStep(head: Node, g: Graph, h: Node, x: nat, j: nat, trimmed: Node, postfix: Node, data: Value)
    returns (next: Graph)
    requires OnlyChild(head, g, h, x)
    requires 0 < j < |g[h].edges.chars| && trimmed !in g && postfix !in g && postfix != trimmed
    ensures next == SplitForKey(head, g, h, x, j, trimmed, postfix, data) && |next| == |g| + 1
    ensures Replaced(g, next, h, x, trimmed) && h !in next && trimmed in next && postfix in next
    ensures forall n: Node :: n in next <==> (n in g && n != h) || n == trimmed || n == postfix
    ensures next[trimmed] == g[h].(edges := Run(g[h].edges.chars[..j], Child(postfix)))
    ensures next[postfix].isKey && next[postfix].data == data
    ensures next[postfix].edges == Run(g[h].edges.chars[j..], g[h].edges.slots[0])
  {
    hide Replaced;
    CutFrame(head, g, h, x, j, trimmed, postfix);
    CutReplaced(head, g, h, x, j, trimmed, postfix);
    var g1 := Cut(head, g, h, x, j, trimmed, postfix);
    next := SplitForKey(head, g, h, x, j, trimmed, postfix, data);
    SplitBelow(g, g1, next, h, x, trimmed, postfix);
  }
}
