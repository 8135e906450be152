/** Ordered iteration over a radix tree with an explicit stack of ancestors. */
module RaxIterator {
  import opened RaxGraph
  import opened RaxEdits
  import opened RaxChanges
  import opened RaxRemoval
  import opened RaxTree
  import opened RaxOrder
  import opened RaxSeek

  class Iterator {
    const rt: Rax
    var key: Key
    var data: Value
    var node: Node?
    var nodeChild: int
    var stack: seq<Node>
    var eof: bool
    var justSeeked: bool
    var inlineLeaf: bool

    /** raxStart */
    constructor (rt: Rax)
      ensures this.rt == rt && eof
    {
      this.rt := rt;
      key, data, node, nodeChild, stack := [], Null, null, -1, [];
      eof, justSeeked, inlineLeaf := true, false, false;
    }

    /** The iterator stands at `node`, whose ancestors are on the stack. */
    ghost predicate At()
      reads `node, `stack, rt
    {
      node != null && node in rt.g && rt.g[node].edges.Ok() && Chain(rt.head, rt.g, stack, node)
    }

    /** ... and its key is the prefix of that node. A cached child index, if any, is right. */
    ghost predicate AtNode()
      reads `node, `stack, `key, `nodeChild, `inlineLeaf, rt
    {
      && At() && !inlineLeaf && key == rt.g[node].prefix
      && (nodeChild != -1 ==>
            && node != rt.head && rt.g[node].parent != null && rt.g[node].parent in rt.g
            && 0 <= nodeChild < |rt.g[rt.g[node].parent].edges.slots|
            && rt.g[rt.g[node].parent].edges.slots[nodeChild] == Child(node))
    }

    /** The iterator stands on the inline leaf in slot `nodeChild` of `node`. */
    ghost predicate AtInline()
      reads `node, `stack, `key, `data, `nodeChild, `inlineLeaf, rt
    {
      && At() && inlineLeaf && 0 <= nodeChild < |rt.g[node].edges.slots|
      && rt.g[node].edges.slots[nodeChild].Inline? && key == Reach(rt.g[node], nodeChild)
      && data == rt.g[node].edges.slots[nodeChild].value
    }

    /** The current element is a key of the tree, with its value. */
    ghost predicate OnKey()
      reads `node, `stack, `key, `data, `nodeChild, `inlineLeaf, rt
    {
      AtInline() || (AtNode() && rt.g[node].isKey && data == rt.g[node].data)
    }

    /** The key leads one edge out of `node`: over its whole run, or over one character, which need
        not be an edge of the node. The search goes on from there, upwards. */
    ghost predicate Leaving()
      reads `node, `stack, `key, `nodeChild, `inlineLeaf, rt
    {
      && At() && !inlineLeaf
      && (if rt.g[node].edges.isCompr then key == rt.g[node].prefix + rt.g[node].edges.chars
          else
            && |key| == |rt.g[node].prefix| + 1 && key[..|key| - 1] == rt.g[node].prefix
            && (nodeChild != -1 ==>
                  0 <= nodeChild < |rt.g[node].edges.chars| && rt.g[node].edges.chars[nodeChild] == key[|key| - 1]))
    }

    lemma OnKeyStored()
      requires rt.Valid() && OnKey()
      ensures key in rt.m && data == rt.m[key]
    {
      assert Holds(rt.g, rt.m, node);
    }

    /** raxIteratorEnterChild: from the prefix of `node` into its slot `x`. */
    method EnterChild(x: nat)
      requires rt.Valid() && At() && key == rt.g[node].prefix && !inlineLeaf && x < |rt.g[node].edges.slots|
      modifies this
      ensures key == old(Reach(rt.g[node], x)) && (AtInline() || AtNode()) && eof == old(eof)
      ensures justSeeked == old(justSeeked)
      ensures AtInline() ==> node == old(node) && nodeChild == x
      ensures AtNode() ==>
                && node != rt.head && data == (if rt.g[node].isKey then rt.g[node].data else Null)
                && |rt.g[node].prefix| > |old(key)| && (rt.g[node].isKey || rt.g[node].edges.slots != [])
    {
      hide Rax.Valid, Edges.Ok, Chain;
      var n := node;
      NodeFacts(rt, n);
      ChildFacts(rt, stack, n, x);
      key := key + (if n.edges.isCompr then n.edges.chars else [n.edges.chars[x]]);
      nodeChild := x;
      if x < INLINE_SLOTS && n.edges.leafBitmap[x] {
        data := n.edges.slots[x].value;
        inlineLeaf := true;
        return;
      }
      stack := stack + [n];
      node := n.edges.slots[x].node;
      data := if node.isKey then node.GetData() else Null;
    }

    /** Going up: the parent of `node` becomes the current node, the key stays. */
    method PopParent()
      requires rt.Valid() && AtNode() && node != rt.head
      modifies `node, `stack
      ensures Leaving() && |stack| == |old(stack)| - 1 && nodeChild == old(nodeChild)
      ensures !rt.g[node].edges.isCompr ==> key[|key| - 1] in rt.g[node].edges.chars
    {
      hide Rax.Valid;
      PopFacts(rt, stack, node);
      node, stack := stack[|stack| - 1], stack[..|stack| - 1];
    }

    /** The part of raxIteratorNextStep that leaves a child of `node`: shorten the key to the prefix of
        `node` and enter the next greater child, if there is one. `fromChild` says that the key came
        from an existing child. */
    method TryNext(fromChild: bool) returns (moved: bool)
      requires rt.Valid() && Leaving()
      requires fromChild && !rt.g[node].edges.isCompr ==> key[|key| - 1] in rt.g[node].edges.chars
      modifies this
      ensures eof == old(eof) && justSeeked == old(justSeeked)
      ensures moved ==>
        AtInline() || (AtNode() && node != rt.head && (rt.g[node].isKey || rt.g[node].edges.slots != []) &&
                       data == (if rt.g[node].isKey then rt.g[node].data else Null))
      ensures moved ==> FirstAfter(rt.m, old(key), key)
      ensures !moved ==> AtNode() && stack == old(stack) && node == old(node) && SameAfter(rt.m, old(key), key)
    {
      hide Rax.Valid, Edges.Ok, Chain, FirstAfter, SameAfter;
      var n := node;
      NodeFacts(rt, n);
      ghost var b := key;
      var prevchild := key[|key| - 1];
      var prevchildidx := nodeChild;
      var todel := if n.edges.isCompr then |n.edges.chars| else 1;
      key := key[..|key| - todel];
      nodeChild := -1;
      if !n.edges.isCompr && |n.edges.chars| > (if fromChild then 1 else 0) {
        var i := prevchildidx + 1;
        if prevchildidx == -1 {
          while i < |n.edges.chars| && n.edges.chars[i] <= prevchild
            invariant 0 <= i <= |n.edges.chars| && forall j :: 0 <= j < i ==> n.edges.chars[j] <= prevchild
          {
            i := i + 1;
          }
        }
        IndexSplits(n.edges, prevchild, prevchildidx, i);
        if i != |n.edges.chars| {
          NextChildIs(rt, n, b, i);
          EnterChild(i);
          return true;
        }
      }
      NextIsAfterNode(rt, n, b);
      return false;
    }

    /** The inner loop of raxIteratorNextStep: go up until a greater child shows. */
    method GoUp(noup0: bool) returns (moved: bool)
      requires rt.Valid() && if noup0 then Leaving() else AtNode()
      modifies this
      ensures eof == old(eof) && justSeeked == old(justSeeked)
      ensures moved ==>
        AtInline() || (AtNode() && node != rt.head && (rt.g[node].isKey || rt.g[node].edges.slots != []) &&
                       data == (if rt.g[node].isKey then rt.g[node].data else Null))
      ensures if moved then FirstAfter(rt.m, old(key), key) else NothingBeyond(rt.m, true, old(key))
    {
      hide Rax.Valid, SameAfter, FirstAfter, NothingBeyond, Edges.Ok, Chain, Iterator.At;
      ghost var b := key;
      var noup := noup0;
      SameAfterSelf(rt.m, b);
      while true
        invariant eof == old(eof) && justSeeked == old(justSeeked)
        invariant if noup then Leaving() else AtNode()
        invariant SameAfter(rt.m, b, key)
        decreases noup, |stack|
      {
        if !noup && node == rt.head {
          HeadPrefix(rt);
          NothingAfterHead(rt.m, b);
          return false;
        }
        ghost var c := key;
        if !noup {
          PopParent();
          moved := TryNext(true);
        } else {
          noup := false;
          moved := TryNext(false);
        }
        ChainAfter(rt.m, b, c, key);
        if moved {
          return;
        }
      }
    }

    /** raxIteratorNextStep */
    method NextStep(noup0: bool)
      requires rt.Valid()
      requires !eof && !justSeeked ==> if noup0 then Leaving() else AtNode() || AtInline()
      modifies this
      ensures old(eof) ==> unchanged(this)
      ensures !old(eof) && old(justSeeked) ==>
                !justSeeked && unchanged(`key, `data, `node, `nodeChild, `stack, `eof, `inlineLeaf)
      ensures !old(eof) && !old(justSeeked) ==>
                var up := noup0 || old(inlineLeaf);
                && !justSeeked
                && (eof ==> NothingBeyond(rt.m, up, old(key)))
                && (eof ==> unchanged(`key, `data, `node, `nodeChild, `stack, `inlineLeaf))
                && (!eof ==> OnKey() && FirstBeyond(rt.m, up, old(key), key))
    {
      hide Rax.Valid, FirstBeyond, NothingBeyond, Edges.Ok, Chain, Iterator.OnKey;
      if eof {
        return;
      }
      if justSeeked {
        justSeeked := false;
        return;
      }
      var origKey, origStack, origNode, origInline, origData, origChild := key, stack, node, inlineLeaf, data,
        nodeChild;
      var noup := noup0;
      if inlineLeaf {
        InlineLeaves();
        inlineLeaf := false;
        noup := true;
      }
      var found := Advance(noup);
      if !found {
        key, stack, node, inlineLeaf, data, nodeChild := origKey, origStack, origNode, origInline, origData, origChild;
        eof := true;
      }
    }

    lemma InlineLeaves()
      requires rt.Valid() && AtInline()
      ensures At() && (if rt.g[node].edges.isCompr then key == rt.g[node].prefix + rt.g[node].edges.chars
                       else |key| == |rt.g[node].prefix| + 1 && key[..|key| - 1] == rt.g[node].prefix &&
                            nodeChild < |rt.g[node].edges.chars| && rt.g[node].edges.chars[nodeChild] == key[|key| - 1])
    {
    }

    /** The outer loop of raxIteratorNextStep. */
    method Advance(noup0: bool) returns (found: bool)
      requires rt.Valid() && if noup0 then Leaving() else AtNode()
      modifies this
      ensures eof == old(eof) && justSeeked == old(justSeeked)
      ensures if found then OnKey() && FirstBeyond(rt.m, noup0, old(key), key) else NothingBeyond(rt.m, noup0, old(key))
    {
      hide Rax.Valid, FirstAfter, FirstBeyond, SameBeyond, SameBeyondUp, NothingBeyond, Edges.Ok, Chain;
      ghost var b, up := key, noup0;
      var noup := noup0;
      ghost var start := true;
      while true
        invariant eof == old(eof) && justSeeked == old(justSeeked)
        invariant start ==> noup == up && key == b && if noup then Leaving() else AtNode()
        invariant !start ==> !noup && AtNode() && rt.g[node].edges.slots != [] && SameBeyond(rt.m, up, b, key)
        decreases start, if node != null && node in rt.g then Deeper(rt.g, node) else {}
      {
        ghost var n0 := node;
        NodeFacts(rt, node);
        if !noup && node.edges.slots != [] {
          if start {
            SameBeyondSelf(rt.m, b);
          }
          FirstChildIs(rt, node, up, b);
          EnterChild(0);
        } else {
          if !noup {
            NothingBelow(rt, node);
          }
          var moved := GoUp(noup);
          if !moved {
            UpNothing(rt.m, up, b);
            return false;
          }
          UpFirst(rt.m, up, b, key);
          noup := false;
        }
        if !inlineLeaf {
          NodeFacts(rt, node);
        }
        if inlineLeaf || node.isKey {
          return true;
        }
        NotAKey(rt, node, up, b);
        if !start {
          DeeperShrinks(rt.g, n0, node);
        }
        start := false;
      }
    }

    /** raxSeekGreatest: down the last children as far as possible. */
    method SeekGreatest()
      requires rt.Valid() && AtNode() && (rt.g[node].isKey || rt.g[node].edges.slots != [])
      modifies this
      ensures eof == old(eof) && justSeeked == old(justSeeked)
      ensures AtInline() || (AtNode() && rt.g[node].isKey)
      ensures LastWithin(rt.m, old(key), key)
    {
      hide Rax.Valid, Edges.Ok, Chain, TopWithin, LastWithin;
      ghost var b := key;
      WithinSelf(rt.m, b);
      while true
        invariant eof == old(eof) && justSeeked == old(justSeeked)
        invariant AtNode() && (rt.g[node].isKey || rt.g[node].edges.slots != []) && TopWithin(rt.m, b, key)
        decreases Deeper(rt.g, node)
      {
        ghost var n := node;
        NodeFacts(rt, node);
        if node.edges.slots == [] {
          EndsAtLeaf(rt, node, b);
          return;
        }
        var lastidx := if node.edges.isCompr then 0 else |node.edges.slots| - 1;
        LastChildIs(rt, node, b);
        EnterChild(lastidx);
        if inlineLeaf {
          EndsInline(rt, node, nodeChild, b);
          return;
        }
        DeeperShrinks(rt.g, n, node);
      }
    }

    /** The part of raxIteratorPrevStep that leaves a child of `node`: shorten the key to the prefix of
        `node`, and go to the greatest key below the next smaller child, if there is one. */
    method TryPrev(fromChild: bool) returns (moved: bool)
      requires rt.Valid() && Leaving()
      requires fromChild && !rt.g[node].edges.isCompr ==> key[|key| - 1] in rt.g[node].edges.chars
      modifies this
      ensures eof == old(eof) && justSeeked == old(justSeeked)
      ensures moved ==> (AtInline() || (AtNode() && rt.g[node].isKey)) && LastBefore(rt.m, old(key), key)
      ensures !moved ==> AtNode() && stack == old(stack) && node == old(node)
      ensures !moved ==> if rt.g[node].isKey then LastBefore(rt.m, old(key), key) else SameBefore(rt.m, old(key), key)
    {
      hide Rax.Valid, Edges.Ok, Chain, LastBefore, SameBefore, LastWithin;
      var n := node;
      NodeFacts(rt, n);
      ghost var b := key;
      var prevchild := key[|key| - 1];
      var prevchildidx := nodeChild;
      var todel := if n.edges.isCompr then |n.edges.chars| else 1;
      key := key[..|key| - todel];
      nodeChild := -1;
      if !n.edges.isCompr && |n.edges.chars| > (if fromChild then 1 else 0) {
        var i := prevchildidx - 1;
        if prevchildidx == -1 {
          i := |n.edges.chars| - 1;
          while i >= 0 && n.edges.chars[i] >= prevchild
            invariant -1 <= i < |n.edges.chars| && forall j :: i < j < |n.edges.chars| ==> prevchild <= n.edges.chars[j]
          {
            i := i - 1;
          }
        }
        IndexSplitsDown(n.edges, prevchild, prevchildidx, i);
        if i != -1 {
          EnterChild(i);
          if inlineLeaf {
            PrevInlineIs(rt, n, b, i);
            return true;
          }
          ghost var r := key;
          SeekGreatest();
          PrevChildIs(rt, n, b, i, key);
          return true;
        }
      }
      PrevIsNode(rt, n, b);
      return false;
    }

    /** raxIteratorPrevStep */
    method PrevStep(noup0: bool)
      requires rt.Valid()
      requires !eof && !justSeeked ==> if noup0 then Leaving() else AtNode() || AtInline()
      modifies this
      ensures old(eof) ==> unchanged(this)
      ensures !old(eof) && old(justSeeked) ==>
                !justSeeked && unchanged(`key, `data, `node, `nodeChild, `stack, `eof, `inlineLeaf)
      ensures !old(eof) && !old(justSeeked) ==>
                && !justSeeked
                && (eof ==> NothingBefore(rt.m, old(key)))
                && (eof ==> unchanged(`key, `data, `node, `nodeChild, `stack, `inlineLeaf))
                && (!eof ==> OnKey() && LastBefore(rt.m, old(key), key))
    {
      hide Rax.Valid, LastBefore, NothingBefore, Edges.Ok, Chain, Iterator.OnKey;
      if eof {
        return;
      }
      if justSeeked {
        justSeeked := false;
        return;
      }
      var origKey, origStack, origNode, origInline, origData, origChild := key, stack, node, inlineLeaf, data,
        nodeChild;
      var noup := noup0;
      if inlineLeaf {
        InlineLeaves();
        inlineLeaf := false;
        noup := true;
      }
      var found := Retreat(noup);
      if !found {
        key, stack, node, inlineLeaf, data, nodeChild := origKey, origStack, origNode, origInline, origData, origChild;
        eof := true;
      }
    }

    /** The loop of raxIteratorPrevStep. */
    method Retreat(noup0: bool) returns (found: bool)
      requires rt.Valid() && if noup0 then Leaving() else AtNode()
      modifies this
      ensures eof == old(eof) && justSeeked == old(justSeeked)
      ensures if found then OnKey() && LastBefore(rt.m, old(key), key) else NothingBefore(rt.m, old(key))
    {
      hide Rax.Valid, Edges.Ok, Chain, LastBefore, SameBefore, NothingBefore;
      ghost var b := key;
      var noup := noup0;
      SameBeforeSelf(rt.m, b);
      while true
        invariant eof == old(eof) && justSeeked == old(justSeeked)
        invariant if noup then Leaving() else AtNode()
        invariant SameBefore(rt.m, b, key)
        decreases noup, |stack|
      {
        if !noup && node == rt.head {
          HeadPrefix(rt);
          NothingBeforeHead(rt.m, b);
          return false;
        }
        ghost var c := key;
        var moved;
        if !noup {
          PopParent();
          moved := TryPrev(true);
        } else {
          noup := false;
          moved := TryPrev(false);
        }
        ChainBefore(rt.m, b, c, key);
        NodeFacts(rt, node);
        if inlineLeaf || node.isKey {
          if !inlineLeaf {
            data := node.GetData();
          }
          return true;
        }
      }
    }

    /** The key of `node`, collected from the edges along the stack. */
    method RebuildKey()
      requires rt.Valid() && At()
      modifies `key
      ensures key == rt.g[node].prefix
    {
      hide Rax.Valid, Edges.Ok;
      ghost var row := stack + [node];
      ChainAt(rt.head, rt.g, stack, node, 0);
      HeadPrefix(rt);
      key := [];
      var j := 1;
      while j <= |stack|
        invariant 1 <= j <= |stack| + 1 && row[j - 1] in rt.g && key == rt.g[row[j - 1]].prefix
      {
        var parent, child := stack[j - 1], if j < |stack| then stack[j] else node;
        ChainAt(rt.head, rt.g, stack, node, j);
        EdgeInto(rt, parent, child);
        if parent.edges.isCompr {
          key := key + parent.edges.chars;
        } else {
          var x := 0;
          while parent.edges.slots[x] != Child(child)
            invariant x < |parent.edges.slots| && forall y :: 0 <= y < x ==> parent.edges.slots[y] != Child(child)
            decreases |parent.edges.slots| - x
          {
            x := x + 1;
          }
          key := key + [parent.edges.chars[x]];
        }
        j := j + 1;
      }
      assert row[|stack|] == node;
    }

    /** The iterator sits on the first key greater than `s`, or on EOF if there is none. */
    ghost predicate SoughtUp(s: Key)
      reads this, rt, rt.g.Keys
    {
      justSeeked && if eof then NothingBeyond(rt.m, false, s) else OnKey() && FirstBeyond(rt.m, false, s, key)
    }

    /** The iterator sits on the last key smaller than `s`, or on EOF if there is none. */
    ghost predicate SoughtDown(s: Key)
      reads this, rt, rt.g.Keys
    {
      justSeeked && if eof then NothingBefore(rt.m, s) else OnKey() && LastBefore(rt.m, s, key)
    }

    /** A forward step as the second half of a seek. */
    method SeekUp(noup: bool, ghost s: Key)
      requires rt.Valid() && !eof && if noup then Leaving() else AtNode() || AtInline()
      requires Covers(rt.m, noup || inlineLeaf, key, s)
      modifies this
      ensures SoughtUp(s)
    {
      hide Rax.Valid, Covers, FirstBeyond, NothingBeyond, Edges.Ok, Chain, Iterator.OnKey, Iterator.At;
      ghost var up, b := noup || inlineLeaf, key;
      justSeeked := false;
      NextStep(noup);
      justSeeked := true;
      CoveredUp(rt.m, up, b, s, key);
    }

    /** A backward step as the second half of a seek. */
    method SeekDown(noup: bool, ghost s: Key)
      requires rt.Valid() && !eof && if noup then Leaving() else AtNode() || AtInline()
      requires SameBefore(rt.m, s, key)
      modifies this
      ensures SoughtDown(s)
    {
      hide Rax.Valid, LastBefore, SameBefore, NothingBefore, Edges.Ok, Chain, Iterator.OnKey, Iterator.At;
      ghost var b := key;
      justSeeked := false;
      PrevStep(noup);
      justSeeked := true;
      CoveredDown(rt.m, s, b, key);
    }

    /** The iterator sits on the least (`gt`) or greatest (`lt`) key that satisfies the operator, or on EOF
        if no key does. */
    ghost predicate Sought(eq: bool, lt: bool, gt: bool, s: Key)
      reads this, rt, rt.g.Keys
    {
      && justSeeked
      && if eof then forall q :: q in rt.m ==> !Satisfies(eq, lt, gt, s, q)
         else OnKey() && Nearest(rt.m, eq, lt, gt, s, key)
    }

    /** raxSeek, when the lookup met the inline leaf in slot `x` of `h`. */
    method SeekAtLeaf(ele: Key, h: Node, i: nat, x: nat, ts: seq<Node>, eq: bool, lt: bool, gt: bool)
      requires rt.Valid() && StoppedInline(rt.g, ele, h, i, x) && Chain(rt.head, rt.g, ts, h)
      requires justSeeked && !eof && !(lt && gt)
      modifies this
      ensures Sought(eq, lt, gt, ele)
    {
      hide Rax.Valid, Covers, SameBefore, LastBefore, FirstBeyond, NothingBefore, NothingBeyond, Nearest, Edges.Ok,
        Chain,
        Iterator.SoughtUp, Iterator.SoughtDown;
      LeafFacts(rt, ele, h, i, x);
      stack, node, key := ts, h, ele[..i];
      data, nodeChild, inlineLeaf := h.edges.slots[x].value, x, true;
      if eq && i == |ele| {
        assert ele[..i] == ele;
        ExactIsNearest(rt.m, lt, gt, ele);
        return;
      }
      if lt || gt {
        if i == |ele| || gt {
          if gt {
            SeekUp(false, ele);
            UpIsNearest(eq, ele);
          } else {
            SeekDown(false, ele);
            DownIsNearest(eq, ele);
          }
        } else {
          DownIsNearest(eq, ele);
        }
        return;
      }
      eof := true;
    }

    lemma UpIsNearest(eq: bool, s: Key)
      requires rt.Valid() && SoughtUp(s) && (eq ==> s !in rt.m)
      ensures Sought(eq, false, true, s)
    {
      if !eof {
        OnKeyStored();
        Irreflexive(key);
      }
    }

    lemma DownIsNearest(eq: bool, s: Key)
      requires rt.Valid() && SoughtDown(s) && (eq ==> s !in rt.m)
      ensures Sought(eq, true, false, s)
    {
      if !eof {
        OnKeyStored();
      }
    }

    /** raxSeek, when the lookup stopped at a character that is no edge of the ordinary node `node`. */
    method SeekAtEdge(ele: Key, i: nat, lt: bool, gt: bool)
      requires rt.Valid() && AtNode() && nodeChild == -1 && justSeeked && !eof && lt != gt && i < |ele|
      requires Stopped(rt.g, ele, node, i, 0) && !rt.g[node].edges.isCompr
      modifies this
      ensures if gt then SoughtUp(ele) else SoughtDown(ele)
    {
      hide Rax.Valid, Covers, SameBefore, LastBefore, FirstBeyond, NothingBefore, NothingBeyond, Edges.Ok, Chain;
      EdgeFacts(rt, ele, node, i);
      key := key + [ele[i]];
      assert key == ele[..i + 1];
      if gt {
        SeekUp(true, ele);
      } else {
        SeekDown(true, ele);
      }
    }

    /** raxSeek, when the lookup stopped at a mismatch inside the run of `node`. */
    method SeekAtRun(ele: Key, i: nat, splitpos: nat, lt: bool, gt: bool)
      requires rt.Valid() && AtNode() && nodeChild == -1 && justSeeked && !eof && lt != gt && i < |ele|
      requires Stopped(rt.g, ele, node, i, splitpos) && rt.g[node].edges.isCompr
      modifies this
      ensures if gt then SoughtUp(ele) else SoughtDown(ele)
    {
      hide Rax.Valid, Covers, SameBefore, LastBefore, LastWithin, FirstBeyond, NothingBefore, NothingBeyond, Edges.Ok,
        Chain, Stopped;
      RunFacts(rt, ele, node, i, splitpos);
      var nodechar, keychar := node.edges.chars[splitpos], ele[i];
      if gt {
        if nodechar > keychar {
          SeekUp(false, ele);
        } else {
          key := key + node.edges.chars;
          SeekUp(true, ele);
        }
      } else {
        if nodechar < keychar {
          SeekGreatest();
          if !inlineLeaf {
            NodeFacts(rt, node);
            data := node.GetData();
          }
        } else {
          key := key + node.edges.chars;
          SeekDown(true, ele);
        }
      }
    }

    /** raxSeek, when all of `ele` was matched but its node is not the wanted key. */
    method SeekAtEnd(ele: Key, splitpos: nat, lt: bool, gt: bool)
      requires rt.Valid() && AtNode() && nodeChild == -1 && justSeeked && !eof && lt != gt
      requires Stopped(rt.g, ele, node, |ele|, splitpos)
      modifies this
      ensures if gt then SoughtUp(ele) else SoughtDown(ele)
    {
      hide Rax.Valid, Covers, SameBefore, LastBefore, FirstBeyond, NothingBefore, NothingBeyond, Edges.Ok, Chain,
        Stopped;
      NodeFacts(rt, node);
      EndFacts(rt, ele, node, splitpos);
      if node.edges.isCompr && node.isKey && splitpos != 0 && lt {
        data := node.GetData();
      } else if gt {
        SeekUp(false, ele);
      } else {
        SeekDown(false, ele);
      }
    }

    /** raxSeek, when the lookup did not meet an inline leaf. */
    method SeekAtNode(ele: Key, h: Node, i: nat, splitpos: nat, ts: seq<Node>, eq: bool, lt: bool, gt: bool)
      requires rt.Valid() && Stopped(rt.g, ele, h, i, splitpos) && Chain(rt.head, rt.g, ts, h)
      requires justSeeked && !eof && !inlineLeaf && nodeChild == -1 && !(lt && gt)
      modifies this
      ensures Sought(eq, lt, gt, ele)
    {
      hide Rax.Valid, Covers, SameBefore, LastBefore, FirstBeyond, NothingBefore, NothingBeyond, Nearest, Edges.Ok,
        Chain,
        Satisfies;
      StopFacts(rt, ele, h, i, splitpos);
      stack, node := ts, h;
      if eq && i == |ele| && (!node.edges.isCompr || splitpos == 0) && node.isKey {
        key := ele;
        data := node.GetData();
        ExactIsNearest(rt.m, lt, gt, ele);
      } else if lt || gt {
        RebuildKey();
        if i != |ele| && !node.edges.isCompr {
          SeekAtEdge(ele, i, lt, gt);
        } else if i != |ele| {
          SeekAtRun(ele, i, splitpos, lt, gt);
        } else {
          SeekAtEnd(ele, splitpos, lt, gt);
        }
        if gt {
          UpIsNearest(eq, ele);
        } else {
          DownIsNearest(eq, ele);
        }
      } else {
        eof := true;
        NoneSatisfies(rt.m, eq, ele);
      }
    }

    /** raxSeek with the operator `$`. */
    method SeekLast()
      requires rt.Valid() && rt.m != map[] && stack == [] && key == [] && nodeChild == -1 && !inlineLeaf
      modifies this
      ensures OnKey() && (forall q :: q in rt.m ==> q == key || Lt(q, key)) && eof == old(eof)
      ensures justSeeked == old(justSeeked)
    {
      hide Rax.Valid, Edges.Ok, Chain, LastWithin;
      HeadFacts(rt);
      node := rt.head;
      SeekGreatest();
      LastOfAll(rt.m, key);
      if !inlineLeaf {
        NodeFacts(rt, node);
        data := node.GetData();
      }
    }

    /** raxSeek */
    method Seek(op: string, ele: Key) returns (ok: bool)
      requires rt.Valid()
      modifies this
      ensures ok <==> CharAt(op, 0) in {'>', '<', '=', '^', '$'}
      ensures CharAt(op, 0) in {'>', '<', '='} ==> Sought(HasEq(op), CharAt(op, 0) == '<', CharAt(op, 0) == '>', ele)
      ensures CharAt(op, 0) in {'^', '$'} ==> justSeeked && (eof <==> rt.m == map[])
      ensures CharAt(op, 0) == '^' && !eof ==> OnKey() && forall q :: q in rt.m ==> q == key || Lt(key, q)
      ensures CharAt(op, 0) == '$' && !eof ==> OnKey() && forall q :: q in rt.m ==> q == key || Lt(q, key)
      decreases CharAt(op, 0) == '^'
    {
      hide Rax.Valid, Edges.Ok, Chain, Stopped, StoppedInline, Iterator.OnKey, Iterator.At, LastWithin, Nearest;
      stack, justSeeked, eof, inlineLeaf, key, node, nodeChild := [], true, false, false, [], null, -1;
      var eq, lt, gt, first, last := false, false, false, false, false;
      var c := CharAt(op, 0);
      if c == '>' {
        gt := true;
        eq := CharAt(op, 1) == '=';
      } else if c == '<' {
        lt := true;
        eq := CharAt(op, 1) == '=';
      } else if c == '=' {
        eq := true;
      } else if c == '^' {
        first := true;
      } else if c == '$' {
        last := true;
      } else {
        return false;
      }
      ok := true;
      Emptiness(rt);
      if rt.numele == 0 {
        eof := true;
        return;
      }
      if first {
        var _ := Seek(">=", []);
        FirstOfAll();
        return;
      }
      if last {
        SeekLast();
        return;
      }
      var i, h, link, splitpos, ts, inline := rt.LowWalk(ele);
      if inline {
        SeekAtLeaf(ele, h, i, link.idx, ts, eq, lt, gt);
      } else {
        SeekAtNode(ele, h, i, splitpos, ts, eq, lt, gt);
      }
    }

    lemma FirstOfAll()
      requires rt.Valid() && Sought(true, false, true, []) && rt.m != map[]
      ensures !eof && OnKey() && forall q :: q in rt.m ==> q == key || Lt(key, q)
    {
      forall q | q in rt.m
        ensures Satisfies(true, false, true, [], q)
      {
        if q != [] {
          PrefixLt([], q);
        }
      }
      var q :| q in rt.m;
    }

    /** Before a step the iterator is at EOF, or sits on a key. */
    ghost predicate Ok()
      reads this, rt
    {
      eof || OnKey()
    }

    /** raxNext */
    method Next() returns (more: bool)
      requires rt.Valid() && Ok()
      modifies this
      ensures Ok() && more == !eof && (old(eof) ==> eof) && !(justSeeked && more)
      ensures !old(eof) && old(justSeeked) ==> more && key == old(key) && data == old(data)
      ensures !old(eof) && !old(justSeeked) ==>
                if more then key in rt.m && data == rt.m[key] && FirstBeyond(rt.m, false, old(key), key)
                else key == old(key) && NothingBeyond(rt.m, false, old(key))
    {
      hide Rax.Valid, Edges.Ok, Chain, FirstBeyond, NothingBeyond, Iterator.At;
      ghost var up, b, done := inlineLeaf, key, eof;
      if !eof {
        OnKeyBeyond();
      }
      NextStep(false);
      if !eof {
        OnKeyStored();
      }
      if !done {
        CoveredUp(rt.m, up, b, b, key);
      }
      more := !eof;
    }

    lemma OnKeyBeyond()
      requires rt.Valid() && OnKey()
      ensures AtNode() || AtInline()
      ensures Covers(rt.m, inlineLeaf, key, key)
    {
      if inlineLeaf {
        forall q | q in rt.m
          ensures After(key, q) <==> Lt(key, q)
        {
          LtCases(key, q);
          if key <= q {
            InlineEnds(rt.head, rt.g, rt.m, node, nodeChild, q);
          }
        }
      }
    }

    /** raxPrev */
    method Prev() returns (more: bool)
      requires rt.Valid() && Ok()
      modifies this
      ensures Ok() && more == !eof && (old(eof) ==> eof) && !(justSeeked && more)
      ensures !old(eof) && old(justSeeked) ==> more && key == old(key) && data == old(data)
      ensures !old(eof) && !old(justSeeked) ==>
                if more then key in rt.m && data == rt.m[key] && LastBefore(rt.m, old(key), key)
                else key == old(key) && NothingBefore(rt.m, old(key))
    {
      hide Rax.Valid, Edges.Ok, Chain, LastBefore, NothingBefore, Iterator.At;
      PrevStep(false);
      if !eof {
        OnKeyStored();
      }
      more := !eof;
    }
  }

  function CharAt(op: string, i: nat): char {
    if i < |op| then op[i] else '\0'
  }

  /** The operator includes equality. */
  predicate HasEq(op: string) {
    CharAt(op, 0) == '=' || CharAt(op, 1) == '='
  }

  lemma Emptiness(rt: Rax)
    requires rt.Valid()
    ensures rt.numele == 0 <==> rt.m == map[]
  {
  }

  lemma HeadFacts(rt: Rax)
    requires rt.Valid() && rt.m != map[]
    ensures rt.head in rt.g && rt.g[rt.head].prefix == [] && rt.g[rt.head].edges.Ok()
    ensures Chain(rt.head, rt.g, [], rt.head)
    ensures rt.g[rt.head].isKey || rt.g[rt.head].edges.slots != []
  {
    var k :| k in rt.m;
    var x := KeyBelow(rt.head, rt.g, rt.m, rt.head, k);
  }

  lemma LastOfAll(m: map<Key, Value>, k: Key)
    requires LastWithin(m, [], k)
    ensures forall q :: q in m ==> q == k || Lt(q, k)
  {
  }

  lemma NoneSatisfies(m: map<Key, Value>, eq: bool, s: Key)
    requires eq ==> s !in m
    ensures forall q :: q in m ==> !Satisfies(eq, false, false, s, q)
  {
  }

  lemma StopFacts(rt: Rax, s: Key, h: Node, i: nat, j: nat)
    requires rt.Valid() && Stopped(rt.g, s, h, i, j)
    ensures h.edges == rt.g[h].edges && h.edges.Ok() && h.isKey == rt.g[h].isKey
    ensures h.isKey ==> h.GetData() == rt.g[h].data
    ensures s in rt.m <==> i == |s| && j == 0 && h.isKey
    ensures !h.edges.isCompr ==> j == 0
    ensures i == |s| && j == 0 ==> rt.g[h].prefix == s
  {
    NodeFacts(rt, h);
    StoppedDecides(rt.head, rt.g, rt.m, s, h, i, j);
    assert s[..|s|] == s;
  }

  lemma EdgeFacts(rt: Rax, s: Key, h: Node, i: nat)
    requires rt.Valid() && Stopped(rt.g, s, h, i, 0) && !rt.g[h].edges.isCompr && i < |s|
    ensures rt.g[h].prefix == s[..i] && Covers(rt.m, true, s[..i + 1], s) && SameBefore(rt.m, s, s[..i + 1])
  {
    AtMissingEdge(rt.head, rt.g, rt.m, s, h, i);
  }

  lemma RunFacts(rt: Rax, s: Key, h: Node, i: nat, j: nat)
    requires rt.Valid() && Stopped(rt.g, s, h, i, j) && rt.g[h].edges.isCompr && i < |s|
    ensures h.edges == rt.g[h].edges && rt.g[h].edges.slots != [] && j < |h.edges.chars| && h.edges.chars[j] != s[i]
    ensures h.edges.chars[j] > s[i] ==>
              Covers(rt.m, false, rt.g[h].prefix, s) && SameBefore(rt.m, s, rt.g[h].prefix + h.edges.chars)
    ensures h.edges.chars[j] < s[i] ==>
              && Covers(rt.m, true, rt.g[h].prefix + h.edges.chars, s)
              && forall k :: LastWithin(rt.m, rt.g[h].prefix, k) ==> LastBefore(rt.m, s, k)
  {
    NodeFacts(rt, h);
    if h.edges.chars[j] > s[i] {
      BeforeRun(rt.head, rt.g, rt.m, s, h, i, j);
    } else {
      AfterRun(rt.head, rt.g, rt.m, s, h, i, j);
    }
  }

  lemma EndFacts(rt: Rax, s: Key, h: Node, j: nat)
    requires rt.Valid() && Stopped(rt.g, s, h, |s|, j)
    ensures !rt.g[h].edges.isCompr ==> j == 0
    ensures Covers(rt.m, false, rt.g[h].prefix, s)
    ensures j > 0 && rt.g[h].isKey ==> LastBefore(rt.m, s, rt.g[h].prefix)
    ensures j == 0 || !rt.g[h].isKey ==> SameBefore(rt.m, s, rt.g[h].prefix)
  {
    AtEnd(rt.head, rt.g, rt.m, s, h, j);
  }

  /** `q` stands to `s` as the seek operator asks. */
  ghost predicate Satisfies(eq: bool, lt: bool, gt: bool, s: Key, q: Key) {
    (eq && q == s) || (lt && Lt(q, s)) || (gt && Lt(s, q))
  }

  /** `k` is the key satisfying the operator that is nearest to `s`. */
  ghost predicate Nearest(m: map<Key, Value>, eq: bool, lt: bool, gt: bool, s: Key, k: Key) {
    && k in m && Satisfies(eq, lt, gt, s, k)
    && forall q :: q in m && Satisfies(eq, lt, gt, s, q) ==> q == k || (if gt then Lt(k, q) else Lt(q, k))
  }

  lemma ExactIsNearest(m: map<Key, Value>, lt: bool, gt: bool, s: Key)
    requires s in m && !(lt && gt)
    ensures Nearest(m, true, lt, gt, s, s)
  {
  }

  lemma LeafFacts(rt: Rax, s: Key, h: Node, i: nat, x: nat)
    requires rt.Valid() && StoppedInline(rt.g, s, h, i, x)
    ensures h.edges == rt.g[h].edges && x < |h.edges.slots| && h.edges.slots[x].Inline?
    ensures s in rt.m <==> i == |s|
    ensures Covers(rt.m, true, s[..i], s)
    ensures i < |s| ==> LastBefore(rt.m, s, s[..i])
    ensures i == |s| ==> SameBefore(rt.m, s, s[..i])
  {
    NodeFacts(rt, h);
    StoppedInlineDecides(rt.head, rt.g, rt.m, s, h, i, x);
    AtLeaf(rt.head, rt.g, rt.m, s, h, i, x);
  }

  lemma CoveredUp(m: map<Key, Value>, up: bool, b: Key, s: Key, k: Key)
    requires Covers(m, up, b, s)
    ensures FirstBeyond(m, up, b, k) ==> FirstBeyond(m, false, s, k)
    ensures NothingBeyond(m, up, b) ==> NothingBeyond(m, false, s)
  {
  }

  lemma CoveredDown(m: map<Key, Value>, s: Key, b: Key, k: Key)
    requires SameBefore(m, s, b)
    ensures LastBefore(m, b, k) ==> LastBefore(m, s, k)
    ensures NothingBefore(m, b) ==> NothingBefore(m, s)
  {
  }

  lemma EdgeInto(rt: Rax, p: Node, c: Node)
    requires rt.Valid() && c in rt.g && c != rt.head && rt.g[c].parent == p
    ensures p in rt.g && Child(c) in p.edges.slots
    ensures p.edges.isCompr ==> rt.g[c].prefix == rt.g[p].prefix + p.edges.chars
    ensures !p.edges.isCompr ==>
              && |p.edges.chars| == |p.edges.slots|
              && forall x :: 0 <= x < |p.edges.slots| && p.edges.slots[x] == Child(c) ==>
                  rt.g[c].prefix == rt.g[p].prefix + [p.edges.chars[x]]
  {
    var i := ParentSlot(rt.head, rt.g, c);
    assert Agrees(p, rt.g[p]) && HasChildren(rt.g, p);
  }

  ghost predicate NothingBefore(m: map<Key, Value>, b: Key) {
    forall q :: q in m ==> !Lt(q, b)
  }

  /** The keys that begin with `k` are the greatest among those that begin with `b`. */
  ghost predicate TopWithin(m: map<Key, Value>, b: Key, k: Key) {
    b <= k && forall q :: q in m && b <= q ==> k <= q || Lt(q, k)
  }

  lemma WithinSelf(m: map<Key, Value>, b: Key)
    ensures TopWithin(m, b, b)
  {
  }

  lemma SameBeforeSelf(m: map<Key, Value>, b: Key)
    ensures SameBefore(m, b, b)
  {
  }

  lemma ChainBefore(m: map<Key, Value>, b: Key, c: Key, k: Key)
    requires SameBefore(m, b, c)
    ensures LastBefore(m, c, k) ==> LastBefore(m, b, k)
    ensures SameBefore(m, c, k) ==> SameBefore(m, b, k)
  {
  }

  lemma NothingBeforeHead(m: map<Key, Value>, b: Key)
    requires SameBefore(m, b, [])
    ensures NothingBefore(m, b)
  {
  }

  lemma EndsAtLeaf(rt: Rax, n: Node, b: Key)
    requires rt.Valid() && n in rt.g && rt.g[n].edges.slots == [] && rt.g[n].isKey && TopWithin(rt.m, b, rt.g[n].prefix)
    ensures LastWithin(rt.m, b, rt.g[n].prefix)
  {
    assert Holds(rt.g, rt.m, n);
    forall q | q in rt.m && b <= q
      ensures q == rt.g[n].prefix || Lt(q, rt.g[n].prefix)
    {
      if rt.g[n].prefix <= q {
        var x := KeyBelow(rt.head, rt.g, rt.m, n, q);
      }
    }
  }

  lemma EndsInline(rt: Rax, n: Node, x: nat, b: Key)
    requires rt.Valid() && n in rt.g && rt.g[n].edges.Ok() && x < |rt.g[n].edges.slots|
    requires rt.g[n].edges.slots[x].Inline?
    requires TopWithin(rt.m, b, Reach(rt.g[n], x))
    ensures LastWithin(rt.m, b, Reach(rt.g[n], x))
  {
    assert Holds(rt.g, rt.m, n);
    forall q | q in rt.m && b <= q
      ensures q == Reach(rt.g[n], x) || Lt(q, Reach(rt.g[n], x))
    {
      if Reach(rt.g[n], x) <= q {
        InlineEnds(rt.head, rt.g, rt.m, n, x, q);
      }
    }
  }

  lemma LastChildIs(rt: Rax, n: Node, b: Key)
    requires rt.Valid() && n in rt.g && rt.g[n].edges.Ok() && rt.g[n].edges.slots != []
    requires TopWithin(rt.m, b, rt.g[n].prefix)
    ensures TopWithin(rt.m, b, Reach(rt.g[n], |rt.g[n].edges.slots| - 1))
  {
    var p, r := rt.g[n].prefix, Reach(rt.g[n], |rt.g[n].edges.slots| - 1);
    forall q | q in rt.m && b <= q
      ensures r <= q || Lt(q, r)
    {
      if p <= q {
        LastChild(rt.head, rt.g, rt.m, n, q);
      } else {
        LtPrefix(q, p, r);
      }
    }
  }

  /** The cached index of the edge `c` splits the edges like a scan from the end does. */
  lemma IndexSplitsDown(e: Edges, c: Byte, idx: int, i: int)
    requires e.Ok() && !e.isCompr && -1 <= i < |e.chars|
    requires if idx == -1 then (forall j :: i < j < |e.chars| ==> c <= e.chars[j]) && (i >= 0 ==> e.chars[i] < c)
             else 0 <= idx < |e.chars| && e.chars[idx] == c && i == idx - 1
    ensures (forall j :: i < j < |e.chars| ==> c <= e.chars[j]) && (i >= 0 ==> e.chars[i] < c)
  {
  }

  lemma PrevChildIs(rt: Rax, n: Node, b: Key, i: nat, k: Key)
    requires rt.Valid() && n in rt.g && rt.g[n].edges.Ok() && !rt.g[n].edges.isCompr
    requires |b| == |rt.g[n].prefix| + 1 && b[..|b| - 1] == rt.g[n].prefix
    requires i < |rt.g[n].edges.chars| && rt.g[n].edges.chars[i] < b[|b| - 1]
    requires forall j :: i < j < |rt.g[n].edges.chars| ==> b[|b| - 1] <= rt.g[n].edges.chars[j]
    requires LastWithin(rt.m, Reach(rt.g[n], i), k)
    ensures LastBefore(rt.m, b, k)
  {
    var r := Reach(rt.g[n], i);
    assert b == rt.g[n].prefix + [b[|b| - 1]];
    forall q | q in rt.m
      ensures Lt(q, b) <==> q == k || Lt(q, k)
    {
      PrevChild(rt.head, rt.g, rt.m, n, b[|b| - 1], i, q);
      if Lt(q, r) {
        LtPrefix(q, r, k);
      }
      if Lt(q, k) && !(r <= q) {
        LtBelow(q, r, k);
      }
    }
  }

  lemma PrevInlineIs(rt: Rax, n: Node, b: Key, i: nat)
    requires rt.Valid() && n in rt.g && rt.g[n].edges.Ok() && !rt.g[n].edges.isCompr
    requires |b| == |rt.g[n].prefix| + 1 && b[..|b| - 1] == rt.g[n].prefix
    requires i < |rt.g[n].edges.chars| && rt.g[n].edges.chars[i] < b[|b| - 1] && rt.g[n].edges.slots[i].Inline?
    requires forall j :: i < j < |rt.g[n].edges.chars| ==> b[|b| - 1] <= rt.g[n].edges.chars[j]
    ensures LastBefore(rt.m, b, Reach(rt.g[n], i))
  {
    WithinSelf(rt.m, Reach(rt.g[n], i));
    EndsInline(rt, n, i, Reach(rt.g[n], i));
    PrevChildIs(rt, n, b, i, Reach(rt.g[n], i));
  }

  lemma PrevIsNode(rt: Rax, n: Node, b: Key)
    requires rt.Valid() && n in rt.g && rt.g[n].edges.Ok()
    requires if rt.g[n].edges.isCompr then b == rt.g[n].prefix + rt.g[n].edges.chars
             else
               && |b| == |rt.g[n].prefix| + 1 && b[..|b| - 1] == rt.g[n].prefix
               && forall j :: 0 <= j < |rt.g[n].edges.chars| ==> b[|b| - 1] <= rt.g[n].edges.chars[j]
    ensures if rt.g[n].isKey then LastBefore(rt.m, b, rt.g[n].prefix) else SameBefore(rt.m, b, rt.g[n].prefix)
  {
    var l := b[|rt.g[n].prefix|..];
    assert b == rt.g[n].prefix + l;
    forall q | q in rt.m
      ensures Lt(q, b) <==> (rt.g[n].isKey && q == rt.g[n].prefix) || Lt(q, rt.g[n].prefix)
    {
      NoPrevChild(rt.head, rt.g, rt.m, n, l, q);
    }
  }

  lemma HeadPrefix(rt: Rax)
    requires rt.Valid()
    ensures rt.head in rt.g && rt.g[rt.head].prefix == []
  {
  }

  lemma SameBeyondSelf(m: map<Key, Value>, b: Key)
    ensures SameBeyond(m, false, b, b)
  {
  }

  lemma DeeperShrinks(g: Graph, a: Node, b: Node)
    requires a in g && b in g && |g[a].prefix| < |g[b].prefix|
    ensures Deeper(g, b) < Deeper(g, a)
  {
    assert b in Deeper(g, a) && b !in Deeper(g, b);
  }

  /** Among the keys, the strings beyond `b` are `k` and everything greater. */
  ghost predicate FirstBeyond(m: map<Key, Value>, up: bool, b: Key, k: Key) {
    forall q :: q in m ==> (Beyond(up, b, q) <==> q == k || Lt(k, q))
  }

  ghost predicate NothingBeyond(m: map<Key, Value>, up: bool, b: Key) {
    forall q :: q in m ==> !Beyond(up, b, q)
  }

  ghost predicate SameBeyond(m: map<Key, Value>, up: bool, b: Key, p: Key) {
    forall q :: q in m ==> (Beyond(up, b, q) <==> Lt(p, q))
  }

  lemma ChainAfter(m: map<Key, Value>, b: Key, c: Key, k: Key)
    requires SameAfter(m, b, c)
    ensures FirstAfter(m, c, k) ==> FirstAfter(m, b, k)
    ensures SameAfter(m, c, k) ==> SameAfter(m, b, k)
  {
  }

  /** After the empty string there is nothing. */
  lemma NothingAfterHead(m: map<Key, Value>, b: Key)
    requires SameAfter(m, b, [])
    ensures NothingBeyond(m, true, b)
  {
  }

  lemma SameAfterSelf(m: map<Key, Value>, b: Key)
    ensures SameAfter(m, b, b)
  {
  }

  lemma FirstChildIs(rt: Rax, n: Node, up: bool, b: Key)
    requires rt.Valid() && n in rt.g && rt.g[n].edges.Ok() && rt.g[n].edges.slots != []
    requires SameBeyond(rt.m, up, b, rt.g[n].prefix)
    ensures FirstBeyond(rt.m, up, b, Reach(rt.g[n], 0))
  {
    var p, r := rt.g[n].prefix, Reach(rt.g[n], 0);
    LongerThanPrefix(rt.g[n], 0);
    PrefixLt(p, r);
    forall q | q in rt.m
      ensures Beyond(up, b, q) <==> q == r || Lt(r, q)
    {
      if Lt(p, q) {
        FirstChild(rt.head, rt.g, rt.m, n, q);
      }
      if Lt(r, q) {
        Transitive(p, r, q);
      }
    }
  }

  /** If the first candidate is no key, the search goes on right below it. */
  lemma NotAKey(rt: Rax, n: Node, up: bool, b: Key)
    requires rt.Valid() && n in rt.g && !rt.g[n].isKey && FirstBeyond(rt.m, up, b, rt.g[n].prefix)
    ensures SameBeyond(rt.m, up, b, rt.g[n].prefix)
  {
    NoKeyHere(rt.head, rt.g, rt.m, n);
  }

  /** Below a childless node there is nothing, so a step from it goes up. */
  lemma NothingBelow(rt: Rax, n: Node)
    requires rt.Valid() && n in rt.g && rt.g[n].edges.slots == []
    ensures SameBeyondUp(rt.m, rt.g[n].prefix)
  {
    var p := rt.g[n].prefix;
    forall q | q in rt.m
      ensures Lt(p, q) <==> After(p, q)
    {
      LtCases(p, q);
      if p <= q {
        var x := KeyBelow(rt.head, rt.g, rt.m, n, q);
        Irreflexive(p);
      }
    }
  }

  /** Leaving `b` upwards or searching from `b` comes to the same. */
  ghost predicate SameBeyondUp(m: map<Key, Value>, b: Key) {
    forall q :: q in m ==> (Lt(b, q) <==> After(b, q))
  }

  lemma UpFirst(m: map<Key, Value>, up: bool, b: Key, k: Key)
    requires FirstAfter(m, b, k) && (up || SameBeyondUp(m, b))
    ensures FirstBeyond(m, up, b, k)
  {
  }

  lemma UpNothing(m: map<Key, Value>, up: bool, b: Key)
    requires NothingBeyond(m, true, b) && (up || SameBeyondUp(m, b))
    ensures NothingBeyond(m, up, b)
  {
  }

  /** `k` is where the strings after `b` begin, among the keys. */
  ghost predicate FirstAfter(m: map<Key, Value>, b: Key, k: Key) {
    forall q :: q in m ==> (After(b, q) <==> q == k || Lt(k, q))
  }

  ghost predicate SameAfter(m: map<Key, Value>, b: Key, p: Key) {
    forall q :: q in m ==> (After(b, q) <==> After(p, q))
  }

  /** The cached index of the edge `c` splits the edges like a scan does. */
  lemma IndexSplits(e: Edges, c: Byte, idx: int, i: nat)
    requires e.Ok() && !e.isCompr && i <= |e.chars|
    requires if idx == -1 then (forall j :: 0 <= j < i ==> e.chars[j] <= c) && (i < |e.chars| ==> c < e.chars[i])
             else 0 <= idx < |e.chars| && e.chars[idx] == c && i == idx + 1
    ensures (forall j :: 0 <= j < i ==> e.chars[j] <= c) && (i < |e.chars| ==> c < e.chars[i])
  {
  }

  lemma NextChildIs(rt: Rax, n: Node, b: Key, i: nat)
    requires rt.Valid() && n in rt.g && rt.g[n].edges.Ok() && !rt.g[n].edges.isCompr
    requires |b| == |rt.g[n].prefix| + 1 && b[..|b| - 1] == rt.g[n].prefix
    requires i < |rt.g[n].edges.chars| && b[|b| - 1] < rt.g[n].edges.chars[i]
    requires forall j :: 0 <= j < i ==> rt.g[n].edges.chars[j] <= b[|b| - 1]
    ensures FirstAfter(rt.m, b, Reach(rt.g[n], i))
  {
    assert b == rt.g[n].prefix + [b[|b| - 1]];
    forall q | q in rt.m
      ensures After(b, q) <==> q == Reach(rt.g[n], i) || Lt(Reach(rt.g[n], i), q)
    {
      NextChild(rt.head, rt.g, rt.m, n, b[|b| - 1], i, q);
    }
  }

  lemma NextIsAfterNode(rt: Rax, n: Node, b: Key)
    requires rt.Valid() && n in rt.g && rt.g[n].edges.Ok()
    requires if rt.g[n].edges.isCompr then b == rt.g[n].prefix + rt.g[n].edges.chars
             else
               && |b| == |rt.g[n].prefix| + 1 && b[..|b| - 1] == rt.g[n].prefix
               && forall j :: 0 <= j < |rt.g[n].edges.chars| ==> rt.g[n].edges.chars[j] <= b[|b| - 1]
    ensures SameAfter(rt.m, b, rt.g[n].prefix)
  {
    var l := b[|rt.g[n].prefix|..];
    assert b == rt.g[n].prefix + l;
    forall q | q in rt.m
      ensures After(b, q) <==> After(rt.g[n].prefix, q)
    {
      NoNextChild(rt.head, rt.g, rt.m, n, l, q);
    }
  }

  lemma PopFacts(rt: Rax, ts: seq<Node>, n: Node)
    requires rt.Valid() && n in rt.g && n != rt.head && Chain(rt.head, rt.g, ts, n)
    ensures ts != [] && Chain(rt.head, rt.g, ts[..|ts| - 1], ts[|ts| - 1])
    ensures var p := ts[|ts| - 1];
            && p in rt.g && rt.g[n].parent == p && rt.g[p].edges.Ok()
            && (if rt.g[p].edges.isCompr then rt.g[n].prefix == rt.g[p].prefix + rt.g[p].edges.chars
                else
                  && |rt.g[n].prefix| == |rt.g[p].prefix| + 1 && rt.g[n].prefix[..|rt.g[p].prefix|] == rt.g[p].prefix
                  && rt.g[n].prefix[|rt.g[p].prefix|] in rt.g[p].edges.chars
                  && forall x :: 0 <= x < |rt.g[p].edges.slots| && rt.g[p].edges.slots[x] == Child(n) ==>
                      rt.g[p].edges.chars[x] == rt.g[n].prefix[|rt.g[p].prefix|])
  {
    var i := ParentSlot(rt.head, rt.g, n);
    assert HasChildren(rt.g, rt.g[n].parent);
  }

  /** What the fields of a node of the tree say. */
  lemma NodeFacts(rt: Rax, n: Node)
    requires rt.Valid() && n in rt.g
    ensures n.edges == rt.g[n].edges && n.edges.Ok() && n.isKey == rt.g[n].isKey
    ensures n.isKey ==> n.GetData() == rt.g[n].data
    ensures if n.edges.isCompr then |n.edges.slots| == 1 && n.edges.chars != [] else |n.edges.slots| == |n.edges.chars|
    ensures forall x :: 0 <= x < |n.edges.slots| ==>
              (n.edges.slots[x].Inline? <==> x < INLINE_SLOTS && n.edges.leafBitmap[x])
    ensures rt.m != map[] && n.edges.slots == [] ==> n.isKey || n == rt.head
    ensures Linked(rt.head, rt.g) && Stores(rt.g, rt.m)
  {
    assert Agrees(n, rt.g[n]);
  }

  /** The child in slot `x`, if that is a node. */
  lemma ChildFacts(rt: Rax, ts: seq<Node>, n: Node, x: nat)
    requires rt.Valid() && n in rt.g && x < |n.edges.slots| && n.edges == rt.g[n].edges && n.edges.Ok()
    requires Chain(rt.head, rt.g, ts, n)
    ensures |Reach(rt.g[n], x)| > |rt.g[n].prefix|
    ensures Reach(rt.g[n], x) == rt.g[n].prefix + (if n.edges.isCompr then n.edges.chars else [n.edges.chars[x]])
    ensures n.edges.slots[x].Child? ==>
              var c := n.edges.slots[x].node;
              && c in rt.g && c != rt.head && rt.g[c].prefix == Reach(rt.g[n], x) && rt.g[c].parent == n
              && rt.g[c].edges.Ok() && c.isKey == rt.g[c].isKey && (c.isKey ==> c.GetData() == rt.g[c].data)
              && (rt.g[c].isKey || rt.g[c].edges.slots != []) && Chain(rt.head, rt.g, ts + [n], c)
  {
    LongerThanPrefix(rt.g[n], x);
    assert HasChildren(rt.g, n);
    if n.edges.slots[x].Child? {
      var c := n.edges.slots[x].node;
      assert Agrees(c, rt.g[c]);
      ChainPush(rt.head, rt.g, ts, n, c);
    }
  }

  ghost predicate Increasing(ks: seq<Key>) {
    forall i, j :: 0 <= i < j < |ks| ==> Lt(ks[i], ks[j])
  }

  /** What a walk has listed when it stands on `k`: exactly the keys smaller than `k`. */
  ghost predicate ListedBelow(m: map<Key, Value>, ks: seq<Key>, k: Key) {
    Increasing(ks) && k in m && (forall q :: q in ks ==> q in m) && forall q :: q in m ==> (q in ks <==> Lt(q, k))
  }

  lemma ListedNext(m: map<Key, Value>, ks: seq<Key>, k: Key, k': Key)
    requires ListedBelow(m, ks, k) && k' in m && FirstBeyond(m, false, k, k')
    ensures ListedBelow(m, ks + [k], k')
  {
    Irreflexive(k');
    forall q | q in m
      ensures q in ks + [k] <==> Lt(q, k')
    {
      TotalOrder(q, k);
      if Lt(q, k) {
        Transitive(q, k, k');
      } else if Lt(k, q) {
        TotalOrder(q, k');
        if Lt(q, k') {
          Asymmetric(q, k');
        }
        Asymmetric(k, q);
      }
    }
  }

  lemma ListedAll(m: map<Key, Value>, ks: seq<Key>, k: Key)
    requires ListedBelow(m, ks, k) && NothingBeyond(m, false, k)
    ensures Increasing(ks + [k]) && forall q :: q in ks + [k] <==> q in m
  {
    forall q | q in m
      ensures q in ks + [k]
    {
      TotalOrder(q, k);
    }
  }

  lemma ListedMeasure(m: map<Key, Value>, ks: seq<Key>, k: Key)
    requires ListedBelow(m, ks, k)
    ensures m.Keys - (set q | q in ks + [k]) < m.Keys - (set q | q in ks)
  {
    Irreflexive(k);
    assert k in m.Keys - (set q | q in ks) && k !in m.Keys - (set q | q in ks + [k]);
  }

  /** A full walk with `^` and raxNext lists every key once, in increasing order. */
  method Walk(rt: Rax) returns (ks: seq<Key>)
    requires rt.Valid()
    ensures Increasing(ks) && forall k :: k in ks <==> k in rt.m
  {
    hide Rax.Valid, ListedBelow, FirstBeyond, NothingBeyond, Iterator.OnKey;
    var it := new Iterator(rt);
    var _ := it.Seek("^", []);
    assert it.Ok();
    ks := [];
    var more := it.Next();
    if !more {
      return;
    }
    FirstListed(rt.m, it.key) by { it.OnKeyStored(); }
    while true
      invariant it.rt == rt && fresh(it) && rt.Valid() && rt.m == old(rt.m) && it.Ok() && !it.eof && !it.justSeeked
      invariant ListedBelow(rt.m, ks, it.key)
      decreases rt.m.Keys - (set q | q in ks)
    {
      ghost var k := it.key;
      var k0 := it.key;
      more := it.Next();
      ListedMeasure(rt.m, ks, k);
      if !more {
        ListedAll(rt.m, ks, k);
        ks := ks + [k0];
        return;
      }
      ListedNext(rt.m, ks, k, it.key);
      ks := ks + [k0];
    }
  }

  lemma FirstListed(m: map<Key, Value>, k: Key)
    requires k in m && forall q :: q in m ==> q == k || Lt(k, q)
    ensures ListedBelow(m, [], k)
  {
    forall q | q in m
      ensures !Lt(q, k)
    {
      if q == k {
        Irreflexive(k);
      } else {
        Asymmetric(k, q);
      }
    }
  }
}
