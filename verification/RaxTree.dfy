/** The radix tree itself: nodes changed in place, specified by the map they stand for. */
module RaxTree {
  import opened Common
  import opened RaxGraph
  import opened RaxEdits
  import opened RaxRuns
  import opened RaxSlots
  import opened RaxChanges
  import opened RaxRemoval
  import opened RaxSplits
  import opened RaxShorten
  import opened RaxFate

  /** The place that holds the reference to a node: the head field, or a slot of a node. */
  datatype Link = HeadLink | SlotLink(node: Node, idx: nat)

  /** The fields of `n` are what the graph records for it. */
  ghost predicate Agrees(n: Node, v: NodeVal)
    reads n
  {
    n.isKey == v.isKey && n.edges == v.edges && (n.isKey ==> n.GetData() == v.data)
  }

  function SlotOf(link: Link): nat {
    if link.HeadLink? then 0 else link.idx
  }

  /** `link` is where the tree refers to `h`. */
  ghost predicate LinksTo(head: Node, g: Graph, link: Link, h: Node) {
    if h == head then link == HeadLink
    else
      && link.SlotLink? && h in g && g[h].parent == link.node && link.node in g
      && link.idx < |g[link.node].edges.slots| && g[link.node].edges.slots[link.idx] == Child(h)
  }

  lemma WalkMiss(g: Graph, s: Key, h: Node, i: nat, end: nat, j: nat)
    requires h in g && g[h].edges.Ok() && g[h].edges.chars != [] && i < |s| && g[h].prefix == s[..i] && i <= end <= |s|
    requires if g[h].edges.isCompr then
               && j < |g[h].edges.chars| && end == i + j && s[i..end] == g[h].edges.chars[..j]
               && (end < |s| ==> g[h].edges.chars[j] != s[end])
             else j == 0 && end == i && s[i] !in g[h].edges.chars
    ensures Stopped(g, s, h, end, j)
  {
    assert end - j == i;
  }

  lemma WalkHit(g: Graph, s: Key, h: Node, i: nat, end: nat, x: nat)
    requires h in g && g[h].edges.Ok() && i < |s| && g[h].prefix == s[..i] && i <= end <= |s|
    requires x < |g[h].edges.slots| && s[i..end] == g[h].edges.Label(x)
    ensures Reach(g[h], x) == s[..end] && i < end
  {
    assert s[..i] + s[i..end] == s[..end];
    LongerThanPrefix(g[h], x);
  }

  lemma WalkDown(head: Node, g: Graph, ts: seq<Node>, h: Node, x: nat, c: Node)
    requires Linked(head, g) && Chain(head, g, ts, h) && g[h].edges.Ok()
    requires x < |g[h].edges.slots| && g[h].edges.slots[x] == Child(c)
    ensures c in g && g[c].prefix == Reach(g[h], x)
    ensures Chain(head, g, ts + [h], c) && LinksTo(head, g, SlotLink(h, x), c)
  {
    assert HasChildren(g, h);
    LongerThanPrefix(g[h], x);
    ChainPush(head, g, ts, h, c);
  }

  lemma MinusKey(m: map<Key, Value>, k: Key)
    requires k in m
    ensures |m - {k}| == |m| - 1
  {
    assert (m - {k}).Keys == m.Keys - {k};
    assert |m.Keys - {k}| == |m.Keys| - 1;
  }

  lemma OnePos(chars: seq<Byte>, c: Byte, pos: nat)
    requires IsPos(chars, c, pos)
    ensures forall p: nat :: IsPos(chars, c, p) ==> p == pos
  {
    forall p: nat | IsPos(chars, c, p)
      ensures p == pos
    {
      var k := if p < pos then p else pos;
      if k < |chars| {
        var x := chars[k];
      }
    }
  }

  class Rax {
    var head: Node
    var numele: nat
    var numnodes: nat

    ghost var g: Graph
    ghost var m: map<Key, Value>

    ghost predicate Mirrors(except: Node?)
      reads `g, g.Keys
    {
      forall n :: n in g && n != except ==> Agrees(n, g[n])
    }

    /** The nodes form a tree for `m`, in which only `pending` may be a leaf without a key. */
    ghost predicate Shape(pending: Node?)
      reads `head, `g, `m, g.Keys
    {
      Mirrors(null) && WellFormed(head, g, m, pending)
    }

    ghost predicate Valid()
      reads this, g.Keys
    {
      Shape(null) && numele == |m| && numnodes == |g|
    }

    /** raxNew */
    constructor ()
      ensures Valid() && m == map[] && fresh(g.Keys)
    {
      var n := new Node();
      head := n;
      numele, numnodes := 0, 1;
      g := map[n := NodeVal([], null, NoEdges, false, Null)];
      m := map[];
    }

    /** An empty tree is one bare head. */
    lemma EmptyTree()
      requires Valid() && m == map[]
      ensures numnodes == 1 && g.Keys == {head} && head.edges == NoEdges && !head.isKey
    {
      assert Agrees(head, g[head]) && Holds(g, m, head) && g[head].edges.Ok();
      if g[head].edges.slots != [] {
        var k := KeyUnder(head, g, m, head, 0);
      }
      ChildlessIsNoEdges(g[head].edges);
      forall n | n in g
        ensures n == head
      {
        if n != head {
          var x := Descend(head, g, head, n);
        }
      }
      assert g.Keys == {head} && |g| == |g.Keys|;
    }

    /** raxLowWalk */
    method LowWalk(s: Key) returns (i: nat, h: Node, link: Link, j: nat, ts: seq<Node>, inlineLeaf: bool)
      requires Valid()
      ensures i <= |s| && Chain(head, g, ts, h)
      ensures inlineLeaf ==> link.SlotLink? && link.node == h && StoppedInline(g, s, h, i, link.idx)
      ensures !inlineLeaf ==> Stopped(g, s, h, i, j) && LinksTo(head, g, link, h)
    {
      h, link, i, j, ts, inlineLeaf := head, HeadLink, 0, 0, [], false;
      while h.edges.chars != [] && i < |s|
        invariant i <= |s| && j == 0 && !inlineLeaf
        invariant Chain(head, g, ts, h) && LinksTo(head, g, link, h) && g[h].prefix == s[..i]
        decreases |s| - i
      {
        assert Agrees(h, g[h]) && g[h].edges.Ok();
        var end, x, ok := h.MatchEdge(s, i);
        if !ok {
          WalkMiss(g, s, h, i, end, x);
          i, j := end, x;
          return;
        }
        WalkHit(g, s, h, i, end, x);
        i := end;
        if x < INLINE_SLOTS && h.edges.leafBitmap[x] {
          inlineLeaf, link := true, SlotLink(h, x);
          return;
        }
        var c := h.edges.slots[x].node;
        WalkDown(head, g, ts, h, x, c);
        ts, link, h := ts + [h], SlotLink(h, x), c;
      }
      assert Agrees(h, g[h]) && g[h].edges.Ok();
    }

    /** raxFind */
    method Find(s: Key) returns (r: Option<Value>)
      requires Valid()
      ensures r == if s in m then Some(m[s]) else None
    {
      var i, h, link, j, _, inlineLeaf := LowWalk(s);
      assert Agrees(h, g[h]);
      if inlineLeaf {
        StoppedInlineDecides(head, g, m, s, h, i, link.idx);
      } else {
        StoppedDecides(head, g, m, s, h, i, j);
      }
      if inlineLeaf && i == |s| {
        return Some(h.edges.slots[link.idx].value);
      }
      if i != |s| || (h.edges.isCompr && j != 0) || !h.isKey {
        return None;
      }
      r := Some(h.GetData());
    }

    /** Store `e` as the edges of `h`. The graph follows: see `Rewire`. */
    method WriteEdges(h: Node, e: Edges, ghost l: Key, ghost gone: Node?, ghost sl: Option<Slot>,
                      ghost key: Option<Value>)
      requires Mirrors(null) && h in g && gone != h
      requires sl.Some? && sl.value.Child? ==>
                 sl.value.node !in g && Agrees(sl.value.node, NewChild(g[h].prefix + l, h, key))
      modifies `g, h
      ensures Mirrors(null) && g == Rewire(old(g), h, e, l, gone, sl, key)
      ensures unchanged(`head, `numele, `numnodes, `m)
    {
      h.edges := e;
      g := Rewire(g, h, e, l, gone, sl, key);
    }

    /** raxMaterializeInlineLeaf: turn the inline leaf in slot `x` of `h` into a node. */
    method MaterializeInlineLeaf(h: Node, x: nat) returns (leaf: Node)
      requires Mirrors(null) && h in g && g[h].edges.Ok() && x < |h.edges.slots| && h.edges.slots[x].Inline?
      modifies `g, `numnodes, h
      ensures fresh(leaf) && old(h.edges == g[h].edges)
      ensures Mirrors(null) && g == Materialize(old(g), h, x, leaf) && numnodes == old(numnodes) + 1
      ensures unchanged(`head, `numele, `m)
    {
      assert Agrees(h, g[h]);
      leaf := new Node();
      leaf.SetData(h.edges.slots[x].value);
      WriteEdges(h, SetSlot(h.edges, x, Child(leaf)), h.edges.Label(x), null, Some(Child(leaf)),
        Some(h.edges.slots[x].value));
      numnodes := numnodes + 1;
    }

    /** The first half of raxAddChildNoAlloc: if child 12 of `h` is inline and would move to slot 13,
        which has no bit, it becomes a node. */
    method SpillSlot12(h: Node, pos: nat) returns (ghost leaf: Node?)
      requires Mirrors(null) && h in g && g[h].edges.Ok()
      modifies `g, `numnodes, h
      ensures old(h.edges == g[h].edges)
      ensures leaf == null <==> !Spills(old(g)[h].edges, pos)
      ensures leaf != null ==> fresh(leaf)
      ensures Mirrors(null) && g == MakeRoom(old(g), h, leaf)
      ensures numnodes == old(numnodes) + (if leaf == null then 0 else 1) && unchanged(`head, `numele)
    {
      assert Agrees(h, g[h]);
      leaf := null;
      if pos <= 12 && h.edges.leafBitmap[12] {
        leaf := MaterializeInlineLeaf(h, 12);
      }
    }

    lemma SameEdgesIn(h: Node)
      requires Mirrors(null) && h in g
      ensures h.edges == g[h].edges
    {
      assert Agrees(h, g[h]);
    }

    /** raxAddChildNoAlloc: make room in `h` for the edge `c`, and store `sl` there. */
    method AddChildNoAlloc(h: Node, c: Byte, sl: Slot) returns (pos: nat, ghost leaf: Node?)
      requires Mirrors(null) && h in g && g[h].edges.Ok() && !h.edges.isCompr && c !in h.edges.chars
      requires if sl.Inline? then forall p: nat :: IsPos(h.edges.chars, c, p) ==> p < INLINE_SLOTS
               else sl.node !in g && !sl.node.isKey && sl.node.edges == NoEdges
      modifies `g, `numnodes, h
      ensures old(h.edges == g[h].edges) && IsPos(old(g)[h].edges.chars, c, pos)
      ensures leaf == null <==> !Spills(old(g)[h].edges, pos)
      ensures leaf != null ==> fresh(leaf)
      ensures Mirrors(null) && g == AddChild(old(g), h, c, pos, sl, leaf)
      ensures numnodes == old(numnodes) + (if leaf == null then 0 else 1) && unchanged(`head, `numele)
    {
      hide Rax.Mirrors, MakeRoom, InsertSlot;
      SameEdgesIn(h);
      pos := h.FindChildPos(c);
      leaf := SpillSlot12(h, pos);
      MakeRoomFrame(old(g), h, leaf);
      SameEdgesIn(h);
      WriteEdges(h, InsertSlot(h.edges, c, pos, sl), [c], null, Some(sl), None);
    }

    /** Make the tree refer to `top` instead of `h` at `link`. The graph becomes `next`. */
    method WriteLink(link: Link, h: Node, top: Node, ghost next: Graph)
      requires Mirrors(h) && h in g && LinksTo(head, g, link, h)
      requires g[h].parent != h && (h == head ==> g[h].parent == null)
      requires Replaced(g, next, h, SlotOf(link), top) && h !in next
      requires forall n :: n in next && n !in g ==> Agrees(n, next[n])
      modifies `head, `g, if link.SlotLink? then {link.node} else {}
      ensures Mirrors(null) && g == next && head == (if h == old(head) then top else old(head)) 
      ensures unchanged(`numele, `numnodes, `m)
    {
      if link.HeadLink? {
        head := top;
      } else {
        assert Agrees(link.node, g[link.node]);
        link.node.edges := link.node.edges.(slots := link.node.edges.slots[link.idx := Child(top)]);
      }
      g := next;
    }

    /** The nodes ALGO 1 puts in the place of `h`, whose run mismatches the key at character `j`. */
    method BuildSplit(h: Node, j: nat) returns (split: Node, trimmed: Node?, postfix: Node?)
      requires 1 < |h.edges.chars| && j < |h.edges.chars| && |h.edges.slots| == 1
      modifies `numnodes
      ensures numnodes == old(numnodes) + NewNodes(trimmed, postfix)
      ensures fresh(split) && (trimmed == null <==> j == 0) && (postfix == null <==> j + 1 == |h.edges.chars|)
      ensures trimmed != null ==> fresh(trimmed) && trimmed != split && trimmed != postfix
      ensures postfix != null ==> fresh(postfix) && postfix != split
      ensures split.edges == Run([h.edges.chars[j]], if postfix == null then h.edges.slots[0] else Child(postfix))
      ensures trimmed == null ==> split.isKey == h.isKey && (h.isKey ==> split.GetData() == h.GetData())
      ensures trimmed != null ==>
                && !split.isKey && trimmed.edges == Run(h.edges.chars[..j], Child(split))
                && trimmed.isKey == h.isKey && (h.isKey ==> trimmed.GetData() == h.GetData())
      ensures postfix != null ==> !postfix.isKey && postfix.edges == Run(h.edges.chars[j + 1..], h.edges.slots[0])
    {
      var run, rest := h.edges.chars, h.edges.slots[0];
      split := new Node();
      trimmed, postfix := null, null;
      if j == 0 {
        if h.isKey {
          split.SetData(h.GetData());
        }
      } else {
        trimmed := new Node();
        trimmed.edges := Run(run[..j], Child(split));
        trimmed.isKey, trimmed.isNull := h.isKey, h.isNull;
        if h.isKey && !h.isNull {
          trimmed.SetData(h.GetData());
        }
        numnodes := numnodes + 1;
      }
      if j + 1 < |run| {
        postfix := new Node();
        postfix.edges := Run(run[j + 1..], rest);
        numnodes := numnodes + 1;
        rest := Child(postfix);
      }
      split.edges := Run([run[j]], rest);
    }

    /** ALGO 1 of raxGenericInsert: the run of `h` mismatches the key at its character `j`. The
        returned `split` has the mismatching character of the run as its only edge. */
    method SplitMismatch(h: Node, link: Link, j: nat) returns (split: Node, trimmed: Node?, postfix: Node?)
      requires Mirrors(null) && OnlyChild(head, g, h, SlotOf(link)) && LinksTo(head, g, link, h)
      requires 1 < |g[h].edges.chars| && j < |g[h].edges.chars|
      modifies `head, `g, `numnodes, if link.SlotLink? then {link.node} else {}
      ensures SplitNodes(old(g), h, j, trimmed, split, postfix)
      ensures fresh(split) && (trimmed != null ==> fresh(trimmed)) && (postfix != null ==> fresh(postfix))
      ensures g == SplitAt(old(head), old(g), h, SlotOf(link), j, trimmed, split, postfix)
      ensures Mirrors(null) && head == if h == old(head) then Top(trimmed, split) else old(head)
      ensures numnodes == old(numnodes) + NewNodes(trimmed, postfix) && unchanged(`numele, `m)
    {
      assert Agrees(h, g[h]);
      split, trimmed, postfix := BuildSplit(h, j);
      assert SplitNodes(g, h, j, trimmed, split, postfix);
      HomeOf(head, g, h);
      ghost var next := SplitAtStep(head, g, h, SlotOf(link), j, trimmed, split, postfix);
      SplitAtFrame(head, g, h, SlotOf(link), j, trimmed, split, postfix);
      hide OnlyChild, SplitNodes, Replaced, SplitAt, NewNodes, Top;
      forall n | n in next && n !in g
        ensures Agrees(n, next[n])
      {
        assert Agrees(h, g[h]);
        assert n == split || n == trimmed || n == postfix;
      }
      WriteLink(link, h, Top(trimmed, split), next);
    }

    /** The nodes ALGO 2 puts in the place of `h`, when the new key ends after `j` characters of its run. */
    method BuildMatch(h: Node, j: nat, data: Value) returns (trimmed: Node, postfix: Node)
      requires 0 < j < |h.edges.chars| && |h.edges.slots| == 1
      modifies `numnodes
      ensures numnodes == old(numnodes) + 1
      ensures fresh(trimmed) && fresh(postfix) && trimmed != postfix
      ensures trimmed.edges == Run(h.edges.chars[..j], Child(postfix)) && trimmed.isKey == h.isKey
      ensures h.isKey ==> trimmed.GetData() == h.GetData()
      ensures postfix.edges == Run(h.edges.chars[j..], h.edges.slots[0]) && postfix.isKey && postfix.GetData() == data
    {
      postfix := new Node();
      postfix.edges := Run(h.edges.chars[j..], h.edges.slots[0]);
      postfix.SetData(data);
      numnodes := numnodes + 1;
      trimmed := new Node();
      trimmed.edges := Run(h.edges.chars[..j], Child(postfix));
      if h.isKey {
        trimmed.SetData(h.GetData());
      }
    }

    /** ALGO 2 of raxGenericInsert: the key ends after `j` characters of the run of `h`. */
    method SplitMatch(h: Node, link: Link, j: nat, data: Value) returns (trimmed: Node, postfix: Node)
      requires Mirrors(null) && OnlyChild(head, g, h, SlotOf(link)) && LinksTo(head, g, link, h)
      requires 0 < j < |g[h].edges.chars|
      modifies `head, `g, `numnodes, if link.SlotLink? then {link.node} else {}
      ensures fresh(trimmed) && fresh(postfix) && trimmed != postfix
      ensures g == SplitForKey(old(head), old(g), h, SlotOf(link), j, trimmed, postfix, data)
      ensures Mirrors(null) && head == (if h == old(head) then trimmed else old(head)) && numnodes == old(numnodes) + 1
      ensures unchanged(`numele, `m)
    {
      assert Agrees(h, g[h]);
      trimmed, postfix := BuildMatch(h, j, data);
      HomeOf(head, g, h);
      ghost var next := SplitForKeyStep(head, g, h, SlotOf(link), j, trimmed, postfix, data);
      hide OnlyChild, Replaced, SplitForKey, Run;
      forall n | n in next && n !in g
        ensures Agrees(n, next[n])
      {
        assert Agrees(h, g[h]);
        assert n == trimmed || n == postfix;
      }
      WriteLink(link, h, trimmed, next);
    }

    /** raxCompressNode: the childless node `h` becomes a run into `sl`. */
    method AttachRun(h: Node, run: seq<Byte>, sl: Slot, ghost pending: Node?)
      requires Shape(pending) && (pending == null || pending == h)
      requires h in g && h.edges.slots == [] && 0 < |run| <= NODE_MAX_SIZE
      requires sl.Child? ==> sl.node !in g && !sl.node.isKey && sl.node.edges == NoEdges
      modifies `g, `m, h
      ensures Shape(PendingOf(sl))
      ensures m == WithSlot(old(m), old(g)[h].prefix + run, sl) && g == MakeRun(old(g), h, run, sl)
      ensures unchanged(`head, `numele, `numnodes)
    {
      assert Agrees(h, g[h]);
      MakeRunKeeps(head, g, m, pending, h, run, sl);
      hide WellFormed, WithSlot;
      m := WithSlot(m, g[h].prefix + run, sl);
      WriteEdges(h, Run(run, sl), run, null, Some(sl), None);
    }

    /** raxAddChild, or an edge to an inline leaf: a new edge `c` of `h` into `sl`. */
    method AttachEdge(h: Node, c: Byte, sl: Slot, ghost pending: Node?) returns (ghost pos: nat, ghost leaf: Node?)
      requires Shape(pending) && (pending == null || pending == h)
      requires h in g && g[h].edges.Ok() && !h.edges.isCompr && c !in h.edges.chars
      requires if sl.Inline? then forall p: nat :: IsPos(h.edges.chars, c, p) ==> p < INLINE_SLOTS
               else sl.node !in g && !sl.node.isKey && sl.node.edges == NoEdges
      modifies `g, `m, `numnodes, h
      ensures Shape(PendingOf(sl))
      ensures old(g)[h].edges.Ok() && !old(g)[h].edges.isCompr && IsPos(old(g)[h].edges.chars, c, pos)
      ensures leaf == null <==> !Spills(old(g)[h].edges, pos)
      ensures leaf != null ==> fresh(leaf)
      ensures sl.Inline? ==> pos < INLINE_SLOTS
      ensures m == WithSlot(old(m), old(g)[h].prefix + [c], sl) && g == AddChild(old(g), h, c, pos, sl, leaf)
      ensures numnodes == old(numnodes) + (if leaf == null then 0 else 1) && unchanged(`head, `numele)
    {
      assert Agrees(h, g[h]);
      var p;
      p, leaf := AddChildNoAlloc(h, c, sl);
      pos := p;
      AddChildKeeps(head, old(g), m, pending, h, c, pos, sl, leaf);
      hide WellFormed, WithSlot, AddChild;
      m := WithSlot(m, old(g)[h].prefix + [c], sl);
    }

    /** Insertion of `s` has reached `h` after `i` characters, and nothing leads on from there.
        Until its key is set, `h` may be a bare leaf. */
    ghost predicate Growing(s: Key, i: nat, h: Node, pending: Node?)
      reads this, g.Keys
    {
      && Shape(pending) && (pending == null || pending == h) && numele == |m| && numnodes == |g|
      && i <= |s| && h in g && g[h].edges.Ok() && !g[h].edges.isCompr && g[h].prefix == s[..i]
      && (if i < |s| then s[i] !in g[h].edges.chars else !g[h].isKey)
    }

    lemma BeforeRun(s: Key, i: nat, h: Node, run: seq<Byte>, sl: Slot, pending: Node?)
      requires Growing(s, i, h, pending) && h.edges.slots == [] && |run| > 0 && i + |run| <= |s|
      requires run == s[i..i + |run|]
      requires sl.Child? ==> sl.node !in g
      ensures var k, g' := s[..i + |run|], MakeRun(g, h, run, sl);
              && k !in m && k == g[h].prefix + run && WithSlot(m, k, sl) == (if sl.Inline? then m[k := sl.value] else m)
              && |g'| == |g| + (if sl.Child? then 1 else 0)
              && g'.Keys == g.Keys + (if sl.Child? then {sl.node} else {})
              && (sl.Child? ==> g'[sl.node] == NewChild(k, h, None))
      ensures Shape(pending) && (pending == null || pending == h) && numele == |m| && numnodes == |g| && h in g
    {
      assert Agrees(h, g[h]);
      assert s[..i] + run == s[..i + |run|];
      ChildlessIsNoEdges(g[h].edges);
      NoKeyBeyond(head, g, m, h, run);
      MakeRunFrame(g, h, run, sl);
    }

    method FinishRun(s: Key, i: nat, h: Node, data: Value, ghost pending: Node?)
      requires Growing(s, i, h, pending) && i < |s| && |s| - i <= NODE_MAX_SIZE && h.edges.slots == []
      modifies this, h
      ensures Valid() && s !in old(m) && m == old(m)[s := data] && g.Keys == old(g.Keys)
    {
      hide Rax.Shape, Rax.Growing, MakeRun, WithSlot;
      assert s[..i + |s[i..]|] == s;
      BeforeRun(s, i, h, s[i..], Inline(data), pending);
      AttachRun(h, s[i..], Inline(data), pending);
      numele := numele + 1;
    }

    lemma GrowsOn(s: Key, i: nat, h: Node, child: Node)
      requires Shape(child) && numele == |m| && numnodes == |g|
      requires i <= |s| && child in g && g[child] == NewChild(s[..i], h, None)
      ensures Growing(s, i, child, child)
    {
    }

    method GrowRun(s: Key, i: nat, h: Node, n: nat, ghost pending: Node?) returns (child: Node)
      requires Growing(s, i, h, pending) && 0 < n <= NODE_MAX_SIZE && i + n <= |s| && h.edges.slots == []
      modifies this, h
      ensures Growing(s, i + n, child, child) && fresh(child)
      ensures m == old(m) && g.Keys == old(g.Keys) + {child}
    {
      hide Rax.Shape, Rax.Growing, MakeRun, WithSlot, Linked;
      child := new Node();
      BeforeRun(s, i, h, s[i..i + n], Child(child), pending);
      AttachRun(h, s[i..i + n], Child(child), pending);
      numnodes := numnodes + 1;
      GrowsOn(s, i + n, h, child);
    }

    lemma BeforeEdge(s: Key, i: nat, h: Node, pending: Node?)
      requires Growing(s, i, h, pending) && i < |s|
      ensures g[h].prefix + [s[i]] == s[..i + 1] && s[..i + 1] !in m && h.edges == g[h].edges && g[h].edges.Ok()
      ensures Shape(pending) && (pending == null || pending == h) && numele == |m| && numnodes == |g| && h in g
      ensures !h.edges.isCompr && s[i] !in h.edges.chars
    {
      assert Agrees(h, g[h]);
      NoKeyBeyond(head, g, m, h, [s[i]]);
    }

    method FinishEdge(s: Key, i: nat, h: Node, data: Value, ghost pending: Node?)
      requires Growing(s, i, h, pending) && i + 1 == |s|
      requires forall p: nat :: IsPos(h.edges.chars, s[i], p) ==> p < INLINE_SLOTS
      modifies this, h
      ensures Valid() && s !in old(m) && m == old(m)[s := data]
      ensures forall n :: n in g ==> n in old(g) || fresh(n)
    {
      hide Rax.Shape, Rax.Growing, AddChild, Linked;
      assert s[..|s|] == s;
      BeforeEdge(s, i, h, pending);
      ghost var pos, leaf := AttachEdge(h, s[i], Inline(data), pending);
      AddChildFrame(old(g), h, s[i], pos, Inline(data), leaf);
      numele := numele + 1;
    }

    method GrowEdge(s: Key, i: nat, h: Node, ghost pending: Node?) returns (child: Node)
      requires Growing(s, i, h, pending) && i < |s|
      modifies this, h
      ensures Growing(s, i + 1, child, child) && fresh(child)
      ensures m == old(m) && forall n :: n in g ==> n in old(g) || fresh(n)
    {
      hide Rax.Shape, Rax.Growing, AddChild, Linked;
      child := new Node();
      BeforeEdge(s, i, h, pending);
      ghost var pos, leaf := AttachEdge(h, s[i], Child(child), pending);
      AddChildFrame(old(g), h, s[i], pos, Child(child), leaf);
      assert WithSlot(old(m), s[..i + 1], Child(child)) == old(m);
      numnodes := numnodes + 1;
      GrowsOn(s, i + 1, h, child);
    }

    lemma GrowingNode(s: Key, i: nat, h: Node, pending: Node?)
      requires Growing(s, i, h, pending)
      ensures h in g && i <= |s| && h.edges.Ok() && !h.edges.isCompr && (h.edges.slots == [] <==> h.edges.chars == [])
      ensures i < |s| ==> s[i] !in h.edges.chars
      ensures numele == |m| && numnodes == |g| && Shape(pending)
      ensures i == |s| ==> !h.isKey && g[h].prefix == s && s !in m && (pending == null || pending == h)
    {
      assert Agrees(h, g[h]);
      assert s[..|s|] == s;
      if i == |s| {
        NoKeyHere(head, g, m, h);
      }
    }

    /** The last loop of raxGenericInsert: nodes for the characters of `s` from `i` on. */
    method InsertRest(s: Key, i0: nat, h0: Node, data: Value)
      requires Growing(s, i0, h0, null) && i0 < |s|
      modifies this, g.Keys
      ensures Valid() && s !in old(m) && m == old(m)[s := data]
      ensures forall n :: n in g ==> n in old(g) || fresh(n)
    {
      hide Rax.Growing, Rax.Shape, Linked;
      var i, h := i0, h0;
      ghost var pending: Node? := null;
      GrowingNode(s, i, h, pending);
      while i < |s|
        invariant Growing(s, i, h, pending) && m == old(m)
        invariant h in old(g) || fresh(h)
        invariant forall n :: n in g ==> n in old(g) || fresh(n)
        decreases |s| - i
      {
        GrowingNode(s, i, h, pending);
        if h.edges.chars == [] && |s| - i > 1 {
          var comprsize := if |s| - i > NODE_MAX_SIZE then NODE_MAX_SIZE else |s| - i;
          if comprsize == |s| - i {
            FinishRun(s, i, h, data, pending);
            return;
          }
          h := GrowRun(s, i, h, comprsize, pending);
          i := i + comprsize;
        } else {
          if |s| - i == 1 {
            var pos := h.FindChildPos(s[i]);
            if pos < INLINE_SLOTS {
              OnePos(h.edges.chars, s[i], pos);
              FinishEdge(s, i, h, data, pending);
              return;
            }
          }
          h := GrowEdge(s, i, h, pending);
          i := i + 1;
        }
        pending := h;
      }
      GrowingNode(s, i, h, pending);
      FinishNode(s, h, data, pending);
    }

    method FinishNode(s: Key, h: Node, data: Value, ghost pending: Node?)
      requires Growing(s, |s|, h, pending)
      modifies this, h
      ensures Valid() && s !in old(m) && m == old(m)[s := data] && g.Keys == old(g.Keys)
    {
      hide Rax.Growing, Rax.Shape, WellFormed;
      GrowingNode(s, |s|, h, pending);
      if !h.isKey {
        numele := numele + 1;
      }
      StoreKey(h, data, pending);
    }

    /** raxSetData on a node of the tree. */
    method StoreKey(h: Node, data: Value, ghost pending: Node?)
      requires Shape(pending) && h in g
      modifies `g, `m, h
      ensures Shape(if pending == h then null else pending)
      ensures m == old(m)[old(g)[h].prefix := data] && g.Keys == old(g.Keys) && |g| == |old(g)|
      ensures unchanged(`head, `numele, `numnodes)
    {
      hide WellFormed;
      SetKey(head, g, m, pending, h, data);
      assert Agrees(h, g[h]);
      h.SetData(data);
      m := m[g[h].prefix := data];
      g := g[h := WithKey(g[h], data)];
    }

    /** Update the inline leaf in slot `x` of `h`. */
    method StoreInline(h: Node, x: nat, data: Value)
      requires Valid() && h in g && g[h].edges.Ok() && x < |h.edges.slots| && h.edges.slots[x].Inline?
      modifies `g, `m, h
      ensures Valid() && old(h.edges == g[h].edges && g[h].edges.Ok() && x < |h.edges.slots|)
      ensures old(Reach(g[h], x)) in old(m) && m == old(m)[old(Reach(g[h], x)) := data] && g.Keys == old(g.Keys)
    {
      hide WellFormed, Rewire, SetSlot, Rax.Mirrors;
      SameEdgesIn(h);
      ghost var l := h.edges.Label(x);
      InlineFacts(h, x, data);
      WriteEdges(h, SetSlot(h.edges, x, Inline(data)), l, null, Some(Inline(data)), None);
      m := m[old(g)[h].prefix + l := data];
    }

    lemma InlineFacts(h: Node, x: nat, data: Value)
      requires Valid() && h in g && g[h].edges.Ok() && x < |g[h].edges.slots| && g[h].edges.slots[x].Inline?
      ensures x < INLINE_SLOTS && Reach(g[h], x) in m
      ensures var g' := Rewire(g, h, SetSlot(g[h].edges, x, Inline(data)), g[h].edges.Label(x), null,
          Some(Inline(data)), None);
              WellFormed(head, g', m[Reach(g[h], x) := data], null) && g'.Keys == g.Keys && |g'| == |g|
      ensures |m[Reach(g[h], x) := data]| == |m|
    {
      assert Holds(g, m, h);
      SetInlineKeeps(head, g, m, h, x, data);
      assert |SetInline(g, h, x, data)| == |SetInline(g, h, x, data).Keys|;
    }

    /** The key goes on where an inline leaf ends: make the leaf a node. */
    method InsertBelowInline(s: Key, i: nat, h: Node, x: nat) returns (leaf: Node)
      requires Valid() && StoppedInline(g, s, h, i, x) && i < |s|
      modifies `g, `numnodes, h
      ensures Growing(s, i, leaf, null) && m == old(m)
      ensures forall n :: n in g ==> n in old(g) || fresh(n)
    {
      hide Rax.Mirrors, WellFormed, Materialize, Rax.Growing;
      SameEdgesIn(h);
      leaf := MaterializeInlineLeaf(h, x);
      MaterializeKeeps(head, old(g), m, null, h, x, leaf);
      BelowInline(old(g), s, i, h, x, leaf);
      NowGrowing(s, i, leaf);
    }

    /** ALGO 1, as a step of an insertion. */
    method InsertAtMismatch(s: Key, i: nat, h: Node, link: Link, j: nat) returns (split: Node)
      requires Valid() && Stopped(g, s, h, i, j) && LinksTo(head, g, link, h) && g[h].edges.isCompr && i < |s|
      modifies `head, `g, `numnodes, g.Keys
      ensures Growing(s, i, split, null) && m == old(m)
      ensures forall n :: n in g ==> n in old(g) || fresh(n)
    {
      hide Rax.Mirrors, WellFormed, SplitAt, Rax.Growing, SplitNodes, OnlyChild, NewNodes, Stopped, LinksTo;
      RunIsOnlyChild(head, g, m, link, h, s, i, j);
      var trimmed, postfix;
      split, trimmed, postfix := SplitMismatch(h, link, j);
      SplitAtKeeps(old(head), old(g), m, h, SlotOf(link), j, trimmed, split, postfix);
      SplitAtKeys(old(head), old(g), h, SlotOf(link), j, trimmed, split, postfix);
      SplitAtSize(old(head), old(g), h, SlotOf(link), j, trimmed, split, postfix);
      SplitIsGrowing(old(head), old(g), s, i, h, SlotOf(link), j, trimmed, split, postfix);
      NowGrowing(s, i, split);
    }

    /** ALGO 2: the key is inserted in the middle of the run of `h`. */
    method InsertAtMatch(s: Key, h: Node, link: Link, j: nat, data: Value)
      requires Valid() && Stopped(g, s, h, |s|, j) && LinksTo(head, g, link, h) && g[h].edges.isCompr && j != 0
      modifies this, g.Keys
      ensures Valid() && s !in old(m) && m == old(m)[s := data]
      ensures forall n :: n in g ==> n in old(g) || fresh(n)
    {
      hide Rax.Mirrors, WellFormed, SplitForKey, OnlyChild, Stopped, LinksTo, Linked, Chain, Rax.Growing, Run, Edges.Ok;
      RunIsOnlyChild(head, g, m, link, h, s, |s|, j);
      MatchPrefix(g, s, h, j);
      var trimmed, postfix := SplitMatch(h, link, j, data);
      SplitForKeyKeeps(old(head), old(g), m, h, SlotOf(link), j, trimmed, postfix, data);
      ghost var next := SplitForKeyStep(old(head), old(g), h, SlotOf(link), j, trimmed, postfix, data);
      m := m[s := data];
      numele := numele + 1;
    }

    lemma WalkEnds(s: Key, h: Node, link: Link, i: nat, j: nat, inlineLeaf: bool)
      requires Valid()
      requires inlineLeaf ==> link.SlotLink? && link.node == h && StoppedInline(g, s, h, i, link.idx)
      requires !inlineLeaf ==> Stopped(g, s, h, i, j) && LinksTo(head, g, link, h)
      ensures h in g && i <= |s| && h.edges == g[h].edges && h.edges.Ok() && h.isKey == g[h].isKey
      ensures inlineLeaf ==>
                && link.idx < |h.edges.slots| && h.edges.slots[link.idx].Inline? && Reach(g[h], link.idx) == s[..i]
                && (s in m <==> i == |s|) && (s in m ==> m[s] == h.edges.slots[link.idx].value)
      ensures !inlineLeaf ==>
                && (s in m <==> i == |s| && j == 0 && h.isKey) && (s in m ==> m[s] == h.GetData())
                && (i == |s| && j == 0 ==> g[h].prefix == s)
                && (i < |s| && !h.edges.isCompr ==> Growing(s, i, h, null))
                && (!h.edges.isCompr ==> j == 0)
    {
      assert Agrees(h, g[h]);
      assert s[..|s|] == s;
      if inlineLeaf {
        StoppedInlineDecides(head, g, m, s, h, i, link.idx);
      } else {
        StoppedDecides(head, g, m, s, h, i, j);
      }
    }

    /** raxGenericInsert */
    method GenericInsert(s: Key, data: Value, overwrite: bool) returns (inserted: bool, old_: Option<Value>)
      requires Valid()
      modifies this, g.Keys
      ensures Valid() && inserted == (s !in old(m))
      ensures old_ == if s in old(m) then Some(old(m)[s]) else None
      ensures m == if s in old(m) && !overwrite then old(m) else old(m)[s := data]
      ensures forall n :: n in g ==> n in old(g) || fresh(n)
    {
      hide WellFormed, Rax.Mirrors, Rax.Growing, LinksTo, Chain, Stopped, StoppedInline;
      var i, h, link, j, _, inlineLeaf := LowWalk(s);
      WalkEnds(s, h, link, i, j, inlineLeaf);
      old_ := None;
      if i == |s| && inlineLeaf {
        assert s[..i] == s;
        old_ := Some(h.edges.slots[link.idx].value);
        if overwrite {
          StoreInline(h, link.idx, data);
        }
        return false, old_;
      }
      if inlineLeaf {
        h := InsertBelowInline(s, i, h, link.idx);
      } else if i == |s| && (!h.edges.isCompr || j == 0) {
        if h.isKey {
          old_ := Some(h.GetData());
          if overwrite {
            StoreKey(h, data, null);
          }
          return false, old_;
        }
        StoreKey(h, data, null);
        numele := numele + 1;
        return true, old_;
      } else if h.edges.isCompr && i != |s| {
        h := InsertAtMismatch(s, i, h, link, j);
      } else if h.edges.isCompr {
        InsertAtMatch(s, h, link, j, data);
        return true, old_;
      }
      InsertRest(s, i, h, data);
      inserted := true;
    }

    /** raxInsert */
    method Insert(s: Key, data: Value) returns (inserted: bool, old_: Option<Value>)
      requires Valid()
      modifies this, g.Keys
      ensures Valid() && m == old(m)[s := data]
      ensures inserted == (s !in old(m)) && old_ == if s in old(m) then Some(old(m)[s]) else None
      ensures forall n :: n in g ==> n in old(g) || fresh(n)
    {
      inserted, old_ := GenericInsert(s, data, true);
    }

    /** raxTryInsert */
    method TryInsert(s: Key, data: Value) returns (inserted: bool, old_: Option<Value>)
      requires Valid()
      modifies this, g.Keys
      ensures Valid() && m == if s in old(m) then old(m) else old(m)[s := data]
      ensures inserted == (s !in old(m)) && old_ == if s in old(m) then Some(old(m)[s]) else None
      ensures forall n :: n in g ==> n in old(g) || fresh(n)
    {
      inserted, old_ := GenericInsert(s, data, false);
    }

    // ---------------------------------------------------------------- removal

    /** Removal has just changed `h`, which may now be a bare leaf. */
    ghost predicate Trimmed(h: Node, ts: seq<Node>)
      reads `head, `g, `m, `numele, `numnodes, g.Keys
    {
      Shape(h) && Chain(head, g, ts, h) && numele == |m| && numnodes == |g|
    }

    /** raxRemoveChildAtPtr on an inline leaf. */
    method DeleteInline(h: Node, x: nat, ghost ts: seq<Node>)
      requires Valid() && h in g && x < |h.edges.slots| && h.edges.slots[x].Inline? && Chain(head, g, ts, h)
      modifies `g, `m, `numele, h
      ensures old(g[h].edges.Ok() && h.edges == g[h].edges) && old(Reach(g[h], x)) in old(m)
      ensures Trimmed(h, ts) && m == old(m) - {old(Reach(g[h], x))}
      ensures g == RemoveInline(old(g), h, x) && g.Keys == old(g.Keys)
    {
      hide Rax.Mirrors, WellFormed, Rewire, RemoveSlot;
      SameEdgesIn(h);
      DeleteInlineFacts(h, x, ts);
      ghost var k := g[h].prefix + h.edges.Label(x);
      WriteEdges(h, RemoveSlot(h.edges, x), h.edges.Label(x), null, None, None);
      m := m - {k};
      numele := numele - 1;
    }

    lemma DeleteInlineFacts(h: Node, x: nat, ts: seq<Node>)
      requires Valid() && h in g && x < |g[h].edges.slots| && g[h].edges.slots[x].Inline? && Chain(head, g, ts, h)
      ensures g[h].edges.Ok() && Reach(g[h], x) in m && |m - {Reach(g[h], x)}| == |m| - 1
      ensures var g' := Rewire(g, h, RemoveSlot(g[h].edges, x), g[h].edges.Label(x), null, None, None);
              WellFormed(head, g', m - {Reach(g[h], x)}, h) && Chain(head, g', ts, h) && g'.Keys == g.Keys &&
                |g'| == |g|
    {
      RemoveInlineKeeps(head, g, m, h, x);
      var g' := RemoveInline(g, h, x);
      assert |g'| == |g'.Keys|;
      ChainKept(head, g, g', ts, h);
      MinusKey(m, Reach(g[h], x));
    }

    /** The key flag of `h` is cleared; the graph follows. */
    method WriteNoKey(h: Node)
      requires Mirrors(null) && h in g
      modifies `g, h
      ensures Mirrors(null) && g == Unkeyed(old(g), h) && !h.isKey && h.edges == old(h.edges)
      ensures unchanged(`head, `numele, `numnodes, `m)
    {
      h.isKey := false;
      g := Unkeyed(g, h);
    }

    /** A node of the tree gives up its key. */
    method DeleteKey(h: Node, ghost ts: seq<Node>)
      requires Valid() && h in g && h.isKey && Chain(head, g, ts, h)
      modifies `g, `m, `numele, h
      ensures old(g[h].prefix) in old(m) && Trimmed(h, ts) && m == old(m) - {old(g[h].prefix)} && g.Keys == old(g.Keys)
      ensures !h.isKey && h.edges == old(h.edges) && g == Unkeyed(old(g), h)
    {
      hide WellFormed, Rax.Mirrors, Chain, Unkeyed;
      DeleteKeyFacts(h, ts);
      m := m - {g[h].prefix};
      WriteNoKey(h);
      numele := numele - 1;
    }

    lemma DeleteKeyFacts(h: Node, ts: seq<Node>)
      requires Valid() && h in g && h.isKey && Chain(head, g, ts, h)
      ensures Mirrors(null) && Agrees(h, g[h]) && g[h].prefix in m && |m - {g[h].prefix}| == |m| - 1
      ensures var g' := Unkeyed(g, h);
              WellFormed(head, g', m - {g[h].prefix}, h) && Chain(head, g', ts, h) && |g'| == |g| && g'.Keys == g.Keys
    {
      assert Agrees(h, g[h]);
      ClearKey(head, g, m, h);
      ChainKept(head, g, Unkeyed(g, h), ts, h);
      MinusKey(m, g[h].prefix);
    }

    /** The fields of `h` still show slot `x` leading to the freed node `child`; in the graph that
        slot is gone. */
    ghost predicate Dangling(h: Node, x: nat, child: Node)
      reads `g, g.Keys
    {
      && h in g && Mirrors(h) && h.edges.Ok() && x < |h.edges.slots| && h.edges.slots[x] == Child(child)
      && (forall i :: 0 <= i < |h.edges.slots| && h.edges.slots[i] == Child(child) ==> i == x)
      && g[h].edges == RemoveSlot(h.edges, x) && h.isKey == g[h].isKey && (h.isKey ==> h.GetData() == g[h].data)
    }

    /** One round of raxRemoveCleanup: the bare node `h` is freed and its parent `p` is next. */
    method FreeBare(h: Node, ts: seq<Node>) returns (p: Node, rest: seq<Node>, ghost x: nat)
      requires Mirrors(h) && WellFormed(head, g, m, h) && Bare(g, h) && h != head && Chain(head, g, ts, h)
      requires numnodes == |g|
      modifies `g, `numnodes
      ensures Dangling(p, x, h) && WellFormed(head, g, m, p) && Chain(head, g, rest, p)
      ensures numnodes == |g| && |g| == |old(g)| - 1 && forall n :: n in g <==> n in old(g) && n != h
      ensures Prune(head, g, p) == Prune(head, old(g), h)
    {
      hide WellFormed, Chain, RemoveSlot, Prune, RemoveBare;
      AncestorsOf(head, g, ts, h);
      ghost var next;
      x, next := DropBare(head, g, m, ts, h);
      PruneNext(ts, h, x);
      numnodes := numnodes - 1;
      p, rest := ts[|ts| - 1], ts[..|ts| - 1];
      assert Agrees(p, g[p]);
      g := next;
    }

    lemma PruneNext(ts: seq<Node>, h: Node, x: nat)
      requires WellFormed(head, g, m, h) && Bare(g, h) && h != head && Chain(head, g, ts, h) && ts != []
      requires LeadsTo(g, ts[|ts| - 1], x, h)
      ensures Prune(head, g, h) == Prune(head, RemoveBare(g, ts[|ts| - 1], x), ts[|ts| - 1])
    {
      PruneStep(head, g, h, ts[|ts| - 1], x);
    }

    /** raxRemoveChild: unlink the freed node `child` from `h`. */
    method RemoveChild(h: Node, child: Node, ghost x: nat)
      requires Dangling(h, x, child)
      modifies h
      ensures Mirrors(null) && h.edges == RemoveSlot(old(h.edges), x) && h.isKey == old(h.isKey)
    {
      var i := 0;
      while h.edges.slots[i] != Child(child)
        invariant i <= x && forall k :: 0 <= k < i ==> h.edges.slots[k] != Child(child)
        decreases x - i
      {
        i := i + 1;
      }
      h.edges := RemoveSlot(h.edges, i);
    }

    /** The end of raxRemoveCleanup: `h` stays in the tree. */
    method Unlink(h: Node, child: Node, ghost x: nat) returns (trycompress: bool)
      requires Dangling(h, x, child) && WellFormed(head, g, m, h)
      requires h == head || h.isKey || |h.edges.slots| != 1
      modifies h
      ensures Shape(null) && trycompress == Thin(Left(g, h))
    {
      hide WellFormed;
      LastSlot(h.edges, x);
      RemoveChild(h, child, x);
      NotPending(head, g, m, h);
      trycompress := |h.edges.chars| == 1 && !h.isKey;
    }

    lemma BareParent(h: Node, x: nat, child: Node)
      requires Dangling(h, x, child)
      ensures Mirrors(h) && h in g && h.edges.Ok()
      ensures !(h.isKey || (!h.edges.isCompr && |h.edges.chars| != 1)) ==> Bare(g, h)
      ensures h.isKey || (!h.edges.isCompr && |h.edges.chars| != 1) ==> (h.isKey || |h.edges.slots| != 1) && !Bare(g, h)
    {
      LastSlot(h.edges, x);
    }

    /** raxRemoveCleanup: free the bare node `h0` and every ancestor that becomes bare by that. The
        result is the node that remains, with its ancestors. */
    method RemoveCleanup(h0: Node, ts0: seq<Node>) returns (h: Node, ts: seq<Node>, trycompress: bool)
      requires Trimmed(h0, ts0) && Bare(g, h0)
      modifies `g, `numnodes, g.Keys
      ensures Shape(null) && numele == |m| && numnodes == |g| && Chain(head, g, ts, h)
      ensures forall n :: n in g ==> n in old(g)
      ensures Left(g, h) == Prune(head, old(g), h0) && trycompress == Thin(Left(g, h))
    {
      hide WellFormed, Chain, Rax.Dangling, Rax.Mirrors, Prune;
      h, ts, trycompress := h0, ts0, false;
      MirrorsBut(h);
      var child: Node? := null;
      ghost var x: nat := 0;
      while h != head
        invariant WellFormed(head, g, m, h) && Chain(head, g, ts, h) && Bare(g, h)
        invariant numele == |m| && numnodes == |g| && Mirrors(h)
        invariant if child == null then Mirrors(null) else Dangling(h, x, child)
        invariant forall n :: n in g ==> n in old(g)
        invariant Prune(head, g, h) == Prune(head, old(g), h0)
        decreases |g|
      {
        child := h;
        h, ts, x := FreeBare(h, ts);
        BareParent(h, x, child);
        if h.isKey || (!h.edges.isCompr && |h.edges.chars| != 1) {
          break;
        }
      }
      PruneStop(head, g, h);
      if child != null {
        trycompress := Unlink(h, child, x);
      } else {
        NotPending(head, g, m, h);
        BareNotThin(h);
      }
    }

    lemma BareNotThin(h: Node)
      requires Shape(null) && Bare(g, h)
      ensures !Thin(Left(g, h))
    {
      assert g[h].edges.Ok();
    }

    lemma MirrorsBut(h: Node)
      requires Mirrors(null)
      ensures Mirrors(h)
    {
    }

    // ---------------------------------------------------------------- recompression

    lemma Link1Node(n: Node)
      requires n in g && Mirrors(null) && Linked(head, g)
      ensures n.edges == g[n].edges && n.isKey == g[n].isKey && n.edges.Ok()
      ensures Link1(g, n) <==> !n.isKey && (n.edges.isCompr || |n.edges.chars| == 1)
    {
      assert Agrees(n, g[n]);
    }

    /** Going up to the topmost node `h` that can be merged; `parent` is its parent, and `up` leads
        back down to `h0`. */
    method ClimbChain(h0: Node, ts0: seq<Node>) returns (h: Node, parent: Node?, ghost up: seq<Node>)
      requires Shape(null) && Link1(g, h0) && Chain(head, g, ts0, h0)
      ensures Link1(g, h) && parent == g[h].parent && (parent == null || !Link1(g, parent))
      ensures Path(g, up) && up[0] == h && up[|up| - 1] == h0
    {
      hide WellFormed, Rax.Mirrors, Path;
      var ts := ts0;
      h, up := h0, [h0];
      PathOne(g, h0);
      while true
        invariant Link1(g, h) && Chain(head, g, ts, h)
        invariant up != [] && Path(g, up) && up[0] == h && up[|up| - 1] == h0
        decreases |ts|
      {
        TopFacts(ts, h);
        if ts == [] {
          parent := null;
          break;
        }
        parent, ts := ts[|ts| - 1], ts[..|ts| - 1];
        ShapeFacts(parent);
        if parent.isKey || (!parent.edges.isCompr && |parent.edges.chars| != 1) {
          break;
        }
        PathUp(head, g, parent, up);
        h, up := parent, [parent] + up;
      }
    }

    lemma TopFacts(ts: seq<Node>, h: Node)
      requires Shape(null) && Chain(head, g, ts, h)
      ensures Linked(head, g) && (ts == [] <==> g[h].parent == null)
      ensures ts != [] ==>
        ts[|ts| - 1] in g && ts[|ts| - 1] == g[h].parent && Chain(head, g, ts[..|ts| - 1], ts[|ts| - 1]) && h != head
    {
      AncestorsOf(head, g, ts, h);
    }

    /** The first scan: how many nodes can be merged into one, and how many characters they have.
        `ns` is the chain to its end, also where the limit stops the scan before. */
    method SizeChain(start: Node) returns (nodes: nat, comprsize: nat, ghost ns: seq<Node>)
      requires Shape(null) && Link1(g, start)
      ensures Maximal(g, ns) && ns[0] == start && nodes == Fit(g, ns, 1)
      ensures comprsize == Total(g, ns[..nodes]) <= NODE_MAX_SIZE
    {
      hide WellFormed, Rax.Mirrors, Path, Total, Maximal, Fit;
      var h := start;
      ShapeFacts(h);
      ghost var up := [start];
      comprsize, nodes := |h.edges.chars|, 1;
      SizeStart(start);
      while h.edges.chars != []
        invariant up != [] && Path(g, up) && up[0] == start && up[|up| - 1] == h && nodes == |up| && h in g
        invariant comprsize == PathSize(g, up) <= NODE_MAX_SIZE
        decreases NODE_MAX_SIZE - comprsize
      {
        ShapeFacts(h);
        PathAt(g, up, nodes - 1);
        if h.edges.leafBitmap[0] {
          break;
        }
        var c := h.edges.slots[0].node;
        ShapeFacts(c);
        if c.isKey || (!c.edges.isCompr && |c.edges.chars| != 1) {
          break;
        }
        PathPush(g, up, c);
        if comprsize + |c.edges.chars| > NODE_MAX_SIZE {
          ns := Lengthen(head, g, up + [c]);
          Beginning(up, c, ns);
          FitHere(head, g, ns, nodes);
          return;
        }
        h, up := c, up + [c];
        nodes, comprsize := nodes + 1, comprsize + |c.edges.chars|;
      }
      ShapeFacts(h);
      PathAt(g, up, nodes - 1);
      ns := up;
      PathEnds(g, ns);
      FitHere(head, g, ns, nodes);
    }

    lemma SizeStart(start: Node)
      requires Shape(null) && Link1(g, start)
      ensures Linked(head, g) && Path(g, [start]) && g[start].edges.Ok()
      ensures PathSize(g, [start]) == |g[start].edges.chars|
    {
      assert [start][..0] == [];
      assert Total(g, []) == 0;
    }

    lemma ShapeFacts(n: Node)
      requires Shape(null) && n in g
      ensures n.edges == g[n].edges && n.isKey == g[n].isKey && n.edges.Ok()
      ensures n.edges.chars != [] <==> n.edges.slots != []
      ensures Link1(g, n) <==> !n.isKey && (n.edges.isCompr || |n.edges.chars| == 1)
      ensures n.edges.slots != [] ==> n.edges.leafBitmap[0] == n.edges.slots[0].Inline?
      ensures |n.edges.slots| == 1 && n.edges.slots[0].Child? ==> n.edges.slots[0].node in g
    {
      Link1Node(n);
      if |n.edges.slots| == 1 && n.edges.slots[0].Child? {
        ChildIn(head, g, n);
      }
    }

    lemma ChainStart(ns: seq<Node>)
      requires Shape(null) && Maximal(g, ns)
      ensures |ns| > 0 && Linked(head, g)
    {
    }

    lemma ChainNode(ns: seq<Node>, k: nat)
      requires Shape(null) && Maximal(g, ns) && k < |ns|
      ensures ns[k] in g && ns[k].edges == g[ns[k]].edges && ns[k].edges.Ok() && |ns[k].edges.slots| == 1
      ensures ns[k].edges.leafBitmap[0] == ns[k].edges.slots[0].Inline?
      ensures var sl := ns[k].edges.slots[0];
              if k + 1 < |ns| then
                sl == Child(ns[k + 1]) && !sl.node.isKey && (sl.node.edges.isCompr || |sl.node.edges.chars| == 1)
              else sl.Child? ==> sl.node.isKey || !(sl.node.edges.isCompr || |sl.node.edges.chars| == 1)
    {
      ShapeFacts(ns[k]);
      assert Link1(g, ns[k]);
      MergeEnds(g, ns, k + 1);
      if k + 1 < |ns| {
        ShapeFacts(ns[k + 1]);
      } else if ns[k].edges.slots[0].Child? {
        ShapeFacts(ns[k].edges.slots[0].node);
      }
    }

    /** The second scan: free the chain from `start` on, and write its characters behind the header
        of a node that has `room` bytes there. The scan does not look at the limit; it ends when it
        writes `outside`, where nothing more can be known. */
    method CollectChain(start: Node, room: nat, ghost ns: seq<Node>)
      returns (outside: bool, chars: seq<Byte>, slot: Slot)
      requires Shape(null) && Maximal(g, ns) && ns[0] == start && |ns| <= numnodes
      modifies `numnodes
      ensures outside == (Total(g, ns) > room)
      ensures !outside ==>
        chars == Chars(g, ns) && slot == g[ns[|ns| - 1]].edges.slots[0] && numnodes == old(numnodes) - |ns|
    {
      hide WellFormed, Maximal, Path, Link1, Rax.Mirrors, Total, Chars;
      var h := start;
      ghost var k := 0;
      chars, slot := [], Inline(Null);
      ChainStart(ns);
      ChainNode(ns, 0);
      WrittenAt(head, g, ns, 0);
      while true
        invariant k < |ns| && h == ns[k] && h in g && numnodes == old(numnodes) - k && Shape(null)
        invariant chars == Written(g, ns, k) && |chars| <= room
        decreases |ns| - k
      {
        ChainNode(ns, k);
        WrittenAt(head, g, ns, k);
        if |chars| + |h.edges.chars| > room {
          outside := true;
          return;
        }
        numnodes := numnodes - 1;
        chars := chars + h.edges.chars;
        if h.edges.leafBitmap[0] {
          slot := h.edges.slots[0];
          break;
        }
        var c := h.edges.slots[0].node;
        if c.isKey || (!c.edges.isCompr && |c.edges.chars| != 1) {
          slot := Child(c);
          break;
        }
        k := k + 1;
        h := c;
      }
      outside := false;
    }

    /** raxFindParentLink */
    method FindParentLink(parent: Node, child: Node) returns (link: Link)
      requires Child(child) in parent.edges.slots
      ensures link.SlotLink? && link.node == parent && link.idx < |parent.edges.slots|
      ensures parent.edges.slots[link.idx] == Child(child)
    {
      var i := 0;
      while parent.edges.slots[i] != Child(child)
        invariant i < |parent.edges.slots| && forall k :: 0 <= k < i ==> parent.edges.slots[k] != Child(child)
        decreases |parent.edges.slots| - i
      {
        i := i + 1;
      }
      link := SlotLink(parent, i);
    }

    lemma ParentOfMerged(start: Node, parent: Node?)
      requires Mirrors(start) && WellFormed(head, g, m, null) && start in g && parent == g[start].parent
      ensures parent == null <==> start == head
      ensures parent != null ==>
                parent in g && parent != start && parent.edges == g[parent].edges && Child(start) in parent.edges.slots
    {
      if start != head {
        assert HasParent(g, start);
        ParentIsOther(head, g, start);
        assert Agrees(parent, g[parent]);
      }
    }

    /** The merged node `n` takes the place of `start`. */
    lemma PlaceMerged(start: Node, n: Node, link: Link) returns (next: Graph)
      requires Mirrors(start) && WellFormed(head, g, m, null) && start in g && n !in g && |g[start].edges.slots| == 1
      requires LinksTo(head, g, link, start)
      ensures Replaced(g, next, start, SlotOf(link), n) && start !in next && n in next && next[n] == g[start]
      ensures (forall k: Node :: k in next <==> (k in g && k != start) || k == n) && |next| == |g|
      ensures WellFormed(if start == head then n else head, next, m, null)
      ensures g[start].parent != start && (start == head ==> g[start].parent == null)
    {
      HomeOf(head, g, start);
      CanMoveLinked(head, g, start, n, SlotOf(link));
      MoveKeeps(head, g, m, start, n, SlotOf(link));
      MoveFrame(head, g, start, n, SlotOf(link));
      MoveReplaced(head, g, start, n, SlotOf(link));
      next := Move(g, start, n, SlotOf(link));
    }

    /** In the graph the chain is merged into `start`; in memory its nodes are gone. */
    ghost method FollowMerge(start: Node, ns: seq<Node>, k: nat, next: Graph, base: Key, cut: Key)
      requires Mirrors(null) && Squeezed(g, next, ns, k) && ns[0] == start && AllCut(m, base, cut)
      requires WellFormed(head, next, Pulled(m, base, cut), null)
      modifies `g, `m
      ensures g == next && m == Pulled(old(m), base, cut) && |m| == |old(m)| && Mirrors(start)
      ensures WellFormed(head, g, m, null)
    {
      PulledSize(m, base, cut);
      g, m := next, Pulled(m, base, cut);
    }

    /** The populating half of recompression: a new node takes the place of the chain `ns`. It is
        allotted for `comprsize` characters, those of the first `k` nodes. */
    method ReplaceChain(start: Node, parent: Node?, comprsize: nat, ghost ns: seq<Node>, ghost k: nat)
      returns (outside: bool)
      requires Shape(null) && Maximal(g, ns) && ns[0] == start && 1 < k <= |ns| && numnodes == |g| + 1
      requires comprsize == Total(g, ns[..k]) <= NODE_MAX_SIZE && parent == g[start].parent
      modifies `head, `g, `m, `numnodes, if parent != null then {parent} else {}
      ensures outside == (Total(old(g), ns) > Room(comprsize))
      ensures old(g[ns[k - 1]].edges.Ok())
      ensures !outside ==>
        && Shape(null) && numnodes == |g| && |m| == |old(m)| && (forall n :: n in g ==> n in old(g) || fresh(n))
        && var base, cut := old(Reach(g[ns[k - 1]], 0)), Chars(old(g), ns[k..]);
           AllCut(old(m), base, cut) && m == Pulled(old(m), base, cut)
    {
      hide WellFormed, Rax.Mirrors, Maximal, Path, Squeezed, Link1, Total, LinksTo, Replaced, Chars, AllCut, Pulled,
        Room;
      var n := new Node();
      ghost var g0 := g;
      StartFacts(start, ns, k);
      ghost var next := Squeeze(head, g, m, ns, k);
      SqueezedSize(g, next, ns, k);
      var chars, slot;
      outside, chars, slot := CollectChain(start, Room(comprsize), ns);
      if outside { return; }
      FirstChars(head, g, ns, k);
      n.edges := Edges(true, NoBits()[0 := slot.Inline?], chars[..comprsize], [slot]);
      FollowMerge(start, ns, k, next, Reach(g[ns[k - 1]], 0), Chars(g, ns[k..]));
      SqueezedStart(g0, g, ns, k);
      ParentOfMerged(start, parent);
      assert n.edges == Run(chars[..comprsize], slot) == g[start].edges;
      var link := HeadLink;
      if parent != null {
        link := FindParentLink(parent, start);
      }
      LinkOfMerged(start, parent, link);
      next := PlaceMerged(start, n, link);
      WriteLink(link, start, n, next);
    }

    lemma StartFacts(start: Node, ns: seq<Node>, k: nat)
      requires Shape(null) && Maximal(g, ns) && ns[0] == start && 1 < k <= |ns|
      ensures Mirrors(null) && WellFormed(head, g, m, null) && Linked(head, g) && Path(g, ns) && start in g
      ensures forall j :: 0 <= j < |ns| ==> ns[j] in g
      ensures g[ns[k - 1]].edges.Ok() && |g[ns[k - 1]].edges.slots| == 1 && Total(g, ns[..k]) > 1
    {
      LongerThanOne(head, g, ns[..k]);
    }

    lemma LinkOfMerged(start: Node, parent: Node?, link: Link)
      requires start in g && parent == g[start].parent && (parent == null <==> start == head)
      requires parent != null ==> parent in g && parent.edges == g[parent].edges
      requires if parent == null then link == HeadLink
               else link.SlotLink? && link.node == parent && link.idx < |parent.edges.slots| &&
                    parent.edges.slots[link.idx] == Child(start)
      ensures LinksTo(head, g, link, start)
    {
    }

    /** Merge the whole chain around `h` into one compressed node. */
    method Recompress(h: Node, ts: seq<Node>) returns (outside: bool, ghost ns: seq<Node>)
      requires Valid() && Link1(g, h) && Chain(head, g, ts, h)
      modifies `head, `g, `m, `numnodes, g.Keys
      ensures Whole(old(g), ns) && h in ns && Path(old(g), ns)
      ensures outside == MergeOf(old(g), ns).Outside?
      ensures !outside ==> Valid() && Became(old(m), MergeOf(old(g), ns), m)
      ensures !outside ==> forall n :: n in g ==> n in old(g) || fresh(n)
    {
      hide WellFormed, Rax.Mirrors, Path, Maximal, Total, Fit, MergeOf, Became, Linked, Whole, Chain, Chars, Pulled,
        AllCut, Room,
        Edges.Ok, HasChildren;
      var start, parent, nodes, comprsize;
      ghost var up;
      start, parent, up := ClimbChain(h, ts);
      ParentInTree(start);
      nodes, comprsize, ns := SizeChain(start);
      OnWhole(g, up, ns, h);
      ghost var g0, m0 := g, m;
      MergeCases(head, g, m, ns, nodes);
      outside := false;
      if nodes > 1 {
        numnodes := numnodes + 1;
        outside := ReplaceChain(start, parent, comprsize, ns, nodes);
      }
    }

    lemma ParentInTree(n: Node)
      requires Shape(null) && n in g
      ensures Linked(head, g) && (g[n].parent != null ==> g[n].parent in g)
    {
      if n != head {
        assert HasParent(g, n);
      }
    }

    /** raxRemove. What it does beyond taking the key out is told by `Fate`, from the tree before the
        call. If the merge writes `outside` of the node it allotted, nothing more is known. */
    method Remove(s: Key) returns (removed: bool, old_: Option<Value>, outside: bool)
      requires Valid()
      modifies this, g.Keys
      ensures removed == (s in old(m)) && old_ == if s in old(m) then Some(old(m)[s]) else None
      ensures outside == Fate(old(head), old(g), s).Outside?
      ensures !outside ==> Valid() && Became(old(m) - {s}, Fate(old(head), old(g), s), m)
      ensures !outside ==> (m == old(m) - {s} <==> !Fate(old(head), old(g), s).Short?)
      ensures !outside ==> forall n :: n in g ==> n in old(g) || fresh(n)
    {
      hide WellFormed, Rax.Mirrors, Rax.Growing, LinksTo, Chain, Stopped, StoppedInline, Link1, Fate, Remains,
        Without, Became;
      var i, h, link, j, ts, inlineLeaf := LowWalk(s);
      WalkEnds(s, h, link, i, j, inlineLeaf);
      old_ := None;
      NothingThere(s);
      if i == |s| && inlineLeaf {
        assert s[..i] == s;
        old_ := Some(h.edges.slots[link.idx].value);
        InlineThere(s, h, link.idx);
        DeleteInline(h, link.idx, ts);
      } else {
        if i != |s| || (h.edges.isCompr && j != 0) || !h.isKey {
          return false, old_, false;
        }
        old_ := Some(h.GetData());
        KeyThere(s, h);
        DeleteKey(h, ts);
      }
      removed := true;
      outside := AfterDelete(s, old(g), h, ts);
      if !outside { ShortDiffers(old(head), old(g), old(m), s, m); }
    }

    /** The end of raxRemove: free what became useless, then try to merge what is left. `g0` is the
        tree with the key `s`. */
    method AfterDelete(ghost s: Key, ghost g0: Graph, h0: Node, ts0: seq<Node>) returns (outside: bool)
      requires Trimmed(h0, ts0) && Without(g0, s) == Some(Left(g, h0))
      modifies this, g.Keys
      ensures outside == Fate(old(head), g0, s).Outside?
      ensures !outside ==> Valid() && Became(old(m), Fate(old(head), g0, s), m)
      ensures !outside ==> forall n :: n in g ==> n in old(g) || fresh(n)
    {
      hide WellFormed, Rax.Mirrors, Chain, Whole, Prune, Without, Fate, MergeOf, Became;
      var h, ts, trycompress := h0, ts0, false;
      TrimmedFacts(h, ts);
      if h.edges.chars == [] && !h.isKey {
        h, ts, trycompress := RemoveCleanup(h, ts);
      } else {
        NotPending(head, g, m, h);
        PruneStop(head, g, h);
        trycompress := |h.edges.chars| == 1 && !h.isKey;
      }
      assert Remains(head, g0, s) == Some(Left(g, h));
      outside := false;
      if trycompress {
        ghost var l, ns := Left(g, h), [];
        ThinHere(h);
        outside, ns := Recompress(h, ts);
        FateIs(old(head), g0, s, l, ns);
      } else {
        FateNone(head, g0, s);
        NoneBecame(m);
      }
    }

    lemma NothingThere(s: Key)
      requires Valid()
      ensures s !in m ==> Fate(head, g, s) == NoMerge && Became(m - {s}, NoMerge, m) && m - {s} == m
    {
      RemainsKeeps(head, g, m, s);
      if s !in m {
        FateNone(head, g, s);
        assert m - {s} == m;
      }
    }

    lemma InlineThere(s: Key, h: Node, x: nat)
      requires Valid() && h in g && g[h].edges.Ok() && x < |g[h].edges.slots| && g[h].edges.slots[x].Inline?
      requires Reach(g[h], x) == s
      ensures Without(g, s) == Some(Left(RemoveInline(g, h, x), h))
    {
      assert InlineKey(g, s, h, x);
      WithoutInline(head, g, s, h, x);
    }

    lemma KeyThere(s: Key, h: Node)
      requires Valid() && h in g && g[h].isKey && g[h].prefix == s
      ensures Without(g, s) == Some(Left(Unkeyed(g, h), h))
    {
      WithoutKey(head, g, s, h);
    }

    lemma ThinHere(h: Node)
      requires Shape(null) && h in g && Thin(Left(g, h))
      ensures Link1(g, h) && Linked(head, g) && forall ns :: Whole(g, ns) && h in ns ==> Merges(Left(g, h), ns)
    {
      ThinLink(head, Left(g, h));
    }

    lemma TrimmedFacts(h: Node, ts: seq<Node>)
      requires Trimmed(h, ts)
      ensures h in g && h.edges == g[h].edges && h.isKey == g[h].isKey
      ensures h.edges.chars == [] <==> g[h].edges.slots == []
      ensures h.edges.chars == [] && !h.isKey ==> Bare(g, h)
      ensures |h.edges.chars| == 1 && !h.isKey ==> Link1(g, h)
    {
      Link1Node(h);
    }

    // ---------------------------------------------------------------- freeing

    /** raxRecursiveFree: release the subtree of `n`, the last child first. */
    method RecursiveFree(n: Node)
      requires Shape(null) && n in g && |Subtree(g, n)| <= numnodes
      modifies `numnodes
      ensures numnodes == old(numnodes) - |Subtree(g, n)|
      decreases Deeper(g, n)
    {
      hide WellFormed, Rax.Mirrors, Subtree, Below, Deeper;
      FreeFacts(n);
      SubtreeSize(head, g, n);
      var i := |n.edges.slots|;
      while i > 0
        invariant 0 <= i <= |n.edges.slots| && numnodes == old(numnodes) - |Below(g, n, i)|
      {
        i := i - 1;
        BelowSize(head, g, n, i);
        if !(i < INLINE_SLOTS && n.edges.leafBitmap[i]) {
          RecursiveFree(n.edges.slots[i].node);
        }
      }
      numnodes := numnodes - 1;
    }

    lemma FreeFacts(n: Node)
      requires Shape(null) && n in g
      ensures n.edges == g[n].edges && n.edges.Ok() && Linked(head, g)
      ensures forall x :: 0 <= x < |n.edges.slots| ==>
                (n.edges.slots[x].Inline? <==> x < INLINE_SLOTS && n.edges.leafBitmap[x])
    {
      Link1Node(n);
    }

    /** raxFree: every node is released exactly once, so the count ends at zero. */
    method Free()
      requires Valid()
      modifies `numnodes
      ensures numnodes == 0
    {
      WholeTree(head, g);
      RecursiveFree(head);
    }

    lemma NowGrowing(s: Key, i: nat, h: Node)
      requires Mirrors(null) && WellFormed(head, g, m, null) && numele == |m| && numnodes == |g|
      requires i < |s| && h in g && g[h].prefix == s[..i] && g[h].edges.Ok() && !g[h].edges.isCompr
      requires s[i] !in g[h].edges.chars
      ensures Growing(s, i, h, null)
    {
    }
  }

  lemma BelowInline(g: Graph, s: Key, i: nat, h: Node, x: nat, leaf: Node)
    requires StoppedInline(g, s, h, i, x) && i < |s| && leaf !in g
    ensures var g' := Materialize(g, h, x, leaf);
            && leaf in g' && g'[leaf].prefix == s[..i] && g'[leaf].edges == NoEdges && NoEdges.Ok()
            && |g'| == |g| + 1 && g'.Keys == g.Keys + {leaf}
  {
    MaterializeFrame(g, h, x, leaf);
  }

  /** A compressed node where a walk stopped has one child, and a place in the tree. */
  lemma RunIsOnlyChild(head: Node, g: Graph, m: map<Key, Value>, link: Link, h: Node, s: Key, i: nat, j: nat)
    requires WellFormed(head, g, m, null) && Stopped(g, s, h, i, j) && LinksTo(head, g, link, h) && g[h].edges.isCompr
    ensures OnlyChild(head, g, h, SlotOf(link)) && 1 < |g[h].edges.chars| && j < |g[h].edges.chars|
    ensures s in m <==> i == |s| && j == 0 && g[h].isKey
    ensures link.SlotLink? ==> link.node in g
  {
    StoppedDecides(head, g, m, s, h, i, j);
  }

  /** After ALGO 1 the insertion goes on at the split node. */
  lemma SplitIsGrowing(head: Node, g: Graph, s: Key, i: nat, h: Node, x: nat, j: nat, trimmed: Node?, split: Node,
                       postfix: Node?)
    requires OnlyChild(head, g, h, x) && SplitNodes(g, h, j, trimmed, split, postfix)
    requires Stopped(g, s, h, i, j) && g[h].edges.isCompr && i < |s|
    ensures var g' := SplitAt(head, g, h, x, j, trimmed, split, postfix);
            && split in g' && g'[split].prefix == s[..i] && g'[split].edges.Ok() && !g'[split].edges.isCompr
            && s[i] !in g'[split].edges.chars
  {
    SplitAtFrame(head, g, h, x, j, trimmed, split, postfix);
    assert s[..i - j] + s[i - j..i] == s[..i];
    var c := g[h].edges.chars[j];
    RunOk([c], if postfix == null then g[h].edges.slots[0] else Child(postfix));
  }

  lemma MatchPrefix(g: Graph, s: Key, h: Node, j: nat)
    requires Stopped(g, s, h, |s|, j) && g[h].edges.isCompr
    ensures g[h].prefix + g[h].edges.chars[..j] == s
  {
    assert s[..|s| - j] + s[|s| - j..|s|] == s;
  }

  /** Without its only slot a node is childless; with two or more it is not. */
  lemma LastSlot(e: Edges, x: nat)
    requires e.Ok() && x < |e.slots|
    ensures RemoveSlot(e, x).Ok() && (RemoveSlot(e, x).slots == [] <==> |e.slots| == 1)
  {
    RemoveSlotOk(e, x);
  }

  lemma LongerThanOne(head: Node, g: Graph, ns: seq<Node>)
    requires Linked(head, g) && Path(g, ns) && |ns| > 1
    ensures Total(g, ns) > 1
  {
    OkIsRun(g[ns[|ns| - 1]].edges);
    OkIsRun(g[ns[|ns| - 2]].edges);
    assert ns[..|ns| - 1][|ns| - 2] == ns[|ns| - 2];
  }

  lemma HomeOf(head: Node, g: Graph, h: Node)
    requires Linked(head, g) && h in g
    ensures g[h].parent != h && (h == head ==> g[h].parent == null)
  {
    if h != head {
      ParentIsOther(head, g, h);
    }
  }

  // ---------------------------------------------------------------- chains and their size

  ghost function PathSize(g: Graph, ns: seq<Node>): nat
    requires Path(g, ns)
  {
    Total(g, ns)
  }

  lemma PathPush(g: Graph, up: seq<Node>, c: Node)
    requires Path(g, up) && Link1(g, c) && g[up[|up| - 1]].edges.slots == [Child(c)]
    ensures Path(g, up + [c]) && PathSize(g, up + [c]) == PathSize(g, up) + |g[c].edges.chars|
  {
    TotalPush(g, up, c);
  }

  lemma PathAt(g: Graph, up: seq<Node>, k: nat)
    requires Path(g, up) && k < |up|
    ensures Link1(g, up[k]) && |g[up[k]].edges.slots| == 1
  {
  }

  lemma Beginning(up: seq<Node>, c: Node, ns: seq<Node>)
    requires up != [] && up + [c] <= ns
    ensures |up| < |ns| && ns[..|up|] == up && ns[|up|] == c && ns[0] == up[0]
  {
    assert ns[..|up| + 1] == up + [c];
  }

  lemma PathEnds(g: Graph, ns: seq<Node>)
    requires Path(g, ns)
    requires var sl := g[ns[|ns| - 1]].edges.slots[0]; sl.Inline? || !Link1(g, sl.node)
    ensures Maximal(g, ns) && ns[..|ns|] == ns
  {
  }

  lemma OnWhole(g: Graph, up: seq<Node>, ns: seq<Node>, h: Node)
    requires Path(g, up) && up[|up| - 1] == h && Maximal(g, ns) && up[0] == ns[0]
    requires g[ns[0]].parent == null || !Link1(g, g[ns[0]].parent)
    ensures Whole(g, ns) && h in ns
  {
    PathPrefix(g, up, ns);
    assert up[|up| - 1] == ns[|up| - 1];
  }

  lemma FitHere(head: Node, g: Graph, ns: seq<Node>, nodes: nat)
    requires Linked(head, g) && Maximal(g, ns) && 0 < nodes <= |ns| && Total(g, ns[..nodes]) <= NODE_MAX_SIZE
    requires nodes < |ns| ==> Total(g, ns[..nodes]) + |g[ns[nodes]].edges.chars| > NODE_MAX_SIZE
    ensures Path(g, ns) && nodes == Fit(g, ns, 1)
  {
    hide Total;
    FirstFits(head, g, ns);
    var k := Fit(g, ns, 1);
    if nodes < |ns| { TotalGrows(head, g, ns, nodes); }
    if k < nodes { TotalMono(head, g, ns, k + 1, nodes); }
    if nodes < k { TotalMono(head, g, ns, nodes + 1, k); }
  }

  lemma TotalMono(head: Node, g: Graph, ns: seq<Node>, i: nat, j: nat)
    requires Linked(head, g) && Path(g, ns) && 0 < i <= j <= |ns|
    ensures Total(g, ns[..i]) <= Total(g, ns[..j])
  {
    assert Path(g, ns[..j]) && ns[..j][..i] == ns[..i];
    TotalGrows(head, g, ns[..j], i);
  }

  /** What the second scan has written before it comes to the `k`-th node. */
  ghost function Written(g: Graph, ns: seq<Node>, k: nat): seq<Byte>
    requires Maximal(g, ns) && k <= |ns|
  {
    Chars(g, ns[..k])
  }

  lemma WrittenAt(head: Node, g: Graph, ns: seq<Node>, k: nat)
    requires Maximal(g, ns) && Linked(head, g) && k < |ns|
    ensures (forall j :: 0 <= j < |ns| ==> ns[j] in g) && Written(g, ns, 0) == []
    ensures Written(g, ns, k + 1) == Written(g, ns, k) + g[ns[k]].edges.chars
    ensures k + 1 == |ns| ==> Written(g, ns, k + 1) == Chars(g, ns)
    ensures |Written(g, ns, k + 1)| <= Total(g, ns) == |Chars(g, ns)|
  {
    assert ns[..k + 1] == ns[..k] + [ns[k]] && ns[..|ns|] == ns;
    CharsPush(g, ns[..k], ns[k]);
    CharsTotal(g, ns[..k + 1]);
    CharsTotal(g, ns);
    TotalMono(head, g, ns, k + 1, |ns|);
  }

  lemma SqueezedSize(g: Graph, next: Graph, ns: seq<Node>, k: nat)
    requires Squeezed(g, next, ns, k)
    ensures |ns| <= |g| && |next| + |ns| == |g| + 1
  {
    assert |next| > 0;
  }

  /** The characters that find room are those of the first `k` nodes. */
  lemma FirstChars(head: Node, g: Graph, ns: seq<Node>, k: nat)
    requires Linked(head, g) && Maximal(g, ns) && 0 < k <= |ns|
    ensures (forall j :: 0 <= j < |ns| ==> ns[j] in g) && |Chars(g, ns[..k])| == Total(g, ns[..k]) <= |Chars(g, ns)|
    ensures Chars(g, ns)[..Total(g, ns[..k])] == Chars(g, ns[..k])
  {
    assert ns == ns[..k] + ns[k..];
    CharsConcat(g, ns[..k], ns[k..]);
    CharsTotal(g, ns[..k]);
  }

  lemma SqueezedStart(g: Graph, next: Graph, ns: seq<Node>, k: nat)
    requires Squeezed(g, next, ns, k)
    ensures ns[0] in next && next[ns[0]].edges == Run(Chars(g, ns[..k]), g[ns[|ns| - 1]].edges.slots[0])
    ensures next[ns[0]].parent == g[ns[0]].parent && |next[ns[0]].edges.slots| == 1 && !next[ns[0]].isKey
    ensures forall n :: n in next ==> n in g
  {
  }

  /** What a merge comes to, in terms of the number of nodes the first scan found. */
  lemma MergeCases(head: Node, g: Graph, m: map<Key, Value>, ns: seq<Node>, k: nat)
    requires WellFormed(head, g, m, null) && Maximal(g, ns)
    requires Path(g, ns) ==> k == Fit(g, ns, 1)
    ensures Path(g, ns) && 0 < k <= |ns| && g[ns[k - 1]].edges.Ok()
    ensures k == 1 ==> MergeOf(g, ns) == NoMerge && Became(m, MergeOf(g, ns), m)
    ensures k > 1 ==> (MergeOf(g, ns).Outside? <==> Total(g, ns) > Room(Total(g, ns[..k])))
    ensures k > 1 && !MergeOf(g, ns).Outside? ==>
              var base, cut := Reach(g[ns[k - 1]], 0), Chars(g, ns[k..]);
              AllCut(m, base, cut) ==> Became(m, MergeOf(g, ns), Pulled(m, base, cut))
  {
    hide WellFormed, Total, Pulled, AllCut, Chars, HasChildren;
    CutFacts(head, g, m, ns, k);
    if k == |ns| {
      assert ns[..k] == ns;
      PulledNothing(m, Reach(g[ns[k - 1]], 0));
    }
  }
}
