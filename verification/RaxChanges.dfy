/** The changes insertion and removal make to a tree, each with its effect on the stored map. */
module RaxChanges {
  import opened Common
  import opened RaxGraph
  import opened RaxEdits
  import opened RaxRuns
  import opened RaxSlots

  lemma MinusOne(g: Graph, n: Node)
    requires n in g
    ensures |g - {n}| == |g| - 1
  {
    assert (g - {n}).Keys == g.Keys - {n};
    assert |g.Keys - {n}| == |g.Keys| - 1;
  }

  /** A node that holds no key stands for no key. */
  lemma NoKeyHere(head: Node, g: Graph, m: map<Key, Value>, h: Node)
    requires Linked(head, g) && Stores(g, m) && h in g && !g[h].isKey
    ensures g[h].prefix !in m
  {
    var s := g[h].prefix;
    assert s[..|s|] == s;
    assert Stopped(g, s, h, |s|, 0);
    StoppedDecides(head, g, m, s, h, |s|, 0);
  }

  /** An edge that does not exist leads to no key. */
  lemma NoKeyBeyond(head: Node, g: Graph, m: map<Key, Value>, h: Node, l: Key)
    requires Linked(head, g) && Stores(g, m) && h in g && !g[h].edges.isCompr && |l| > 0 && l[0] !in g[h].edges.chars
    ensures g[h].prefix + l !in m
  {
    var s, i := g[h].prefix + l, |g[h].prefix|;
    assert s[..i - 0] == g[h].prefix;
    assert Stopped(g, s, h, i, 0);
    StoppedDecides(head, g, m, s, h, i, 0);
  }

  // ---------------------------------------------------------------- slots that hold a leaf

  function SetInline(g: Graph, h: Node, x: nat, value: Value): Graph
    requires h in g && x < |g[h].edges.slots| && x < INLINE_SLOTS
    requires !g[h].edges.isCompr ==> |g[h].edges.chars| == |g[h].edges.slots|
  {
    Rewire(g, h, SetSlot(g[h].edges, x, Inline(value)), g[h].edges.Label(x), null, Some(Inline(value)), None)
  }

  lemma SlotIsBare(g: Graph, h: Node, x: nat)
    requires h in g && g[h].edges.Ok() && x < |g[h].edges.slots| && g[h].edges.slots[x].Inline?
    ensures BareChild(g, h, g[h].edges.Label(x), null)
  {
    forall i | 0 <= i < |g[h].edges.slots| && g[h].edges.Label(i) == g[h].edges.Label(x)
      ensures g[h].edges.slots[i].Inline?
    {
      SameFirst(g[h], i, x);
    }
  }

  lemma SetInlineKeeps(head: Node, g: Graph, m: map<Key, Value>, h: Node, x: nat, value: Value)
    requires WellFormed(head, g, m, null) && h in g && x < |g[h].edges.slots| && g[h].edges.slots[x].Inline?
    ensures g[h].edges.Ok() && x < INLINE_SLOTS
    ensures WellFormed(head, SetInline(g, h, x, value), m[Reach(g[h], x) := value], null)
    ensures SetInline(g, h, x, value).Keys == g.Keys
  {
    assert g[h].edges.Ok();
    SetSlotRewires(g[h].edges, x, Inline(value));
    SlotIsBare(g, h, x);
    RewireKeeps(head, g, m, h, SetSlot(g[h].edges, x, Inline(value)), g[h].edges.Label(x), null, Some(Inline(value)),
      None, null, null);
  }

  /** raxMaterializeInlineLeaf: the inline leaf in slot `x` becomes the node `leaf`. */
  function Materialize(g: Graph, h: Node, x: nat, leaf: Node): Graph
    requires h in g && x < |g[h].edges.slots| && g[h].edges.slots[x].Inline?
    requires !g[h].edges.isCompr ==> |g[h].edges.chars| == |g[h].edges.slots|
  {
    Rewire(g, h, SetSlot(g[h].edges, x, Child(leaf)), g[h].edges.Label(x), null, Some(Child(leaf)),
           Some(g[h].edges.slots[x].value))
  }

  lemma MaterializeKeeps(head: Node, g: Graph, m: map<Key, Value>, pending: Node?, h: Node, x: nat, leaf: Node)
    requires WellFormed(head, g, m, pending) && h in g && x < |g[h].edges.slots| && g[h].edges.slots[x].Inline?
    requires leaf !in g
    requires pending == null || pending == h
    ensures g[h].edges.Ok() && WellFormed(head, Materialize(g, h, x, leaf), m, null)
  {
    assert g[h].edges.Ok();
    assert Holds(g, m, h);
    var value := g[h].edges.slots[x].value;
    SetSlotRewires(g[h].edges, x, Child(leaf));
    SlotIsBare(g, h, x);
    RewireKeeps(head, g, m, h, SetSlot(g[h].edges, x, Child(leaf)), g[h].edges.Label(x), null, Some(Child(leaf)),
      Some(value), pending, null);
    assert m[Reach(g[h], x) := value] == m;
  }

  lemma MaterializeFrame(g: Graph, h: Node, x: nat, leaf: Node)
    requires h in g && g[h].edges.Ok() && x < |g[h].edges.slots| && g[h].edges.slots[x].Inline? && leaf !in g
    ensures var g' := Materialize(g, h, x, leaf);
            && |g'| == |g| + 1 && g'.Keys == g.Keys + {leaf}
            && g'[h] == g[h].(edges := SetSlot(g[h].edges, x, Child(leaf)))
  {
  }

  /** The inline leaf in slot `x` is dropped. */
  function RemoveInline(g: Graph, h: Node, x: nat): Graph
    requires h in g && x < |g[h].edges.slots|
    requires !g[h].edges.isCompr ==> |g[h].edges.chars| == |g[h].edges.slots|
  {
    Rewire(g, h, RemoveSlot(g[h].edges, x), g[h].edges.Label(x), null, None, None)
  }

  lemma RemoveInlineKeeps(head: Node, g: Graph, m: map<Key, Value>, h: Node, x: nat)
    requires WellFormed(head, g, m, null) && h in g && x < |g[h].edges.slots| && g[h].edges.slots[x].Inline?
    ensures g[h].edges.Ok() && WellFormed(head, RemoveInline(g, h, x), m - {Reach(g[h], x)}, h)
    ensures Reach(g[h], x) in m && m[Reach(g[h], x)] == g[h].edges.slots[x].value
    ensures RemoveInline(g, h, x).Keys == g.Keys
  {
    assert g[h].edges.Ok();
    assert Holds(g, m, h);
    RemoveSlotRewires(g[h].edges, x);
    SlotIsBare(g, h, x);
    RewireKeeps(head, g, m, h, RemoveSlot(g[h].edges, x), g[h].edges.Label(x), null, None, None, null, h);
  }

  /** The empty child in slot `x` is dropped. */
  function RemoveBare(g: Graph, h: Node, x: nat): Graph
    requires h in g && x < |g[h].edges.slots| && g[h].edges.slots[x].Child?
    requires !g[h].edges.isCompr ==> |g[h].edges.chars| == |g[h].edges.slots|
  {
    Rewire(g, h, RemoveSlot(g[h].edges, x), g[h].edges.Label(x), g[h].edges.slots[x].node, None, None)
  }

  lemma RemoveBareKeeps(head: Node, g: Graph, m: map<Key, Value>, h: Node, x: nat, c: Node)
    requires WellFormed(head, g, m, c) && h in g && x < |g[h].edges.slots| && g[h].edges.slots[x] == Child(c)
    requires c in g && g[c].edges.slots == [] && !g[c].isKey
    ensures g[h].edges.Ok() && WellFormed(head, RemoveBare(g, h, x), m, h)
    ensures c != h && c != head && RemoveBare(g, h, x).Keys == g.Keys - {c} && |RemoveBare(g, h, x)| == |g| - 1
  {
    assert g[h].edges.Ok() && g[c].edges.Ok();
    assert HasChildren(g, h);
    ChildIsOther(g, h, x);
    LongerThanPrefix(g[h], x);
    ChildlessIsNoEdges(g[c].edges);
    NoKeyHere(head, g, m, c);
    RemoveSlotRewires(g[h].edges, x);
    assert Has(g[h].edges, g[h].edges.Label(x), Child(c));
    RewireKeeps(head, g, m, h, RemoveSlot(g[h].edges, x), g[h].edges.Label(x), c, None, None, c, h);
    assert m - {g[c].prefix} == m;
    MinusOne(g, c);
    assert |RemoveBare(g, h, x)| == |(g - {c})|;
  }

  // ---------------------------------------------------------------- new edges

  /** A new edge `c` at position `pos`, into `sl`: an inline leaf or a fresh empty node. */
  function InsertChild(g: Graph, h: Node, c: Byte, pos: nat, sl: Slot): Graph
    requires h in g && pos <= |g[h].edges.chars| && pos <= |g[h].edges.slots| && (sl.Inline? ==> pos < INLINE_SLOTS)
  {
    Rewire(g, h, InsertSlot(g[h].edges, c, pos, sl), [c], null, Some(sl), None)
  }

  /** The map after a leaf, or an empty node, was put behind the string `k`. */
  function WithSlot(m: map<Key, Value>, k: Key, sl: Slot): map<Key, Value> {
    if sl.Inline? then m[k := sl.value] else m
  }

  function PendingOf(sl: Slot): Node? {
    if sl.Child? then sl.node else null
  }

  lemma InsertChildKeeps(head: Node, g: Graph, m: map<Key, Value>, before: Node?, h: Node, c: Byte, pos: nat, sl: Slot)
    requires WellFormed(head, g, m, before) && h in g && !g[h].edges.isCompr && (before == null || before == h)
    requires g[h].edges.Ok() && IsPos(g[h].edges.chars, c, pos)
    requires pos <= 12 && |g[h].edges.slots| > 12 ==> g[h].edges.slots[12].Child?
    requires if sl.Inline? then pos < INLINE_SLOTS else sl.node !in g
    ensures WellFormed(head, InsertChild(g, h, c, pos, sl), WithSlot(m, g[h].prefix + [c], sl), PendingOf(sl))
    ensures g[h].prefix + [c] !in m
  {
    hide WellFormed, CanRewire;
    TreeParts(head, g, m, before);
    InsertChildCan(head, g, h, c, pos, sl);
    NoKeyBeyond(head, g, m, h, [c]);
    RewireKeeps(head, g, m, h, InsertSlot(g[h].edges, c, pos, sl), [c], null, Some(sl), None, before, PendingOf(sl));
    assert sl.Child? ==> m - {g[h].prefix + [c]} == m;
  }

  lemma TreeParts(head: Node, g: Graph, m: map<Key, Value>, pending: Node?)
    requires WellFormed(head, g, m, pending)
    ensures Linked(head, g) && Stores(g, m)
  {
  }

  lemma InsertChildFrame(g: Graph, h: Node, c: Byte, pos: nat, sl: Slot)
    requires h in g && pos <= |g[h].edges.chars| && pos <= |g[h].edges.slots|
    requires if sl.Inline? then pos < INLINE_SLOTS else sl.node !in g
    ensures var g' := InsertChild(g, h, c, pos, sl);
            && |g'| == |g| + (if sl.Child? then 1 else 0)
            && g'.Keys == g.Keys + (if sl.Child? then {sl.node} else {})
            && (sl.Child? ==> g'[sl.node] == NewChild(g[h].prefix + [c], h, None))
  {
  }

  lemma InsertChildCan(head: Node, g: Graph, h: Node, c: Byte, pos: nat, sl: Slot)
    requires Linked(head, g) && h in g && !g[h].edges.isCompr
    requires g[h].edges.Ok() && IsPos(g[h].edges.chars, c, pos)
    requires pos <= 12 && |g[h].edges.slots| > 12 ==> g[h].edges.slots[12].Child?
    requires if sl.Inline? then pos < INLINE_SLOTS else sl.node !in g
    ensures CanRewire(head, g, h, InsertSlot(g[h].edges, c, pos, sl), [c], null, Some(sl))
  {
    InsertSlotRewires(g[h].edges, c, pos, sl);
  }

  /** Inserting at `pos` would move an inline leaf from slot 12 to slot 13, which has no bit. */
  predicate Spills(e: Edges, pos: nat) {
    pos <= 12 && |e.slots| > 12 && e.slots[12].Inline?
  }

  /** raxAddChildNoAlloc: insert the edge `c`, after making slot 12 the node `leaf` if it spills. */
  ghost function AddChild(g: Graph, h: Node, c: Byte, pos: nat, sl: Slot, leaf: Node?): Graph
    requires h in g && g[h].edges.Ok() && !g[h].edges.isCompr && pos <= |g[h].edges.chars|
    requires sl.Inline? ==> pos < INLINE_SLOTS
    requires leaf != null ==> Spills(g[h].edges, pos) && leaf !in g
  {
    InsertChild(MakeRoom(g, h, leaf), h, c, pos, sl)
  }

  /** Slot 12 of `h` becomes the node `leaf`, unless that is null. */
  ghost function MakeRoom(g: Graph, h: Node, leaf: Node?): (r: Graph)
    requires h in g && g[h].edges.Ok()
    requires leaf != null ==> |g[h].edges.slots| > 12 && g[h].edges.slots[12].Inline? && leaf !in g
    ensures h in r && r[h].edges.chars == g[h].edges.chars && |r[h].edges.slots| == |g[h].edges.slots|
  {
    if leaf == null then g else Materialize(g, h, 12, leaf)
  }

  lemma AddChildKeeps(head: Node, g: Graph, m: map<Key, Value>, before: Node?, h: Node, c: Byte, pos: nat, sl: Slot,
                      leaf: Node?)
    requires WellFormed(head, g, m, before) && h in g && !g[h].edges.isCompr && (before == null || before == h)
    requires g[h].edges.Ok() && IsPos(g[h].edges.chars, c, pos)
    requires leaf == null <==> !Spills(g[h].edges, pos)
    requires leaf != null ==> leaf !in g && Child(leaf) != sl
    requires if sl.Inline? then pos < INLINE_SLOTS else sl.node !in g
    ensures WellFormed(head, AddChild(g, h, c, pos, sl, leaf), WithSlot(m, g[h].prefix + [c], sl), PendingOf(sl))
    ensures g[h].prefix + [c] !in m
  {
    if leaf == null {
      InsertChildKeeps(head, g, m, before, h, c, pos, sl);
    } else {
      MaterializeKeeps(head, g, m, before, h, 12, leaf);
      MaterializeFrame(g, h, 12, leaf);
      hide *;
      SetSlotAt(g[h].edges, 12, Child(leaf));
      InsertChildKeeps(head, Materialize(g, h, 12, leaf), m, null, h, c, pos, sl);
    }
  }

  lemma SetSlotAt(e: Edges, x: nat, sl: Slot)
    requires e.Ok() && x < |e.slots| && (sl.Inline? ==> x < INLINE_SLOTS)
    ensures SetSlot(e, x, sl).Ok() && SetSlot(e, x, sl).chars == e.chars && SetSlot(e, x, sl).isCompr == e.isCompr
    ensures SetSlot(e, x, sl).slots == e.slots[x := sl]
  {
  }

  lemma AddChildFrame(g: Graph, h: Node, c: Byte, pos: nat, sl: Slot, leaf: Node?)
    requires h in g && !g[h].edges.isCompr && g[h].edges.Ok() && pos <= |g[h].edges.chars|
    requires leaf != null ==> Spills(g[h].edges, pos) && leaf !in g && Child(leaf) != sl
    requires if sl.Inline? then pos < INLINE_SLOTS else sl.node !in g
    ensures var g' := AddChild(g, h, c, pos, sl, leaf);
            && |g'| == |g| + (if sl.Child? then 1 else 0) + (if leaf != null then 1 else 0)
            && (forall n: Node :: n in g' <==> n in g || Child(n) == sl || n == leaf)
            && (sl.Child? ==> g'[sl.node] == NewChild(g[h].prefix + [c], h, None))
  {
    MakeRoomFrame(g, h, leaf);
    InsertChildFrame(MakeRoom(g, h, leaf), h, c, pos, sl);
  }

  lemma MakeRoomFrame(g: Graph, h: Node, leaf: Node?)
    requires h in g && g[h].edges.Ok()
    requires leaf != null ==> |g[h].edges.slots| > 12 && g[h].edges.slots[12].Inline? && leaf !in g
    ensures var g' := MakeRoom(g, h, leaf);
            && |g'| == |g| + (if leaf != null then 1 else 0)
            && g'.Keys == g.Keys + (if leaf != null then {leaf} else {})
            && g'[h] == g[h].(edges := if leaf != null then SetSlot(g[h].edges, 12, Child(leaf)) else g[h].edges)
  {
    if leaf != null {
      MaterializeFrame(g, h, 12, leaf);
    }
  }

  /** raxCompressNodeNoAlloc: the childless node `h` becomes a run into `sl`. */
  function MakeRun(g: Graph, h: Node, s: seq<Byte>, sl: Slot): Graph
    requires h in g
  {
    Rewire(g, h, Run(s, sl), s, null, Some(sl), None)
  }

  lemma MakeRunKeeps(head: Node, g: Graph, m: map<Key, Value>, before: Node?, h: Node, s: seq<Byte>, sl: Slot)
    requires WellFormed(head, g, m, before) && h in g && g[h].edges.slots == [] && (before == null || before == h)
    requires 0 < |s| <= NODE_MAX_SIZE && (sl.Child? ==> sl.node !in g)
    ensures WellFormed(head, MakeRun(g, h, s, sl), WithSlot(m, g[h].prefix + s, sl), PendingOf(sl))
    ensures g[h].prefix + s !in m
  {
    assert g[h].edges.Ok();
    ChildlessIsNoEdges(g[h].edges);
    RunRewires(s, sl);
    NoKeyBeyond(head, g, m, h, s);
    RewireKeeps(head, g, m, h, Run(s, sl), s, null, Some(sl), None, before, PendingOf(sl));
    assert sl.Child? ==> m - {g[h].prefix + s} == m;
  }

  lemma MakeRunFrame(g: Graph, h: Node, s: seq<Byte>, sl: Slot)
    requires h in g && (sl.Child? ==> sl.node !in g)
    ensures var g' := MakeRun(g, h, s, sl);
            && |g'| == |g| + (if sl.Child? then 1 else 0)
            && g'.Keys == g.Keys + (if sl.Child? then {sl.node} else {})
            && (sl.Child? ==> g'[sl.node] == NewChild(g[h].prefix + s, h, None))
  {
  }
}
