/** Where removal goes wrong: a tree whose keys do not fit into one node. */
module RaxLimit {
  import opened RaxGraph
  import opened RaxRuns
  import opened RaxRemoval
  import opened RaxShorten
  import opened RaxFate
  import opened RaxTree

  const RUN: nat := NODE_MAX_SIZE - 1

  /** A key longer than a node can hold, by no more than a second node. */
  predicate IsLong(s: Key) {
    RUN + 2 <= |s| <= RUN + 1 + NODE_MAX_SIZE
  }

  /** The tree of the key `s`, inserted first, and of its prefix of `RUN` bytes, inserted after it. */
  function LongTree(a: Node, b: Node, c: Node, s: Key, v: Value, w: Value): Graph
    requires IsLong(s)
  {
    map[
      a := NodeVal([], null, Run(s[..RUN], Child(b)), false, Null),
      b := NodeVal(s[..RUN], a, Run([s[RUN]], Child(c)), true, w),
      c := NodeVal(s[..RUN + 1], b, Run(s[RUN + 1..], Inline(v)), false, Null)
    ]
  }

  ghost predicate Apart(a: Node, b: Node, c: Node) {
    a != b && b != c && a != c
  }

  lemma LongLinked(a: Node, b: Node, c: Node, s: Key, v: Value, w: Value)
    requires Apart(a, b, c) && IsLong(s)
    ensures Linked(a, LongTree(a, b, c, s, v, w))
    ensures var g := LongTree(a, b, c, s, v, w); g[c].edges.Ok() && Reach(g[c], 0) == s
  {
    var g := LongTree(a, b, c, s, v, w);
    RunOk(s[..RUN], Child(b));
    RunOk([s[RUN]], Child(c));
    RunOk(s[RUN + 1..], Inline(v));
    assert [] + s[..RUN] == s[..RUN] && s[..RUN] + [s[RUN]] == s[..RUN + 1] && s[..RUN + 1] + s[RUN + 1..] == s;
    assert HasChildren(g, a) && HasChildren(g, b) && HasChildren(g, c);
    assert HasParent(g, b) by { assert g[a].edges.slots[0] == Child(b); }
    assert HasParent(g, c) by { assert g[b].edges.slots[0] == Child(c); }
  }

  /** It is a tree of the two keys. */
  lemma LongWellFormed(a: Node, b: Node, c: Node, s: Key, v: Value, w: Value)
    requires Apart(a, b, c) && IsLong(s)
    ensures WellFormed(a, LongTree(a, b, c, s, v, w), map[s := v, s[..RUN] := w], null)
    ensures KeyNode(LongTree(a, b, c, s, v, w), s[..RUN], b)
  {
    var g, m := LongTree(a, b, c, s, v, w), map[s := v, s[..RUN] := w];
    LongLinked(a, b, c, s, v, w);
    assert |s[..RUN]| != |s|;
    assert InlineKey(g, s, c, 0) && KeyNode(g, s[..RUN], b);
    assert Located(g, s) && Located(g, s[..RUN]);
    assert Holds(g, m, a) && Holds(g, m, b) && Holds(g, m, c);
  }

  lemma LongNodes(a: Node, b: Node, c: Node, s: Key, v: Value, w: Value)
    requires Apart(a, b, c) && IsLong(s)
    ensures var g, m := LongTree(a, b, c, s, v, w), map[s := v, s[..RUN] := w];
            && g.Keys == {a, b, c} && |g| == 3 && |m| == 2
            && g[a] == NodeVal([], null, Run(s[..RUN], Child(b)), false, Null)
            && g[b] == NodeVal(s[..RUN], a, Run([s[RUN]], Child(c)), true, w)
            && g[c] == NodeVal(s[..RUN + 1], b, Run(s[RUN + 1..], Inline(v)), false, Null)
  {
    var g, m := LongTree(a, b, c, s, v, w), map[s := v, s[..RUN] := w];
    assert |s[..RUN]| != |s|;
    assert m.Keys == {s, s[..RUN]} && |m| == |m.Keys|;
    assert g.Keys == {a, b, c} && |g| == |g.Keys|;
  }

  /** Three keyless nodes in one row, of which the first two fit into one node. */
  ghost predicate Row(g: Graph, a: Node, b: Node, c: Node, x: seq<Byte>, y: seq<Byte>, z: seq<Byte>, v: Value) {
    && Apart(a, b, c) && a in g && b in g && c in g && !g[a].isKey && !g[b].isKey && !g[c].isKey
    && g[a].edges == Run(x, Child(b)) && g[b].edges == Run(y, Child(c)) && g[c].edges == Run(z, Inline(v))
    && |x| + |y| <= NODE_MAX_SIZE < |x| + |y| + |z|
  }

  lemma RowChain(g: Graph, a: Node, b: Node, c: Node, x: seq<Byte>, y: seq<Byte>, z: seq<Byte>, v: Value)
    requires Row(g, a, b, c, x, y, z, v)
    ensures Maximal(g, [a, b, c]) && Path(g, [a, b, c])
  {
    var ns := [a, b, c];
    assert forall k :: 0 <= k < |ns| - 1 ==> g[ns[k]].edges.slots == [Child(ns[k + 1])];
  }

  lemma RowTotal(g: Graph, a: Node, b: Node, c: Node, x: seq<Byte>, y: seq<Byte>, z: seq<Byte>, v: Value)
    requires Row(g, a, b, c, x, y, z, v)
    ensures var ns := [a, b, c];
            && Total(g, ns[..1]) == |x| && Total(g, ns[..2]) == |x| + |y| &&
                 Total(g, ns) == Total(g, ns[..3]) == |x| + |y| + |z|
            && Chars(g, ns[2..]) == z
  {
    var ns := [a, b, c];
    assert ns[..1] == [] + [a] && ns[..2] == [a] + [b] && ns[..3] == ns == [a, b] + [c] && [a] == [] + [a] &&
      [a, b] == [a] + [b];
    TotalPush(g, [], a);
    TotalPush(g, [a], b);
    TotalPush(g, [a, b], c);
    assert Total(g, []) == 0;
    assert ns[2..] == [c] && [c][1..] == [];
    assert Chars(g, [c]) == z + Chars(g, []) == z + [] == z;
  }

  /** Merging it loses the characters of the third node, or writes outside. */
  lemma RowMerge(g: Graph, a: Node, b: Node, c: Node, x: seq<Byte>, y: seq<Byte>, z: seq<Byte>, v: Value)
    requires Row(g, a, b, c, x, y, z, v)
    ensures Path(g, [a, b, c])
    ensures MergeOf(g, [a, b, c]) == if |x| + |y| + |z| <= Room(|x| + |y|) then Short(g[c].prefix, z) else Outside
  {
    hide Path, Total, Chars, Row;
    RowChain(g, a, b, c, x, y, z, v);
    RowTotal(g, a, b, c, x, y, z, v);
    RowLong(g, a, b, c, x, y, z, v);
    var ns := [a, b, c];
    assert ns[..1 + 1] == ns[..2] && ns[..2 + 1] == ns[..3];
    assert Fit(g, ns, 1) == Fit(g, ns, 2) == 2;
  }

  lemma RowLong(g: Graph, a: Node, b: Node, c: Node, x: seq<Byte>, y: seq<Byte>, z: seq<Byte>, v: Value)
    requires Row(g, a, b, c, x, y, z, v)
    ensures |x| + |y| <= NODE_MAX_SIZE < |x| + |y| + |z|
  {
  }

  /** Removing the shorter key leaves such a row, with nothing above it to merge. */
  lemma LongRow(a: Node, b: Node, c: Node, s: Key, v: Value, w: Value)
    requires Apart(a, b, c) && IsLong(s)
    ensures var g := LongTree(a, b, c, s, v, w);
            && b in g && Remains(a, g, s[..RUN]).Some? && Remains(a, g, s[..RUN]).value == Left(Unkeyed(g, b), b)
            && Row(Unkeyed(g, b), a, b, c, s[..RUN], [s[RUN]], s[RUN + 1..], v) &&
                 Unkeyed(g, b)[c].prefix == s[..RUN + 1]
            && Merges(Left(Unkeyed(g, b), b), [a, b, c])
  {
    hide LongTree, WellFormed, Linked;
    var g := LongTree(a, b, c, s, v, w);
    LongNodes(a, b, c, s, v, w);
    LongWellFormed(a, b, c, s, v, w);
    WithoutKey(a, g, s[..RUN], b) by { LinkedTree(a, g, map[s := v, s[..RUN] := w]); }
    PruneStop(a, Unkeyed(g, b), b);
    RowChain(Unkeyed(g, b), a, b, c, s[..RUN], [s[RUN]], s[RUN + 1..], v);
    assert [a, b, c][1] == b;
  }

  /** The fate of that removal: up to 13 bytes find room in the padding and where the pointer will be
      stored, and are then lost from the remaining key; more are written outside. */
  lemma LongFate(a: Node, b: Node, c: Node, s: Key, v: Value, w: Value)
    requires Apart(a, b, c) && IsLong(s)
    ensures Fate(a, LongTree(a, b, c, s, v, w), s[..RUN]) ==
              if |s| <= NODE_MAX_SIZE + 13 then Short(s[..RUN + 1], s[RUN + 1..]) else Outside
  {
    hide LongTree, WellFormed, Merges, Row, Linked, MergeOf, Path, Remains, Unkeyed;
    var g := LongTree(a, b, c, s, v, w);
    LongRow(a, b, c, s, v, w);
    LongWellFormed(a, b, c, s, v, w);
    RemainsKeeps(a, g, map[s := v, s[..RUN] := w], s[..RUN]);
    var l := Left(Unkeyed(g, b), b);
    LinkedTree(a, l.tree, map[s := v, s[..RUN] := w] - {s[..RUN]});
    FateIs(a, g, s[..RUN], l, [a, b, c]);
    RowMerge(l.tree, a, b, c, s[..RUN], [s[RUN]], s[RUN + 1..], v);
    assert Room(NODE_MAX_SIZE) == NODE_MAX_SIZE + 13;
  }

  /** The remaining key comes back cut. */
  lemma LongBecomes(s: Key, v: Value, w: Value, m: map<Key, Value>)
    requires IsLong(s) && Became(map[s := v, s[..RUN] := w] - {s[..RUN]}, Short(s[..RUN + 1], s[RUN + 1..]), m)
    ensures m == map[s[..RUN + 1] := v]
  {
    var left, base, cut := map[s := v, s[..RUN] := w] - {s[..RUN]}, s[..RUN + 1], s[RUN + 1..];
    assert |s[..RUN]| != |s|;
    assert left == map[s := v];
    assert base <= s && s[|base| + |cut|..] == [] && base + [] == base;
    assert Pull(s, base, |cut|) == base;
    InPulled(left, base, cut);
    assert s in left;
    SameMap(m, map[base := v]);
  }

  ghost predicate LongFields(a: Node, b: Node, c: Node, s: Key, v: Value, w: Value)
    requires IsLong(s)
    reads a, b, c
  {
    && Apart(a, b, c)
    && !a.isKey && a.edges == Run(s[..RUN], Child(b))
    && b.isKey && b.GetData() == w && b.edges == Run([s[RUN]], Child(c))
    && !c.isKey && c.edges == Run(s[RUN + 1..], Inline(v))
  }

  method MakeLong(s: Key, v: Value, w: Value) returns (a: Node, b: Node, c: Node)
    requires IsLong(s)
    ensures LongFields(a, b, c, s, v, w) && fresh(a) && fresh(b) && fresh(c)
  {
    a := new Node();
    b := new Node();
    c := new Node();
    c.edges := Run(s[RUN + 1..], Inline(v));
    b.edges := Run([s[RUN]], Child(c));
    b.SetData(w);
    a.edges := Run(s[..RUN], Child(b));
  }

  /** A tree object with these nodes and keys. */
  method BuildLong(s: Key, v: Value, w: Value) returns (t: Rax, ghost a: Node, ghost b: Node, ghost c: Node)
    requires IsLong(s)
    ensures t.Valid() && Apart(a, b, c) && t.head == a && t.g == LongTree(a, b, c, s, v, w)
    ensures t.m == map[s := v, s[..RUN] := w] && fresh(t) && fresh(t.g.Keys)
  {
    hide LongTree, WellFormed, Run, Rax.Shape;
    t := new Rax();
    var a1, b1, c1 := MakeLong(s, v, w);
    a, b, c := a1, b1, c1;
    t.head, t.numele, t.numnodes := a1, 2, 3;
    t.g, t.m := LongTree(a, b, c, s, v, w), map[s := v, s[..RUN] := w];
    LongNodes(a, b, c, s, v, w);
    LongShape(t, a, b, c, s, v, w);
  }

  lemma LongShape(t: Rax, a: Node, b: Node, c: Node, s: Key, v: Value, w: Value)
    requires IsLong(s) && LongFields(a, b, c, s, v, w) && t.head == a && t.g == LongTree(a, b, c, s, v, w)
    requires t.m == map[s := v, s[..RUN] := w]
    ensures t.Shape(null)
  {
    hide LongTree, WellFormed, Run;
    LongNodes(a, b, c, s, v, w);
    LongWellFormed(a, b, c, s, v, w);
  }

  /** Removing the shorter key from that tree: the longer key comes back cut to one node, or, if more
      than 13 bytes are too many, something else is overwritten. */
  method RemoveShortens(s: Key, v: Value, w: Value) returns (outside: bool, ghost left: map<Key, Value>)
    requires IsLong(s)
    ensures outside == (|s| > NODE_MAX_SIZE + 13)
    ensures !outside ==> left == map[s[..RUN + 1] := v]
  {
    hide LongTree, Fate, Became, Rax.Valid;
    var removed, old_;
    var t, a, b, c := BuildLong(s, v, w);
    LongFate(a, b, c, s, v, w);
    removed, old_, outside := t.Remove(s[..RUN]);
    left := t.m;
    if !outside { LongBecomes(s, v, w, left); }
  }
}
