/** The shape of a radix tree: nodes, the graph they form, and the map it stands for.

    A `Node` carries the header fields of a rax node. Everything that is proved about
    trees is proved about a `Graph`: a snapshot that records, for every reachable node,
    its fields together with two things the program never stores: the key prefix the
    node stands for and its parent. Prefixes never change once a node exists, so the
    tree can be described node by node, without recursion. */
module RaxGraph {
  type Byte = b: int | 0 <= b < 256
  type Key = seq<Byte>

  /** An auxiliary `void *`: either NULL or some object. */
  datatype Value = Null | Obj(id: int)

  /** A child pointer slot: the address of a node, or the value of a leaf stored inline. */
  datatype Slot = Inline(value: Value) | Child(node: Node)

  /** The longest compressed run, and the largest number of children, of one node. */
  const NODE_MAX_SIZE: nat := 0xFFFF

  /** Slots at this index or above have no bit in the leaf bitmap. */
  const INLINE_SLOTS: nat := 13

  type Bitmap = b: seq<bool> | |b| == INLINE_SLOTS witness NoBits()

  function NoBits(): seq<bool> {
    seq(INLINE_SLOTS, _ => false)
  }

  /** The outgoing edges of a node. */
  datatype Edges = Edges(isCompr: bool, leafBitmap: Bitmap, chars: seq<Byte>, slots: seq<Slot>)
  {
    /** The characters on the edge into slot `i`. */
    function Label(i: nat): Key
      requires i < |slots| && (!isCompr ==> |chars| == |slots|)
    {
      if isCompr then chars else [chars[i]]
    }

    /** A compressed run has one child, an ordinary node one child per character, in strictly
        increasing order; the bitmap marks exactly the inline slots, none of them past slot 12. */
    ghost predicate Ok() {
      && |chars| <= NODE_MAX_SIZE
      && (if isCompr then |chars| >= 2 && |slots| == 1
          else |slots| == |chars| && forall i, j :: 0 <= i < j < |chars| ==> chars[i] < chars[j])
      && (forall i :: 0 <= i < INLINE_SLOTS ==> (leafBitmap[i] <==> i < |slots| && slots[i].Inline?))
      && (forall i :: INLINE_SLOTS <= i < |slots| ==> slots[i].Child?)
    }
  }

  /** `pos` is where the edge `c` belongs in the sorted edge characters. */
  predicate IsPos(chars: seq<Byte>, c: Byte, pos: nat) {
    && pos <= |chars|
    && (forall i :: 0 <= i < pos ==> chars[i] < c)
    && (forall i :: pos <= i < |chars| ==> c < chars[i])
  }

  const NoEdges: Edges := Edges(false, NoBits(), [], [])

  class Node {
    var isKey: bool
    var isNull: bool
    var aux: Value
    var edges: Edges

    /** raxNewNode(0): a node without children and without a key. */
    constructor ()
      ensures !isKey && edges == NoEdges
    {
      isKey, isNull, edges, aux := false, false, NoEdges, Null;
    }

    /** raxGetData */
    function GetData(): Value
      reads this
    {
      if isNull then Null else aux
    }

    /** raxSetData */
    method SetData(data: Value)
      modifies `isKey, `isNull, `aux
      ensures isKey && GetData() == data
    {
      isKey := true;
      if data != Null {
        isNull := false;
        aux := data;
      } else {
        isNull := true;
      }
    }

    /** One step of raxLowWalk: match an edge of this node against `s` from `i` on. On success `j`
        is the slot the edge leads to, otherwise the number of run characters that did match. */
    method MatchEdge(s: Key, i: nat) returns (end: nat, j: nat, ok: bool)
      requires edges.Ok() && edges.chars != [] && i < |s|
      ensures i <= end <= |s|
      ensures ok ==> j < |edges.slots| && s[i..end] == edges.Label(j)
      ensures !ok && edges.isCompr ==>
                j < |edges.chars| && end == i + j && s[i..end] == edges.chars[..j] &&
                  (end < |s| ==> edges.chars[j] != s[end])
      ensures !ok && !edges.isCompr ==> j == 0 && end == i && s[i] !in edges.chars
    {
      end, j := i, 0;
      if edges.isCompr {
        while j < |edges.chars| && end < |s| && edges.chars[j] == s[end]
          invariant j <= |edges.chars| && end == i + j <= |s| && s[i..end] == edges.chars[..j]
        {
          j, end := j + 1, end + 1;
        }
        if j != |edges.chars| {
          return end, j, false;
        }
        return end, 0, true;
      }
      while j < |edges.chars| && edges.chars[j] != s[i]
        invariant j <= |edges.chars| && forall k :: 0 <= k < j ==> edges.chars[k] != s[i]
      {
        j := j + 1;
      }
      if j == |edges.chars| {
        return i, 0, false;
      }
      return i + 1, j, true;
    }

    /** raxNodeFindChildPos: where the edge `c` belongs. */
    method FindChildPos(c: Byte) returns (pos: nat)
      requires !edges.isCompr && edges.Ok() && c !in edges.chars
      ensures IsPos(edges.chars, c, pos)
    {
      pos := 0;
      while pos < |edges.chars| && edges.chars[pos] <= c
        invariant pos <= |edges.chars| && forall i :: 0 <= i < pos ==> edges.chars[i] < c
      {
        pos := pos + 1;
      }
    }
  }

  /** The recorded contents of one node: `data` is the value of its own key, if it has one.
      `prefix` and `parent` are specification only. */
  datatype NodeVal = NodeVal(prefix: Key, parent: Node?, edges: Edges, isKey: bool, data: Value)

  type Graph = map<Node, NodeVal>

  /** The key prefix reached by following slot `i` of a node. */
  ghost function Reach(v: NodeVal, i: nat): Key
    requires v.edges.Ok() && i < |v.edges.slots|
  {
    v.prefix + v.edges.Label(i)
  }

  /** Nodes, children and parents fit together into one tree rooted at `head`. */
  ghost predicate Linked(head: Node, g: Graph) {
    && head in g && g[head].prefix == [] && g[head].parent == null
    && (forall n {:trigger g[n].edges.Ok()} :: n in g ==> g[n].edges.Ok())
    && (forall n {:trigger HasChildren(g, n)} :: n in g ==> HasChildren(g, n))
    && (forall n {:trigger HasParent(g, n)} :: n in g && n != head ==> HasParent(g, n))
  }

  /** The nodes in the slots of `n` know it as their parent, and its edge leads to their prefix. */
  ghost predicate HasChildren(g: Graph, n: Node) {
    n in g && g[n].edges.Ok() &&
    forall i :: 0 <= i < |g[n].edges.slots| && g[n].edges.slots[i].Child? ==>
      var c := g[n].edges.slots[i].node;
      c in g && g[c].parent == n && g[c].prefix == Reach(g[n], i)
  }

  /** Some node of the graph has a slot that points to `n`. */
  ghost predicate HasParent(g: Graph, n: Node) {
    n in g && g[n].parent != null && g[n].parent in g && Child(n) in g[g[n].parent].edges.slots
  }

  /** A childless node other than the head, and other than the `pending` one, is a key. */
  ghost predicate NoBareLeaves(head: Node, g: Graph, pending: Node?) {
    forall n :: n in g && n != head && n != pending && g[n].edges.slots == [] ==> g[n].isKey
  }

  ghost predicate KeyNode(g: Graph, k: Key, n: Node) {
    n in g && g[n].isKey && g[n].prefix == k
  }

  ghost predicate InlineKey(g: Graph, k: Key, n: Node, i: nat) {
    n in g && g[n].edges.Ok() && i < |g[n].edges.slots| && g[n].edges.slots[i].Inline? && Reach(g[n], i) == k
  }

  ghost predicate Located(g: Graph, k: Key) {
    || (exists n :: n in g && KeyNode(g, k, n))
    || (exists n, i: nat :: n in g && InlineKey(g, k, n, i))
  }

  /** The keys held by node `n`, in itself and inline in its slots, are in `m`. */
  ghost predicate Holds(g: Graph, m: map<Key, Value>, n: Node) {
    && n in g && g[n].edges.Ok()
    && (g[n].isKey ==> g[n].prefix in m && m[g[n].prefix] == g[n].data)
    && (forall i :: 0 <= i < |g[n].edges.slots| && g[n].edges.slots[i].Inline? ==>
          Reach(g[n], i) in m && m[Reach(g[n], i)] == g[n].edges.slots[i].value)
  }

  /** The graph stores exactly the keys and values of `m`. */
  ghost predicate Stores(g: Graph, m: map<Key, Value>) {
    && (forall n {:trigger Holds(g, m, n)} :: n in g ==> Holds(g, m, n))
    && (forall k {:trigger Located(g, k)} :: k in m ==> Located(g, k))
  }

  ghost predicate WellFormed(head: Node, g: Graph, m: map<Key, Value>, pending: Node?) {
    Linked(head, g) && NoBareLeaves(head, g, pending) && Stores(g, m)
  }

  // ---------------------------------------------------------------- descent

  lemma SameFirst(v: NodeVal, i: nat, j: nat)
    requires v.edges.Ok() && i < |v.edges.slots| && j < |v.edges.slots| && v.edges.Label(i)[0] == v.edges.Label(j)[0]
    ensures i == j
  {
  }

  /** Two proper prefixes of one string are comparable. */
  lemma Comparable(a: Key, b: Key, s: Key)
    requires a <= s && b <= s && |a| <= |b|
    ensures a <= b
  {
    assert a == s[..|a|] && b == s[..|b|];
  }

  /** A node other than the head lies below its parent. */
  lemma ParentSlot(head: Node, g: Graph, n: Node) returns (i: nat)
    requires Linked(head, g) && n in g && n != head
    ensures g[n].parent != null && g[n].parent in g
    ensures i < |g[g[n].parent].edges.slots| && g[g[n].parent].edges.slots[i] == Child(n)
    ensures g[n].prefix == Reach(g[g[n].parent], i)
    ensures g[g[n].parent].prefix <= g[n].prefix && |g[g[n].parent].prefix| < |g[n].prefix|
  {
    assert HasParent(g, n);
    assert HasChildren(g, g[n].parent);
    var p := g[n].parent;
    i :| 0 <= i < |g[p].edges.slots| && g[p].edges.slots[i] == Child(n);
    assert g[p].edges.Ok();
  }

  /** If the prefix of `a` begins the prefix of `b`, then `b` hangs below a slot of `a`. */
  lemma {:induction false} Descend(head: Node, g: Graph, a: Node, b: Node) returns (i: nat)
    requires Linked(head, g) && a in g && b in g && a != b && g[a].prefix <= g[b].prefix
    ensures i < |g[a].edges.slots| && g[a].edges.slots[i].Child?
    ensures Reach(g[a], i) <= g[b].prefix
    decreases |g[b].prefix|
  {
    if b == head {
      var j := ParentSlot(head, g, a);
      assert false;
    }
    var p := g[b].parent;
    var k := ParentSlot(head, g, b);
    if a == p {
      i := k;
    } else if |g[a].prefix| <= |g[p].prefix| {
      Comparable(g[a].prefix, g[p].prefix, g[b].prefix);
      i := Descend(head, g, a, p);
    } else {
      // p would be a proper ancestor of a, with two edges on the one string
      var s, pv := g[b].prefix, g[p];
      Comparable(g[p].prefix, g[a].prefix, s);
      if |g[a].prefix| < |s| {
        var x := Descend(head, g, p, a);
        TwoEdges(pv, x, k, s);
      } else {
        // a and b have one prefix; compare their parents
        var x := ParentSlot(head, g, a);
        var q, qv := g[a].parent, g[g[a].parent];
        if p == q {
          TwoEdges(pv, x, k, s);
        } else if |pv.prefix| <= |qv.prefix| {
          Comparable(pv.prefix, qv.prefix, s);
          var y := Descend(head, g, p, q);
          TwoEdges(pv, y, k, s);
        } else {
          Comparable(qv.prefix, pv.prefix, s);
          var y := Descend(head, g, q, p);
          TwoEdges(qv, y, x, s);
        }
      }
      assert false;
    }
  }

  /** Edges of one node that lie on the same string are the same edge. */
  lemma TwoEdges(v: NodeVal, i: nat, j: nat, s: Key)
    requires v.edges.Ok() && i < |v.edges.slots| && j < |v.edges.slots| && Reach(v, i) <= s && Reach(v, j) <= s
    ensures i == j
  {
    assert Reach(v, i)[|v.prefix|] == s[|v.prefix|] == Reach(v, j)[|v.prefix|];
    SameFirst(v, i, j);
  }

  /** A stored key that begins with the prefix of `h` is the key of `h` itself, or hangs below
      (or sits in) a slot of `h`. Returns that slot, or -1. */
  lemma KeyBelow(head: Node, g: Graph, m: map<Key, Value>, h: Node, k: Key) returns (x: int)
    requires Linked(head, g) && Stores(g, m) && h in g && k in m && g[h].prefix <= k
    ensures x < 0 ==> g[h].isKey && g[h].prefix == k
    ensures 0 <= x ==> x < |g[h].edges.slots| && Reach(g[h], x) <= k
    ensures 0 <= x && g[h].edges.slots[x].Inline? ==> Reach(g[h], x) == k
  {
    assert Located(g, k);
    if n :| n in g && KeyNode(g, k, n) {
      if n == h {
        x := -1;
      } else {
        x := Descend(head, g, h, n);
      }
    } else {
      var n, i: nat :| n in g && InlineKey(g, k, n, i);
      if n == h {
        x := i;
      } else {
        x := InlineBelow(head, g, h, k, n, i);
      }
    }
  }

  lemma InlineBelow(head: Node, g: Graph, h: Node, k: Key, n: Node, i: nat) returns (x: nat)
    requires Linked(head, g) && h in g && g[h].prefix <= k && InlineKey(g, k, n, i) && n != h
    ensures x < |g[h].edges.slots| && Reach(g[h], x) <= k && g[h].edges.slots[x].Child?
  {
    var v := g[n];
    if |g[h].prefix| <= |v.prefix| {
      Comparable(g[h].prefix, v.prefix, k);
      x := Descend(head, g, h, n);
    } else {
      Comparable(v.prefix, g[h].prefix, k);
      var y := Descend(head, g, n, h);
      TwoEdges(v, y, i, k);
      assert false;
    }
  }

  /** Where a walk along `s` stopped without meeting an inline leaf: `i` characters of `s` led to
      node `h`, the last `j` of them inside its compressed run, and no edge goes on. */
  ghost predicate Stopped(g: Graph, s: Key, h: Node, i: nat, j: nat) {
    && h in g && g[h].edges.Ok() && j <= i <= |s| && g[h].prefix == s[..i - j]
    && (if g[h].edges.isCompr then
          && j < |g[h].edges.chars| && s[i - j..i] == g[h].edges.chars[..j]
          && (i < |s| ==> g[h].edges.chars[j] != s[i])
        else j == 0 && (i < |s| ==> s[i] !in g[h].edges.chars))
  }

  /** Where a walk along `s` met the inline leaf in slot `x` of `h`, after `i` characters. */
  ghost predicate StoppedInline(g: Graph, s: Key, h: Node, i: nat, x: nat) {
    h in g && g[h].edges.Ok() && i <= |s| && x < |g[h].edges.slots| && g[h].edges.slots[x].Inline? &&
      Reach(g[h], x) == s[..i]
  }

  /** The place where a walk stopped decides whether its string is a key, and with which value. */
  lemma StoppedDecides(head: Node, g: Graph, m: map<Key, Value>, s: Key, h: Node, i: nat, j: nat)
    requires Linked(head, g) && Stores(g, m) && Stopped(g, s, h, i, j)
    ensures s in m <==> i == |s| && j == 0 && g[h].isKey
    ensures s in m ==> m[s] == g[h].data
  {
    assert s[..|s|] == s;
    assert Holds(g, m, h);
    if s in m {
      var x := KeyBelow(head, g, m, h, s);
      if 0 <= x {
        NoEdgeOn(g, s, h, i, j, x);
      }
    }
  }

  lemma NoEdgeOn(g: Graph, s: Key, h: Node, i: nat, j: nat, x: nat)
    requires Stopped(g, s, h, i, j) && x < |g[h].edges.slots|
    ensures !(Reach(g[h], x) <= s)
  {
  }

  lemma StoppedInlineDecides(head: Node, g: Graph, m: map<Key, Value>, s: Key, h: Node, i: nat, x: nat)
    requires Linked(head, g) && Stores(g, m) && StoppedInline(g, s, h, i, x)
    ensures s in m <==> i == |s|
    ensures s in m ==> m[s] == g[h].edges.slots[x].value
  {
    assert s[..|s|] == s;
    assert Holds(g, m, h);
    if s in m {
      assert g[h].prefix <= Reach(g[h], x) <= s;
      var y := KeyBelow(head, g, m, h, s);
      TwoEdges(g[h], x, y, s);
    }
  }
}
