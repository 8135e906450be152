/** What a removal does to a tree, told from the tree before it: which nodes go, which chain is
    merged, and what the merge makes of the keys below. */
module RaxFate {
  import opened Common
  import opened RaxGraph
  import opened RaxEdits
  import opened RaxRuns
  import opened RaxSlots
  import opened RaxChanges
  import opened RaxSplits
  import opened RaxRemoval
  import opened RaxShorten

  // ---------------------------------------------------------------- the tree without the key

  // A tree, and the node where the removal has got to.
  datatype Left = Left(tree: Graph, at: Node)

  /** A node that gave up its key. */
  ghost function Unkeyed(g: Graph, n: Node): Graph
    requires n in g
  {
    g[n := g[n].(isKey := false)]
  }

  /** The key `s` is taken out: of its node, or out of the slot it sits in. */
  ghost function Without(g: Graph, s: Key): Option<Left> {
    if exists n :: n in g && KeyNode(g, s, n) then
      var n :| n in g && KeyNode(g, s, n);
      Some(Left(Unkeyed(g, n), n))
    else if exists n, i: nat :: n in g && InlineKey(g, s, n, i) then
      var n, i: nat :| n in g && InlineKey(g, s, n, i);
      Some(Left(RemoveInline(g, n, i), n))
    else None
  }

  /** The slot of `p` that leads to `h`. */
  ghost predicate LeadsTo(g: Graph, p: Node, x: nat, h: Node) {
    p in g && g[p].edges.Ok() && x < |g[p].edges.slots| && g[p].edges.slots[x] == Child(h)
  }

  ghost predicate HasSlot(g: Graph, h: Node) {
    h in g && g[h].parent != null && g[h].parent != h && exists x :: LeadsTo(g, g[h].parent, x, h)
  }

  /** Bare nodes are taken away, from `h` upwards. */
  ghost function Prune(head: Node, g: Graph, h: Node): Left
    decreases |g|
  {
    if h != head && Bare(g, h) && HasSlot(g, h) then
      var p: Node := g[h].parent;
      var x :| LeadsTo(g, p, x, h);
      BareGone(g, p, x, h);
      Prune(head, RemoveBare(g, p, x), p)
    else Left(g, h)
  }

  lemma BareGone(g: Graph, p: Node, x: nat, h: Node)
    requires LeadsTo(g, p, x, h) && h in g && p != h
    ensures |RemoveBare(g, p, x)| == |g| - 1
  {
    MinusOne(g, h);
    var g' := g - {h};
    assert p in g' && g'[p := g[p].(edges := RemoveSlot(g[p].edges, x))].Keys == g'.Keys;
  }

  /** What removing `s` leaves before anything is merged. */
  ghost function Remains(head: Node, g: Graph, s: Key): Option<Left> {
    match Without(g, s)
    case None => None
    case Some(l) => Some(Prune(head, l.tree, l.at))
  }

  /** The removal stops at a node without a key and with one edge character. */
  ghost predicate Thin(l: Left) {
    l.at in l.tree && !l.tree[l.at].isKey && |l.tree[l.at].edges.chars| == 1
  }

  /** `ns` is the chain that is looked at for a merge. */
  ghost predicate Merges(l: Left, older ns: seq<Node>) {
    Thin(l) && Whole(l.tree, ns) && l.at in ns
  }

  // ---------------------------------------------------------------- the merge

  const HEADER_SIZE: nat := 4
  const PTR_SIZE: nat := 8

  /** raxPadding */
  function Padding(size: nat): nat {
    (PTR_SIZE - (size + HEADER_SIZE) % PTR_SIZE) % PTR_SIZE
  }

  /** The bytes behind the header of a node allotted for one child: its characters, the padding and
      the place of the child pointer, which is stored last. */
  function Room(size: nat): nat {
    size + Padding(size) + PTR_SIZE
  }

  /** How many nodes of a chain fit into one, once `k` do. */
  ghost function Fit(g: Graph, ns: seq<Node>, k: nat): (r: nat)
    requires Path(g, ns) && 0 < k <= |ns|
    ensures k <= r <= |ns|
    ensures Total(g, ns[..k]) <= NODE_MAX_SIZE ==> Total(g, ns[..r]) <= NODE_MAX_SIZE
    ensures r < |ns| ==> Total(g, ns[..r + 1]) > NODE_MAX_SIZE
    decreases |ns| - k
  {
    if k < |ns| && Total(g, ns[..k + 1]) <= NODE_MAX_SIZE then Fit(g, ns, k + 1) else k
  }

  // Nothing is merged; the whole chain is; the node is allotted for the beginning of the chain, and
  // the keys that begin with `base` lose `cut` behind it; or the rest does not even fit into the
  // padding and the place of the pointer, and is written outside.
  datatype Merge = NoMerge | Fits | Short(base: Key, cut: Key) | Outside

  ghost function MergeOf(g: Graph, ns: seq<Node>): Merge
    requires Path(g, ns)
  {
    var k := Fit(g, ns, 1);
    if k == 1 then NoMerge
    else if k == |ns| then Fits
    else if Total(g, ns) <= Room(Total(g, ns[..k])) then Short(g[ns[k]].prefix, Chars(g, ns[k..]))
    else Outside
  }

  /** What the removal of `s` merges. */
  ghost function Fate(head: Node, g: Graph, s: Key): Merge {
    match Remains(head, g, s)
    case None => NoMerge
    case Some(l) =>
      if exists ns :: Merges(l, ns) then
        var ns :| Merges(l, ns);
        MergeOf(l.tree, ns)
      else NoMerge
  }

  // ---------------------------------------------------------------- the key's place is the only one

  lemma WithoutKey(head: Node, g: Graph, s: Key, h: Node)
    requires Linked(head, g) && KeyNode(g, s, h)
    ensures Without(g, s) == Some(Left(Unkeyed(g, h), h))
  {
    forall n | n in g && KeyNode(g, s, n)
      ensures n == h
    {
      SamePrefix(head, g, n, h);
    }
  }

  lemma OneInline(head: Node, g: Graph, s: Key, a: Node, i: nat, b: Node, j: nat)
    requires Linked(head, g) && InlineKey(g, s, a, i) && InlineKey(g, s, b, j)
    ensures a == b && i == j
  {
    if a == b {
      TwoEdges(g[a], i, j, s);
    } else if |g[a].prefix| <= |g[b].prefix| {
      InlineApart(head, g, s, a, i, b, j);
    } else {
      InlineApart(head, g, s, b, j, a, i);
    }
  }

  lemma InlineApart(head: Node, g: Graph, s: Key, a: Node, i: nat, b: Node, j: nat)
    requires Linked(head, g) && InlineKey(g, s, a, i) && InlineKey(g, s, b, j) && |g[a].prefix| <= |g[b].prefix|
    ensures a == b
  {
    assert g[a].prefix <= s && g[b].prefix <= s;
    Comparable(g[a].prefix, g[b].prefix, s);
    OneEdgeOn(g[a], i, g[b].prefix, s);
    if a != b {
      var x := Descend(head, g, a, b);
    }
  }

  lemma OneEdgeOn(v: NodeVal, i: nat, p: Key, s: Key)
    requires v.edges.Ok() && i < |v.edges.slots| && Reach(v, i) <= s && p <= s
    ensures forall x: nat :: x < |v.edges.slots| && Reach(v, x) <= p ==> x == i
  {
    forall x: nat | x < |v.edges.slots| && Reach(v, x) <= p
      ensures x == i
    {
      TwoEdges(v, x, i, s);
    }
  }

  lemma WithoutInline(head: Node, g: Graph, s: Key, h: Node, x: nat)
    requires Linked(head, g) && InlineKey(g, s, h, x)
    ensures Without(g, s) == Some(Left(RemoveInline(g, h, x), h))
  {
    forall n | n in g
      ensures !KeyNode(g, s, n)
    {
      if KeyNode(g, s, n) { NodeNotInline(head, g, n, h, x); }
    }
    forall n, i: nat | n in g && InlineKey(g, s, n, i)
      ensures n == h && i == x
    {
      OneInline(head, g, s, n, i, h, x);
    }
  }

  /** Removing what is no key changes nothing. */
  lemma WithoutNone(g: Graph, m: map<Key, Value>, s: Key)
    requires Stores(g, m)
    ensures Without(g, s).Some? <==> s in m
  {
    assert s in m ==> Located(g, s);
    forall n | n in g && KeyNode(g, s, n)
      ensures s in m
    {
      assert Holds(g, m, n);
    }
    forall n, i: nat | n in g && InlineKey(g, s, n, i)
      ensures s in m
    {
      assert Holds(g, m, n);
    }
  }

  lemma WithoutKeeps(head: Node, g: Graph, m: map<Key, Value>, s: Key)
    requires WellFormed(head, g, m, null) && s in m
    ensures var l := Without(g, s);
            l.Some? && l.value.at in l.value.tree && WellFormed(head, l.value.tree, m - {s}, l.value.at)
  {
    assert Located(g, s);
    if n :| n in g && KeyNode(g, s, n) {
      WithoutKey(head, g, s, n);
      ClearKey(head, g, m, n);
    } else {
      var n, i: nat :| n in g && InlineKey(g, s, n, i);
      WithoutInline(head, g, s, n, i);
      RemoveInlineKeeps(head, g, m, n, i);
    }
  }

  // ---------------------------------------------------------------- pruning

  lemma OneSlot(head: Node, g: Graph, h: Node, x: nat)
    requires Linked(head, g) && h in g && h != head && g[h].parent != null && LeadsTo(g, g[h].parent, x, h)
    ensures g[h].parent != h && forall y :: LeadsTo(g, g[h].parent, y, h) ==> y == x
  {
    ParentIsOther(head, g, h);
    var p: Node := g[h].parent;
    forall y | LeadsTo(g, p, y, h)
      ensures y == x
    {
      assert HasChildren(g, p);
      TwoEdges(g[p], x, y, g[h].prefix);
    }
  }

  /** One step of pruning. */
  lemma PruneStep(head: Node, g: Graph, h: Node, p: Node, x: nat)
    requires Linked(head, g) && Bare(g, h) && h != head && g[h].parent == p && LeadsTo(g, p, x, h)
    ensures Prune(head, g, h) == Prune(head, RemoveBare(g, p, x), p)
  {
    OneSlot(head, g, h, x);
  }

  lemma PruneStop(head: Node, g: Graph, h: Node)
    requires h == head || !Bare(g, h)
    ensures Prune(head, g, h) == Left(g, h)
  {
  }

  /** The nodes that went had no key and at most one child; `l.at` is `h` or above it, and lost the
      slot that the last of them hung on; all others are unchanged. */
  ghost predicate PrunedTo(g: Graph, h: Node, l: Left) {
    && h in g && l.at in l.tree && (forall n :: n in l.tree ==> n in g && (n != l.at ==> l.tree[n] == g[n]))
    && (forall n :: n in g && n !in l.tree ==> !g[n].isKey && |g[n].edges.slots| <= 1)
    && l.tree[l.at].isKey == g[l.at].isKey && l.tree[l.at].prefix == g[l.at].prefix <= g[h].prefix
    && |g[l.at].edges.slots| == |l.tree[l.at].edges.slots| + (if l.at == h then 0 else 1)
    && (l.at == h || (Bare(g, h) && h !in l.tree))
  }

  /** Pruning keeps the tree and its keys, and stops at the head or at the first node that has a key
      or a child left. */
  lemma {:induction false} PruneKeeps(head: Node, g: Graph, m: map<Key, Value>, h: Node)
    requires WellFormed(head, g, m, h) && h in g
    ensures var l := Prune(head, g, h);
            WellFormed(head, l.tree, m, null) && PrunedTo(g, h, l) && (l.at == head || !Bare(l.tree, l.at))
    decreases |g|
  {
    hide WellFormed, Prune, PrunedTo, RemoveBare;
    if h == head || !Bare(g, h) {
      PruneStop(head, g, h);
      NotPending(head, g, m, h);
      PrunedHere(g, h);
    } else {
      var p, x := BareSlot(head, g, m, h);
      PruneStep(head, g, h, p, x);
      RemoveBareKeeps(head, g, m, p, x, h);
      PruneFacts(g, p, x, h);
      PruneKeeps(head, RemoveBare(g, p, x), m, p);
      PrunedMore(g, RemoveBare(g, p, x), p, h, Prune(head, g, h));
    }
  }

  lemma BareSlot(head: Node, g: Graph, m: map<Key, Value>, h: Node) returns (p: Node, x: nat)
    requires WellFormed(head, g, m, h) && h in g && h != head
    ensures Linked(head, g) && g[h].parent == p && p != h && LeadsTo(g, p, x, h) && g[p].prefix <= g[h].prefix
  {
    x := ParentSlot(head, g, h);
    p := g[h].parent;
  }

  lemma PrunedHere(g: Graph, h: Node)
    requires h in g
    ensures PrunedTo(g, h, Left(g, h))
  {
  }

  lemma PrunedMore(g: Graph, g1: Graph, p: Node, h: Node, l: Left)
    requires PrunedTo(g1, p, l) && p in g && Bare(g, h) && p != h && g[p].prefix <= g[h].prefix
    requires forall n :: n in g1 <==> n in g && n != h
    requires forall n :: n in g1 && n != p ==> g1[n] == g[n]
    requires g1[p].isKey == g[p].isKey && g1[p].prefix == g[p].prefix && |g[p].edges.slots| == |g1[p].edges.slots| + 1
    ensures PrunedTo(g, h, l)
  {
  }

  lemma PruneFacts(g: Graph, p: Node, x: nat, h: Node)
    requires LeadsTo(g, p, x, h) && Bare(g, h) && p != h
    ensures var g1 := RemoveBare(g, p, x);
            && (forall n :: n in g1 <==> n in g && n != h) && (forall n :: n in g1 && n != p ==> g1[n] == g[n])
            && g1[p] == g[p].(edges := RemoveSlot(g[p].edges, x)) && |g[p].edges.slots| == |g1[p].edges.slots| + 1
            && |g1| == |g| - 1
  {
    BareGone(g, p, x, h);
  }

  /** What a removal leaves before the merge is a tree of the other keys. */
  lemma RemainsKeeps(head: Node, g: Graph, m: map<Key, Value>, s: Key)
    requires WellFormed(head, g, m, null)
    ensures Remains(head, g, s).Some? <==> s in m
    ensures s in m ==> var l := Remains(head, g, s).value; WellFormed(head, l.tree, m - {s}, null) && l.at in l.tree
  {
    hide WellFormed, Without, Prune, PrunedTo;
    WithoutNone(g, m, s) by { StoresTree(head, g, m); }
    if s in m {
      WithoutKeeps(head, g, m, s);
      var l := Without(g, s).value;
      PruneKeeps(head, l.tree, m - {s}, l.at);
      StopsIn(l.tree, l.at, Prune(head, l.tree, l.at));
    }
  }

  lemma StoresTree(head: Node, g: Graph, m: map<Key, Value>)
    requires WellFormed(head, g, m, null)
    ensures Stores(g, m)
  {
  }

  lemma StopsIn(g: Graph, h: Node, l: Left)
    requires PrunedTo(g, h, l)
    ensures l.at in l.tree
  {
  }

  // ---------------------------------------------------------------- the one chain around a node

  lemma {:induction false} ClimbFrom(head: Node, g: Graph, up: seq<Node>) returns (all: seq<Node>)
    requires Linked(head, g) && Path(g, up)
    ensures Path(g, all) && all[|all| - 1] == up[|up| - 1]
    ensures g[all[0]].parent == null || !Link1(g, g[all[0]].parent)
    decreases |g[up[0]].prefix|
  {
    var n := up[0];
    if g[n].parent != null && Link1(g, g[n].parent) {
      var i := ParentSlot(head, g, n);
      PathUp(head, g, g[n].parent, up);
      all := ClimbFrom(head, g, [g[n].parent] + up);
    } else {
      all := up;
    }
  }

  /** Every node of a chain has a whole chain around it. */
  lemma ChainAround(head: Node, g: Graph, h: Node) returns (ns: seq<Node>)
    requires Linked(head, g) && Link1(g, h)
    ensures Whole(g, ns) && h in ns
  {
    PathOne(g, h);
    var up := ClimbFrom(head, g, [h]);
    ns := Lengthen(head, g, up);
    assert up[|up| - 1] in ns;
  }

  lemma StepUp(head: Node, g: Graph, ns: seq<Node>, i: nat)
    requires Linked(head, g) && Path(g, ns) && 0 < i < |ns|
    ensures g[ns[i]].parent == ns[i - 1] && Link1(g, ns[i - 1])
  {
    assert Link1(g, ns[i - 1]) && HasChildren(g, ns[i - 1]);
    assert g[ns[i - 1]].edges.slots == [Child(ns[i - 1 + 1])];
    assert g[ns[i - 1]].edges.slots[0] == Child(ns[i]);
  }

  /** Two whole chains that meet start at one node. */
  lemma {:induction false} SameTop(head: Node, g: Graph, a: seq<Node>, i: nat, b: seq<Node>, j: nat)
    requires Linked(head, g) && Whole(g, a) && Whole(g, b) && i < |a| && j < |b| && a[i] == b[j]
    ensures a[0] == b[0]
    decreases i
  {
    if i > 0 { StepUp(head, g, a, i); }
    if j > 0 { StepUp(head, g, b, j); }
    if i > 0 && j > 0 { SameTop(head, g, a, i - 1, b, j - 1); }
  }

  lemma OneChain(head: Node, g: Graph, a: seq<Node>, b: seq<Node>, h: Node)
    requires Linked(head, g) && Whole(g, a) && Whole(g, b) && h in a && h in b
    ensures a == b
  {
    var i :| 0 <= i < |a| && a[i] == h;
    var j :| 0 <= j < |b| && b[j] == h;
    SameTop(head, g, a, i, b, j);
    PathPrefix(g, a, b);
    PathPrefix(g, b, a);
  }

  // ---------------------------------------------------------------- the fate of a removal

  lemma FateIs(head: Node, g: Graph, s: Key, l: Left, ns: seq<Node>)
    requires Remains(head, g, s) == Some(l) && Merges(l, ns) && Linked(head, l.tree)
    ensures Fate(head, g, s) == MergeOf(l.tree, ns)
  {
    hide Whole, Remains, MergeOf;
    forall a | Merges(l, a)
      ensures a == ns
    {
      OneChain(head, l.tree, a, ns, l.at);
    }
  }

  /** Nothing is merged where there is nothing to remove, or where the node the removal stops at has
      a key, or no or several edge characters. */
  lemma FateNone(head: Node, g: Graph, s: Key)
    requires Remains(head, g, s).None? || !Thin(Remains(head, g, s).value)
    ensures Fate(head, g, s) == NoMerge
  {
  }

  /** A key in a node with children: nothing is freed, and only a node of one edge is merged. */
  lemma FateOfKey(head: Node, g: Graph, s: Key, h: Node)
    requires Linked(head, g) && KeyNode(g, s, h) && g[h].edges.slots != []
    ensures Remains(head, g, s) == Some(Left(Unkeyed(g, h), h))
    ensures |g[h].edges.chars| != 1 ==> Fate(head, g, s) == NoMerge
  {
    WithoutKey(head, g, s, h);
    PruneStop(head, Unkeyed(g, h), h);
  }

  /** An inline key in a node that has another edge, or is a key: nothing is freed, and only a keyless
      node of two edges can be merged. */
  lemma FateOfInline(head: Node, g: Graph, s: Key, h: Node, x: nat)
    requires Linked(head, g) && InlineKey(g, s, h, x) && (g[h].isKey || |g[h].edges.slots| > 1)
    ensures Remains(head, g, s) == Some(Left(RemoveInline(g, h, x), h))
    ensures g[h].isKey || |g[h].edges.slots| > 2 ==> Fate(head, g, s) == NoMerge
  {
    WithoutInline(head, g, s, h, x);
    PruneStop(head, RemoveInline(g, h, x), h);
  }

  lemma ThinLink(head: Node, l: Left)
    requires Linked(head, l.tree) && Thin(l)
    ensures Link1(l.tree, l.at)
  {
    assert l.tree[l.at].edges.Ok();
  }

  lemma FirstFits(head: Node, g: Graph, ns: seq<Node>)
    requires Linked(head, g) && Path(g, ns)
    ensures Total(g, ns[..1]) <= NODE_MAX_SIZE
  {
    OkIsRun(g[ns[0]].edges);
    assert g[ns[0]].edges.Ok() && ns[..1][..0] == [] && ns[..1][0] == ns[0];
  }

  /** Characters find no room exactly where the chain is overlong. */
  lemma WhenOverlong(head: Node, g: Graph, ns: seq<Node>)
    requires Linked(head, g) && Maximal(g, ns)
    ensures Overlong(g, ns) <==> MergeOf(g, ns).Short? || MergeOf(g, ns).Outside?
    ensures Total(g, ns) <= NODE_MAX_SIZE ==> Fit(g, ns, 1) == |ns|
  {
    hide Total;
    var k := Fit(g, ns, 1);
    assert ns[..|ns|] == ns;
    FirstFits(head, g, ns);
    TotalGrows(head, g, ns, k);
    if k < |ns| { TotalGrows(head, g, ns, k + 1); }
    if k > 1 {
      assert Path(g, ns[..k]) && ns[..k][..2] == ns[..2];
      TotalGrows(head, g, ns[..k], 2);
    }
  }

  /** The node the removal stops at has lost its key, or all but one edge character, and the whole
      chain around it is overlong. */
  ghost predicate Loses(head: Node, g: Graph, s: Key) {
    match Remains(head, g, s)
    case None => false
    case Some(l) => exists ns :: Merges(l, ns) && Overlong(l.tree, ns)
  }

  /** Exactly then a removal takes characters from other keys, or writes outside of the new node. */
  lemma LosesExactly(head: Node, g: Graph, m: map<Key, Value>, s: Key)
    requires WellFormed(head, g, m, null)
    ensures Fate(head, g, s).Short? || Fate(head, g, s).Outside? <==> Loses(head, g, s)
  {
    hide Whole, Remains, MergeOf, WellFormed, Overlong;
    RemainsKeeps(head, g, m, s);
    if s !in m || !Thin(Remains(head, g, s).value) {
      FateNone(head, g, s);
    } else {
      var l := Remains(head, g, s).value;
      LinkedTree(head, l.tree, m - {s});
      ThinLink(head, l);
      var ns := ChainAround(head, l.tree, l.at);
      FateIs(head, g, s, l, ns);
      WhenOverlong(head, l.tree, ns) by { WholeIsPath(l.tree, ns); }
      forall a | Merges(l, a)
        ensures a == ns
      {
        OneChain(head, l.tree, a, ns, l.at);
      }
    }
  }

  lemma WholeIsPath(g: Graph, ns: seq<Node>)
    requires Whole(g, ns)
    ensures Maximal(g, ns) && Path(g, ns)
  {
  }

  /** Where the other keys fit into one node each, none of them loses anything. */
  lemma FitsAll(head: Node, g: Graph, m: map<Key, Value>, s: Key)
    requires WellFormed(head, g, m, null) && KeysFit(m - {s})
    ensures Fate(head, g, s).NoMerge? || Fate(head, g, s).Fits?
  {
    hide Whole, Remains, WellFormed;
    LosesExactly(head, g, m, s);
    RemainsKeeps(head, g, m, s);
    if Loses(head, g, s) {
      var l := Remains(head, g, s).value;
      var ns :| Merges(l, ns) && Overlong(l.tree, ns);
      PathFits(head, l.tree, m - {s}, ns);
    }
  }

  /** The map after the merge: as it was, or with some keys shortened. */
  ghost predicate Became(m: map<Key, Value>, f: Merge, m': map<Key, Value>) {
    if f.Short? then AllCut(m, f.base, f.cut) && m' == Pulled(m, f.base, f.cut) else m' == m
  }

  lemma NoneBecame(m: map<Key, Value>)
    ensures Became(m, NoMerge, m)
  {
  }

  /** A shortening always shows. */
  lemma ShortDiffers(head: Node, g: Graph, m: map<Key, Value>, s: Key, m': map<Key, Value>)
    requires WellFormed(head, g, m, null) && Became(m - {s}, Fate(head, g, s), m')
    ensures m' == m - {s} <==> !Fate(head, g, s).Short?
  {
    hide Whole, Remains, WellFormed, Pulled, AllCut, MergeOf;
    if Fate(head, g, s).Short? {
      RemainsKeeps(head, g, m, s);
      var l := Remains(head, g, s).value;
      var ns :| Merges(l, ns);
      LinkedTree(head, l.tree, m - {s});
      FateIs(head, g, s, l, ns);
      WholeIsPath(l.tree, ns);
      var q := CutKey(head, l.tree, m - {s}, ns);
      PulledDiffers(m - {s}, Fate(head, g, s).base, Fate(head, g, s).cut, q);
    }
  }

  /** Some key lies behind the characters that are lost. */
  lemma CutKey(head: Node, g: Graph, m: map<Key, Value>, ns: seq<Node>) returns (q: Key)
    requires WellFormed(head, g, m, null) && Path(g, ns) && MergeOf(g, ns).Short?
    ensures Under(m, MergeOf(g, ns).base, q) && MergeOf(g, ns).cut != []
  {
    var k := Fit(g, ns, 1);
    ChainSkips(head, g, ns, k);
    q := KeyUnder(head, g, m, ns[k - 1], 0);
    OkIsRun(g[ns[k]].edges);
    assert ns[k..][0] == ns[k];
  }
}
