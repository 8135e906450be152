/** A chain of single-child nodes that is merged into a node too small for it: the characters that
    find no room are lost, and every key behind them comes back shorter. */
module RaxShorten {
  import opened RaxGraph
  import opened RaxEdits
  import opened RaxRuns
  import opened RaxChanges
  import opened RaxRemoval

  // ---------------------------------------------------------------- shorter keys

  /** `q` without the `n` characters behind `base`. */
  function Pull(q: Key, base: Key, n: nat): Key {
    if base <= q && |base| + n <= |q| then base + q[|base| + n..] else q
  }

  /** All keys that begin with `base` go on with `cut`. */
  ghost predicate AllCut(m: map<Key, Value>, base: Key, cut: Key) {
    forall q :: q in m && base <= q ==> base + cut <= q
  }

  lemma PullBack(q: Key, base: Key, cut: Key)
    requires base <= q ==> base + cut <= q
    ensures base <= Pull(q, base, |cut|) <==> base <= q
    ensures base <= q ==> q == base + cut + Pull(q, base, |cut|)[|base|..]
    ensures !(base <= q) ==> Pull(q, base, |cut|) == q
  {
    if base <= q {
      assert q[..|base| + |cut|] == base + cut;
      assert Pull(q, base, |cut|)[|base|..] == q[|base| + |cut|..];
    }
  }

  lemma PullInjective(m: map<Key, Value>, base: Key, cut: Key)
    requires AllCut(m, base, cut)
    ensures forall q, r :: q in m && r in m && Pull(q, base, |cut|) == Pull(r, base, |cut|) ==> q == r
  {
    forall q, r | q in m && r in m && Pull(q, base, |cut|) == Pull(r, base, |cut|)
      ensures q == r
    {
      PullBack(q, base, cut);
      PullBack(r, base, cut);
    }
  }

  /** The map whose keys have lost `cut` behind `base`. */
  ghost function Pulled(m: map<Key, Value>, base: Key, cut: Key): map<Key, Value>
    requires AllCut(m, base, cut)
  {
    PullInjective(m, base, cut);
    map q | q in m :: Pull(q, base, |cut|) := m[q]
  }

  lemma PulledNothing(m: map<Key, Value>, base: Key)
    ensures AllCut(m, base, []) && Pulled(m, base, []) == m
  {
    hide Pulled;
    forall q
      ensures Pull(q, base, 0) == q && base + [] == base
    {
    }
    InPulled(m, base, []);
    SameMap(Pulled(m, base, []), m);
  }

  lemma InPulled(m: map<Key, Value>, base: Key, cut: Key)
    requires AllCut(m, base, cut)
    ensures forall q :: q in m ==>
      Pull(q, base, |cut|) in Pulled(m, base, cut) && Pulled(m, base, cut)[Pull(q, base, |cut|)] == m[q]
    ensures forall k :: k in Pulled(m, base, cut) ==> exists q :: q in m && k == Pull(q, base, |cut|)
  {
    PullInjective(m, base, cut);
  }

  lemma PullTwice(q: Key, base: Key, a: Key, b: Key)
    requires base <= q ==> base + a <= q
    requires var p := Pull(q, base, |a|); base <= p ==> base + b <= p
    ensures base <= q ==> base + (a + b) <= q
    ensures Pull(Pull(q, base, |a|), base, |b|) == Pull(q, base, |a + b|)
  {
    PullBack(q, base, a);
    if base <= q {
      var p := Pull(q, base, |a|);
      PullBack(p, base, b);
      var rest := Pull(p, base, |b|)[|base|..];
      assert p[|base|..] == b + rest;
      assert q == base + (a + b) + rest;
      assert Pull(q, base, |a + b|) == base + rest;
    }
  }

  lemma PulledTwice(m: map<Key, Value>, base: Key, a: Key, b: Key)
    requires AllCut(m, base, a) && AllCut(Pulled(m, base, a), base, b)
    ensures AllCut(m, base, a + b) && Pulled(m, base, a + b) == Pulled(Pulled(m, base, a), base, b)
  {
    hide Pulled, Pull;
    var m1 := Pulled(m, base, a);
    InPulled(m, base, a);
    forall q | q in m
      ensures (base <= q ==> base + (a + b) <= q) && Pull(Pull(q, base, |a|), base, |b|) == Pull(q, base, |a + b|)
    {
      PullTwice(q, base, a, b);
    }
    InPulled(m, base, a + b);
    InPulled(m1, base, b);
    SameMap(Pulled(m, base, a + b), Pulled(m1, base, b));
  }

  lemma SameMap(a: map<Key, Value>, b: map<Key, Value>)
    requires forall k :: k in a ==> k in b && b[k] == a[k]
    requires forall k :: k in b ==> k in a
    ensures a == b
  {
  }

  /** As many keys as before: none of them meet. */
  lemma PulledSize(m: map<Key, Value>, base: Key, cut: Key)
    requires AllCut(m, base, cut)
    ensures |Pulled(m, base, cut)| == |m|
  {
    hide Pulled, Pull, AllCut;
    var ks, m' := m.Keys, Pulled(m, base, cut);
    InPulled(m, base, cut);
    PullInjective(m, base, cut);
    ImageSize(ks, base, |cut|);
    assert m'.Keys == Image(ks, base, |cut|);
    assert |m'| == |m'.Keys| && |m| == |m.Keys|;
  }

  ghost function Image(ks: set<Key>, base: Key, n: nat): set<Key> {
    set q | q in ks :: Pull(q, base, n)
  }

  lemma {:induction false} ImageSize(ks: set<Key>, base: Key, n: nat)
    requires forall q, r :: q in ks && r in ks && Pull(q, base, n) == Pull(r, base, n) ==> q == r
    ensures |Image(ks, base, n)| == |ks|
  {
    hide Pull;
    if ks != {} {
      var k :| k in ks;
      ImageSize(ks - {k}, base, n);
      assert Image(ks, base, n) == Image(ks - {k}, base, n) + {Pull(k, base, n)};
    }
  }

  ghost predicate Under(m: map<Key, Value>, base: Key, q: Key) {
    q in m && base <= q
  }

  lemma PullUnder(m: map<Key, Value>, base: Key, cut: Key, q: Key)
    requires AllCut(m, base, cut) && cut != [] && Under(m, base, q)
    ensures var p := Pull(q, base, |cut|); Under(Pulled(m, base, cut), base, p) && |p| < |q|
  {
    PullBack(q, base, cut);
    InPulled(m, base, cut);
  }

  lemma {:induction false} PullsDown(m: map<Key, Value>, base: Key, cut: Key, q: Key)
    requires AllCut(m, base, cut) && cut != [] && Under(m, base, q) && Pulled(m, base, cut) == m
    ensures false
    decreases |q|
  {
    hide *;
    PullUnder(m, base, cut, q);
    PullsDown(m, base, cut, Pull(q, base, |cut|));
  }

  /** The loss shows: a map with a key behind `base` is not the same any more. */
  lemma PulledDiffers(m: map<Key, Value>, base: Key, cut: Key, q: Key)
    requires AllCut(m, base, cut) && cut != [] && Under(m, base, q)
    ensures Pulled(m, base, cut) != m
  {
    hide *;
    if Pulled(m, base, cut) == m { PullsDown(m, base, cut, q); }
  }

  // ---------------------------------------------------------------- one node of a chain left out

  /** `c` is a link of a chain, the only child of `h`. */
  ghost predicate CanSkip(head: Node, g: Graph, h: Node, c: Node) {
    && Linked(head, g) && h in g && g[h].edges.slots == [Child(c)] && Link1(g, c)
    && HasChildren(g, h) && HasChildren(g, c)
  }

  /** `h` leads to where `c` led; everything below is nearer to the head by the characters of `c`. */
  ghost function Skip(g: Graph, h: Node, c: Node): Graph
    requires c in g && |g[c].edges.slots| == 1
  {
    map n | n in g && n != c :: Skipped(g[n], n == h, h, c, g[c])
  }

  function Skipped(v: NodeVal, here: bool, h: Node, c: Node, cv: NodeVal): NodeVal
    requires |cv.edges.slots| == 1
  {
    NodeVal(Pull(v.prefix, cv.prefix, |cv.edges.chars|), if v.parent == c then h else v.parent,
            if here then Run(v.edges.chars, cv.edges.slots[0]) else v.edges, v.isKey, v.data)
  }

  lemma SkipNodes(head: Node, g: Graph, h: Node, c: Node)
    requires CanSkip(head, g, h, c)
    ensures c != h && c != head && g[c].parent == h && g[h].edges.Ok() && g[c].edges.Ok()
    ensures g[c].prefix == Reach(g[h], 0) == g[h].prefix + g[h].edges.chars
    ensures Reach(g[c], 0) == g[c].prefix + g[c].edges.chars
    ensures g[c].edges.slots[0].Child? ==> g[c].edges.slots[0].node != h && g[c].edges.slots[0].node != c
  {
    OkIsRun(g[h].edges);
    OkIsRun(g[c].edges);
    ChildIsOther(g, h, 0);
    if g[c].edges.slots[0].Child? { ChildIsOther(g, c, 0); }
    LongerThanPrefix(g[h], 0);
    LongerThanPrefix(g[c], 0);
  }

  /** A node below `c` is below its only slot. */
  lemma BelowLink(head: Node, g: Graph, h: Node, c: Node, n: Node)
    requires CanSkip(head, g, h, c) && n in g && n != c && g[c].prefix <= g[n].prefix
    ensures g[c].prefix + g[c].edges.chars <= g[n].prefix
  {
    SkipNodes(head, g, h, c);
    var x := Descend(head, g, c, n);
  }

  /** Other nodes than `h` lead to a string behind `c` only from below `c`. */
  lemma BehindLink(head: Node, g: Graph, h: Node, c: Node, n: Node, i: nat)
    requires CanSkip(head, g, h, c) && n in g && n != c && n != h && g[n].edges.Ok() && i < |g[n].edges.slots|
    requires g[c].prefix <= Reach(g[n], i)
    ensures g[c].prefix <= g[n].prefix
  {
    var base, v := g[c].prefix, g[n];
    SkipNodes(head, g, h, c);
    assert v.prefix <= Reach(v, i);
    if |base| <= |v.prefix| {
      Comparable(base, v.prefix, Reach(v, i));
    } else {
      Comparable(v.prefix, base, Reach(v, i));
      var x := Descend(head, g, n, c);
      TwoEdges(v, x, i, Reach(v, i));
      assert HasChildren(g, n);
      SamePrefix(head, g, v.edges.slots[i].node, c);
      assert false;
    }
  }

  lemma PullAppend(q: Key, l: Key, base: Key, n: nat)
    requires if base <= q then |base| + n <= |q| else !(base <= q + l)
    ensures Pull(q + l, base, n) == Pull(q, base, n) + l
  {
    if base <= q {
      var a, b := q[..|base| + n], q[|base| + n..];
      assert q == a + b && q + l == a + (b + l);
      assert base <= a && base <= q + l;
      assert (q + l)[|base| + n..] == b + l;
      assert base + (b + l) == base + b + l;
    }
  }

  /** Where the edges of a node other than `h` lead now. */
  lemma SkipReach(head: Node, g: Graph, h: Node, c: Node, n: Node, i: nat)
    requires CanSkip(head, g, h, c) && n in g && n != c && n != h && g[n].edges.Ok() && i < |g[n].edges.slots|
    ensures Reach(Skip(g, h, c)[n], i) == Pull(Reach(g[n], i), g[c].prefix, |g[c].edges.chars|)
  {
    var base := g[c].prefix;
    if base <= g[n].prefix {
      BelowLink(head, g, h, c, n);
    } else if base <= Reach(g[n], i) {
      BehindLink(head, g, h, c, n, i);
    }
    PullAppend(g[n].prefix, g[n].edges.Label(i), base, |g[c].edges.chars|);
  }

  lemma SkipHere(head: Node, g: Graph, h: Node, c: Node)
    requires CanSkip(head, g, h, c)
    ensures c != h && h in Skip(g, h, c)
    ensures var v := Skip(g, h, c)[h];
            && v.prefix == g[h].prefix && v.edges.Ok() && |v.edges.slots| == 1
            && Reach(v, 0) == g[c].prefix == Pull(Reach(g[c], 0), g[c].prefix, |g[c].edges.chars|)
  {
    SkipNodes(head, g, h, c);
    OkIsRun(g[h].edges);
    RunOk(g[h].edges.chars, g[c].edges.slots[0]);
    LongerThanPrefix(g[h], 0);
  }

  lemma SkipChildren(head: Node, g: Graph, h: Node, c: Node, n: Node)
    requires CanSkip(head, g, h, c) && n in g && n != c
    ensures HasChildren(Skip(g, h, c), n)
  {
    SkipNodes(head, g, h, c);
    assert HasChildren(g, n);
    if n == h {
      SkipHere(head, g, h, c);
    } else {
      forall i | 0 <= i < |g[n].edges.slots| && g[n].edges.slots[i].Child?
        ensures var d := g[n].edges.slots[i].node;
                d in g && d != c && Skip(g, h, c)[d].parent == n &&
                  Skip(g, h, c)[d].prefix == Reach(Skip(g, h, c)[n], i)
      {
        SkipReach(head, g, h, c, n, i);
      }
    }
  }

  lemma SkipParent(head: Node, g: Graph, h: Node, c: Node, n: Node)
    requires CanSkip(head, g, h, c) && n in g && n != c && n != head
    ensures HasParent(Skip(g, h, c), n)
  {
    var i := ParentSlot(head, g, n);
    SkipNodes(head, g, h, c);
    if g[n].parent == c {
      assert g[c].edges.slots == [g[c].edges.slots[0]];
      assert Skip(g, h, c)[h].edges.slots[0] == Child(n);
    } else if g[n].parent == h {
      assert g[h].edges.slots[i] == Child(c);
    } else {
      assert Skip(g, h, c)[g[n].parent].edges.slots[i] == Child(n);
    }
  }

  lemma SkipLinked(head: Node, g: Graph, h: Node, c: Node)
    requires CanSkip(head, g, h, c)
    ensures Linked(head, Skip(g, h, c))
  {
    var g' := Skip(g, h, c);
    SkipNodes(head, g, h, c);
    forall n | n in g'
      ensures g'[n].edges.Ok() && HasChildren(g', n) && (n != head ==> HasParent(g', n))
    {
      SkipChildren(head, g, h, c, n);
      if n != head { SkipParent(head, g, h, c, n); }
    }
  }

  lemma SkipCut(head: Node, g: Graph, m: map<Key, Value>, h: Node, c: Node)
    requires CanSkip(head, g, h, c) && Stores(g, m)
    ensures AllCut(m, g[c].prefix, g[c].edges.chars)
  {
    SkipNodes(head, g, h, c);
    forall q | q in m && g[c].prefix <= q
      ensures g[c].prefix + g[c].edges.chars <= q
    {
      var x := KeyBelow(head, g, m, c, q);
    }
  }

  lemma SkipHolds(head: Node, g: Graph, m: map<Key, Value>, h: Node, c: Node, n: Node)
    requires CanSkip(head, g, h, c) && Stores(g, m) && n in g && n != c
    requires AllCut(m, g[c].prefix, g[c].edges.chars)
    ensures Holds(Skip(g, h, c), Pulled(m, g[c].prefix, g[c].edges.chars), n)
  {
    hide Pulled, Pull, AllCut;
    InPulled(m, g[c].prefix, g[c].edges.chars);
    assert Holds(g, m, n) && Holds(g, m, c);
    if n == h {
      SkipHere(head, g, h, c);
      SkipNodes(head, g, h, c);
    } else {
      forall i | 0 <= i < |g[n].edges.slots|
        ensures Reach(Skip(g, h, c)[n], i) == Pull(Reach(g[n], i), g[c].prefix, |g[c].edges.chars|)
      {
        SkipReach(head, g, h, c, n, i);
      }
    }
  }

  lemma SkipLocated(head: Node, g: Graph, h: Node, c: Node, q: Key)
    requires CanSkip(head, g, h, c) && Located(g, q)
    ensures Located(Skip(g, h, c), Pull(q, g[c].prefix, |g[c].edges.chars|))
  {
    hide Pull;
    var g', k := Skip(g, h, c), Pull(q, g[c].prefix, |g[c].edges.chars|);
    SkipHere(head, g, h, c);
    SkipNodes(head, g, h, c);
    if n :| n in g && KeyNode(g, q, n) {
      assert KeyNode(g', k, n);
    } else {
      var n, i: nat :| n in g && InlineKey(g, q, n, i);
      if n == c {
        assert InlineKey(g', k, h, 0);
      } else {
        SkipReach(head, g, h, c, n, i);
        assert InlineKey(g', k, n, i);
      }
    }
  }

  /** A link left out takes its characters away from every key below it, and changes nothing else. */
  lemma SkipKeeps(head: Node, g: Graph, m: map<Key, Value>, h: Node, c: Node)
    requires WellFormed(head, g, m, null) && CanSkip(head, g, h, c)
    ensures AllCut(m, g[c].prefix, g[c].edges.chars)
    ensures WellFormed(head, Skip(g, h, c), Pulled(m, g[c].prefix, g[c].edges.chars), null)
  {
    hide Pulled, Pull, AllCut;
    SkipLinked(head, g, h, c);
    SkipCut(head, g, m, h, c);
    var g', m' := Skip(g, h, c), Pulled(m, g[c].prefix, g[c].edges.chars);
    forall n | n in g'
      ensures Holds(g', m', n)
    {
      SkipHolds(head, g, m, h, c, n);
    }
    InPulled(m, g[c].prefix, g[c].edges.chars);
    forall k | k in m'
      ensures Located(g', k)
    {
      var q :| q in m && k == Pull(q, g[c].prefix, |g[c].edges.chars|);
      SkipLocated(head, g, h, c, q);
    }
    SkipLeaves(head, g, h, c);
  }

  lemma SkipLeaves(head: Node, g: Graph, h: Node, c: Node)
    requires CanSkip(head, g, h, c) && NoBareLeaves(head, g, null)
    ensures NoBareLeaves(head, Skip(g, h, c), null)
  {
  }

  // ---------------------------------------------------------------- the end of a chain left out

  /** The characters of a chain. */
  ghost function Chars(g: Graph, ns: seq<Node>): seq<Byte>
    requires forall k :: 0 <= k < |ns| ==> ns[k] in g
  {
    if ns == [] then [] else g[ns[0]].edges.chars + Chars(g, ns[1..])
  }

  lemma {:induction false} CharsPush(g: Graph, ns: seq<Node>, c: Node)
    requires (forall k :: 0 <= k < |ns| ==> ns[k] in g) && c in g
    ensures Chars(g, ns + [c]) == Chars(g, ns) + g[c].edges.chars
  {
    if ns == [] {
      assert ([] + [c])[1..] == [];
    } else {
      assert (ns + [c])[1..] == ns[1..] + [c];
      CharsPush(g, ns[1..], c);
    }
  }

  lemma {:induction false} CharsConcat(g: Graph, a: seq<Node>, b: seq<Node>)
    requires forall k :: 0 <= k < |a + b| ==> (a + b)[k] in g
    requires (forall k :: 0 <= k < |a| ==> a[k] in g) && (forall k :: 0 <= k < |b| ==> b[k] in g)
    ensures Chars(g, a + b) == Chars(g, a) + Chars(g, b)
  {
    if a == [] {
      assert [] + b == b;
    } else {
      assert (a + b)[1..] == a[1..] + b;
      CharsConcat(g, a[1..], b);
    }
  }

  lemma {:induction false} CharsTotal(g: Graph, ns: seq<Node>)
    requires forall k :: 0 <= k < |ns| ==> ns[k] in g
    ensures |Chars(g, ns)| == Total(g, ns)
  {
    if ns != [] {
      var n := |ns| - 1;
      assert ns == ns[..n] + [ns[n]];
      CharsPush(g, ns[..n], ns[n]);
      CharsTotal(g, ns[..n]);
    }
  }

  lemma {:induction false} SameChars(g: Graph, g': Graph, ns: seq<Node>)
    requires forall k :: 0 <= k < |ns| ==> ns[k] in g && ns[k] in g' && g'[ns[k]].edges.chars == g[ns[k]].edges.chars
    ensures Chars(g', ns) == Chars(g, ns)
  {
    if ns != [] { SameChars(g, g', ns[1..]); }
  }

  /** Nothing of what the fields of nodes show is different. */
  predicate SameFields(a: NodeVal, b: NodeVal) {
    a.edges == b.edges && a.isKey == b.isKey && a.data == b.data
  }

  /** `next` is `g` without the nodes of the chain `ns` from the `k`-th on. */
  ghost predicate CutTo(g: Graph, next: Graph, ns: seq<Node>, k: nat) {
    && Maximal(g, ns) && 0 < k <= |ns| && Maximal(next, ns[..k]) && |next| + |ns| == |g| + k
    && (forall n :: n in next ==> n in g)
    && (forall n :: n in next && n != ns[k - 1] ==> SameFields(g[n], next[n]))
    && next[ns[k - 1]].edges == Run(g[ns[k - 1]].edges.chars, g[ns[|ns| - 1]].edges.slots[0])
    && next[ns[0]].parent == g[ns[0]].parent
  }

  lemma {:induction false} PrefixGrows(head: Node, g: Graph, ns: seq<Node>, j: nat)
    requires Linked(head, g) && Path(g, ns) && j < |ns|
    ensures |g[ns[0]].prefix| <= |g[ns[j]].prefix|
  {
    if j > 0 {
      PrefixGrows(head, g, ns, j - 1);
      assert HasChildren(g, ns[j - 1]) && g[ns[j - 1]].edges.slots == [Child(ns[j - 1 + 1])];
      LongerThanPrefix(g[ns[j - 1]], 0);
    }
  }

  lemma ChainSkips(head: Node, g: Graph, ns: seq<Node>, k: nat)
    requires Linked(head, g) && Path(g, ns) && 0 < k < |ns|
    ensures CanSkip(head, g, ns[k - 1], ns[k]) && g[ns[0]].parent != ns[k]
    ensures g[ns[k - 1]].edges.Ok() && Reach(g[ns[k - 1]], 0) == g[ns[k]].prefix
  {
    assert g[ns[k - 1]].edges.slots == [Child(ns[k - 1 + 1])];
    assert HasChildren(g, ns[k - 1]) && HasChildren(g, ns[k]);
    PrefixGrows(head, g, ns, k);
    if ns[0] != head {
      var i := ParentSlot(head, g, ns[0]);
    }
  }

  lemma SkipSize(head: Node, g: Graph, h: Node, c: Node)
    requires CanSkip(head, g, h, c)
    ensures |Skip(g, h, c)| == |g| - 1
  {
    MinusOne(g, c);
    assert Skip(g, h, c).Keys == (g - {c}).Keys;
    assert |Skip(g, h, c)| == |Skip(g, h, c).Keys| && |g - {c}| == |(g - {c}).Keys|;
  }

  lemma NoRepeat(head: Node, g: Graph, ns: seq<Node>, i: nat, j: nat)
    requires Linked(head, g) && Path(g, ns) && i < j < |ns|
    ensures ns[i] != ns[j]
  {
    var part := ns[i..j];
    PathLength(head, g, part);
    assert Total(g, part) > 0 by {
      TotalPart(g, part);
      OkIsRun(g[part[|part| - 1]].edges);
    }
    assert HasChildren(g, ns[j - 1]) && g[ns[j - 1]].edges.slots == [Child(ns[j - 1 + 1])];
  }

  lemma TotalPart(g: Graph, ns: seq<Node>)
    requires Path(g, ns)
    ensures Total(g, ns) >= |g[ns[|ns| - 1]].edges.chars|
  {
  }

  /** The chain `ns` without its `k`-th node. */
  function Shorter(ns: seq<Node>, k: nat): seq<Node>
    requires k < |ns|
  {
    ns[..k] + ns[k + 1..]
  }

  lemma SkipFields(head: Node, g: Graph, ns: seq<Node>, k: nat)
    requires Linked(head, g) && Path(g, ns) && 0 < k < |ns|
    ensures var g' := Skip(g, ns[k - 1], ns[k]);
            && (forall j :: 0 <= j < |ns| && j != k ==> ns[j] in g' && g'[ns[j]].edges.chars == g[ns[j]].edges.chars)
            && (forall j :: 0 <= j < |ns| && j != k && j != k - 1 ==>
                 g'[ns[j]].edges == g[ns[j]].edges && !g'[ns[j]].isKey)
            && g'[ns[k - 1]].edges == Run(g[ns[k - 1]].edges.chars, g[ns[k]].edges.slots[0]) && !g'[ns[k - 1]].isKey
  {
    forall j | 0 <= j < |ns| && j != k
      ensures ns[j] != ns[k] && (j != k - 1 ==> ns[j] != ns[k - 1])
    {
      if j < k { NoRepeat(head, g, ns, j, k); } else { NoRepeat(head, g, ns, k, j); }
      if j < k - 1 { NoRepeat(head, g, ns, j, k - 1); }
      if k < j { NoRepeat(head, g, ns, k - 1, j); }
    }
  }

  lemma SkipPath(head: Node, g: Graph, ns: seq<Node>, k: nat)
    requires Linked(head, g) && Path(g, ns) && 0 < k < |ns|
    ensures Path(Skip(g, ns[k - 1], ns[k]), Shorter(ns, k))
  {
    hide Skip;
    SkipFields(head, g, ns, k);
    var g', ns' := Skip(g, ns[k - 1], ns[k]), Shorter(ns, k);
    forall j | 0 <= j < |ns'| - 1
      ensures g'[ns'[j]].edges.slots == [Child(ns'[j + 1])]
    {
      if j + 1 < k {
        assert g[ns[j]].edges.slots == [Child(ns[j + 1])];
      } else {
        assert g[ns[j + 1]].edges.slots == [Child(ns[j + 1 + 1])];
      }
    }
  }

  /** One link out of a longest chain leaves a longest chain. */
  lemma SkipChain(head: Node, g: Graph, ns: seq<Node>, k: nat)
    requires Linked(head, g) && Maximal(g, ns) && 0 < k < |ns|
    ensures var g', ns' := Skip(g, ns[k - 1], ns[k]), Shorter(ns, k);
            && Maximal(g', ns') && g'[ns'[|ns'| - 1]].edges.slots[0] == g[ns[|ns| - 1]].edges.slots[0]
            && |g'| == |g| - 1 && |ns'| == |ns| - 1 && ns'[0] == ns[0] && ns'[k - 1] == ns[k - 1] &&
                 ns'[..k] == ns[..k] && ns'[k..] == ns[k + 1..]
            && ns[0] in g' && g'[ns[0]].parent == g[ns[0]].parent
            && ns[k - 1] in g' && g'[ns[k - 1]].edges.chars == g[ns[k - 1]].edges.chars
            && (forall n :: n in g' ==> n in g) && (forall n :: n in g' && n != ns[k - 1] ==> SameFields(g[n], g'[n]))
  {
    ChainSkips(head, g, ns, k);
    SkipFields(head, g, ns, k);
    SkipPath(head, g, ns, k);
    SkipSize(head, g, ns[k - 1], ns[k]);
  }

  /** A chain is left out from its `k`-th node on: all keys behind lose the characters. */
  lemma {:induction false} CutChain(head: Node, g: Graph, m: map<Key, Value>, ns: seq<Node>, k: nat)
    returns (next: Graph)
    requires WellFormed(head, g, m, null) && Maximal(g, ns) && 0 < k <= |ns|
    ensures g[ns[k - 1]].edges.Ok() && CutTo(g, next, ns, k)
    ensures var base, cut := Reach(g[ns[k - 1]], 0), Chars(g, ns[k..]);
            AllCut(m, base, cut) && WellFormed(head, next, Pulled(m, base, cut), null)
    decreases |ns|
  {
    hide *;
    CutFacts(head, g, m, ns, k);
    if k == |ns| {
      next := g;
      PulledNothing(m, Reach(g[ns[k - 1]], 0));
    } else {
      var h, c := ns[k - 1], ns[k];
      SkipKeeps(head, g, m, h, c);
      SkipChain(head, g, ns, k);
      var m1, g1, ns1 := Pulled(m, g[c].prefix, g[c].edges.chars), Skip(g, h, c), Shorter(ns, k);
      next := CutChain(head, g1, m1, ns1, k);
      SameBehind(head, g, ns, k);
      PulledTwice(m, g[c].prefix, g[c].edges.chars, Chars(g1, ns1[k..]));
      CutOnce(g, g1, next, ns, k);
    }
  }

  lemma CutFacts(head: Node, g: Graph, m: map<Key, Value>, ns: seq<Node>, k: nat)
    requires WellFormed(head, g, m, null) && Maximal(g, ns) && 0 < k <= |ns|
    ensures Linked(head, g) && (forall j :: 0 <= j < |ns| ==> ns[j] in g) && g[ns[k - 1]].edges.Ok()
    ensures |g[ns[k - 1]].edges.slots| == 1
    ensures k < |ns| ==> CanSkip(head, g, ns[k - 1], ns[k]) && |g[ns[k]].edges.slots| == 1
    ensures k < |ns| ==> Reach(g[ns[k - 1]], 0) == g[ns[k]].prefix
    ensures k == |ns| ==> CutTo(g, g, ns, k) && Chars(g, ns[k..]) == []
  {
    if k < |ns| {
      ChainSkips(head, g, ns, k);
    } else {
      OkIsRun(g[ns[k - 1]].edges);
      assert ns[..k] == ns;
    }
  }

  lemma SameBehind(head: Node, g: Graph, ns: seq<Node>, k: nat)
    requires Linked(head, g) && Maximal(g, ns) && 0 < k < |ns|
    requires forall j :: 0 <= j < |ns| ==> ns[j] in g
    ensures var g1, ns1 := Skip(g, ns[k - 1], ns[k]), Shorter(ns, k);
            && (forall j :: 0 <= j < |ns1| ==> ns1[j] in g1) && ns[k - 1] in g1 && g1[ns[k - 1]].edges.Ok()
            && Reach(g1[ns[k - 1]], 0) == g[ns[k]].prefix
            && Chars(g, ns[k..]) == g[ns[k]].edges.chars + Chars(g1, ns1[k..])
  {
    ChainSkips(head, g, ns, k);
    SkipFields(head, g, ns, k);
    SkipHere(head, g, ns[k - 1], ns[k]);
    var g1, ns1 := Skip(g, ns[k - 1], ns[k]), Shorter(ns, k);
    assert ns1[k..] == ns[k + 1..] == ns[k..][1..];
    SameChars(g, g1, ns[k + 1..]);
  }

  lemma CutOnce(g: Graph, g1: Graph, next: Graph, ns: seq<Node>, k: nat)
    requires Maximal(g, ns) && 0 < k < |ns| && CutTo(g1, next, Shorter(ns, k), k)
    requires Maximal(g1, Shorter(ns, k)) && |g1| == |g| - 1 && ns[0] in g1 && g1[ns[0]].parent == g[ns[0]].parent
    requires g1[Shorter(ns, k)[|ns| - 2]].edges.slots[0] == g[ns[|ns| - 1]].edges.slots[0]
    requires ns[k - 1] in g1 && g1[ns[k - 1]].edges.chars == g[ns[k - 1]].edges.chars
    requires (forall n :: n in g1 ==> n in g) && (forall n :: n in g1 && n != ns[k - 1] ==> SameFields(g[n], g1[n]))
    ensures CutTo(g, next, ns, k)
  {
    assert Shorter(ns, k)[..k] == ns[..k] && Shorter(ns, k)[k - 1] == ns[k - 1];
  }

  // ---------------------------------------------------------------- merging

  lemma LinkedTree(head: Node, g: Graph, m: map<Key, Value>)
    requires WellFormed(head, g, m, null)
    ensures Linked(head, g)
  {
  }

  lemma {:induction false} MergeUpto(head: Node, g: Graph, m: map<Key, Value>, ns: seq<Node>, k: nat)
    returns (next: Graph)
    requires WellFormed(head, g, m, null) && Path(g, ns) && Total(g, ns) <= NODE_MAX_SIZE && 0 < k <= |ns|
    ensures WellFormed(head, next, m, null) && Merged(g, next, ns[0], ns, k, Chars(g, ns[..k]))
  {
    hide WellFormed, Merged, Total;
    LinkedTree(head, g, m);
    if k == 1 {
      next := g;
      MergeFirst(head, g, ns[0], ns);
      assert ns[..1] == [ns[0]] && ns[..1][1..] == [];
      assert Chars(g, ns[..1]) == g[ns[0]].edges.chars + [] == g[ns[0]].edges.chars;
    } else {
      var before := MergeUpto(head, g, m, ns, k - 1);
      CharsTotal(g, ns[..k - 1]);
      TotalGrows(head, g, ns, k - 1);
      TotalGrows(head, g, ns, k);
      next := MergeNext(head, g, before, m, ns[0], ns, k - 1, Chars(g, ns[..k - 1]));
      assert ns[..k] == ns[..k - 1] + [ns[k - 1]];
      CharsPush(g, ns[..k - 1], ns[k - 1]);
    }
  }

  /** `next` is `g` with the chain `ns` merged into its first node, which holds the characters of
      the first `k` nodes. */
  ghost predicate Squeezed(g: Graph, next: Graph, ns: seq<Node>, k: nat) {
    && Maximal(g, ns) && 0 < k <= |ns| && |next| + |ns| == |g| + 1 && ns[0] in next
    && (forall n :: n in next ==> n in g)
    && (forall n :: n in next && n != ns[0] ==> SameFields(g[n], next[n]))
    && next[ns[0]].edges == Run(Chars(g, ns[..k]), g[ns[|ns| - 1]].edges.slots[0])
    && next[ns[0]].parent == g[ns[0]].parent && !next[ns[0]].isKey
  }

  /** A merge that keeps the first `k` nodes of a chain: the other keys lose the characters of the rest. */
  lemma Squeeze(head: Node, g: Graph, m: map<Key, Value>, ns: seq<Node>, k: nat) returns (next: Graph)
    requires WellFormed(head, g, m, null) && Maximal(g, ns) && 0 < k <= |ns| && Total(g, ns[..k]) <= NODE_MAX_SIZE
    ensures g[ns[k - 1]].edges.Ok() && Squeezed(g, next, ns, k)
    ensures var base, cut := Reach(g[ns[k - 1]], 0), Chars(g, ns[k..]);
            AllCut(m, base, cut) && WellFormed(head, next, Pulled(m, base, cut), null)
  {
    hide WellFormed, AllCut, Pulled, Merged, Total;
    CutFacts(head, g, m, ns, k);
    var mid := CutChain(head, g, m, ns, k);
    var some, m' := ns[..k], Pulled(m, Reach(g[ns[k - 1]], 0), Chars(g, ns[k..]));
    SameSize(g, mid, some);
    next := MergeUpto(head, mid, m', some, k);
    assert some[..k] == some;
    SqueezeFields(g, mid, next, ns, k);
  }

  lemma SameSize(g: Graph, g': Graph, ns: seq<Node>)
    requires forall k :: 0 <= k < |ns| ==> ns[k] in g && ns[k] in g' && g'[ns[k]].edges.chars == g[ns[k]].edges.chars
    ensures Chars(g', ns) == Chars(g, ns) && Total(g', ns) == Total(g, ns)
  {
    SameChars(g, g', ns);
    CharsTotal(g, ns);
    CharsTotal(g', ns);
  }

  lemma SqueezeFields(g: Graph, mid: Graph, next: Graph, ns: seq<Node>, k: nat)
    requires CutTo(g, mid, ns, k) && Merged(mid, next, ns[0], ns[..k], k, Chars(g, ns[..k]))
    ensures Squeezed(g, next, ns, k)
  {
    assert ns[..k][k - 1] == ns[k - 1] && ns[..k][0] == ns[0];
    assert k > 1 ==> ns[k - 1] !in next;
  }
}
