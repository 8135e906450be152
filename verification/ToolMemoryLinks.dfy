/** The memory itself: two indexes, a doubly linked list of entries in order of
    use, and blocks that share one text between all the entries that carry it. */
module ToolMemoryLinks {
  import opened Common
  import opened ToolMemoryList

  class Block {
    const dsml: string
    const bytes: nat
    var refs: nat
    var entries: Entry?

    constructor (dsml: string)
      ensures this.dsml == dsml && bytes == TextBytes(dsml) && refs == 0 && entries == null
    {
      this.dsml, bytes, refs, entries := dsml, |dsml| + 1 + BLOCK_SIZE, 0, null;
    }
  }

  class Entry {
    const id: string
    const block: Block
    const bytes: nat
    var stamp: nat
    var source: Source
    var prev: Entry?
    var next: Entry?
    var blockNext: Entry?

    constructor (id: string, block: Block, stamp: nat, source: Source)
      ensures this.id == id && this.block == block && bytes == EntryBytes(id)
      ensures this.stamp == stamp && this.source == source
      ensures prev == null && next == null && blockNext == null
    {
      this.id, this.block, bytes := id, block, |id| + 1 + ENTRY_SIZE;
      this.stamp, this.source, prev, next, blockNext := stamp, source, null, null, null;
    }
  }

  // The changing fields of an entry and of a block, as values.
  datatype EntryVal = EntryVal(prev: Entry?, next: Entry?, blockNext: Entry?, stamp: nat, source: Source)
  datatype BlockVal = BlockVal(refs: nat, entries: Entry?)

  type Entries = map<Entry, EntryVal>
  type Blocks = map<Block, BlockVal>

  ghost predicate Distinct(l: seq<Entry>) {
    forall i, j :: 0 <= i < j < |l| ==> l[i] != l[j]
  }

  ghost predicate Within(g: Entries, l: seq<Entry>) {
    forall i :: 0 <= i < |l| ==> l[i] in g
  }

  ghost function At(l: seq<Entry>, i: int): Entry? {
    if 0 <= i < |l| then l[i] else null
  }

  ghost predicate LinkedAt(g: Entries, l: seq<Entry>, i: nat)
    requires i < |l| && l[i] in g
  {
    g[l[i]].prev == At(l, i - 1) && g[l[i]].next == At(l, i + 1)
  }

  ghost predicate ChainedAt(g: Entries, l: seq<Entry>, i: nat)
    requires i < |l| && l[i] in g
  {
    g[l[i]].blockNext == At(l, i + 1)
  }

  /** `l` runs from `head` to `tail` and is linked both ways. */
  ghost predicate Linked(g: Entries, l: seq<Entry>, head: Entry?, tail: Entry?) {
    && Within(g, l)
    && Distinct(l)
    && (forall i {:trigger LinkedAt(g, l, i)} :: 0 <= i < |l| ==> LinkedAt(g, l, i))
    && head == At(l, 0)
    && tail == At(l, |l| - 1)
  }

  /** `l` starts at `first` and is linked one way by `blockNext`. */
  ghost predicate Chained(g: Entries, l: seq<Entry>, first: Entry?) {
    && Within(g, l)
    && Distinct(l)
    && (forall i {:trigger ChainedAt(g, l, i)} :: 0 <= i < |l| ==> ChainedAt(g, l, i))
    && first == At(l, 0)
  }

  lemma DistinctRemoved(l: seq<Entry>, i: nat)
    requires Distinct(l) && i < |l|
    ensures Distinct(Removed(l, i))
    ensures forall e :: e in l <==> e in Removed(l, i) || e == l[i]
    ensures l[i] !in Removed(l, i)
    ensures forall j :: 0 <= j < |l| && j != i ==> l[j] != l[i]
  {
  }

  lemma ToFrontParts(l: seq<Entry>, i: nat)
    requires i < |l|
    ensures ToFront(l, i) == [l[i]] + Removed(l, i)
    ensures i == 0 ==> ToFront(l, i) == l
  {
  }

  lemma ToFrontCovers(g: Entries, l: seq<Entry>, i: nat)
    requires Covers(g, l) && i < |l|
    ensures Covers(g, ToFront(l, i))
  {
    forall e | e in g
      ensures e in ToFront(l, i)
    {
      assert e in l;
    }
  }

  ghost predicate SameFields(g: Entries, g': Entries) {
    && g'.Keys == g.Keys
    && forall e :: e in g ==>
         g'[e].blockNext == g[e].blockNext && g'[e].stamp == g[e].stamp && g'[e].source == g[e].source
  }

  lemma SameTwice(g: Entries, g': Entries, g'': Entries)
    requires SameFields(g, g') && (g'' == g' || SameFields(g', g''))
    ensures SameFields(g, g'')
  {
  }

  lemma SameKeys(g: Entries, g': Entries)
    ensures SameFields(g, g')  ==> g.Keys == g'.Keys
    ensures g == g' ==> SameFields(g, g')
  {
  }

  ghost function WithPrev(g: Entries, e: Entry, p: Entry?): Entries
    requires e in g
  {
    g[e := g[e].(prev := p)]
  }

  ghost function WithNext(g: Entries, e: Entry, p: Entry?): Entries
    requires e in g
  {
    g[e := g[e].(next := p)]
  }

  /** The neighbours of an entry linked to each other. */
  ghost function Bypassed(g: Entries, e: Entry): Entries
    requires e in g && (g[e].prev != null ==> g[e].prev in g) && (g[e].next != null ==> g[e].next in g)
  {
    var g1 := if g[e].prev != null then WithNext(g, g[e].prev, g[e].next) else g;
    if g1[e].next == null || g1[e].next !in g1 then g1 else WithPrev(g1, g1[e].next, g1[e].prev)
  }

  ghost function Unlinked(g: Entries, e: Entry): Entries
    requires e in g && (g[e].prev != null ==> g[e].prev in g) && (g[e].next != null ==> g[e].next in g)
  {
    WithNext(WithPrev(Bypassed(g, e), e, null), e, null)
  }

  lemma BypassedSelf(g: Entries, e: Entry)
    requires e in g && (g[e].prev != null ==> g[e].prev in g) && (g[e].next != null ==> g[e].next in g)
    requires g[e].prev != e && g[e].next != e
    ensures e in Bypassed(g, e) && Bypassed(g, e)[e].prev == g[e].prev && Bypassed(g, e)[e].next == g[e].next
  {
  }

  /** Taking an entry out changes only the links that pointed to it. */
  lemma UnlinkedAt(g: Entries, e: Entry, x: Entry)
    requires e in g && g[e].prev != e && g[e].next != e && x in g && x != e
    requires (g[e].prev != null ==> g[e].prev in g) && (g[e].next != null ==> g[e].next in g)
    ensures x in Unlinked(g, e)
    ensures Unlinked(g, e)[x].prev == if x == g[e].next then g[e].prev else g[x].prev
    ensures Unlinked(g, e)[x].next == if x == g[e].prev then g[e].next else g[x].next
  {
  }

  lemma UnlinkedSame(g: Entries, e: Entry)
    requires e in g && (g[e].prev != null ==> g[e].prev in g) && (g[e].next != null ==> g[e].next in g)
    ensures SameFields(g, Unlinked(g, e))
  {
  }

  lemma UnlinkedLinks(g: Entries, l: seq<Entry>, head: Entry?, tail: Entry?, i: nat)
    requires Linked(g, l, head, tail) && i < |l|
    ensures g[l[i]].prev == At(l, i - 1) && g[l[i]].next == At(l, i + 1)
    ensures g[l[i]].prev != null ==> g[l[i]].prev in g
    ensures g[l[i]].next != null ==> g[l[i]].next in g
    ensures Linked(Unlinked(g, l[i]), Removed(l, i),
                   if i == 0 then g[l[i]].next else head, if i == |l| - 1 then g[l[i]].prev else tail)
    ensures SameFields(g, Unlinked(g, l[i]))
  {
    hide Unlinked, Removed, Distinct;
    DistinctRemoved(l, i);
    RemovedAt(l, i);
    assert LinkedAt(g, l, i);
    var l', g' := Removed(l, i), Unlinked(g, l[i]);
    UnlinkedSame(g, l[i]);
    forall k | 0 <= k < |l'|
      ensures l'[k] in g' && LinkedAt(g', l', k)
    {
      var j := if k < i then k else k + 1;
      assert l'[k] == l[j];
      UnlinkedAt(g, l[i], l[j]);
      assert LinkedAt(g, l, j);
      SameEntry(l, j, i - 1);
      SameEntry(l, j, i + 1);
    }
  }

  lemma LinkedEnds(g: Entries, l: seq<Entry>, head: Entry?, tail: Entry?, i: nat)
    requires Linked(g, l, head, tail) && i < |l|
    ensures Distinct(l) && (head == l[i] <==> i == 0)
    ensures l[i] in g && g[l[i]].prev != l[i] && g[l[i]].next != l[i]
    ensures g[l[i]].prev == null <==> i == 0
    ensures g[l[i]].next == null <==> i == |l| - 1
  {
    assert LinkedAt(g, l, i);
  }

  lemma SameEntry(l: seq<Entry>, j: nat, i: int)
    requires Distinct(l) && j < |l|
    ensures l[j] == At(l, i) <==> i == j
  {
  }

  ghost function Fronted(g: Entries, e: Entry, head: Entry?): Entries
    requires e in g && (head != null ==> head in g)
  {
    var g1 := WithNext(WithPrev(g, e, null), e, head);
    if head != null then WithPrev(g1, head, e) else g1
  }

  lemma FrontedLinks(g: Entries, l: seq<Entry>, head: Entry?, tail: Entry?, e: Entry)
    requires Linked(g, l, head, tail) && e in g && e !in l
    ensures head != null ==> head in g
    ensures Linked(Fronted(g, e, head), [e] + l, e, if head == null then e else tail)
    ensures SameFields(g, Fronted(g, e, head))
  {
    var l', g' := [e] + l, Fronted(g, e, head);
    forall k | 0 <= k < |l'|
      ensures LinkedAt(g', l', k)
    {
      if k > 0 { assert LinkedAt(g, l, k - 1); }
    }
  }

  /** The text index holds one block for each listed text, and each block chains
      exactly the entries that carry its text. */
  ghost predicate BlockOk(g: Entries, gb: Blocks, d: string, b: Block, list: seq<Entry>) {
    && b in gb
    && b.dsml == d
    && b.bytes == TextBytes(d)
    && Chained(g, list, gb[b].entries)
    && (forall i :: 0 <= i < |list| ==> list[i].block == b)
  }

  ghost predicate EntryOk(lists: map<string, seq<Entry>>, byBlock: map<string, Block>, e: Entry) {
    var d := e.block.dsml;
    d in byBlock && byBlock[d] == e.block && d in lists && e in lists[d]
  }

  ghost predicate BlocksOk(g: Entries, gb: Blocks, byBlock: map<string, Block>, lists: map<string, seq<Entry>>) {
    && lists.Keys == byBlock.Keys
    && (forall d {:trigger byBlock[d]} {:trigger lists[d]} :: d in byBlock ==> BlockOk(g, gb, d, byBlock[d], lists[d]))
    && (forall b {:trigger b in gb} :: b in gb ==> b.dsml in byBlock && byBlock[b.dsml] == b)
    && (forall e {:trigger e in g} :: e in g ==> EntryOk(lists, byBlock, e))
  }

  lemma BlocksSameChains(g: Entries, gb: Blocks, byBlock: map<string, Block>, lists: map<string, seq<Entry>>,
                         g': Entries)
    requires BlocksOk(g, gb, byBlock, lists) && g'.Keys == g.Keys
    requires forall e :: e in g ==> g'[e].blockNext == g[e].blockNext
    ensures BlocksOk(g', gb, byBlock, lists)
  {
    hide Distinct, EntryOk;
    forall d | d in byBlock
      ensures BlockOk(g', gb, d, byBlock[d], lists[d])
    {
      var list := lists[d];
      forall i | 0 <= i < |list|
        ensures ChainedAt(g', list, i)
      {
        assert ChainedAt(g, list, i);
      }
    }
  }

  lemma BlocksSame(g: Entries, gb: Blocks, byBlock: map<string, Block>, lists: map<string, seq<Entry>>, g': Entries)
    requires BlocksOk(g, gb, byBlock, lists) && SameFields(g, g')
    ensures BlocksOk(g', gb, byBlock, lists)
  {
    hide BlocksOk;
    BlocksSameChains(g, gb, byBlock, lists, g');
  }

  ghost function Unchained(g: Entries, prior: Entry?, e: Entry): Entries
    requires e in g && (prior != null ==> prior in g)
  {
    (if prior == null then g else g[prior := g[prior].(blockNext := g[e].blockNext)]) - {e}
  }

  ghost function UnchainedHead(g: Entries, gb: Blocks, prior: Entry?, e: Entry): Blocks
    requires e in g && e.block in gb
  {
    if prior == null then gb[e.block := gb[e.block].(entries := g[e].blockNext)] else gb
  }

  /** Taking an entry out of a chain. */
  lemma ChainRemoved(g: Entries, l: seq<Entry>, first: Entry?, k: nat)
    requires Chained(g, l, first) && k < |l|
    ensures At(l, k - 1) != null ==> At(l, k - 1) in g
    ensures Chained(Unchained(g, At(l, k - 1), l[k]), Removed(l, k), if k == 0 then g[l[k]].blockNext else first)
  {
    hide Removed, Distinct;
    DistinctRemoved(l, k);
    RemovedAt(l, k);
    assert ChainedAt(g, l, k);
    var l', g' := Removed(l, k), Unchained(g, At(l, k - 1), l[k]);
    forall i | 0 <= i < |l'|
      ensures l'[i] in g' && ChainedAt(g', l', i)
    {
      var j := if i < k then i else i + 1;
      assert l'[i] == l[j];
      assert ChainedAt(g, l, j);
      SameEntry(l, j, k - 1);
    }
  }

  /** Taking an entry out of one chain leaves the others as they were. */
  lemma ChainOther(g: Entries, l: seq<Entry>, first: Entry?, prior: Entry?, e: Entry)
    requires Chained(g, l, first) && e in g && e !in l && (prior != null ==> prior in g && prior !in l)
    ensures Chained(Unchained(g, prior, e), l, first)
  {
    forall i | 0 <= i < |l|
      ensures ChainedAt(Unchained(g, prior, e), l, i)
    {
      assert ChainedAt(g, l, i);
    }
  }

  lemma BlocksUnchained(g: Entries, gb: Blocks, byBlock: map<string, Block>, lists: map<string, seq<Entry>>, e: Entry,
                        k: nat)
    requires BlocksOk(g, gb, byBlock, lists) && e in g
    requires e.block.dsml in lists && k < |lists[e.block.dsml]| && lists[e.block.dsml][k] == e
    ensures e.block in gb && (At(lists[e.block.dsml], k - 1) != null ==> At(lists[e.block.dsml], k - 1) in g)
    ensures BlocksOk(Unchained(g, At(lists[e.block.dsml], k - 1), e),
                     UnchainedHead(g, gb, At(lists[e.block.dsml], k - 1), e), byBlock,
                     lists[e.block.dsml := Removed(lists[e.block.dsml], k)])
  {
    hide Chained, Unchained, Removed, Distinct;
    var d0 := e.block.dsml;
    var list := lists[d0];
    var prior := At(list, k - 1);
    assert EntryOk(lists, byBlock, e);
    assert BlockOk(g, gb, d0, byBlock[d0], list);
    ChainRemoved(g, list, gb[e.block].entries, k);
    assert list[k] == e;
    DistinctInChain(g, list, gb[e.block].entries);
    DistinctRemoved(list, k);
    UnchainedKeys(g, prior, e);
    RemovedAt(list, k);
    var g', gb', lists' := Unchained(g, prior, e), UnchainedHead(g, gb, prior, e), lists[d0 := Removed(list, k)];
    forall d | d in byBlock
      ensures BlockOk(g', gb', d, byBlock[d], lists'[d])
    {
      assert BlockOk(g, gb, d, byBlock[d], lists[d]);
      if d != d0 { ChainOther(g, lists[d], gb[byBlock[d]].entries, prior, e); }
    }
    forall x | x in g'
      ensures EntryOk(lists', byBlock, x)
    {
      assert x in g && EntryOk(lists, byBlock, x);
    }
  }

  lemma DistinctInChain(g: Entries, l: seq<Entry>, first: Entry?)
    requires Chained(g, l, first)
    ensures Distinct(l) && Within(g, l)
  {
  }

  /** The same blocks with the same counts. */
  ghost predicate SameBlocks(gb: Blocks, gb': Blocks) {
    gb'.Keys == gb.Keys && forall b :: b in gb ==> gb'[b].refs == gb[b].refs
  }

  ghost predicate SameOrder(g: Entries, g': Entries) {
    forall x :: x in g' ==>
      x in g && g'[x].prev == g[x].prev && g'[x].next == g[x].next && g'[x].stamp == g[x].stamp &&
        g'[x].source == g[x].source
  }

  lemma UnchainedKeys(g: Entries, prior: Entry?, e: Entry)
    requires e in g && (prior != null ==> prior in g)
    ensures Unchained(g, prior, e).Keys == g.Keys - {e}
    ensures SameOrder(g, Unchained(g, prior, e))
  {
  }

  ghost predicate RefsOk(gb: Blocks, lists: map<string, seq<Entry>>) {
    forall b :: b in gb ==> b.dsml in lists && gb[b].refs == |lists[b.dsml]|
  }

  ghost predicate Live(lists: map<string, seq<Entry>>) {
    forall d :: d in lists ==> lists[d] != []
  }

  /** The id index holds exactly the entries of the memory. */
  ghost predicate IdsOk(g: Entries, byId: map<string, Entry>) {
    && (forall id {:trigger byId[id]} :: id in byId ==> byId[id] in g && byId[id].id == id)
    && (forall e {:trigger e in g} :: e in g ==> e.id in byId && byId[e.id] == e)
    && (forall e {:trigger e in g} :: e in g ==> e.id != "" && e.bytes == EntryBytes(e.id))
  }

  ghost function Recs(g: Entries, l: seq<Entry>): (r: seq<Rec>)
    requires Within(g, l)
    ensures |r| == |l|
    ensures forall i :: 0 <= i < |l| ==> r[i] == Rec(l[i].id, l[i].block.dsml, g[l[i]].source)
  {
    seq(|l|, i requires 0 <= i < |l| => Rec(l[i].id, l[i].block.dsml, g[l[i]].source))
  }

  /** Stamps fall strictly from head to tail, none above the clock. */
  ghost predicate Falling(g: Entries, l: seq<Entry>, clock: nat)
    requires Within(g, l)
  {
    && (forall i, j :: 0 <= i < j < |l| ==> g[l[j]].stamp < g[l[i]].stamp)
    && (forall i :: 0 <= i < |l| ==> g[l[i]].stamp <= clock)
  }

  ghost predicate Covers(g: Entries, l: seq<Entry>) {
    && Within(g, l)
    && forall e :: e in g ==> e in l
  }

  /** A text is listed exactly when it has a block. */
  lemma TextHeld(g: Entries, gb: Blocks, byBlock: map<string, Block>, lists: map<string, seq<Entry>>, l: seq<Entry>,
                 d: string)
    requires BlocksOk(g, gb, byBlock, lists) && Covers(g, l)
    ensures HasText(Recs(g, l), d) <==> d in lists && lists[d] != []
  {
    var r := Recs(g, l);
    if HasText(r, d) {
      var i :| 0 <= i < |l| && r[i].dsml == d;
      assert l[i] in g && EntryOk(lists, byBlock, l[i]);
    }
    if d in lists && lists[d] != [] {
      assert BlockOk(g, gb, d, byBlock[d], lists[d]);
      var e := lists[d][0];
      assert e in g && e in l;
      var i :| 0 <= i < |l| && l[i] == e;
      assert r[i] in r;
    }
  }

  /** Moving an entry to the front under the next stamp keeps stamps falling. */
  lemma FallingMoved(g: Entries, l: seq<Entry>, clock: nat, i: nat, g': Entries)
    requires Within(g, l) && Falling(g, l, clock) && i < |l| && Distinct(l) && g'.Keys == g.Keys
    requires forall x :: x in g ==> g'[x].stamp == if x == l[i] then clock + 1 else g[x].stamp
    ensures Within(g', ToFront(l, i)) && Falling(g', ToFront(l, i), clock + 1)
  {
    hide ToFront, Distinct;
    DistinctRemoved(l, i);
    ToFrontAt(l, i);
  }

  lemma FallingRemoved(g: Entries, l: seq<Entry>, clock: nat, i: nat, g': Entries)
    requires Within(g, l) && Falling(g, l, clock) && i < |l| && Within(g', Removed(l, i))
    requires forall x :: x in g' ==> x in g && g'[x].stamp == g[x].stamp
    ensures Falling(g', Removed(l, i), clock)
  {
    hide Removed;
    RemovedAt(l, i);
  }

  lemma FallingAdded(g: Entries, l: seq<Entry>, clock: nat, e: Entry, g': Entries)
    requires Within(g, l) && Falling(g, l, clock) && e !in g && e in g' && g'[e].stamp == clock + 1
    requires forall x :: x in g ==> x in g' && g'[x].stamp == g[x].stamp
    ensures Within(g', [e] + l) && Falling(g', [e] + l, clock + 1)
  {
  }

  /** Adding an empty block. */
  lemma BlockAdded(g: Entries, gb: Blocks, byBlock: map<string, Block>, lists: map<string, seq<Entry>>, b: Block)
    requires BlocksOk(g, gb, byBlock, lists) && b !in gb && b.dsml !in byBlock && b.bytes == TextBytes(b.dsml)
    ensures BlocksOk(g, gb[b := BlockVal(0, null)], byBlock[b.dsml := b], lists[b.dsml := []])
    ensures RefsOk(gb, lists) ==> RefsOk(gb[b := BlockVal(0, null)], lists[b.dsml := []])
  {
    hide Chained;
    var gb', byBlock', lists' := gb[b := BlockVal(0, null)], byBlock[b.dsml := b], lists[b.dsml := []];
    assert Chained(g, [], null) by { EmptyChain(g); }
    forall d | d in byBlock'
      ensures BlockOk(g, gb', d, byBlock'[d], lists'[d])
    {
      if d != b.dsml { assert BlockOk(g, gb, d, byBlock[d], lists[d]); }
    }
    forall e | e in g
      ensures EntryOk(lists', byBlock', e)
    {
      assert EntryOk(lists, byBlock, e);
    }
  }

  lemma EmptyChain(g: Entries)
    ensures Chained(g, [], null)
  {
  }

  /** Dropping a block no entry carries. */
  lemma BlockDropped(g: Entries, gb: Blocks, byBlock: map<string, Block>, lists: map<string, seq<Entry>>, b: Block)
    requires BlocksOk(g, gb, byBlock, lists) && b in gb && lists[b.dsml] == []
    ensures BlocksOk(g, gb - {b}, byBlock - {b.dsml}, lists - {b.dsml})
  {
    hide Chained;
    var gb', byBlock', lists' := gb - {b}, byBlock - {b.dsml}, lists - {b.dsml};
    forall d | d in byBlock'
      ensures BlockOk(g, gb', d, byBlock'[d], lists'[d])
    {
      assert BlockOk(g, gb, d, byBlock[d], lists[d]);
    }
    forall e | e in g
      ensures EntryOk(lists', byBlock', e)
    {
      assert EntryOk(lists, byBlock, e);
    }
  }

  /** Putting an entry at the front of its block's chain. */
  lemma EntryChained(g: Entries, gb: Blocks, byBlock: map<string, Block>, lists: map<string, seq<Entry>>, e: Entry,
                     v: EntryVal)
    requires BlocksOk(g, gb, byBlock, lists) && e !in g && e.block in gb && v.blockNext == gb[e.block].entries
    ensures e.block.dsml in lists
    ensures BlocksOk(g[e := v], gb[e.block := gb[e.block].(refs := gb[e.block].refs + 1, entries := e)], byBlock,
                     lists[e.block.dsml := [e] + lists[e.block.dsml]])
  {
    hide Chained;
    var b, d0 := e.block, e.block.dsml;
    var g', gb', lists' := g[e := v], gb[b := gb[b].(refs := gb[b].refs + 1, entries := e)],
      lists[d0 := [e] + lists[d0]];
    assert BlockOk(g, gb, d0, byBlock[d0], lists[d0]);
    forall d | d in byBlock
      ensures BlockOk(g', gb', d, byBlock[d], lists'[d])
    {
      assert BlockOk(g, gb, d, byBlock[d], lists[d]);
      ChainWith(g, lists[d], gb[byBlock[d]].entries, e, v);
    }
    forall x | x in g'
      ensures EntryOk(lists', byBlock, x)
    {
      if x != e { assert EntryOk(lists, byBlock, x); }
    }
  }

  lemma ChainWith(g: Entries, l: seq<Entry>, first: Entry?, e: Entry, v: EntryVal)
    requires Chained(g, l, first) && e !in g
    ensures Chained(g[e := v], l, first)
    ensures v.blockNext == first ==> Chained(g[e := v], [e] + l, e)
  {
    var g', l' := g[e := v], [e] + l;
    forall i | 0 <= i < |l|
      ensures ChainedAt(g', l, i)
    {
      assert ChainedAt(g, l, i);
    }
    forall i | 0 <= i < |l'| && v.blockNext == first
      ensures ChainedAt(g', l', i)
    {
      if i > 0 { assert ChainedAt(g, l, i - 1); }
    }
  }

  ghost function Stamped(g: Entries, e: Entry, stamp: nat): Entries
    requires e in g
  {
    g[e := g[e].(stamp := stamp)]
  }

  lemma StampedLinks(g: Entries, l: seq<Entry>, head: Entry?, tail: Entry?, e: Entry, stamp: nat)
    requires e in g && Linked(g, l, head, tail)
    ensures Linked(Stamped(g, e, stamp), l, head, tail)
  {
    LinkedSame(g, l, head, tail, Stamped(g, e, stamp));
  }

  lemma StampedBlocks(g: Entries, gb: Blocks, byBlock: map<string, Block>, lists: map<string, seq<Entry>>,
                      byId: map<string, Entry>, e: Entry, stamp: nat)
    requires e in g && BlocksOk(g, gb, byBlock, lists) && IdsOk(g, byId)
    ensures BlocksOk(Stamped(g, e, stamp), gb, byBlock, lists) && IdsOk(Stamped(g, e, stamp), byId)
  {
    hide BlocksOk;
    BlocksSameChains(g, gb, byBlock, lists, Stamped(g, e, stamp));
  }

  lemma CoversSame(g: Entries, l: seq<Entry>, g': Entries)
    requires Covers(g, l) && g.Keys == g'.Keys
    ensures Covers(g', l)
  {
  }

  lemma RecsMoved(g: Entries, l: seq<Entry>, i: nat, g': Entries)
    requires i < |l| && Within(g, l) && Within(g', ToFront(l, i))
    requires forall x :: x in g ==> x in g' && g'[x].source == g[x].source
    ensures Recs(g', ToFront(l, i)) == ToFront(Recs(g, l), i)
  {
    hide ToFront;
    ToFrontAt(l, i);
    ToFrontAt(Recs(g, l), i);
  }

  lemma OrderMoved(g: Entries, l: seq<Entry>, clock: nat, i: nat, g': Entries)
    requires Covers(g, l) && Falling(g, l, clock) && i < |l| && Distinct(l)
    requires SameFields(Stamped(g, l[i], clock + 1), g')
    ensures Covers(g', ToFront(l, i)) && Falling(g', ToFront(l, i), clock + 1)
    ensures Recs(g', ToFront(l, i)) == ToFront(Recs(g, l), i)
    ensures Bytes(Recs(g', ToFront(l, i))) == Bytes(Recs(g, l))
  {
    hide ToFront, Distinct, Falling, Bytes, HasText, Recs;
    ToFrontCovers(g, l, i);
    CoversSame(g, ToFront(l, i), g');
    FallingMoved(g, l, clock, i, g');
    RecsMoved(g, l, i, g');
    RecsLength(g, l);
    BytesMoved(Recs(g, l), i);
  }

  /** An entry moved to the front under the next stamp. */
  lemma TouchKeeps(g: Entries, gb: Blocks, byBlock: map<string, Block>, lists: map<string, seq<Entry>>,
                   byId: map<string, Entry>, l: seq<Entry>, clock: nat, i: nat, g': Entries)
    requires Covers(g, l) && Falling(g, l, clock) && i < |l| && Distinct(l)
    requires BlocksOk(g, gb, byBlock, lists) && IdsOk(g, byId)
    requires SameFields(Stamped(g, l[i], clock + 1), g')
    ensures g'.Keys == g.Keys && |ToFront(l, i)| == |l|
    ensures Covers(g', ToFront(l, i)) && Falling(g', ToFront(l, i), clock + 1)
    ensures |Recs(g, l)| == |l| && Recs(g', ToFront(l, i)) == ToFront(Recs(g, l), i)
    ensures Bytes(Recs(g', ToFront(l, i))) == Bytes(Recs(g, l))
    ensures BlocksOk(g', gb, byBlock, lists) && IdsOk(g', byId)
  {
    hide Falling, Recs, ToFront, Bytes, BlocksOk, IdsOk, SameFields, Stamped, Distinct;
    var g1 := Stamped(g, l[i], clock + 1);
    SameKeys(g1, g');
    assert g1.Keys == g.Keys by { StampedKeys(g, l[i], clock + 1); }
    ToFrontLength(l, i);
    StampedBlocks(g, gb, byBlock, lists, byId, l[i], clock + 1);
    BlocksSame(g1, gb, byBlock, lists, g');
    IdsSame(g1, byId, g');
    RecsLength(g, l);
    OrderMoved(g, l, clock, i, g');
  }

  lemma StampedKeys(g: Entries, e: Entry, stamp: nat)
    requires e in g
    ensures Stamped(g, e, stamp).Keys == g.Keys
  {
  }

  lemma ToFrontLength(l: seq<Entry>, i: nat)
    requires i < |l|
    ensures |ToFront(l, i)| == |l|
  {
  }

  lemma RecsLength(g: Entries, l: seq<Entry>)
    requires Within(g, l)
    ensures |Recs(g, l)| == |l|
  {
  }

  lemma IdsSame(g: Entries, byId: map<string, Entry>, g': Entries)
    requires IdsOk(g, byId) && SameFields(g, g')
    ensures IdsOk(g', byId)
  {
  }

  lemma IdsRemoved(g: Entries, byId: map<string, Entry>, e: Entry, g': Entries)
    requires IdsOk(g, byId) && e in g && g'.Keys == g.Keys - {e}
    ensures IdsOk(g', byId - {e.id})
  {
  }

  /** What is left of the order when an entry has gone. */
  lemma OrderRemoved(g: Entries, l: seq<Entry>, clock: nat, i: nat, g': Entries)
    requires Covers(g, l) && Falling(g, l, clock) && i < |l| && Distinct(l)
    requires g'.Keys == g.Keys - {l[i]}
    requires forall x :: x in g' ==> g'[x].stamp == g[x].stamp && g'[x].source == g[x].source
    ensures Covers(g', Removed(l, i)) && Falling(g', Removed(l, i), clock)
    ensures |Recs(g, l)| == |l| && Recs(g', Removed(l, i)) == Removed(Recs(g, l), i)
  {
    hide Falling, Distinct;
    DistinctRemoved(l, i);
    var l' := Removed(l, i);
    forall k | 0 <= k < |l'|
      ensures l'[k] in g'
    {
      assert l'[k] in l';
    }
    FallingRemoved(g, l, clock, i, g');
    RemovedAt(l, i);
    RemovedAt(Recs(g, l), i);
    assert Recs(g', l') == Removed(Recs(g, l), i);
  }

  ghost function WithRefs(gb: Blocks, b: Block, refs: nat): Blocks
    requires b in gb
  {
    gb[b := gb[b].(refs := refs)]
  }

  lemma RefsKeepBlocks(g: Entries, gb: Blocks, byBlock: map<string, Block>, lists: map<string, seq<Entry>>, b: Block,
                       refs: nat)
    requires BlocksOk(g, gb, byBlock, lists) && b in gb
    ensures BlocksOk(g, WithRefs(gb, b, refs), byBlock, lists)
  {
    hide Chained, EntryOk;
    forall d | d in byBlock
      ensures BlockOk(g, WithRefs(gb, b, refs), d, byBlock[d], lists[d])
    {
      assert BlockOk(g, gb, d, byBlock[d], lists[d]);
    }
  }

  lemma BlockNamed(g: Entries, gb: Blocks, byBlock: map<string, Block>, lists: map<string, seq<Entry>>)
    requires BlocksOk(g, gb, byBlock, lists)
    ensures lists.Keys == byBlock.Keys
    ensures forall b :: b in gb ==> b.dsml in byBlock && byBlock[b.dsml] == b && b.bytes == TextBytes(b.dsml)
    ensures forall d :: d in byBlock ==> byBlock[d] in gb && byBlock[d].dsml == d
  {
    forall b | b in gb
      ensures b.bytes == TextBytes(b.dsml)
    {
      assert BlockOk(g, gb, b.dsml, byBlock[b.dsml], lists[b.dsml]);
    }
    forall d | d in byBlock
      ensures byBlock[d] in gb && byBlock[d].dsml == d
    {
      assert BlockOk(g, gb, d, byBlock[d], lists[d]);
    }
  }

  /** Every block counts its entries, but `b` one too many; only `b` may be left
      without an entry. */
  ghost predicate OneMore(gb: Blocks, lists: map<string, seq<Entry>>, b: Block) {
    && b in gb
    && b.dsml in lists
    && gb[b].refs == |lists[b.dsml]| + 1
    && (forall x :: x in gb && x != b ==> x.dsml in lists && gb[x].refs == |lists[x.dsml]|)
    && (forall d :: d in lists && d != b.dsml ==> lists[d] != [])
  }

  /** Dropping the reference, and the block with it when that was the last. */
  lemma Released(g: Entries, gb: Blocks, byBlock: map<string, Block>, lists: map<string, seq<Entry>>, b: Block)
    requires BlocksOk(g, gb, byBlock, lists) && OneMore(gb, lists, b)
    ensures gb[b].refs > 1 ==>
      && lists[b.dsml] != []
      && BlocksOk(g, WithRefs(gb, b, gb[b].refs - 1), byBlock, lists)
      && RefsOk(WithRefs(gb, b, gb[b].refs - 1), lists) && Live(lists)
    ensures gb[b].refs == 1 ==>
      && lists[b.dsml] == []
      && BlocksOk(g, WithRefs(gb, b, 0) - {b}, byBlock - {b.dsml}, lists - {b.dsml})
      && RefsOk(WithRefs(gb, b, 0) - {b}, lists - {b.dsml}) && Live(lists - {b.dsml})
  {
    hide BlocksOk;
    BlockNamed(g, gb, byBlock, lists);
    RefsKeepBlocks(g, gb, byBlock, lists, b, gb[b].refs - 1);
    if gb[b].refs == 1 { BlockDropped(g, WithRefs(gb, b, 0), byBlock, lists, b); }
  }

  /** One entry has left its chain and the order: what is still counted is its
      own bytes, and its text when no other entry carries it. */
  lemma RemovedCosts(g: Entries, l: seq<Entry>, i: nat, g': Entries, gb': Blocks, byBlock: map<string, Block>,
                     lists': map<string, seq<Entry>>)
    requires Within(g, l) && i < |l| && Covers(g', Removed(l, i)) && BlocksOk(g', gb', byBlock, lists')
    requires l[i].block.dsml in lists'
    requires |Recs(g, l)| == |l| && Recs(g', Removed(l, i)) == Removed(Recs(g, l), i)
    ensures Bytes(Recs(g, l)) == Bytes(Recs(g', Removed(l, i))) + EntryBytes(l[i].id)
                                 + if lists'[l[i].block.dsml] == [] then TextBytes(l[i].block.dsml) else 0
  {
    hide BlocksOk, Bytes, HasText, Removed, Covers;
    TextHeld(g', gb', byBlock, lists', Removed(l, i), l[i].block.dsml);
    BytesRemoved(Recs(g, l), i);
  }

  /** Taking an entry out of its chain leaves its block with one reference too
      many. */
  lemma RefsAfterUnchain(gb: Blocks, lists: map<string, seq<Entry>>, b: Block, k: nat, gb': Blocks)
    requires RefsOk(gb, lists) && Live(lists) && b in gb && SameBlocks(gb, gb')
    requires b.dsml in lists && k < |lists[b.dsml]|
    requires forall x :: x in gb && x != b ==> x.dsml != b.dsml
    ensures OneMore(gb', lists[b.dsml := Removed(lists[b.dsml], k)], b)
  {
  }

  lemma LinkedSame(g: Entries, l: seq<Entry>, head: Entry?, tail: Entry?, g': Entries)
    requires Linked(g, l, head, tail)
    requires forall x :: x in l ==> x in g && x in g' && g'[x].prev == g[x].prev && g'[x].next == g[x].next
    ensures Linked(g', l, head, tail)
  {
    hide Distinct;
    forall i | 0 <= i < |l|
      ensures l[i] in g' && LinkedAt(g', l, i)
    {
      assert l[i] in l && LinkedAt(g, l, i);
    }
  }

  ghost predicate Has(lists: map<string, seq<Entry>>, d: string, k: nat) {
    d in lists && k < |lists[d]|
  }

  /** The memory between an entry's leaving its chain and its block's release. */
  ghost predicate Loose(g: Entries, gb: Blocks, byBlock: map<string, Block>, lists: map<string, seq<Entry>>,
                        byId: map<string, Entry>,
                        l: seq<Entry>, head: Entry?, tail: Entry?, clock: nat, b: Block)
  {
    && Covers(g, l) && Falling(g, l, clock) && IdsOk(g, byId) && Linked(g, l, head, tail)
    && BlocksOk(g, gb, byBlock, lists) && OneMore(gb, lists, b)
  }

  lemma RemoveKeeps(g0: Entries, gb0: Blocks, byBlock: map<string, Block>, lists0: map<string, seq<Entry>>,
                    byId: map<string, Entry>, l: seq<Entry>, clock: nat, i: nat, k: nat,
                    g1: Entries, head: Entry?, tail: Entry?, g: Entries, gb: Blocks, lists: map<string, seq<Entry>>)
    requires Covers(g0, l) && Falling(g0, l, clock) && IdsOk(g0, byId) && i < |l| && Distinct(l)
    requires BlocksOk(g0, gb0, byBlock, lists0) && RefsOk(gb0, lists0) && Live(lists0)
    requires Linked(g1, Removed(l, i), head, tail) && SameFields(g0, g1)
    requires l[i] in g0 && g.Keys == g0.Keys - {l[i]} && SameOrder(g1, g)
    requires l[i].block in gb0 && SameBlocks(gb0, gb) && Has(lists0, l[i].block.dsml, k)
    requires lists == lists0[l[i].block.dsml := Removed(lists0[l[i].block.dsml], k)]
    requires BlocksOk(g, gb, byBlock, lists)
    ensures Loose(g, gb, byBlock, lists, byId - {l[i].id}, Removed(l, i), head, tail, clock, l[i].block)
    ensures Covers(g, Removed(l, i))
    ensures |Recs(g0, l)| == |l| && Recs(g, Removed(l, i)) == Removed(Recs(g0, l), i)
    ensures Bytes(Recs(g0, l)) == Bytes(Recs(g, Removed(l, i))) + EntryBytes(l[i].id)
                                  + if lists[l[i].block.dsml] == [] then TextBytes(l[i].block.dsml) else 0
  {
    hide Linked, Falling, IdsOk, BlocksOk, RefsOk, Live, SameBlocks, Bytes, Recs, Removed, Distinct, OneMore;
    IdsRemoved(g0, byId, l[i], g);
    OrderRemoved(g0, l, clock, i, g);
    LinkedSame(g1, Removed(l, i), head, tail, g);
    RemovedCosts(g0, l, i, g, gb, byBlock, lists);
    BlockNamed(g0, gb0, byBlock, lists0);
    RefsAfterUnchain(gb0, lists0, l[i].block, k, gb);
  }

  lemma EntryKnown(g: Entries, gb: Blocks, byBlock: map<string, Block>, lists: map<string, seq<Entry>>,
                   byId: map<string, Entry>, e: Entry)
    requires BlocksOk(g, gb, byBlock, lists) && IdsOk(g, byId) && e in g
    ensures e.block in gb && e.bytes == EntryBytes(e.id)
  {
    assert EntryOk(lists, byBlock, e);
    assert BlockOk(g, gb, e.block.dsml, byBlock[e.block.dsml], lists[e.block.dsml]);
  }

  lemma RemovedLength(l: seq<Entry>, i: nat)
    requires i < |l|
    ensures |Removed(l, i)| == |l| - 1
  {
  }

  ghost function Index(l: seq<Entry>, e: Entry): (i: nat)
    requires e in l
    ensures i < |l| && l[i] == e
  {
    if l[0] == e then 0 else 1 + Index(l[1..], e)
  }

  /** The id index finds the record of an id, if there is one. */
  lemma IdIndexed(g: Entries, byId: map<string, Entry>, l: seq<Entry>, id: string)
    requires IdsOk(g, byId) && Covers(g, l) && Distinct(l)
    ensures |Recs(g, l)| == |l| && UniqueIds(Recs(g, l))
    ensures id in byId <==> IndexOf(Recs(g, l), id) < |l|
    ensures id in byId ==> l[IndexOf(Recs(g, l), id)] == byId[id]
    ensures id == "" ==> id !in byId
  {
    var r := Recs(g, l);
    var i := IndexOf(r, id);
    if id in byId {
      var e := byId[id];
      var k := Index(l, e);
      assert r[k].id == id;
      assert byId[l[i].id] == l[i];
    }
    if i < |l| { assert l[i] in g && r[i].id == l[i].id; }
    forall j, k | 0 <= j < k < |l|
      ensures r[j].id != r[k].id
    {
      assert l[j] in g && l[k] in g;
      assert byId[l[j].id] == l[j] && byId[l[k].id] == l[k];
    }
  }

  lemma LinkedDistinct(g: Entries, l: seq<Entry>, head: Entry?, tail: Entry?)
    requires Linked(g, l, head, tail)
    ensures Distinct(l)
  {
  }

  /** Every block counts its entries, and only the block of `d` may have none. */
  ghost predicate LiveBut(lists: map<string, seq<Entry>>, d: string) {
    forall x :: x in lists && x != d ==> lists[x] != []
  }

  ghost function WithEntry(g: Entries, e: Entry, first: Entry?, stamp: nat, source: Source): Entries {
    g[e := EntryVal(null, null, first, stamp, source)]
  }

  ghost function WithFirst(gb: Blocks, e: Entry): Blocks
    requires e.block in gb
  {
    gb[e.block := BlockVal(gb[e.block].refs + 1, e)]
  }

  /** The memory with a new entry that is chained and indexed but not yet in the
      order. */
  ghost predicate Half(g: Entries, gb: Blocks, byBlock: map<string, Block>, lists: map<string, seq<Entry>>,
                       byId: map<string, Entry>,
                       l: seq<Entry>, head: Entry?, tail: Entry?, e: Entry)
  {
    && BlocksOk(g, gb, byBlock, lists) && RefsOk(gb, lists) && Live(lists) && IdsOk(g, byId)
    && Linked(g, l, head, tail) && Covers(g, [e] + l) && e !in l
  }

  /** A new entry, chained but not yet in the order. */
  lemma EntryAdded(g: Entries, gb: Blocks, byBlock: map<string, Block>, lists: map<string, seq<Entry>>,
                   byId: map<string, Entry>,
                   l: seq<Entry>, head: Entry?, tail: Entry?, e: Entry, stamp: nat, source: Source)
    requires BlocksOk(g, gb, byBlock, lists) && RefsOk(gb, lists) && LiveBut(lists, e.block.dsml) && IdsOk(g, byId)
    requires Linked(g, l, head, tail) && Covers(g, l)
    requires e !in g && e.block in gb && e.id !in byId && e.id != "" && e.bytes == EntryBytes(e.id)
    ensures e.block.dsml in lists
    ensures WithEntry(g, e, gb[e.block].entries, stamp, source).Keys == g.Keys + {e}
    ensures WithFirst(gb, e).Keys == gb.Keys
    ensures Half(WithEntry(g, e, gb[e.block].entries, stamp, source), WithFirst(gb, e), byBlock,
                 lists[e.block.dsml := [e] + lists[e.block.dsml]], byId[e.id := e], l, head, tail, e)
  {
    hide BlocksOk, Distinct;
    BlockNamed(g, gb, byBlock, lists);
    EntryChained(g, gb, byBlock, lists, e, EntryVal(null, null, gb[e.block].entries, stamp, source));
    var g' := WithEntry(g, e, gb[e.block].entries, stamp, source);
    assert gb[e.block := gb[e.block].(refs := gb[e.block].refs + 1, entries := e)] == WithFirst(gb, e);
    forall i | 0 <= i < |l|
      ensures LinkedAt(g', l, i)
    {
      assert LinkedAt(g, l, i);
    }
  }

  /** The new entry at the front of the order. */
  lemma OrderAdded(g: Entries, l: seq<Entry>, clock: nat, e: Entry, first: Entry?, source: Source, g': Entries,
                   gb: Blocks, byBlock: map<string, Block>, lists: map<string, seq<Entry>>)
    requires Covers(g, l) && Falling(g, l, clock) && e !in g
    requires SameFields(WithEntry(g, e, first, clock + 1, source), g') && Covers(g', [e] + l)
    requires BlocksOk(g, gb, byBlock, lists) && LiveBut(lists, e.block.dsml)
    ensures Falling(g', [e] + l, clock + 1)
    ensures Recs(g', [e] + l) == [Rec(e.id, e.block.dsml, source)] + Recs(g, l)
    ensures Bytes(Recs(g', [e] + l)) == Bytes(Recs(g, l)) + EntryBytes(e.id)
            + if e.block.dsml in lists && lists[e.block.dsml] != [] then 0 else TextBytes(e.block.dsml)
  {
    hide BlocksOk, Bytes, HasText, Falling, Recs, Removed;
    FallingAdded(g, l, clock, e, g');
    RecsAdded(g, l, e, first, clock + 1, source, g');
    BytesRemoved(Recs(g', [e] + l), 0);
    TextHeld(g, gb, byBlock, lists, l, e.block.dsml);
  }

  lemma RecsAdded(g: Entries, l: seq<Entry>, e: Entry, first: Entry?, stamp: nat, source: Source, g': Entries)
    requires Within(g, l) && e !in g && Within(g', [e] + l)
    requires SameFields(WithEntry(g, e, first, stamp, source), g')
    ensures |Recs(g, l)| == |l| && |Recs(g', [e] + l)| == |l| + 1
    ensures Recs(g', [e] + l) == [Rec(e.id, e.block.dsml, source)] + Recs(g, l)
    ensures Removed(Recs(g', [e] + l), 0) == Recs(g, l)
  {
    var r := Recs(g', [e] + l);
    assert r == [Rec(e.id, e.block.dsml, source)] + Recs(g, l);
    assert Removed(r, 0) == r[1..];
  }

  /** A new entry brought to the front: everything else the memory keeps. */
  lemma AddKeeps(g0: Entries, l: seq<Entry>, clock: nat, e: Entry, first: Entry?, source: Source, g: Entries,
                 gb1: Blocks, lists1: map<string, seq<Entry>>, byBlock: map<string, Block>,
                 gb: Blocks, lists: map<string, seq<Entry>>, byId: map<string, Entry>)
    requires Covers(g0, l) && Falling(g0, l, clock) && e !in g0
    requires BlocksOk(g0, gb1, byBlock, lists1) && LiveBut(lists1, e.block.dsml)
    requires var g1 := WithEntry(g0, e, first, clock + 1, source);
             && SameFields(g1, g) && Covers(g1, [e] + l)
             && BlocksOk(g1, gb, byBlock, lists) && IdsOk(g1, byId)
    ensures g.Keys == g0.Keys + {e}
    ensures Covers(g, [e] + l) && Falling(g, [e] + l, clock + 1)
    ensures BlocksOk(g, gb, byBlock, lists) && IdsOk(g, byId)
    ensures Recs(g, [e] + l) == [Rec(e.id, e.block.dsml, source)] + Recs(g0, l)
    ensures Bytes(Recs(g, [e] + l)) == Bytes(Recs(g0, l)) + EntryBytes(e.id)
            + if e.block.dsml in lists1 && lists1[e.block.dsml] != [] then 0 else TextBytes(e.block.dsml)
  {
    hide BlocksOk, Bytes, Falling, Recs, IdsOk, LiveBut, SameFields;
    var g1 := WithEntry(g0, e, first, clock + 1, source);
    SameKeys(g1, g);
    CoversSame(g1, [e] + l, g);
    BlocksSame(g1, gb, byBlock, lists, g);
    IdsSame(g1, byId, g);
    OrderAdded(g0, l, clock, e, first, source, g, gb1, byBlock, lists1);
  }

  ghost function Sourced(g: Entries, e: Entry, source: Source): Entries
    requires e in g
  {
    g[e := g[e].(source := source)]
  }

  /** Changing where an entry came from changes nothing else. */
  lemma SourcedKeeps(g: Entries, gb: Blocks, byBlock: map<string, Block>, lists: map<string, seq<Entry>>,
                     byId: map<string, Entry>,
                     l: seq<Entry>, head: Entry?, tail: Entry?, clock: nat, i: nat, source: Source)
    requires BlocksOk(g, gb, byBlock, lists) && IdsOk(g, byId)
    requires Linked(g, l, head, tail) && Covers(g, l) && Falling(g, l, clock) && i < |l|
    ensures var g' := Sourced(g, l[i], source);
            && BlocksOk(g', gb, byBlock, lists) && IdsOk(g', byId)
            && Linked(g', l, head, tail) && Covers(g', l) && Falling(g', l, clock)
            && |Recs(g, l)| == |l| && Recs(g', l) == Recs(g, l)[i := Recs(g, l)[i].(source := source)]
            && Bytes(Recs(g', l)) == Bytes(Recs(g, l))
  {
    hide BlocksOk, Bytes, HasText;
    var g', r := Sourced(g, l[i], source), Recs(g, l);
    BlocksSameChains(g, gb, byBlock, lists, g');
    LinkedSame(g, l, head, tail, g');
    assert Recs(g', l) == r[i := r[i].(source := source)] by { LinkedDistinct(g, l, head, tail); }
    BytesRemoved(r, i);
    BytesRemoved(Recs(g', l), i);
    assert Removed(r, i) == Removed(Recs(g', l), i);
  }
}
