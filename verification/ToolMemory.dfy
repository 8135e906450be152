/** The memory of sampled tool calls. */
module ToolMemory {
  import opened Common
  import opened ToolMemoryList
  import opened ToolMemoryLinks

  class Memory {
    var byId: map<string, Entry>
    var byBlock: map<string, Block>
    var head: Entry?
    var tail: Entry?
    var entries: nat
    const maxEntries: int
    var bytes: nat
    const maxBytes: int
    var clock: nat

    // The changing fields of every live entry and block, the entries from head
    // to tail, and the entries of each block.
    ghost var g: Entries
    ghost var gb: Blocks
    ghost var lru: seq<Entry>
    ghost var lists: map<string, seq<Entry>>

    function MaxIds(): nat {
      if maxEntries > 0 then maxEntries else DEFAULT_MAX_IDS
    }

    function MaxBytes(): nat {
      if maxBytes > 0 then maxBytes else DEFAULT_MAX_BYTES
    }

    ghost predicate Mirrors()
      reads `g, `gb, g.Keys, gb.Keys
    {
      && (forall e {:trigger e in g} :: e in g ==>
            && e.prev == g[e].prev && e.next == g[e].next && e.blockNext == g[e].blockNext
            && e.stamp == g[e].stamp && e.source == g[e].source)
      && (forall b {:trigger b in gb} :: b in gb ==> b.refs == gb[b].refs && b.entries == gb[b].entries)
    }

    ghost predicate Shape()
      reads this
    {
      && Linked(g, lru, head, tail)
      && Covers(g, lru)
      && Falling(g, lru, clock)
      && IdsOk(g, byId)
      && BlocksOk(g, gb, byBlock, lists)
      && RefsOk(gb, lists)
      && Live(lists)
      && entries == |lru|
      && bytes == Bytes(Recs(g, lru))
    }

    ghost predicate Valid()
      reads this, g.Keys, gb.Keys
    {
      Mirrors() && Shape()
    }

    ghost function Listed(): seq<Rec>
      reads `g, `lru
      requires Covers(g, lru)
    {
      Recs(g, lru)
    }

    ghost function Contents(): seq<Rec>
      reads this
      requires Shape()
    {
      Listed()
    }

    constructor (maxEntries: int, maxBytes: int)
      ensures Valid() && Contents() == []
      ensures this.maxEntries == maxEntries && this.maxBytes == maxBytes
    {
      byId, byBlock, head, tail, entries, bytes, clock := map[], map[], null, null, 0, 0, 0;
      this.maxEntries, this.maxBytes := maxEntries, maxBytes;
      g, gb, lru, lists := map[], map[], [], map[];
    }

    method SetPrev(e: Entry, p: Entry?)
      requires Mirrors() && e in g
      modifies `g, e`prev
      ensures Mirrors() && g == WithPrev(old(g), e, p) && g.Keys == old(g).Keys
    {
      e.prev := p;
      g := WithPrev(g, e, p);
    }

    method SetNext(e: Entry, p: Entry?)
      requires Mirrors() && e in g
      modifies `g, e`next
      ensures Mirrors() && g == WithNext(old(g), e, p) && g.Keys == old(g).Keys
    {
      e.next := p;
      g := WithNext(g, e, p);
    }

    method LinkHead(e: Entry)
      requires Mirrors() && Linked(g, lru, head, tail) && e in g && e !in lru
      modifies `head, `tail, `lru, `g, g.Keys`prev, g.Keys`next
      ensures Mirrors() && Linked(g, lru, head, tail)
      ensures lru == [e] + old(lru) && SameFields(old(g), g)
    {
      hide Mirrors, Linked, SameFields, WithPrev, WithNext;
      FrontedLinks(g, lru, head, tail, e);
      SetPrev(e, null);
      SetNext(e, head);
      if head != null { SetPrev(head, e); } else { tail := e; }
      head := e;
      lru := [e] + lru;
    }

    /** Links the neighbours of an entry to each other. */
    method Bypass(e: Entry)
      requires Mirrors() && e in g && (g[e].prev != null ==> g[e].prev in g) && (g[e].next != null ==> g[e].next in g)
      modifies `head, `tail, `g, g.Keys`prev, g.Keys`next
      ensures Mirrors() && g == Bypassed(old(g), e) && g.Keys == old(g).Keys
      ensures head == if old(g)[e].prev == null then old(g)[e].next else old(head)
      ensures tail == if g[e].next == null then g[e].prev else old(tail)
    {
      hide Mirrors;
      MirrorsAt(e);
      if e.prev != null { SetNext(e.prev, e.next); } else { head := e.next; }
      MirrorsAt(e);
      if e.next != null { SetPrev(e.next, e.prev); } else { tail := e.prev; }
      MirrorsAt(e);
    }

    method Unlink(e: Entry, ghost i: nat)
      requires Mirrors() && Linked(g, lru, head, tail) && i < |lru| && e == lru[i]
      modifies `head, `tail, `lru, `g, g.Keys`prev, g.Keys`next
      ensures e in g && Mirrors() && Linked(g, lru, head, tail)
      ensures lru == Removed(old(lru), i) && e !in lru && SameFields(old(g), g)
    {
      hide Mirrors, Linked, SameFields, Removed, Distinct, Bypassed;
      UnlinkedLinks(g, lru, head, tail, i);
      LinkedEnds(g, lru, head, tail, i);
      DistinctRemoved(lru, i);
      BypassedSelf(g, e);
      Bypass(e);
      SetPrev(e, null);
      SetNext(e, null);
      lru := Removed(lru, i);
    }

    method SetStamp(e: Entry, stamp: nat)
      requires Mirrors() && e in g
      modifies `g, e`stamp
      ensures Mirrors() && g == Stamped(old(g), e, stamp) && g.Keys == old(g.Keys)
    {
      e.stamp := stamp;
      g := Stamped(g, e, stamp);
    }

    method MoveToFront(e: Entry, ghost i: nat)
      requires Mirrors() && Linked(g, lru, head, tail) && i < |lru| && e == lru[i]
      modifies `head, `tail, `lru, `g, g.Keys`prev, g.Keys`next
      ensures Mirrors() && Linked(g, lru, head, tail)
      ensures lru == ToFront(old(lru), i) && SameFields(old(g), g)
    {
      hide *;
      ghost var g1 := g;
      LinkedEnds(g, lru, head, tail, i);
      ToFrontParts(lru, i);
      if head != e {
        Unlink(e, i);
        ghost var g2 := g;
        SameKeys(g1, g2);
        LinkHead(e);
        SameTwice(g1, g2, g);
      }
      SameKeys(g1, g);
    }

    method Touch(e: Entry, ghost i: nat)
      requires Valid() && i < |lru| && e == lru[i]
      modifies `head, `tail, `lru, `clock, `g, g.Keys`prev, g.Keys`next, g.Keys`stamp
      ensures Valid() && g.Keys == old(g.Keys)
      ensures Contents() == old(ToFront(Contents(), i))
      ensures lru == ToFront(old(lru), i)
    {
      hide Mirrors, Linked, Bytes, Falling, ToFront, BlocksOk, RefsOk, Live, IdsOk, Distinct, SameFields, Covers,
        Recs, Stamped;
      ghost var g0, l := g, lru;
      LinkedEnds(g, lru, head, tail, i);
      StampedLinks(g, l, head, tail, e, clock + 1);
      clock := clock + 1;
      SetStamp(e, clock);
      MoveToFront(e, i);
      TouchKeeps(g0, gb, byBlock, lists, byId, l, old(clock), i, g);
    }

    method SetBlockNext(e: Entry, p: Entry?)
      requires Mirrors() && e in g
      modifies `g, e`blockNext
      ensures Mirrors() && g == old(g)[e := old(g)[e].(blockNext := p)]
    {
      e.blockNext := p;
      g := g[e := g[e].(blockNext := p)];
    }

    method SetEntries(b: Block, p: Entry?)
      requires Mirrors() && b in gb
      modifies `gb, b`entries
      ensures Mirrors() && gb == old(gb)[b := old(gb)[b].(entries := p)]
    {
      b.entries := p;
      gb := gb[b := gb[b].(entries := p)];
    }

    /** The entry leaves the chains. */
    method Leave(e: Entry)
      requires Mirrors()
      modifies `g, e`blockNext
      ensures Mirrors() && g == old(g) - {e}
    {
      g := g - {e};
      e.blockNext := null;
    }

    /** Walks a block's chain to the entry before `e`. */
    method FindLink(b: Block, e: Entry, ghost list: seq<Entry>, ghost k: nat) returns (found: bool, prior: Entry?)
      requires Mirrors() && b in gb && Chained(g, list, gb[b].entries) && k < |list| && list[k] == e
      ensures found && prior == At(list, k - 1)
    {
      hide Mirrors, Chained;
      var cur := b.entries;
      prior := null;
      ghost var j: nat := 0;
      ChainFirst(b, list);
      while cur != null && cur != e
        invariant j <= k && cur == list[j] && prior == At(list, j - 1)
        decreases k - j
      {
        ChainNext(list, gb[b].entries, k, j);
        prior := cur;
        cur := cur.blockNext;
        j := j + 1;
      }
      found := cur != null;
      ChainUnique(list, gb[b].entries, k, j);
    }

    lemma MirrorsAt(e: Entry)
      requires Mirrors() && e in g
      ensures e.blockNext == g[e].blockNext && e.prev == g[e].prev && e.next == g[e].next
    {
    }

    lemma ChainFirst(b: Block, list: seq<Entry>)
      requires Mirrors() && b in gb && Chained(g, list, gb[b].entries) && list != []
      ensures b.entries == list[0]
    {
    }

    /** Takes an entry out of its block's chain; the entry is then no longer part
        of the memory. */
    method BlockUnlinkEntry(b: Block, e: Entry) returns (ghost k: nat)
      requires Mirrors() && BlocksOk(g, gb, byBlock, lists) && e in g && b == e.block
      modifies `g, `gb, `lists, g.Keys`blockNext, b`entries
      ensures Mirrors() && BlocksOk(g, gb, byBlock, lists)
      ensures g.Keys == old(g.Keys) - {e} && SameOrder(old(g), g)
      ensures SameBlocks(old(gb), gb) && gb.Keys == old(gb).Keys
      ensures Has(old(lists), b.dsml, k)
      ensures b.dsml in old(lists) && k < |old(lists)[b.dsml]|
      ensures lists == old(lists)[b.dsml := Removed(old(lists)[b.dsml], k)]
    {
      hide Mirrors, BlocksOk, Chained, SameOrder, Removed;
      ghost var list;
      list, k := ChainOf(e);
      var found, prior := FindLink(b, e, list, k);
      if found {
        BlocksUnchained(g, gb, byBlock, lists, e, k);
        UnchainedKeys(g, prior, e);
        MirrorsAt(e);
        if prior != null { SetBlockNext(prior, e.blockNext); } else { SetEntries(b, e.blockNext); }
        Leave(e);
        lists := lists[b.dsml := Removed(list, k)];
        assert Has(old(lists), b.dsml, k);
      }
    }

    lemma ChainOf(e: Entry) returns (list: seq<Entry>, k: nat)
      requires BlocksOk(g, gb, byBlock, lists) && e in g
      ensures e.block in gb && e.block.dsml in lists && list == lists[e.block.dsml] && k < |list| && list[k] == e
      ensures Chained(g, list, gb[e.block].entries)
    {
      assert EntryOk(lists, byBlock, e);
      list := lists[e.block.dsml];
      assert BlockOk(g, gb, e.block.dsml, byBlock[e.block.dsml], list);
      k :| 0 <= k < |list| && list[k] == e;
    }

    lemma ChainNext(list: seq<Entry>, first: Entry?, k: nat, j: nat)
      requires Mirrors() && Chained(g, list, first) && j <= k < |list| && list[j] != list[k]
      ensures list[j] in g && j + 1 < |list| && list[j].blockNext == list[j + 1]
    {
      assert ChainedAt(g, list, j);
    }

    lemma ChainUnique(list: seq<Entry>, first: Entry?, k: nat, j: nat)
      requires Chained(g, list, first) && j <= k < |list| && list[j] == list[k]
      ensures j == k && Within(g, list)
    {
    }

    /** One entry less for a block, which goes when it was the last. */
    method ReleaseBlock(b: Block)
      requires Mirrors() && BlocksOk(g, gb, byBlock, lists) && OneMore(gb, lists, b)
      requires lists[b.dsml] == [] ==> TextBytes(b.dsml) <= bytes
      modifies `gb, `byBlock, `lists, `bytes, b`refs
      ensures gb.Keys <= old(gb).Keys
      ensures Mirrors() && BlocksOk(g, gb, byBlock, lists) && RefsOk(gb, lists) && Live(lists)
      ensures bytes == old(bytes) - if old(lists)[b.dsml] == [] then TextBytes(b.dsml) else 0
    {
      hide Mirrors, BlocksOk, RefsOk, Live;
      BlockNamed(g, gb, byBlock, lists);
      Released(g, gb, byBlock, lists, b);
      DropRef(b);
      if b.refs > 0 { return; }
      byBlock := byBlock - {b.dsml};
      ForgetBlock(b);
      lists := lists - {b.dsml};
      bytes := Minus(bytes, b.bytes);
    }

    ghost method ForgetBlock(b: Block)
      requires Mirrors()
      modifies `gb
      ensures Mirrors() && gb == old(gb) - {b}
    {
      gb := gb - {b};
    }

    method DropRef(b: Block)
      requires Mirrors() && b in gb && gb[b].refs > 0
      modifies `gb, b`refs
      ensures b in gb
      ensures Mirrors() && gb == WithRefs(old(gb), b, old(gb)[b].refs - 1) && b.refs == gb[b].refs
    {
      b.refs := b.refs - 1;
      gb := WithRefs(gb, b, b.refs);
    }

    /** `e` leaves the index by id and the list. */
    method LeaveList(e: Entry, ghost i: nat)
      requires Valid() && i < |lru| && e == lru[i]
      modifies `byId, `head, `tail, `g, `lru, g.Keys`prev, g.Keys`next
      ensures Mirrors() && Linked(g, lru, head, tail) && e in g && g.Keys == old(g.Keys)
      ensures lru == Removed(old(lru), i) && byId == old(byId) - {e.id} && SameFields(old(g), g)
      ensures BlocksOk(g, gb, byBlock, lists)
    {
      hide Mirrors, Linked, Falling, IdsOk, BlocksOk, RefsOk, Live, SameFields, Bytes, Recs, Removed, Covers, Distinct;
      ghost var g0 := g;
      LinkedEnds(g, lru, head, tail, i);
      byId := byId - {e.id};
      Unlink(e, i);
      BlocksSame(g0, gb, byBlock, lists, g);
      SameKeys(g0, g);
    }

    /** Takes an entry out of the id index, the order and its chain. */
    method Detach(e: Entry, ghost i: nat)
      requires Valid() && i < |lru| && e == lru[i]
      modifies `byId, `head, `tail, `g, `gb, `lru, `lists
      modifies g.Keys`prev, g.Keys`next, g.Keys`blockNext, gb.Keys`entries
      ensures Mirrors() && lru == Removed(old(lru), i)
      ensures g.Keys == old(g).Keys - {e} && gb.Keys == old(gb).Keys
      ensures Loose(g, gb, byBlock, lists, byId, lru, head, tail, clock, e.block)
      ensures Covers(g, lru) && e.block.dsml in lists
      ensures Listed() == Removed(old(Contents()), i)
      ensures bytes
           == Bytes(Listed()) + EntryBytes(e.id) + if lists[e.block.dsml] == [] then TextBytes(e.block.dsml) else 0
    {
      hide Mirrors, Linked, Falling, IdsOk, BlocksOk, RefsOk, Live, SameFields, SameOrder, SameBlocks, Bytes, Recs,
        Removed, Covers, Has, OneMore, Distinct, Loose;
      ghost var g0, gb0, l := g, gb, lru;
      LinkedEnds(g, lru, head, tail, i);
      EntryKnown(g, gb, byBlock, lists, byId, e);
      LeaveList(e, i);
      ghost var g1 := g;
      ghost var k := BlockUnlinkEntry(e.block, e);
      RemoveKeeps(g0, gb0, byBlock, old(lists), old(byId), l, clock, i, k, g1, head, tail, g, gb, lists);
    }

    /** Forgets one entry, and its text when no other entry carries it. */
    method RemoveEntry(e: Entry, ghost i: nat)
      requires Valid() && i < |lru| && e == lru[i]
      modifies `byId, `byBlock, `head, `tail, `entries, `bytes, `g, `gb, `lru, `lists
      modifies g.Keys`prev, g.Keys`next, g.Keys`blockNext, gb.Keys`refs, gb.Keys`entries
      ensures Valid() && Contents() == Removed(old(Contents()), i)
      ensures g.Keys == old(g).Keys - {e} && gb.Keys <= old(gb).Keys
      ensures lru == Removed(old(lru), i)
    {
      hide Mirrors, Linked, Falling, IdsOk, BlocksOk, RefsOk, Live, Bytes, Recs, Removed, Covers, OneMore;
      LinkedEnds(g, lru, head, tail, i);
      EntryKnown(g, gb, byBlock, lists, byId, e);
      RemovedLength(lru, i);
      Detach(e, i);
      bytes := Minus(bytes, e.bytes);
      if entries > 0 { entries := entries - 1; }
      ReleaseBlock(e.block);
    }

    lemma Fit()
      requires Shape()
      ensures |Contents()| == |lru| == entries && bytes == Bytes(Contents())
      ensures tail == null <==> lru == []
      ensures lru != [] ==> tail == lru[|lru| - 1]
    {
    }

    method PruneStep()
      requires Valid() && lru != []
      modifies `byId, `byBlock, `head, `tail, `entries, `bytes, `g, `gb, `lru, `lists
      modifies g.Keys`prev, g.Keys`next, g.Keys`blockNext, gb.Keys`refs, gb.Keys`entries
      ensures Valid() && |old(Contents())| > 0 && Contents() == old(Contents())[..|old(Contents())| - 1]
      ensures g.Keys <= old(g).Keys && gb.Keys <= old(gb).Keys && |lru| < |old(lru)|
    {
      hide Mirrors, Shape, Removed, Bytes;
      Fit();
      RemovedLast(Contents());
      RemovedLength(lru, |lru| - 1);
      if tail != null { RemoveEntry(tail, |lru| - 1); }
    }

    /** Drops least recently used entries until both limits hold. */
    method Prune()
      requires Valid()
      modifies `byId, `byBlock, `head, `tail, `entries, `bytes, `g, `gb, `lru, `lists
      modifies g.Keys`prev, g.Keys`next, g.Keys`blockNext, gb.Keys`refs, gb.Keys`entries
      ensures Valid() && g.Keys <= old(g).Keys && gb.Keys <= old(gb).Keys
      ensures Contents() == Pruned(old(Contents()), MaxIds(), MaxBytes())
    {
      hide Mirrors, Shape, Bytes;
      Fit();
      while (entries > MaxIds() || bytes > MaxBytes()) && tail != null
        invariant Valid() && g.Keys <= old(g).Keys && gb.Keys <= old(gb).Keys
        invariant |Contents()| == |lru| == entries && bytes == Bytes(Contents()) && (tail == null <==> lru == [])
        invariant Pruned(Contents(), MaxIds(), MaxBytes()) == Pruned(old(Contents()), MaxIds(), MaxBytes())
        decreases |lru|
      {
        PruneStep();
        Fit();
      }
    }

    method FindEntry(id: string) returns (e: Entry?)
      requires Valid()
      ensures var i := IndexOf(Contents(), id);
              |Contents()| == |lru| && e == if i < |lru| then lru[i] else null
      ensures (e != null ==> e in g) && UniqueIds(Contents())
    {
      LinkedDistinct(g, lru, head, tail);
      IdIndexed(g, byId, lru, id);
      if id == "" { return null; }
      e := if id in byId then byId[id] else null;
    }

    method HasEntry(id: string) returns (found: bool)
      requires Valid()
      ensures found <==> HasId(Contents(), id)
    {
      var e := FindEntry(id);
      found := e != null;
    }

    /** Answers the exact text stored under an id, and marks it as used. */
    method Lookup(id: string) returns (block: Block?, source: Source)
      requires Valid()
      modifies `head, `tail, `lru, `clock, `g, g.Keys`prev, g.Keys`next, g.Keys`stamp
      ensures Valid() && Contents() == Touched(old(Contents()), id)
      ensures var i := IndexOf(old(Contents()), id);
              if i < |old(Contents())| then
                && block != null && block.dsml == old(Contents())[i].dsml && source == old(Contents())[i].source
              else block == null
    {
      hide Mirrors, Shape, Bytes, ToFront, Recs;
      var e := FindEntry(id);
      if e == null { return null, Ram; }
      Answer(e, IndexOf(Contents(), id));
      Touch(e, IndexOf(Contents(), id));
      block, source := e.block, e.source;
    }

    lemma Answer(e: Entry, i: nat)
      requires Valid() && i < |lru| && lru[i] == e
      ensures |Contents()| == |lru| && Contents()[i] == Rec(e.id, e.block.dsml, e.source)
    {
    }

    ghost method Own(b: Block)
      requires Mirrors() && b.refs == 0 && b.entries == null
      modifies `gb
      ensures Mirrors() && gb == old(gb)[b := BlockVal(0, null)]
    {
      gb := gb[b := BlockVal(0, null)];
    }

    /** The block of a text: the one already there, or a new empty one. */
    method GetBlock(dsml: string) returns (b: Block)
      requires Mirrors() && BlocksOk(g, gb, byBlock, lists) && RefsOk(gb, lists) && Live(lists)
      modifies `gb, `byBlock, `lists, `bytes
      ensures Mirrors() && BlocksOk(g, gb, byBlock, lists) && RefsOk(gb, lists) && LiveBut(lists, dsml)
      ensures b in gb && b.dsml == dsml && (b in old(gb) || fresh(b)) && gb.Keys == old(gb).Keys + {b}
      ensures var known := dsml in old(lists);
              && bytes == old(bytes) + (if known then 0 else TextBytes(dsml))
              && lists == (if known then old(lists) else old(lists)[dsml := []])
              && dsml in lists && (known ==> lists[dsml] != [])
    {
      hide Mirrors, BlocksOk;
      BlockNamed(g, gb, byBlock, lists);
      if dsml in byBlock { return byBlock[dsml]; }
      b := new Block(dsml);
      BlockAdded(g, gb, byBlock, lists, b);
      byBlock := byBlock[dsml := b];
      Own(b);
      lists := lists[dsml := []];
      bytes := bytes + b.bytes;
    }

    /** A new entry of block `b`, at the front of its chain and in the id index.
        `died` says that the id was already there. */
    method NewEntry(id: string, b: Block, source: Source) returns (e: Entry, died: bool)
      requires Mirrors() && BlocksOk(g, gb, byBlock, lists) && RefsOk(gb, lists) && LiveBut(lists, b.dsml)
      requires IdsOk(g, byId)
      requires Linked(g, lru, head, tail) && Covers(g, lru) && b in gb && id != "" && id !in byId
      modifies `g, `gb, `lists, `byId, `clock, b`entries, b`refs
      ensures fresh(e) && e.id == id && e.block == b && e.bytes == EntryBytes(id) && !died && e !in old(g)
      ensures clock == old(clock) + 1 && b in old(gb) && g == WithEntry(old(g), e, old(gb)[b].entries, clock, source)
      ensures gb.Keys == old(gb).Keys && g.Keys == old(g).Keys + {e}
      ensures Mirrors() && Half(g, gb, byBlock, lists, byId, lru, head, tail, e)
    {
      hide Mirrors, BlocksOk, RefsOk, LiveBut, IdsOk, Linked, Covers, Half, WithEntry, WithFirst;
      ghost var g0, gb0, lists0 := g, gb, lists;
      BlockNamed(g, gb, byBlock, lists);
      e := MakeEntry(id, b, source);
      EntryAdded(g0, gb0, byBlock, lists0, byId, lru, head, tail, e, clock, source);
      died := id in byId;
      byId := byId[id := e];
    }

    /** Makes an entry under the next stamp, at the front of its block's chain. */
    method MakeEntry(id: string, b: Block, source: Source) returns (e: Entry)
      requires Mirrors() && b in gb && b.dsml in lists
      modifies `g, `gb, `lists, `clock, b`entries, b`refs
      ensures fresh(e) && e.id == id && e.block == b && e.bytes == EntryBytes(id) && e !in old(g)
      ensures clock == old(clock) + 1 && b in old(gb) && g == WithEntry(old(g), e, old(gb)[b].entries, clock, source)
      ensures gb == WithFirst(old(gb), e) && lists == old(lists)[b.dsml := [e] + old(lists)[b.dsml]]
      ensures Mirrors()
    {
      hide Mirrors, WithEntry, WithFirst;
      clock := clock + 1;
      e := new Entry(id, b, clock, source);
      lists := lists[b.dsml := [e] + lists[b.dsml]];
      Chain(e);
    }

    /** Puts a new entry at the front of its block's chain. */
    method Chain(e: Entry)
      requires Mirrors() && e !in g && e.block in gb && e.prev == null && e.next == null
      modifies `g, `gb, e`blockNext, e.block`entries, e.block`refs
      ensures Mirrors() && g == WithEntry(old(g), e, old(gb)[e.block].entries, e.stamp, e.source)
      ensures gb == WithFirst(old(gb), e)
    {
      g, gb := WithEntry(g, e, gb[e.block].entries, e.stamp, e.source), WithFirst(gb, e);
      e.blockNext := e.block.entries;
      e.block.entries := e;
      e.block.refs := e.block.refs + 1;
    }

    /** A new entry of block `b` at the front of the order, not yet counted. */
    method Enter(id: string, b: Block, source: Source) returns (e: Entry, died: bool)
      requires Mirrors() && BlocksOk(g, gb, byBlock, lists) && RefsOk(gb, lists) && LiveBut(lists, b.dsml)
      requires IdsOk(g, byId)
      requires Linked(g, lru, head, tail) && Covers(g, lru) && b in gb && id != "" && id !in byId
      modifies `g, `gb, `lists, `byId, `clock, `lru, `head, `tail, b`entries, b`refs, g.Keys`prev, g.Keys`next
      ensures fresh(e) && e.id == id && e.block == b && e.bytes == EntryBytes(id) && !died && e !in old(g)
      ensures gb.Keys == old(gb).Keys && clock == old(clock) + 1 && lru == [e] + old(lru) && b in old(gb)
      ensures var g1 := WithEntry(old(g), e, old(gb)[b].entries, clock, source);
              && SameFields(g1, g) && Covers(g1, lru) && BlocksOk(g1, gb, byBlock, lists) && IdsOk(g1, byId)
      ensures Mirrors() && Linked(g, lru, head, tail) && RefsOk(gb, lists) && Live(lists)
    {
      hide Mirrors, BlocksOk, RefsOk, Live, LiveBut, IdsOk, Linked, Covers, Falling, Bytes, Recs, SameFields, WithEntry;
      e, died := NewEntry(id, b, source);
      LinkHead(e);
    }

    /** A new entry of block `b` at the front of the order; the text of a new
        block is already paid for. */
    method AddEntry(id: string, b: Block, source: Source) returns (e: Entry, died: bool)
      requires Mirrors() && BlocksOk(g, gb, byBlock, lists) && RefsOk(gb, lists) && LiveBut(lists, b.dsml)
      requires IdsOk(g, byId)
      requires Linked(g, lru, head, tail) && Covers(g, lru) && b in gb && id != "" && id !in byId
      requires Falling(g, lru, clock)
      requires entries == |lru| && b.dsml in lists
      requires bytes == Bytes(Listed()) + if lists[b.dsml] != [] then 0 else TextBytes(b.dsml)
      modifies `g, `gb, `lists, `byId, `clock, `lru, `head, `tail, `entries, `bytes, b`entries, b`refs, g.Keys`prev,
        g.Keys`next
      ensures Valid() && fresh(e) && !died
      ensures gb.Keys == old(gb).Keys && g.Keys == old(g).Keys + {e}
      ensures Contents() == [Rec(id, b.dsml, source)] + old(Listed())
    {
      hide Mirrors, BlocksOk, RefsOk, Live, LiveBut, IdsOk, Linked, Covers, Falling, Bytes, Recs, SameFields, WithEntry;
      ghost var g0, l := g, lru;
      e, died := Enter(id, b, source);
      AddKeeps(g0, l, old(clock), e, old(gb)[b].entries, source, g, old(gb), old(lists), byBlock, gb, lists, byId);
      entries := entries + 1;
      bytes := bytes + e.bytes;
    }

    /** Adds an id that the memory does not hold. */
    method Add(id: string, dsml: string, source: Source) returns (died: bool)
      requires Valid() && id != "" && id !in byId
      modifies this, gb.Keys`entries, gb.Keys`refs, g.Keys`prev, g.Keys`next
      ensures Valid() && !died
      ensures Contents() == [Rec(id, dsml, source)] + old(Contents())
      ensures fresh(g.Keys - old(g).Keys) && fresh(gb.Keys - old(gb).Keys)
    {
      hide Mirrors, BlocksOk, RefsOk, Live, LiveBut, IdsOk, Linked, Covers, Falling, Bytes, Recs;
      var b := GetBlock(dsml);
      var e;
      e, died := AddEntry(id, b, source);
    }

    lemma NotHeld(id: string)
      requires Valid() && forall r :: r in Contents() ==> r.id != id
      ensures id !in byId
    {
      IdIndexed(g, byId, lru, id);
    }

    method SetSource(e: Entry, ghost i: nat, source: Source)
      requires Valid() && i < |lru| && e == lru[i]
      modifies `g, e`source
      ensures Valid() && g.Keys == old(g).Keys && |old(Contents())| == |lru|
      ensures Contents() == old(Contents())[i := old(Contents())[i].(source := source)]
    {
      hide BlocksOk, RefsOk, Live, IdsOk, Linked, Covers, Falling, Bytes, Recs;
      LinkedEnds(g, lru, head, tail, i);
      SourcedKeeps(g, gb, byBlock, lists, byId, lru, head, tail, clock, i, source);
      e.source := source;
      g := Sourced(g, e, source);
    }

    /** The same text again under an id that has it. */
    method Reuse(e: Entry, id: string, ghost i: nat, source: Source)
      requires Valid() && i < |lru| && e == lru[i]
      requires |Contents()| == |lru| && i == IndexOf(Contents(), id) && Contents()[i].dsml == e.block.dsml
      modifies this, gb.Keys`entries, gb.Keys`refs
      modifies g.Keys`prev, g.Keys`next, g.Keys`blockNext, g.Keys`stamp, g.Keys`source
      ensures Valid() && g.Keys <= old(g).Keys && gb.Keys <= old(gb).Keys
      ensures Contents() == Pruned([PutRec(old(Contents()), id, e.block.dsml, source)] +
          Without(old(Contents()), id), MaxIds(), MaxBytes())
    {
      hide Mirrors, Shape, Bytes, Pruned, ToFront, Removed;
      EntryIn(i);
      Resourced(Contents(), id, i, source);
      if source == Ram { SetSource(e, i, Ram); }
      Touch(e, i);
      Prune();
    }

    lemma EntryIn(i: nat)
      requires Valid() && i < |lru|
      ensures lru[i] in g
    {
    }

    /** Stores the exact text of a tool call under its id. */
    method Put(id: string, dsml: string, source: Source) returns (died: bool)
      requires Valid()
      modifies this, gb.Keys`entries, gb.Keys`refs
      modifies g.Keys`prev, g.Keys`next, g.Keys`blockNext, g.Keys`stamp, g.Keys`source
      ensures Valid() && !died
      ensures Contents() == ToolMemoryList.Put(old(Contents()), id, dsml, source, MaxIds(), MaxBytes())
      ensures fresh(g.Keys - old(g).Keys) && fresh(gb.Keys - old(gb).Keys)
    {
      hide Mirrors, Shape, Bytes, Pruned, ToFront, Removed;
      died := false;
      if id == "" || dsml == "" { return; }
      var e := FindEntry(id);
      ghost var i := IndexOf(Contents(), id);
      if e != null && e.block.dsml == dsml {
        Reuse(e, id, i, source);
        return;
      }
      UniqueWithout(Contents(), id);
      if e != null { RemoveEntry(e, i); }
      NotHeld(id);
      died := Add(id, dsml, source);
      Prune();
    }
  }
}
