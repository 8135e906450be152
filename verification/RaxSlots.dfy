/** The edge tables of single nodes: inserting, replacing and removing one child slot. */
module RaxSlots {
  import opened Common
  import opened RaxGraph
  import opened RaxEdits
  import opened RaxRuns

  // ---------------------------------------------------------------- shifting

  function Insert<T>(s: seq<T>, pos: nat, x: T): (r: seq<T>)
    requires pos <= |s|
    ensures |r| == |s| + 1 && r[pos] == x
    ensures forall i :: 0 <= i < pos ==> r[i] == s[i]
    ensures forall i :: pos < i < |r| ==> r[i] == s[i - 1]
  {
    s[..pos] + [x] + s[pos..]
  }

  function Delete<T>(s: seq<T>, pos: nat): (r: seq<T>)
    requires pos < |s|
    ensures |r| == |s| - 1
    ensures forall i :: 0 <= i < pos ==> r[i] == s[i]
    ensures forall i :: pos <= i < |r| ==> r[i] == s[i + 1]
  {
    s[..pos] + s[pos + 1..]
  }

  /** A child is inserted at `pos`: its bit is clear, the bits from there on move up by one, and
      the bit leaving slot 12 is lost. */
  function ShiftIn(b: Bitmap, pos: nat): Bitmap {
    if pos < INLINE_SLOTS then Insert(b, pos, false)[..INLINE_SLOTS] else b
  }

  /** The child at `pos` is removed: the bits above it move down by one. */
  function ShiftOut(b: Bitmap, pos: nat): Bitmap {
    if pos < INLINE_SLOTS then Delete(b, pos) + [false] else b
  }

  // ---------------------------------------------------------------- insertion

  function InsertSlot(e: Edges, c: Byte, pos: nat, sl: Slot): Edges
    requires pos <= |e.chars| && pos <= |e.slots| && (sl.Inline? ==> pos < INLINE_SLOTS)
  {
    var b := ShiftIn(e.leafBitmap, pos);
    Edges(false, if sl.Inline? then b[pos := true] else b,
          Insert(e.chars, pos, c), Insert(e.slots, pos, sl))
  }

  /** Strictly increasing bytes: at most 256 of them. */
  lemma {:induction false} AtMost256(chars: seq<Byte>, i: nat)
    requires forall i, j :: 0 <= i < j < |chars| ==> chars[i] < chars[j]
    requires i < |chars|
    ensures chars[i] >= i
  {
    if i > 0 {
      AtMost256(chars, i - 1);
    }
  }

  /** Slot 12 must not be inline if it has to move, because slot 13 has no bit. */
  lemma InsertSlotRewires(e: Edges, c: Byte, pos: nat, sl: Slot)
    requires e.Ok() && !e.isCompr && IsPos(e.chars, c, pos) && (sl.Inline? ==> pos < INLINE_SLOTS)
    requires pos <= 12 && |e.slots| > 12 ==> e.slots[12].Child?
    ensures Rewired(e, InsertSlot(e, c, pos, sl), [c], Some(sl))
    ensures forall i :: 0 <= i < |e.slots| ==> e.Label(i) != [c]
  {
    var e' := InsertSlot(e, c, pos, sl);
    InsertSlotOk(e, c, pos, sl);
    forall i | 0 <= i < |e.slots|
      ensures e.Label(i)[0] != c && Has(e', e.Label(i), e.slots[i])
    {
      var i' := if i < pos then i else i + 1;
      assert e'.Label(i') == e.Label(i) && e'.slots[i'] == e.slots[i];
    }
    forall i' | 0 <= i' < |e'.slots|
      ensures if e'.Label(i') == [c] then e'.slots[i'] == sl else Has(e, e'.Label(i'), e'.slots[i'])
    {
      if i' != pos {
        var i := if i' < pos then i' else i' - 1;
        assert e'.Label(i') == e.Label(i) && e'.slots[i'] == e.slots[i];
      }
    }
    assert e'.Label(pos) == [c] && e'.slots[pos] == sl;
  }

  lemma InsertSlotOk(e: Edges, c: Byte, pos: nat, sl: Slot)
    requires e.Ok() && !e.isCompr && IsPos(e.chars, c, pos) && (sl.Inline? ==> pos < INLINE_SLOTS)
    requires pos <= 12 && |e.slots| > 12 ==> e.slots[12].Child?
    ensures InsertSlot(e, c, pos, sl).Ok()
  {
    var e' := InsertSlot(e, c, pos, sl);
    assert forall i, j :: 0 <= i < j < |e'.chars| ==> e'.chars[i] < e'.chars[j];
    AtMost256(e'.chars, |e'.chars| - 1);
    InsertSlotBits(e, c, pos, sl);
  }

  lemma InsertSlotBits(e: Edges, c: Byte, pos: nat, sl: Slot)
    requires e.Ok() && !e.isCompr && IsPos(e.chars, c, pos) && (sl.Inline? ==> pos < INLINE_SLOTS)
    requires pos <= 12 && |e.slots| > 12 ==> e.slots[12].Child?
    ensures var e' := InsertSlot(e, c, pos, sl);
            && (forall i :: 0 <= i < INLINE_SLOTS ==> (e'.leafBitmap[i] <==> i < |e'.slots| && e'.slots[i].Inline?))
            && (forall i :: INLINE_SLOTS <= i < |e'.slots| ==> e'.slots[i].Child?)
  {
  }

  // ---------------------------------------------------------------- replacement and removal

  /** Put `sl` into slot `x`. */
  function SetSlot(e: Edges, x: nat, sl: Slot): Edges
    requires x < |e.slots| && (sl.Inline? ==> x < INLINE_SLOTS)
  {
    e.(slots := e.slots[x := sl],
       leafBitmap := if x < INLINE_SLOTS then e.leafBitmap[x := sl.Inline?] else e.leafBitmap)
  }

  lemma SetSlotRewires(e: Edges, x: nat, sl: Slot)
    requires e.Ok() && x < |e.slots| && (sl.Inline? ==> x < INLINE_SLOTS)
    ensures Rewired(e, SetSlot(e, x, sl), e.Label(x), Some(sl))
  {
    var e' := SetSlot(e, x, sl);
    assert e'.Ok();
    forall i | 0 <= i < |e.slots| && e.Label(i) != e.Label(x)
      ensures e.Label(i)[0] != e.Label(x)[0] && Has(e', e.Label(i), e.slots[i])
    {
      assert e'.Label(i) == e.Label(i) && e'.slots[i] == e.slots[i];
    }
    forall i | 0 <= i < |e'.slots|
      ensures if e'.Label(i) == e.Label(x) then e'.slots[i] == sl else Has(e, e'.Label(i), e'.slots[i])
    {
      assert e'.Label(i) == e.Label(i);
      if i != x {
        assert e'.slots[i] == e.slots[i];
        assert e.chars[i] != e.chars[x];
      }
    }
    assert e'.Label(x) == e.Label(x) && e'.slots[x] == sl;
  }

  /** Drop slot `x`; a compressed run is left without any child. */
  function RemoveSlot(e: Edges, x: nat): Edges
    requires x < |e.slots| && (!e.isCompr ==> |e.chars| == |e.slots|)
  {
    if e.isCompr then NoEdges
    else Edges(false, ShiftOut(e.leafBitmap, x), Delete(e.chars, x), Delete(e.slots, x))
  }

  lemma RemoveSlotOk(e: Edges, x: nat)
    requires e.Ok() && x < |e.slots|
    ensures RemoveSlot(e, x).Ok()
  {
  }

  lemma RemoveSlotRewires(e: Edges, x: nat)
    requires e.Ok() && x < |e.slots|
    ensures Rewired(e, RemoveSlot(e, x), e.Label(x), None)
  {
    RemoveSlotOk(e, x);
    if !e.isCompr {
      RemoveSlotKept(e, x);
    }
  }

  lemma RemoveSlotKept(e: Edges, x: nat)
    requires e.Ok() && !e.isCompr && x < |e.slots| && RemoveSlot(e, x).Ok()
    ensures Rewired(e, RemoveSlot(e, x), e.Label(x), None)
  {
    var e' := RemoveSlot(e, x);
    forall i | 0 <= i < |e.slots| && i != x
      ensures e.Label(i)[0] != e.Label(x)[0] && Has(e', e.Label(i), e.slots[i])
    {
      var i' := if i < x then i else i - 1;
      assert e'.Label(i') == e.Label(i) && e'.slots[i'] == e.slots[i];
    }
    forall i' | 0 <= i' < |e'.slots|
      ensures e'.Label(i') != e.Label(x) && Has(e, e'.Label(i'), e'.slots[i'])
    {
      var i := if i' < x then i' else i' + 1;
      assert e'.Label(i') == e.Label(i) && e'.slots[i'] == e.slots[i];
      assert e.chars[i] != e.chars[x];
    }
  }

  /** A childless node becomes a run. */
  lemma RunRewires(s: seq<Byte>, sl: Slot)
    requires 0 < |s| <= NODE_MAX_SIZE
    ensures Rewired(NoEdges, Run(s, sl), s, Some(sl))
  {
    RunOk(s, sl);
  }

  lemma ChildlessIsNoEdges(e: Edges)
    requires e.Ok() && (e.slots == [] || e.chars == [])
    ensures e == NoEdges
  {
    assert e.leafBitmap == NoBits();
  }
}
