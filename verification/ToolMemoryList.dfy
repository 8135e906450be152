/** The server's memory of sampled tool calls: the exact text of each call under
    its random id, most recently used first, with texts shared between ids. */

/** What the memory promises, on lists of records ordered from the most to the
    least recently used. */
module ToolMemoryList {
  import opened Common
  datatype Source = Ram | Disk

  datatype Rec = Rec(id: string, dsml: string, source: Source)

  const DEFAULT_MAX_IDS: nat := 100000
  const DEFAULT_MAX_BYTES: nat := 512 * 1024 * 1024

  // The sizes of the two C structures on a 64-bit machine.
  const ENTRY_SIZE: nat := 64
  const BLOCK_SIZE: nat := 48

  function EntryBytes(id: string): nat { |id| + 1 + ENTRY_SIZE }

  function TextBytes(dsml: string): nat { |dsml| + 1 + BLOCK_SIZE }

  ghost predicate HasText(l: seq<Rec>, dsml: string) {
    exists r :: r in l && r.dsml == dsml
  }

  ghost predicate HasId(l: seq<Rec>, id: string) {
    exists r :: r in l && r.id == id
  }

  ghost predicate UniqueIds(l: seq<Rec>) {
    forall i, j :: 0 <= i < j < |l| ==> l[i].id != l[j].id
  }

  /** Every entry is paid for once, and every distinct text once. */
  ghost function Bytes(l: seq<Rec>): nat {
    if l == [] then 0
    else
      var rest, r := l[..|l| - 1], l[|l| - 1];
      Bytes(rest) + EntryBytes(r.id) + if HasText(rest, r.dsml) then 0 else TextBytes(r.dsml)
  }

  /** Subtraction that stops at zero. */
  function Minus(a: nat, b: nat): nat {
    if a >= b then a - b else 0
  }

  lemma RemovedAt<T>(l: seq<T>, i: nat)
    requires i < |l|
    ensures |Removed(l, i)| == |l| - 1
    ensures forall k :: 0 <= k < |l| - 1 ==> Removed(l, i)[k] == l[if k < i then k else k + 1]
  {
  }

  lemma RemovedLast<T>(l: seq<T>)
    requires l != []
    ensures Removed(l, |l| - 1) == l[..|l| - 1]
  {
  }

  function ToFront<T>(l: seq<T>, i: nat): (r: seq<T>)
    requires i < |l|
    ensures |r| == |l|
  {
    [l[i]] + Removed(l, i)
  }

  lemma ToFrontAt<T>(l: seq<T>, i: nat)
    requires i < |l|
    ensures |ToFront(l, i)| == |l|
    ensures forall k :: 0 <= k < |l| ==> ToFront(l, i)[k] == l[if k == 0 then i else if k <= i then k - 1 else k]
  {
  }

  lemma TextsRemoved(l: seq<Rec>, i: nat, dsml: string)
    requires i < |l|
    ensures HasText(l, dsml) <==> HasText(Removed(l, i), dsml) || l[i].dsml == dsml
  {
    assert forall r :: r in l <==> r in Removed(l, i) || r == l[i];
  }

  /** Taking a record out anywhere frees its entry, and its text if no other
      record shares it. */
  lemma {:induction false} BytesRemoved(l: seq<Rec>, i: nat)
    requires i < |l|
    ensures Bytes(l) == Bytes(Removed(l, i)) + EntryBytes(l[i].id)
                        + if HasText(Removed(l, i), l[i].dsml) then 0 else TextBytes(l[i].dsml)
  {
    hide HasText;
    var n := |l| - 1;
    if i == n {
      assert Removed(l, i) == l[..n];
    } else {
      var rest := l[..n];
      BytesRemoved(rest, i);
      assert Removed(l, i) == Removed(rest, i) + [l[n]];
      assert Removed(l, i)[..n - 1] == Removed(rest, i);
      assert l == rest + [l[n]];
      TextsRemoved(rest, i, l[n].dsml);
      assert Removed(Removed(l, i), n - 1) == Removed(rest, i);
      TextsRemoved(Removed(l, i), n - 1, l[i].dsml);
    }
  }

  ghost predicate Fits(l: seq<Rec>, maxIds: nat, maxBytes: nat) {
    |l| <= maxIds && Bytes(l) <= maxBytes
  }

  ghost function Pruned(l: seq<Rec>, maxIds: nat, maxBytes: nat): (r: seq<Rec>)
    ensures r <= l
  {
    if Fits(l, maxIds, maxBytes) || l == [] then l
    else Pruned(l[..|l| - 1], maxIds, maxBytes)
  }

  lemma {:induction false} BytesGrow(l: seq<Rec>, j: nat)
    requires j <= |l|
    ensures Bytes(l[..j]) <= Bytes(l)
  {
    if j < |l| {
      assert l[..|l| - 1][..j] == l[..j];
      BytesGrow(l[..|l| - 1], j);
    } else {
      assert l[..j] == l;
    }
  }

  /** Pruning keeps the longest most-recently-used prefix that satisfies both
      limits: a prefix of the list fits exactly when it is no longer than what is
      kept. */
  lemma {:induction false} PrunedIsLongest(l: seq<Rec>, maxIds: nat, maxBytes: nat, j: nat)
    requires j <= |l|
    ensures Fits(l[..j], maxIds, maxBytes) <==> j <= |Pruned(l, maxIds, maxBytes)|
  {
    if Fits(l, maxIds, maxBytes) || l == [] {
      BytesGrow(l, j);
    } else {
      var rest := l[..|l| - 1];
      if j < |l| {
        assert rest[..j] == l[..j];
        PrunedIsLongest(rest, maxIds, maxBytes, j);
      } else {
        assert l[..j] == l;
      }
    }
  }

  function IndexOf(l: seq<Rec>, id: string): (i: nat)
    ensures i <= |l|
    ensures i < |l| ==> l[i].id == id
    ensures forall k :: 0 <= k < i ==> l[k].id != id
  {
    if l == [] then 0 else if l[0].id == id then 0 else 1 + IndexOf(l[1..], id)
  }

  /** The list without the record of `id`, if it has one. */
  function Without(l: seq<Rec>, id: string): seq<Rec> {
    var i := IndexOf(l, id);
    if i < |l| then Removed(l, i) else l
  }

  /** The record a put leaves: an unchanged text keeps its source unless the new
      one is from memory. */
  function PutRec(l: seq<Rec>, id: string, dsml: string, source: Source): Rec {
    var i := IndexOf(l, id);
    if i < |l| && l[i].dsml == dsml && source == Disk then l[i]
    else Rec(id, dsml, source)
  }

  /** The list after a put. */
  ghost function Put(l: seq<Rec>, id: string, dsml: string, source: Source, maxIds: nat, maxBytes: nat): seq<Rec> {
    if id == "" || dsml == "" then l
    else Pruned([PutRec(l, id, dsml, source)] + Without(l, id), maxIds, maxBytes)
  }

  /** The list after a lookup: the record found moves to the front. */
  function Touched(l: seq<Rec>, id: string): seq<Rec> {
    var i := IndexOf(l, id);
    if i < |l| then ToFront(l, i) else l
  }

  /** Moving a record to the front changes no byte count. */
  lemma BytesMoved(l: seq<Rec>, i: nat)
    requires i < |l|
    ensures Bytes(ToFront(l, i)) == Bytes(l)
  {
    hide HasText;
    var l' := ToFront(l, i);
    BytesRemoved(l, i);
    BytesRemoved(l', 0);
    assert Removed(l', 0) == Removed(l, i);
  }

  /** Updating a record where it stands and then moving it to the front is what a
      put of the same text does. */
  lemma Resourced(l: seq<Rec>, id: string, i: nat, source: Source)
    requires i < |l| && IndexOf(l, id) == i
    ensures ToFront(l[i := l[i].(source := Ram)], i) == [Rec(id, l[i].dsml, Ram)] + Removed(l, i)
    ensures ToFront(l, i) == [l[i]] + Removed(l, i)
    ensures Without(l, id) == Removed(l, i)
    ensures PutRec(l, id, l[i].dsml, source) == if source == Disk then l[i] else Rec(id, l[i].dsml, Ram)
  {
  }

  // One operation on the memory.
  datatype Op = PutOp(id: string, dsml: string, source: Source) | LookupOp(id: string)

  ghost function After(l: seq<Rec>, op: Op, maxIds: nat, maxBytes: nat): seq<Rec> {
    match op
    case PutOp(id, dsml, source) => Put(l, id, dsml, source, maxIds, maxBytes)
    case LookupOp(id) => Touched(l, id)
  }

  ghost function Run(ops: seq<Op>, maxIds: nat, maxBytes: nat): seq<Rec> {
    if ops == [] then []
    else After(Run(ops[..|ops| - 1], maxIds, maxBytes), ops[|ops| - 1], maxIds, maxBytes)
  }

  lemma UniqueWithout(l: seq<Rec>, id: string)
    requires UniqueIds(l)
    ensures UniqueIds(Without(l, id))
    ensures forall r :: r in Without(l, id) <==> r in l && r.id != id
    ensures forall r: Rec :: r.id == id ==> UniqueIds([r] + Without(l, id))
  {
  }

  lemma {:induction false} StepWithinLimits(l: seq<Rec>, op: Op, maxIds: nat, maxBytes: nat)
    requires UniqueIds(l) && Fits(l, maxIds, maxBytes)
    ensures Fits(After(l, op, maxIds, maxBytes), maxIds, maxBytes)
    ensures UniqueIds(After(l, op, maxIds, maxBytes))
  {
    hide Bytes, Removed, Pruned, HasText;
    UniqueWithout(l, op.id);
    var l' := After(l, op, maxIds, maxBytes);
    if op.PutOp? {
      if op.id != "" && op.dsml != "" {
        var full := [PutRec(l, op.id, op.dsml, op.source)] + Without(l, op.id);
        PrunedIsLongest(full, maxIds, maxBytes, |l'|);
        assert l' == full[..|l'|];
      }
    } else {
      var i := IndexOf(l, op.id);
      if i < |l| {
        BytesMoved(l, i);
        assert l' == [l[i]] + Without(l, op.id);
      }
    }
  }

  /** Both limits hold after every run, and every id is listed once. */
  lemma {:induction false} RunWithinLimits(ops: seq<Op>, maxIds: nat, maxBytes: nat)
    ensures Fits(Run(ops, maxIds, maxBytes), maxIds, maxBytes)
    ensures UniqueIds(Run(ops, maxIds, maxBytes))
  {
    if ops != [] {
      var before := ops[..|ops| - 1];
      RunWithinLimits(before, maxIds, maxBytes);
      StepWithinLimits(Run(before, maxIds, maxBytes), ops[|ops| - 1], maxIds, maxBytes);
    }
  }

  /** The most recent text put under an id in a run. */
  function LastPut(ops: seq<Op>, id: string): (r: string) {
    if ops == [] then ""
    else
      var op := ops[|ops| - 1];
      if op.PutOp? && op.id == id && op.dsml != "" then op.dsml else LastPut(ops[..|ops| - 1], id)
  }

  /** Whatever the memory still answers for an id is the text last put under it:
      sharing, moving and pruning never mix texts up. */
  lemma {:induction false} AnswersLastPut(ops: seq<Op>, maxIds: nat, maxBytes: nat, r: Rec)
    requires r in Run(ops, maxIds, maxBytes)
    ensures r.id != "" && r.dsml == LastPut(ops, r.id)
  {
    var before, op := ops[..|ops| - 1], ops[|ops| - 1];
    var l := Run(before, maxIds, maxBytes);
    RunWithinLimits(before, maxIds, maxBytes);
    UniqueWithout(l, op.id);
    if op.PutOp? && op.id != "" && op.dsml != "" {
      var kept := PutRec(l, op.id, op.dsml, op.source);
      var full := [kept] + Without(l, op.id);
      assert r in full;
      if r != kept { AnswersLastPut(before, maxIds, maxBytes, r); }
    } else {
      if op.LookupOp? && IndexOf(l, op.id) < |l| {
        assert Touched(l, op.id) == [l[IndexOf(l, op.id)]] + Without(l, op.id);
      }
      AnswersLastPut(before, maxIds, maxBytes, r);
    }
  }

  /** An operation that counts as a use of `id`: a look-up, or a put of a text. */
  predicate Uses(op: Op, id: string) {
    op.id == id && (op.LookupOp? || op.dsml != "")
  }

  /** The number of the last operation that used an id, counted from one; 0 for none. */
  function LastUse(ops: seq<Op>, id: string): (n: nat)
    ensures n <= |ops| && (n > 0 ==> Uses(ops[n - 1], id))
    ensures forall k :: n <= k < |ops| ==> !Uses(ops[k], id)
  {
    if ops == [] then 0
    else if Uses(ops[|ops| - 1], id) then |ops|
    else LastUse(ops[..|ops| - 1], id)
  }

  /** Later entries were used longer ago. */
  ghost predicate ByUse(ops: seq<Op>, l: seq<Rec>) {
    && (forall i :: 0 <= i < |l| ==> LastUse(ops, l[i].id) > 0)
    && (forall i, j :: 0 <= i < j < |l| ==> LastUse(ops, l[i].id) > LastUse(ops, l[j].id))
  }

  /** One more use of the entry in front of the others. */
  lemma UsedFirst(ops: seq<Op>, op: Op, l: seq<Rec>, first: Rec, rest: seq<Rec>)
    requires ByUse(ops, l) && Uses(op, op.id) && first.id == op.id
    requires forall i :: 0 <= i < |rest| ==> rest[i].id != op.id && LastUse(ops, rest[i].id) > 0
    requires forall i, j :: 0 <= i < j < |rest| ==> LastUse(ops, rest[i].id) > LastUse(ops, rest[j].id)
    ensures ByUse(ops + [op], [first] + rest)
  {
    var ops' := ops + [op];
    assert ops'[..|ops|] == ops;
    assert LastUse(ops', first.id) == |ops'|;
    forall i | 0 <= i < |rest|
      ensures LastUse(ops', rest[i].id) == LastUse(ops, rest[i].id)
    {
    }
  }

  lemma OthersByUse(ops: seq<Op>, l: seq<Rec>, id: string)
    requires ByUse(ops, l) && UniqueIds(l)
    ensures var rest := Without(l, id);
      && (forall i :: 0 <= i < |rest| ==> rest[i].id != id && LastUse(ops, rest[i].id) > 0)
      && (forall i, j :: 0 <= i < j < |rest| ==> LastUse(ops, rest[i].id) > LastUse(ops, rest[j].id))
  {
    hide LastUse;
    var i := IndexOf(l, id);
    if i < |l| { RemovedAt(l, i); }
    UniqueWithout(l, id);
  }

  lemma NotUsed(ops: seq<Op>, op: Op, l: seq<Rec>)
    requires ByUse(ops, l) && forall i :: 0 <= i < |l| ==> !Uses(op, l[i].id)
    ensures ByUse(ops + [op], l)
  {
    assert (ops + [op])[..|ops|] == ops;
  }

  /** The list is ordered by last use: a look-up counts as one, and what pruning takes away is what
      was used longest ago. */
  lemma {:induction false} RunByUse(ops: seq<Op>, maxIds: nat, maxBytes: nat)
    ensures ByUse(ops, Run(ops, maxIds, maxBytes))
  {
    hide ByUse, Pruned, Uses, LastUse, UniqueIds, Fits;
    if ops == [] {
      NoneByUse();
    } else {
      var before, op := ops[..|ops| - 1], ops[|ops| - 1];
      var l := Run(before, maxIds, maxBytes);
      assert ops == before + [op];
      RunByUse(before, maxIds, maxBytes);
      RunWithinLimits(before, maxIds, maxBytes);
      OthersByUse(before, l, op.id);
      if op.PutOp? && op.id != "" && op.dsml != "" {
        IsUse(op);
        var kept := PutRec(l, op.id, op.dsml, op.source);
        UsedFirst(before, op, l, kept, Without(l, op.id));
        PrefixByUse(ops, [kept] + Without(l, op.id), After(l, op, maxIds, maxBytes));
      } else if op.LookupOp? && IndexOf(l, op.id) < |l| {
        IsUse(op);
        UsedFirst(before, op, l, l[IndexOf(l, op.id)], Without(l, op.id));
      } else {
        NoUse(before, op, l, maxIds, maxBytes);
        NotUsed(before, op, l);
      }
    }
  }

  lemma NoneByUse()
    ensures ByUse([], [])
  {
  }

  lemma IsUse(op: Op)
    requires op.PutOp? ==> op.dsml != ""
    ensures Uses(op, op.id)
  {
  }

  /** An operation without effect uses nothing that is listed. */
  lemma NoUse(before: seq<Op>, op: Op, l: seq<Rec>, maxIds: nat, maxBytes: nat)
    requires l == Run(before, maxIds, maxBytes)
    requires if op.PutOp? then op.id == "" || op.dsml == "" else IndexOf(l, op.id) == |l|
    ensures forall i :: 0 <= i < |l| ==> !Uses(op, l[i].id)
  {
    forall i | 0 <= i < |l|
      ensures !Uses(op, l[i].id)
    {
      AnswersLastPut(before, maxIds, maxBytes, l[i]);
    }
  }

  lemma PrefixByUse(ops: seq<Op>, l: seq<Rec>, p: seq<Rec>)
    requires ByUse(ops, l) && p <= l
    ensures ByUse(ops, p)
  {
    assert forall i :: 0 <= i < |p| ==> p[i] == l[i];
  }

  /** Where an id that the first `n` entries do not have stands in a list. */
  lemma Behind(l: seq<Rec>, n: nat, gone: string, kept: Rec) returns (i: nat, j: nat)
    requires n <= |l| && HasId(l, gone) && kept in l[..n] && !HasId(l[..n], gone)
    ensures j < n <= i < |l| && l[i].id == gone && l[j] == kept
  {
    assert forall k :: 0 <= k < n ==> l[..n][k] == l[k] && l[..n][k] in l[..n];
    i :| 0 <= i < |l| && l[i].id == gone;
    j :| 0 <= j < n && l[..n][j] == kept;
  }

  /** So what a put evicts was used longer ago than anything that stays. */
  lemma EvictsLeastRecent(ops: seq<Op>, op: Op, maxIds: nat, maxBytes: nat, gone: string, kept: Rec)
    requires op.PutOp? && HasId(Run(ops, maxIds, maxBytes), gone)
    requires kept in Run(ops + [op], maxIds, maxBytes) && !HasId(Run(ops + [op], maxIds, maxBytes), gone)
    ensures LastUse(ops + [op], gone) < LastUse(ops + [op], kept.id)
  {
    hide LastUse, Uses, Fits, HasId, Pruned, Without, PutRec;
    var l, l' := Run(ops, maxIds, maxBytes), Run(ops + [op], maxIds, maxBytes);
    RunByUse(ops, maxIds, maxBytes);
    RunWithinLimits(ops, maxIds, maxBytes);
    RunOneMore(ops, op, maxIds, maxBytes);
    if op.id != "" && op.dsml != "" {
      var first := PutRec(l, op.id, op.dsml, op.source);
      var full := [first] + Without(l, op.id);
      OthersByUse(ops, l, op.id);
      IsUse(op);
      UsedFirst(ops, op, l, first, Without(l, op.id));
      SameIds(l, first, gone);
      var i, j := Behind(full, |l'|, gone, kept);
    }
  }

  lemma RunOneMore(ops: seq<Op>, op: Op, maxIds: nat, maxBytes: nat)
    requires op.PutOp?
    ensures var l, l' := Run(ops, maxIds, maxBytes), Run(ops + [op], maxIds, maxBytes);
      if op.id == "" || op.dsml == "" then l' == l
      else
        var first := PutRec(l, op.id, op.dsml, op.source);
        var full := [first] + Without(l, op.id);
        first.id == op.id && |l'| <= |full| && full[..|l'|] == l'
  {
    hide Fits;
    assert (ops + [op])[..|ops|] == ops && (ops + [op])[|ops|] == op;
  }

  lemma SameIds(l: seq<Rec>, first: Rec, id: string)
    requires HasId(l, id) && UniqueIds(l)
    ensures HasId([first] + Without(l, first.id), id)
  {
    UniqueWithout(l, first.id);
    var r :| r in l && r.id == id;
    var l' := [first] + Without(l, first.id);
    assert l'[0] == first;
    assert r.id != first.id ==> r in l';
  }

  /** A text just put is answered afterwards exactly when it fits on its own. */
  lemma PutThenFound(l: seq<Rec>, id: string, dsml: string, source: Source, maxIds: nat, maxBytes: nat)
    requires UniqueIds(l) && id != "" && dsml != ""
    ensures HasId(Put(l, id, dsml, source, maxIds, maxBytes), id)
       <==> 1 <= maxIds && EntryBytes(id) + TextBytes(dsml) <= maxBytes
  {
    var r := PutRec(l, id, dsml, source);
    var full := [r] + Without(l, id);
    UniqueWithout(l, id);
    PrunedIsLongest(full, maxIds, maxBytes, 1);
    assert full[..1] == [r];
    assert Bytes([r]) == EntryBytes(id) + TextBytes(dsml) by {
      assert Bytes([]) == 0;
      assert [r][..0] == [];
    }
    var p := Pruned(full, maxIds, maxBytes);
    if |p| >= 1 { assert p[0] == r; }
  }
}
