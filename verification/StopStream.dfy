/** Streaming plain text that must end before any stop sequence. */
module StopStream {
  import opened StreamText

  /** What a stop list holds: the empty sequence is never pushed, and the length of
      the longest is kept beside. */
  ghost predicate StopsOk(stops: seq<string>, maxLen: nat) {
    && (forall i :: 0 <= i < |stops| ==> 0 < |stops[i]| <= maxLen)
    && (maxLen > 0 ==> exists i :: 0 <= i < |stops| && |stops[i]| == maxLen)
  }

  /** Some stop sequence stands at `i`. */
  ghost predicate StopAt(stops: seq<string>, text: string, i: nat) {
    exists k :: 0 <= k < |stops| && MatchAt(text, i, stops[k])
  }

  ghost predicate StopFree(stops: seq<string>, text: string) {
    forall i: nat :: !StopAt(stops, text, i)
  }

  /** `pos` is the first place of a stop at or after `from`. */
  ghost predicate FirstStop(stops: seq<string>, text: string, from: nat, pos: nat) {
    from <= pos && StopAt(stops, text, pos) && forall i: nat :: from <= i < pos ==> !StopAt(stops, text, i)
  }

  class StopList {
    var v: seq<string>
    var maxLen: nat

    ghost predicate Valid()
      reads this
    {
      StopsOk(v, maxLen)
    }

    constructor ()
      ensures Valid() && v == []
    {
      v, maxLen := [], 0;
    }

    method Push(s: string)
      requires Valid()
      modifies this
      ensures Valid() && v == if s == "" then old(v) else old(v) + [s]
    {
      if s == "" { return; }
      if |s| > maxLen { maxLen := |s|; }
      ghost var was := v;
      v := v + [s];
      assert v[|was|] == s;
      assert forall i :: 0 <= i < |was| ==> v[i] == was[i];
    }
  }

  /** The first stop at or after `from`, and its length. */
  method FindFrom(stops: seq<string>, maxLen: nat, text: string, from: nat) returns (found: bool, pos: nat, len: nat)
    requires StopsOk(stops, maxLen) && from <= |text|
    ensures found ==> FirstStop(stops, text, from, pos) && pos + len <= |text|
    ensures found ==> exists k :: 0 <= k < |stops| && stops[k] == text[pos..pos + len]
    ensures !found ==> forall i: nat :: from <= i ==> !StopAt(stops, text, i)
  {
    found, pos, len := false, 0, 0;
    for k := 0 to |stops|
      invariant found ==> from <= pos && pos + len <= |text|
      invariant found ==> exists j :: 0 <= j < k && |stops[j]| == len && MatchAt(text, pos, stops[j])
      invariant forall i: nat, j :: 0 <= j < k && from <= i && (found ==> i < pos) ==> !MatchAt(text, i, stops[j])
    {
      var p := Find(text, from, stops[k]);
      if p >= 0 && (!found || p < pos) {
        found, pos, len := true, p, |stops[k]|;
      }
    }
    if found {
      var j :| 0 <= j < |stops| && |stops[j]| == len && MatchAt(text, pos, stops[j]);
      assert StopAt(stops, text, pos);
      assert stops[j] == text[pos..pos + len];
    }
  }

  /** How much may be sent when no stop has been seen. */
  method SafeLen(stops: seq<string>, maxLen: nat, textLen: nat) returns (r: nat)
    ensures r == if stops == [] || maxLen <= 1 then textLen
        else if textLen > maxLen - 1 then textLen - (maxLen - 1) else 0
  {
    if stops == [] || maxLen <= 1 { return textLen; }
    var hold := maxLen - 1;
    r := if textLen > hold then textLen - hold else 0;
  }

  /** A stop that only the longer text has ends in the new piece. */
  lemma NewStop(stops: seq<string>, maxLen: nat, text: string, piece: string, i: nat)
    requires StopsOk(stops, maxLen) && StopFree(stops, text) && StopAt(stops, text + piece, i)
    ensures |text| < i + maxLen
  {
    var k :| 0 <= k < |stops| && MatchAt(text + piece, i, stops[k]);
    if i + |stops[k]| <= |text| {
      assert !StopAt(stops, text, i);
      assert (text + piece)[..|text|] == text;
      MatchInPrefix(text + piece, |text|, i, stops[k]);
    }
  }

  /** Before the first stop the text is free of stops. */
  lemma FreeBefore(stops: seq<string>, maxLen: nat, text: string, pos: nat)
    requires StopsOk(stops, maxLen) && FirstStop(stops, text, 0, pos) && pos <= |text|
    ensures StopFree(stops, text[..pos])
  {
    forall i: nat
      ensures !StopAt(stops, text[..pos], i)
    {
      if StopAt(stops, text[..pos], i) {
        var k :| 0 <= k < |stops| && MatchAt(text[..pos], i, stops[k]);
        MatchInPrefix(text, pos, i, stops[k]);
        assert StopAt(stops, text, i);
      }
    }
  }

  class Plain {
    const stops: seq<string>
    const maxLen: nat
    var text: string
    var scanFrom: nat
    var sentPos: nat
    var sent: string
    // all pieces so far, also what was cut away after a stop
    ghost var whole: string

    ghost predicate Running()
      reads this
    {
      && StopsOk(stops, maxLen)
      && text == whole && StopFree(stops, text)
      && sentPos <= |text| && sent == text[..sentPos]
      && scanFrom == (if maxLen > 1 && |text| > maxLen - 1 then |text| - (maxLen - 1) else 0)
      && (maxLen > 1 && sentPos > 0 ==> sentPos + maxLen <= |text| + 1)
    }

    /** After a stop: the text ends just before the first stop of all pieces. */
    ghost predicate Stopped()
      reads this
    {
      && StopsOk(stops, maxLen)
      && FirstStop(stops, whole, 0, |text|) && |text| <= |whole| && text == whole[..|text|]
      && StopFree(stops, text)
      && sentPos <= |text| && sent == text[..sentPos]
    }

    constructor (list: StopList)
      requires list.Valid()
      ensures Running() && stops == list.v && maxLen == list.maxLen && whole == ""
    {
      stops, maxLen := list.v, list.maxLen;
      text, scanFrom, sentPos, sent, whole := "", 0, 0, "", "";
    }

    /** One more piece of text: what is safe of it is sent, and a stop ends it. */
    method Feed(piece: string) returns (hit: bool)
      requires Running()
      modifies this
      ensures whole == old(whole) + piece && old(sent) <= sent
      ensures hit <==> !StopFree(stops, whole)
      ensures if hit then Stopped() else Running()
    {
      hide StopsOk, StopAt, Utf8Safe;
      ghost var before := text;
      StopInside(stops, maxLen, text + piece);
      text := text + piece;
      whole := whole + piece;
      var pos, len;
      hit, pos, len := FindFrom(stops, maxLen, text, scanFrom);
      Rescan(stops, maxLen, before, piece, scanFrom);
      var streamLen: nat;
      if hit {
        assert FirstStop(stops, text, 0, pos);
        NewStop(stops, maxLen, before, piece, pos);
        streamLen := pos;
      } else {
        streamLen := SafeLen(stops, maxLen, |text|);
      }
      if streamLen > |text| { streamLen := |text|; }
      Utf8Bounds(text, sentPos, streamLen);
      var safe := Utf8Safe(text, sentPos, streamLen);
      streamLen := if hit then streamLen else safe;
      if !hit && maxLen > 1 {
        var hold := maxLen - 1;
        scanFrom := if |text| > hold then |text| - hold else 0;
      }
      SendTo(streamLen);
      if hit {
        FreeBefore(stops, maxLen, text, pos);
        text := text[..pos];
      }
    }

    method SendTo(limit: nat)
      requires sentPos <= |text| && limit <= |text| && sent == text[..sentPos]
      modifies `sent, `sentPos
      ensures sentPos == (if limit > old(sentPos) then limit else old(sentPos)) && sent == text[..sentPos]
      ensures old(sent) <= sent
    {
      if limit > sentPos {
        sent := sent + text[sentPos..limit];
        sentPos := limit;
      }
    }

    /** The last of the text, once generation has ended. */
    method Flush()
      requires Running() || Stopped()
      modifies `sent, `sentPos
      ensures sent == text && old(sent) <= sent
    {
      if |text| > sentPos {
        sent := sent + text[sentPos..];
        sentPos := |text|;
      }
    }
  }

  lemma Utf8Bounds(s: string, start: nat, limit: nat)
    requires limit <= |s|
    ensures start <= limit ==> start <= Utf8Safe(s, start, limit) <= limit
    ensures limit < start ==> Utf8Safe(s, start, limit) == limit
  {
  }

  lemma StopInside(stops: seq<string>, maxLen: nat, text: string)
    requires StopsOk(stops, maxLen)
    ensures forall i: nat :: i >= |text| ==> !StopAt(stops, text, i)
    ensures maxLen > 0 ==> stops != []
  {
  }

  /** Scanning again from `scanFrom` misses no stop. */
  lemma Rescan(stops: seq<string>, maxLen: nat, text: string, piece: string, scanFrom: nat)
    requires StopsOk(stops, maxLen) && StopFree(stops, text)
    requires scanFrom == 0 || scanFrom + maxLen <= |text| + 1
    ensures forall i: nat :: i < scanFrom ==> !StopAt(stops, text + piece, i)
  {
    forall i: nat | i < scanFrom
      ensures !StopAt(stops, text + piece, i)
    {
      if StopAt(stops, text + piece, i) { NewStop(stops, maxLen, text, piece, i); }
    }
  }

  function Concat(pieces: seq<string>): string {
    if pieces == [] then "" else Concat(pieces[..|pieces| - 1]) + pieces[|pieces| - 1]
  }

  // ----- how the text came -----

  ghost function First(stops: seq<string>, text: string): (pos: nat)
    requires !StopFree(stops, text)
    ensures FirstStop(stops, text, 0, pos)
  {
    var i: nat :| StopAt(stops, text, i);
    Least(stops, text, i);
    var pos: nat :| FirstStop(stops, text, 0, pos);
    pos
  }

  lemma {:induction false} Least(stops: seq<string>, text: string, i: nat)
    requires StopAt(stops, text, i)
    ensures exists pos: nat :: FirstStop(stops, text, 0, pos)
  {
    if j: nat :| j < i && StopAt(stops, text, j) {
      Least(stops, text, j);
    } else {
      assert FirstStop(stops, text, 0, i);
    }
  }

  lemma FirstIs(stops: seq<string>, text: string, pos: nat)
    requires FirstStop(stops, text, 0, pos)
    ensures !StopFree(stops, text) && First(stops, text) == pos
  {
    hide First;
  }

  /** What is left of a text that comes in pieces, and whether a stop ended it. */
  ghost function Cut(stops: seq<string>, pieces: seq<string>): (string, bool) {
    if pieces == [] then ("", false)
    else
      var (text, hit) := Cut(stops, pieces[..|pieces| - 1]);
      var more := text + pieces[|pieces| - 1];
      if hit then (text, true)
      else if StopFree(stops, more) then (more, false)
      else FirstInside(stops, more); (more[..First(stops, more)], true)
  }

  lemma FirstInside(stops: seq<string>, text: string)
    requires !StopFree(stops, text)
    ensures First(stops, text) <= |text|
  {
  }

  /** A proper prefix of one stop holds another, and none starts earlier in it. */
  ghost predicate Nested(stops: seq<string>) {
    exists k, n, pos: nat :: 0 <= k < |stops| && 0 <= n < |stops[k]| && pos > 0 &&
      FirstStop(stops, stops[k][..n], 0, pos)
  }

  /** Where stops are not nested, more text does not move the first stop. */
  lemma FirstStays(stops: seq<string>, text: string, more: string)
    requires !Nested(stops) && !StopFree(stops, text)
    ensures !StopFree(stops, text + more) && First(stops, text + more) == First(stops, text)
  {
    var all, m := text + more, |text|;
    assert all[..m] == text;
    var p := First(stops, text);
    StopKept(stops, all, m, p);
    var q := First(stops, all);
    if q < p {
      var k :| 0 <= k < |stops| && MatchAt(all, q, stops[k]);
      var s := stops[k];
      FirstInside(stops, text);
      MatchInPrefix(all, m, q, s);
      assert !StopAt(stops, text, q);
      var n := m - q;
      assert s[..n] == all[q..m];
      InnerFirst(stops, all, m, q, p);
      assert Nested(stops);
    }
  }

  lemma StopKept(stops: seq<string>, all: string, m: nat, i: nat)
    requires m <= |all| && StopAt(stops, all[..m], i)
    ensures StopAt(stops, all, i)
  {
    var k :| 0 <= k < |stops| && MatchAt(all[..m], i, stops[k]);
    MatchInPrefix(all, m, i, stops[k]);
  }

  /** The first stop of a prefix is the first stop of what stands before it. */
  lemma InnerFirst(stops: seq<string>, all: string, m: nat, q: nat, p: nat)
    requires q <= p && q <= m <= |all| && FirstStop(stops, all[..m], 0, p)
    ensures FirstStop(stops, all[q..m], 0, p - q)
  {
    forall i: nat
      ensures StopAt(stops, all[q..m], i) <==> StopAt(stops, all[..m], q + i)
    {
      forall k | 0 <= k < |stops|
        ensures MatchAt(all[q..m], i, stops[k]) <==> MatchAt(all[..m], q + i, stops[k])
      {
        if q + i + |stops[k]| <= m {
          assert all[q..m][i..i + |stops[k]|] == all[..m][q + i..q + i + |stops[k]|];
        }
      }
    }
    forall i: nat | i < p - q
      ensures !StopAt(stops, all[q..m], i)
    {
      assert !StopAt(stops, all[..m], q + i);
    }
  }

  /** The cut of a text, where it does not depend on the pieces. */
  ghost function Whole(stops: seq<string>, text: string): (string, bool) {
    if StopFree(stops, text) then (text, false)
    else FirstInside(stops, text); (text[..First(stops, text)], true)
  }

  lemma {:induction false} CutWhole(stops: seq<string>, pieces: seq<string>)
    requires !Nested(stops) && StopFree(stops, "")
    ensures Cut(stops, pieces) == Whole(stops, Concat(pieces))
  {
    hide StopFree, First, Nested;
    if pieces != [] {
      var n := |pieces| - 1;
      var text, more := Concat(pieces[..n]), pieces[n];
      CutWhole(stops, pieces[..n]);
      if !StopFree(stops, text) {
        FirstStays(stops, text, more);
        FirstInside(stops, text);
        assert (text + more)[..First(stops, text)] == text[..First(stops, text)];
      }
    }
  }

  lemma EmptyFree(stops: seq<string>, maxLen: nat)
    requires StopsOk(stops, maxLen)
    ensures StopFree(stops, "")
  {
  }

  /** Nested stops: one text, whole and in two pieces, is cut in two ways. */
  lemma NestedDiffers(stops: seq<string>, maxLen: nat) returns (a: seq<string>, b: seq<string>)
    requires StopsOk(stops, maxLen) && Nested(stops)
    ensures Concat(a) == Concat(b) && Cut(stops, a).0 != Cut(stops, b).0
  {
    hide First;
    var k, n, pos: nat :| 0 <= k < |stops| && 0 <= n < |stops[k]| && pos > 0 && FirstStop(stops, stops[k][..n], 0, pos);
    var s := stops[k];
    a, b := [s], [s[..n], s[n..]];
    assert MatchAt(s, 0, s) by { assert s[0..|s|] == s; }
    assert StopAt(stops, s, 0);
    EmptyFree(stops, maxLen);
    CutOne(stops, s);
    CutOne(stops, s[..n]);
    assert b[..1] == [s[..n]];
    assert b[..1][..0] == [];
    assert s[..n] + s[n..] == s && "" + s[..n] == s[..n];
    FirstInside(stops, s[..n]);
    FirstIs(stops, s, 0);
    FirstIs(stops, s[..n], pos);
  }

  lemma CutOne(stops: seq<string>, piece: string)
    ensures Concat([piece]) == piece && Cut(stops, [piece]) == Whole(stops, piece)
  {
    hide StopFree, First;
    assert [piece][..0] == [] && "" + piece == piece;
  }

  /** The cut is the same however a text comes, for every text, exactly when no stop
      holds another in a proper prefix. */
  lemma CutIsFree(stops: seq<string>, maxLen: nat)
    requires StopsOk(stops, maxLen)
    ensures !Nested(stops) <==> forall a, b :: Concat(a) == Concat(b) ==> Cut(stops, a).0 == Cut(stops, b).0
  {
    hide Nested, StopFree, First, Cut, Whole;
    EmptyFree(stops, maxLen);
    if Nested(stops) {
      var a, b := NestedDiffers(stops, maxLen);
    } else {
      forall a, b | Concat(a) == Concat(b)
        ensures Cut(stops, a).0 == Cut(stops, b).0
      {
        CutWhole(stops, a);
        CutWhole(stops, b);
      }
    }
  }

  /** One stop alone is not nested. */
  lemma OneStop(stop: string)
    ensures !Nested([stop])
  {
    forall n: nat, i: nat | n < |stop|
      ensures !StopAt([stop], stop[..n], i)
    {
    }
  }

  /** Two may be: the shorter can show before the longer is complete. */
  lemma SplitMatters()
    ensures Nested(["abc", "b"])
  {
    var stops := ["abc", "b"];
    assert stops[0][..2] == "ab";
    assert MatchAt("ab", 1, stops[1]) by { assert "ab"[1..2] == "b"; }
    assert FirstStop(stops, "ab", 0, 1) by {
      assert !MatchAt("ab", 0, stops[0]) && !MatchAt("ab", 0, stops[1]) by { assert "ab"[0..1] == "a"; }
    }
    assert FirstStop(stops, stops[0][..2], 0, 1);
  }

  /** Pieces that come after a stop change nothing. */
  lemma {:induction false} CutStays(stops: seq<string>, pieces: seq<string>, n: nat)
    requires n <= |pieces| && (n == |pieces| || Cut(stops, pieces[..n]).1)
    ensures pieces[..|pieces|] == pieces && Cut(stops, pieces) == Cut(stops, pieces[..n])
    decreases |pieces|
  {
    assert pieces[..|pieces|] == pieces;
    if n < |pieces| {
      var m := |pieces| - 1;
      assert pieces[..m][..n] == pieces[..n];
      CutStays(stops, pieces[..m], n);
    }
  }

  /** A whole generation: pieces until a stop shows, and then the last of the text.
      `n` pieces were generated. What was sent is all of their text, or all that
      comes before its first stop; it holds no stop. */
  method Generate(list: StopList, pieces: seq<string>) returns (sent: string, n: nat, hit: bool)
    requires list.Valid()
    ensures n <= |pieces| && StopFree(list.v, sent)
    ensures hit ==> sent <= Concat(pieces[..n]) && FirstStop(list.v, Concat(pieces[..n]), 0, |sent|)
    ensures hit ==> n > 0 && StopFree(list.v, Concat(pieces[..n - 1]))
    ensures !hit ==> n == |pieces| && sent == Concat(pieces)
    ensures Cut(list.v, pieces) == (sent, hit)
  {
    var plain := new Plain(list);
    n, hit := 0, false;
    while n < |pieces| && !hit
      invariant n <= |pieces| && plain.stops == list.v && plain.whole == Concat(pieces[..n])
      invariant !hit ==> plain.Running()
      invariant hit ==> plain.Stopped() && n > 0 && StopFree(list.v, Concat(pieces[..n - 1]))
      invariant fresh(plain) && Cut(list.v, pieces[..n]) == (plain.text, hit)
    {
      assert pieces[..n + 1][..n] == pieces[..n] && pieces[..n + 1][n] == pieces[n];
      ghost var before := plain.text;
      hit := plain.Feed(pieces[n]);
      if hit { FirstIs(list.v, plain.whole, |plain.text|); }
      n := n + 1;
    }
    CutStays(list.v, pieces, n);
    plain.Flush();
    sent := plain.sent;
    assert pieces[..|pieces|] == pieces;
  }
}
