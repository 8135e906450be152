/** The hidden stretches of an edited line: where they are, what editing does to
    them, and what is shown instead of them. */
module Folds {
  datatype Fold = Fold(start: nat, end: nat)

  const MAX_FOLDS: nat := 16

  /** Not empty, inside the line, in order and apart. */
  ghost predicate Ok(fs: seq<Fold>, len: nat) {
    && (forall i :: 0 <= i < |fs| ==> fs[i].start < fs[i].end <= len)
    && (forall i, j :: 0 <= i < j < |fs| ==> fs[i].end <= fs[j].start)
  }

  function Text(buf: string, f: Fold): string
    requires f.start <= f.end <= |buf|
  {
    buf[f.start..f.end]
  }

  /** What an insertion makes of the folds: those behind it move, one it lands in is
      given up. */
  function AfterInsert(fs: seq<Fold>, pos: nat, len: nat): seq<Fold> {
    if fs == [] then []
    else
      var f, rest := fs[0], AfterInsert(fs[1..], pos, len);
      if pos <= f.start then [Fold(f.start + len, f.end + len)] + rest
      else if pos < f.end then rest
      else [f] + rest
  }

  /** What a deletion makes of the folds: those behind it move, those it touches are
      given up. */
  function AfterDelete(fs: seq<Fold>, pos: nat, len: nat): seq<Fold> {
    if fs == [] then []
    else
      var f, rest := fs[0], AfterDelete(fs[1..], pos, len);
      if pos + len <= f.start <= f.end then [Fold(f.start - len, f.end - len)] + rest
      else if pos >= f.end then [f] + rest
      else rest
  }

  /** A fold put in its place. */
  function Added(fs: seq<Fold>, f: Fold): seq<Fold> {
    if fs == [] then [f]
    else if f.start < fs[|fs| - 1].start then Added(fs[..|fs| - 1], f) + [fs[|fs| - 1]]
    else fs + [f]
  }

  function Inserted(buf: string, pos: nat, c: string): string
    requires pos <= |buf|
  {
    buf[..pos] + c + buf[pos..]
  }

  function Deleted(buf: string, pos: nat, len: nat): string
    requires pos + len <= |buf|
  {
    buf[..pos] + buf[pos + len..]
  }

  /** A fold hides text that some old fold hid. */
  ghost predicate SameText(old_: seq<Fold>, buf: string, f: Fold, buf': string) {
    && f.start <= f.end <= |buf'|
    && exists i ::
         0 <= i < |old_| && old_[i].start <= old_[i].end <= |buf| && Text(buf, old_[i]) == Text(buf', f)
  }

  lemma OkParts(fs: seq<Fold>, len: nat)
    requires Ok(fs, len) && fs != []
    ensures fs[0].start < fs[0].end <= len && Ok(fs[1..], len)
    ensures forall i :: 0 <= i < |fs[1..]| ==> fs[0].end <= fs[1..][i].start < fs[1..][i].end
  {
  }

  lemma NoFolds()
    ensures forall len: nat :: Ok([], len)
  {
  }

  lemma {:induction false} InsertedAfter(fs: seq<Fold>, pos: nat, n: nat, e: nat, g: Fold)
    requires (forall i :: 0 <= i < |fs| ==> e <= fs[i].start < fs[i].end) && g in AfterInsert(fs, pos, n)
    ensures g.start >= e && (pos <= e ==> g.start >= e + n)
  {
    if fs != [] && g in AfterInsert(fs[1..], pos, n) { InsertedAfter(fs[1..], pos, n, e, g); }
  }

  lemma {:induction false} InsertOrder(fs: seq<Fold>, len: nat, pos: nat, n: nat)
    requires pos <= len && Ok(fs, len)
    ensures Ok(AfterInsert(fs, pos, n), len + n)
  {
    hide Ok;
    if fs == [] {
      NoFolds();
    } else {
      OkParts(fs, len);
      var f, rest := fs[0], AfterInsert(fs[1..], pos, n);
      InsertOrder(fs[1..], len, pos, n);
      forall g | g in rest
        ensures g.start >= f.end && (pos <= f.end ==> g.start >= f.end + n)
      {
        InsertedAfter(fs[1..], pos, n, f.end, g);
      }
      if pos <= f.start { PrependOk(Fold(f.start + n, f.end + n), rest, len + n); }
      if pos >= f.end { PrependOk(f, rest, len + n); }
    }
  }

  lemma {:induction false} InsertText(fs: seq<Fold>, buf: string, pos: nat, c: string, g: Fold)
    requires pos <= |buf| && Ok(fs, |buf|) && g in AfterInsert(fs, pos, |c|)
    ensures SameText(fs, buf, g, Inserted(buf, pos, c))
    ensures g.end <= pos || pos + |c| <= g.start
  {
    var f, n, buf' := fs[0], |c|, Inserted(buf, pos, c);
    if g in AfterInsert(fs[1..], pos, n) {
      InsertText(fs[1..], buf, pos, c, g);
      SameTextTail(fs, buf, g, buf');
    } else {
      InsertedSlice(buf, pos, c, f.start, f.end);
    }
  }

  lemma InsertedSlice(buf: string, pos: nat, c: string, a: nat, b: nat)
    requires pos <= |buf| && a <= b <= |buf|
    ensures b <= pos ==> Inserted(buf, pos, c)[a..b] == buf[a..b]
    ensures pos <= a ==> Inserted(buf, pos, c)[a + |c|..b + |c|] == buf[a..b]
  {
  }

  lemma DeletedSlice(buf: string, pos: nat, n: nat, a: nat, b: nat)
    requires pos + n <= |buf| && a <= b <= |buf|
    ensures b <= pos ==> Deleted(buf, pos, n)[a..b] == buf[a..b]
    ensures pos + n <= a ==> Deleted(buf, pos, n)[a - n..b - n] == buf[a..b]
  {
  }

  /** After an insertion the folds are in order and clear of what was inserted, and
      each still hides what it hid. */
  lemma InsertKeeps(fs: seq<Fold>, buf: string, pos: nat, c: string)
    requires pos <= |buf| && Ok(fs, |buf|)
    ensures Ok(AfterInsert(fs, pos, |c|), |buf| + |c|)
    ensures forall f :: f in AfterInsert(fs, pos, |c|) ==>
      SameText(fs, buf, f, Inserted(buf, pos, c)) && (f.end <= pos || pos + |c| <= f.start)
  {
    InsertOrder(fs, |buf|, pos, |c|);
    forall f | f in AfterInsert(fs, pos, |c|)
      ensures SameText(fs, buf, f, Inserted(buf, pos, c)) && (f.end <= pos || pos + |c| <= f.start)
    {
      InsertText(fs, buf, pos, c, f);
    }
  }

  lemma SameTextTail(fs: seq<Fold>, buf: string, f: Fold, buf': string)
    requires fs != [] && SameText(fs[1..], buf, f, buf')
    ensures SameText(fs, buf, f, buf')
  {
    var i :| 0 <= i < |fs[1..]| && fs[1..][i].start <= fs[1..][i].end <= |buf| &&
      Text(buf, fs[1..][i]) == Text(buf', f);
    assert fs[i + 1] == fs[1..][i];
  }

  lemma PrependOk(f: Fold, rest: seq<Fold>, len: nat)
    requires f.start < f.end <= len && Ok(rest, len) && forall g :: g in rest ==> f.end <= g.start
    ensures Ok([f] + rest, len)
  {
    var all := [f] + rest;
    forall j | 0 < j < |all|
      ensures f.end <= all[j].start
    {
      assert all[j] in rest;
    }
  }

  lemma {:induction false} DeleteOrder(fs: seq<Fold>, len: nat, pos: nat, n: nat)
    requires pos + n <= len && Ok(fs, len)
    ensures Ok(AfterDelete(fs, pos, n), len - n)
  {
    hide Ok;
    if fs == [] {
      NoFolds();
    } else {
      OkParts(fs, len);
      var f, rest := fs[0], AfterDelete(fs[1..], pos, n);
      DeleteOrder(fs[1..], len, pos, n);
      forall g | g in rest
        ensures f.end <= pos ==> g.start >= f.end
        ensures pos + n <= f.end ==> g.start >= f.end - n
      {
        DeletedAfter(fs[1..], pos, n, f.end, g);
      }
      if pos + n <= f.start {
        PrependOk(Fold(f.start - n, f.end - n), rest, len - n);
      } else if pos >= f.end {
        PrependOk(f, rest, len - n);
      }
    }
  }

  lemma {:induction false} DeleteText(fs: seq<Fold>, buf: string, pos: nat, n: nat, g: Fold)
    requires pos + n <= |buf| && Ok(fs, |buf|) && g in AfterDelete(fs, pos, n)
    ensures SameText(fs, buf, g, Deleted(buf, pos, n))
  {
    var f, buf' := fs[0], Deleted(buf, pos, n);
    if g in AfterDelete(fs[1..], pos, n) {
      DeleteText(fs[1..], buf, pos, n, g);
      SameTextTail(fs, buf, g, buf');
    } else {
      DeletedSlice(buf, pos, n, f.start, f.end);
    }
  }

  /** After a deletion the folds are in order, and each still hides what it hid. */
  lemma DeleteKeeps(fs: seq<Fold>, buf: string, pos: nat, n: nat)
    requires pos + n <= |buf| && Ok(fs, |buf|)
    ensures Ok(AfterDelete(fs, pos, n), |buf| - n)
    ensures forall f :: f in AfterDelete(fs, pos, n) ==> SameText(fs, buf, f, Deleted(buf, pos, n))
  {
    DeleteOrder(fs, |buf|, pos, n);
    forall f | f in AfterDelete(fs, pos, n)
      ensures SameText(fs, buf, f, Deleted(buf, pos, n))
    {
      DeleteText(fs, buf, pos, n, f);
    }
  }

  /** Folds from `e` on stay from `e` on, or from there less what was deleted. */
  lemma {:induction false} DeletedAfter(fs: seq<Fold>, pos: nat, n: nat, e: nat, g: Fold)
    requires (forall i :: 0 <= i < |fs| ==> e <= fs[i].start < fs[i].end) && g in AfterDelete(fs, pos, n)
    ensures e <= pos ==> g.start >= e
    ensures pos + n <= e ==> g.start >= e - n
    ensures pos <= e ==> g.start >= pos
  {
    if fs != [] && g in AfterDelete(fs[1..], pos, n) { DeletedAfter(fs[1..], pos, n, e, g); }
  }

  /** What a fold becomes that is clear of the place: it stays, or moves with the text. */
  ghost predicate Follows(f: Fold, g: Fold, place: nat, end: nat, add: nat, drop: nat) {
    (end <= f.start && g.start == f.start + add - drop && g.end == f.end + add - drop) || (f.end <= place && g == f)
  }

  ghost predicate Followed(fs: seq<Fold>, g: Fold, place: nat, end: nat, add: nat, drop: nat) {
    exists f :: f in fs && Follows(f, g, place, end, add, drop)
  }

  lemma FollowedFirst(fs: seq<Fold>, g: Fold, place: nat, end: nat, add: nat, drop: nat)
    requires fs != []
    ensures Followed(fs, g, place, end, add, drop) <==>
      Follows(fs[0], g, place, end, add, drop) || Followed(fs[1..], g, place, end, add, drop)
  {
    hide Follows;
    assert fs[0] in fs && fs == [fs[0]] + fs[1..];
  }

  lemma InsertOf(fs: seq<Fold>, pos: nat, n: nat, g: Fold)
    requires fs != [] && fs[0].start < fs[0].end
    ensures g in AfterInsert(fs, pos, n) <==> Follows(fs[0], g, pos, pos, n, 0) || g in AfterInsert(fs[1..], pos, n)
  {
  }

  lemma DeleteOf(fs: seq<Fold>, pos: nat, n: nat, g: Fold)
    requires fs != [] && fs[0].start < fs[0].end && n > 0
    ensures g in AfterDelete(fs, pos, n) <==> Follows(fs[0], g, pos, pos + n, 0, n) || g in AfterDelete(fs[1..], pos, n)
  {
  }

  /** An insertion gives up the folds it lands in and no others; those behind it move. */
  lemma {:induction false} InsertExactly(fs: seq<Fold>, len: nat, pos: nat, n: nat, g: Fold)
    requires Ok(fs, len)
    ensures g in AfterInsert(fs, pos, n) <==> Followed(fs, g, pos, pos, n, 0)
  {
    if fs != [] {
      hide Ok, Followed, Follows, AfterInsert;
      OkParts(fs, len);
      InsertOf(fs, pos, n, g);
      FollowedFirst(fs, g, pos, pos, n, 0);
      InsertExactly(fs[1..], len, pos, n, g);
    }
  }

  /** A deletion gives up the folds it touches and no others; those behind it move. */
  lemma {:induction false} DeleteExactly(fs: seq<Fold>, len: nat, pos: nat, n: nat, g: Fold)
    requires Ok(fs, len) && n > 0
    ensures g in AfterDelete(fs, pos, n) <==> Followed(fs, g, pos, pos + n, 0, n)
  {
    if fs != [] {
      hide Ok, Followed, Follows, AfterDelete;
      OkParts(fs, len);
      DeleteOf(fs, pos, n, g);
      FollowedFirst(fs, g, pos, pos + n, 0, n);
      DeleteExactly(fs[1..], len, pos, n, g);
    }
  }

  /** A fold that no other touches goes in its place. */
  lemma {:induction false} AddedKeeps(fs: seq<Fold>, f: Fold, len: nat)
    requires Ok(fs, len) && f.start < f.end <= len
    requires forall g :: g in fs ==> g.end <= f.start || f.end <= g.start
    ensures Ok(Added(fs, f), len)
    ensures forall g :: g in Added(fs, f) <==> g in fs || g == f
  {
    hide Ok;
    if fs == [] {
      OneOk(f, len);
    } else {
      var n := |fs| - 1;
      var last := fs[n];
      OkInit(fs, len);
      if f.start < last.start {
        AddedKeeps(fs[..n], f, len);
        AppendOk(Added(fs[..n], f), last, len);
      } else {
        AppendOk(fs, f, len);
      }
    }
  }

  lemma OneOk(f: Fold, len: nat)
    requires f.start < f.end <= len
    ensures Ok([f], len)
  {
  }

  lemma OkInit(fs: seq<Fold>, len: nat)
    requires Ok(fs, len) && fs != []
    ensures var n := |fs| - 1;
            && Ok(fs[..n], len) && fs[n].start < fs[n].end <= len
            && (forall g :: g in fs <==> g in fs[..n] || g == fs[n])
            && (forall g :: g in fs[..n] ==> g.end <= fs[n].start)
  {
  }

  lemma AppendOk(fs: seq<Fold>, f: Fold, len: nat)
    requires Ok(fs, len) && f.start < f.end <= len && forall g :: g in fs ==> g.end <= f.start
    ensures Ok(fs + [f], len)
  {
    assert forall i :: 0 <= i < |fs| ==> fs[i] in fs;
  }

  // ----- what is shown -----

  function Lines(s: string): nat {
    if s == "" then 1 else Lines(s[..|s| - 1]) + if s[|s| - 1] == '\n' then 1 else 0
  }

  function Decimal(n: nat): string {
    if n < 10 then ['0' + n as char] else Decimal(n / 10) + ['0' + (n % 10) as char]
  }

  /** What is shown for a hidden text. */
  function Display(hidden: string): string {
    if Lines(hidden) > 1 then "[... " + Decimal(Lines(hidden)) + " pasted lines ...]"
    else "[... " + Decimal(|hidden|) + " pasted chars ...]"
  }

  /** The line from `src` on, with each fold replaced. */
  function Shown(buf: string, fs: seq<Fold>, src: nat): string
    requires Ok(fs, |buf|) && src <= |buf| && forall i :: 0 <= i < |fs| ==> src <= fs[i].start
  {
    if fs == [] then buf[src..]
    else buf[src..fs[0].start] + Display(Text(buf, fs[0])) + Shown(buf, fs[1..], fs[0].end)
  }

  /** Where the cursor is shown. */
  function Cursor(buf: string, fs: seq<Fold>, src: nat, pos: nat): nat
    requires Ok(fs, |buf|) && src <= pos <= |buf| && forall i :: 0 <= i < |fs| ==> src <= fs[i].start
  {
    if fs == [] || pos <= fs[0].start then pos - src
    else
      var at := fs[0].start - src + |Display(Text(buf, fs[0]))|;
      if pos <= fs[0].end then at else at + Cursor(buf, fs[1..], fs[0].end, pos)
  }

  /** The folds that end before the cursor. */
  function Before(fs: seq<Fold>, pos: nat): (r: seq<Fold>)
    ensures r <= fs
  {
    if fs == [] || fs[0].end > pos then [] else [fs[0]] + Before(fs[1..], pos)
  }

  lemma {:induction false} BeforeOk(fs: seq<Fold>, pos: nat, len: nat)
    requires Ok(fs, len) && pos <= len
    ensures Ok(Before(fs, pos), pos)
  {
    if fs != [] && fs[0].end <= pos {
      BeforeOk(fs[1..], pos, len);
      forall g | g in Before(fs[1..], pos)
        ensures fs[0].end <= g.start
      {
        var r := Before(fs[1..], pos);
        var i :| 0 <= i < |r| && r[i] == g;
        assert g == fs[1..][i] == fs[i + 1];
      }
      PrependOk(fs[0], Before(fs[1..], pos), pos);
    }
  }

  /** A cursor that is not inside a fold is shown where the text before it ends. */
  lemma {:induction false} CursorIsPrefix(buf: string, fs: seq<Fold>, src: nat, pos: nat)
    requires Ok(fs, |buf|) && src <= pos <= |buf| && forall i :: 0 <= i < |fs| ==> src <= fs[i].start
    requires forall i :: 0 <= i < |fs| ==> pos <= fs[i].start || fs[i].end <= pos
    ensures Ok(Before(fs, pos), pos) && forall i :: 0 <= i < |Before(fs, pos)| ==> src <= Before(fs, pos)[i].start
    ensures Cursor(buf, fs, src, pos) == |Shown(buf[..pos], Before(fs, pos), src)|
    ensures Shown(buf[..pos], Before(fs, pos), src) <= Shown(buf, fs, src)
    decreases |fs|, 1
  {
    hide Display;
    BeforeOk(fs, pos, |buf|);
    var b, p := Before(fs, pos), buf[..pos];
    if fs == [] {
      assert p[src..] == buf[src..pos] && buf[src..] == buf[src..pos] + buf[pos..];
    } else if fs[0].end > pos {
      assert p[src..] == buf[src..pos];
      assert buf[src..fs[0].start] == buf[src..pos] + buf[pos..fs[0].start];
      PrefixSum(buf[src..pos], buf[pos..fs[0].start], Display(Text(buf, fs[0])), Shown(buf, fs[1..], fs[0].end));
    } else {
      CursorNext(buf, fs, src, pos);
    }
  }

  lemma SlicePrefix(buf: string, pos: nat, a: nat, b: nat)
    requires a <= b <= pos <= |buf|
    ensures buf[..pos][a..b] == buf[a..b]
  {
  }

  lemma {:induction false} CursorNext(buf: string, fs: seq<Fold>, src: nat, pos: nat)
    requires Ok(fs, |buf|) && src <= pos <= |buf| && forall i :: 0 <= i < |fs| ==> src <= fs[i].start
    requires forall i :: 0 <= i < |fs| ==> pos <= fs[i].start || fs[i].end <= pos
    requires fs != [] && fs[0].end <= pos
    ensures Ok(Before(fs, pos), pos) && forall i :: 0 <= i < |Before(fs, pos)| ==> src <= Before(fs, pos)[i].start
    ensures Cursor(buf, fs, src, pos) == |Shown(buf[..pos], Before(fs, pos), src)|
    ensures Shown(buf[..pos], Before(fs, pos), src) <= Shown(buf, fs, src)
    decreases |fs|, 0
  {
    hide Display;
    BeforeOk(fs, pos, |buf|);
    var f, p := fs[0], buf[..pos];
    var b := Before(fs[1..], pos);
    assert Before(fs, pos) == [f] + b;
    CursorIsPrefix(buf, fs[1..], f.end, pos);
    SlicePrefix(buf, pos, src, f.start);
    SlicePrefix(buf, pos, f.start, f.end);
    assert ([f] + b)[1..] == b && ([f] + b)[0] == f;
    var head := buf[src..f.start] + Display(Text(buf, f));
    assert Shown(p, [f] + b, src) == head + Shown(p, b, f.end);
    PrefixTail(head, Shown(p, b, f.end), Shown(buf, fs[1..], f.end));
  }

  lemma PrefixSum(a: string, b: string, c: string, d: string)
    ensures a <= (a + b) + c + d
  {
  }

  lemma PrefixTail(a: string, b: string, c: string)
    requires b <= c
    ensures a + b <= a + c
  {
  }

  /** Every character outside the folds is shown, each at its cursor. */
  lemma {:induction false} VisibleAt(buf: string, fs: seq<Fold>, src: nat, k: nat)
    requires Ok(fs, |buf|) && src <= k < |buf| && forall i :: 0 <= i < |fs| ==> src <= fs[i].start
    requires forall i :: 0 <= i < |fs| ==> k < fs[i].start || fs[i].end <= k
    ensures Cursor(buf, fs, src, k) < |Shown(buf, fs, src)| && Shown(buf, fs, src)[Cursor(buf, fs, src, k)] == buf[k]
  {
    hide Display;
    if fs != [] {
      var f := fs[0];
      var head := buf[src..f.start] + Display(Text(buf, f));
      assert Shown(buf, fs, src) == head + Shown(buf, fs[1..], f.end);
      if k >= f.end {
        VisibleAt(buf, fs[1..], f.end, k);
        CursorBehind(buf, fs, src, k);
      }
    }
  }

  lemma CursorBehind(buf: string, fs: seq<Fold>, src: nat, k: nat)
    requires Ok(fs, |buf|) && src <= k <= |buf| && forall i :: 0 <= i < |fs| ==> src <= fs[i].start
    requires fs != [] && fs[0].end <= k
    ensures forall i :: 0 <= i < |fs[1..]| ==> fs[0].end <= fs[1..][i].start
    ensures Cursor(buf, fs, src, k) ==
      |buf[src..fs[0].start] + Display(Text(buf, fs[0]))| + Cursor(buf, fs[1..], fs[0].end, k)
  {
    hide Display;
  }

  /** In place of each fold its own text is shown, between the cursors of its ends; nothing
      else is shown. */
  lemma {:induction false} HiddenAt(buf: string, fs: seq<Fold>, src: nat, j: nat)
    requires Ok(fs, |buf|) && src <= |buf| && forall i :: 0 <= i < |fs| ==> src <= fs[i].start
    requires j < |fs|
    ensures var a, b := Cursor(buf, fs, src, fs[j].start), Cursor(buf, fs, src, fs[j].end);
      a <= b <= |Shown(buf, fs, src)| && Shown(buf, fs, src)[a..b] == Display(Text(buf, fs[j]))
  {
    hide Display, Text, Shown, Cursor, Ok;
    OkParts(fs, |buf|);
    if j > 0 {
      var f := fs[0];
      OrderParts(fs, |buf|, j);
      HiddenAt(buf, fs[1..], f.end, j - 1);
      CursorBehind(buf, fs, src, fs[j].start);
      CursorBehind(buf, fs, src, fs[j].end);
      var a, b := Cursor(buf, fs[1..], f.end, fs[j].start), Cursor(buf, fs[1..], f.end, fs[j].end);
      ShownBehind(buf, fs, src, a, b);
    } else {
      FirstShown(buf, fs, src);
    }
  }

  lemma OrderParts(fs: seq<Fold>, len: nat, j: nat)
    requires Ok(fs, len) && 0 < j < |fs|
    ensures fs[0].end <= fs[j].start < fs[j].end <= len && fs[1..][j - 1] == fs[j]
  {
  }

  lemma ShownBehind(buf: string, fs: seq<Fold>, src: nat, a: nat, b: nat)
    requires Ok(fs, |buf|) && src <= |buf| && forall i :: 0 <= i < |fs| ==> src <= fs[i].start
    requires fs != [] && a <= b <= |Shown(buf, fs[1..], fs[0].end)|
    ensures var n := |buf[src..fs[0].start] + Display(Text(buf, fs[0]))|;
      n + b <= |Shown(buf, fs, src)| && Shown(buf, fs, src)[n + a..n + b] == Shown(buf, fs[1..], fs[0].end)[a..b]
  {
    hide Display, Text;
    SliceBehind(buf[src..fs[0].start] + Display(Text(buf, fs[0])), Shown(buf, fs[1..], fs[0].end), a, b);
  }

  lemma FirstShown(buf: string, fs: seq<Fold>, src: nat)
    requires Ok(fs, |buf|) && src <= |buf| && forall i :: 0 <= i < |fs| ==> src <= fs[i].start
    requires fs != []
    ensures var a, b := Cursor(buf, fs, src, fs[0].start), Cursor(buf, fs, src, fs[0].end);
      a <= b <= |Shown(buf, fs, src)| && Shown(buf, fs, src)[a..b] == Display(Text(buf, fs[0]))
  {
    hide Display, Text;
    FirstHidden(buf[src..fs[0].start], Display(Text(buf, fs[0])), Shown(buf, fs[1..], fs[0].end));
  }

  lemma FirstHidden(a: string, b: string, c: string)
    ensures (a + b + c)[|a|..|a| + |b|] == b
  {
  }

  lemma SliceBehind(a: string, b: string, i: nat, j: nat)
    requires i <= j <= |b|
    ensures (a + b)[|a| + i..|a| + j] == b[i..j]
  {
  }

  lemma {:induction false} ShownEnds(buf: string, fs: seq<Fold>, src: nat)
    requires Ok(fs, |buf|) && src <= |buf| && forall i :: 0 <= i < |fs| ==> src <= fs[i].start
    ensures |Shown(buf, fs, src)| == Cursor(buf, fs, src, |buf|)
  {
    hide Display;
    if fs != [] {
      ShownEnds(buf, fs[1..], fs[0].end);
      CursorBehind(buf, fs, src, |buf|);
    }
  }

  function Value(digits: string): int {
    if digits == "" then 0 else 10 * Value(digits[..|digits| - 1]) + (digits[|digits| - 1] as int - '0' as int)
  }

  /** The number shown is the number meant. */
  lemma {:induction false} DecimalBack(n: nat)
    ensures Value(Decimal(n)) == n && Decimal(n) != ""
    ensures forall k :: 0 <= k < |Decimal(n)| ==> '0' <= Decimal(n)[k] <= '9'
    ensures n > 0 ==> Decimal(n)[0] != '0'
  {
    if n >= 10 {
      DecimalBack(n / 10);
      assert Decimal(n)[..|Decimal(n)| - 1] == Decimal(n / 10);
    }
  }
}
