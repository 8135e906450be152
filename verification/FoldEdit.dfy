/** The edited line with its folds: the arrays that remember them, the editing that
    adjusts them, and the text that is shown. */
module FoldEdit {
  import opened Folds

  const PASTE_FOLD_THRESHOLD: nat := 200
  const PASTE_FOLD_CONTEXT: nat := 8
  const PASTE_MAX_BYTES: nat := 1024 * 1024

  // ----- loops against the specification -----

  /** The place of a fold: behind all that start no later. */
  lemma {:induction false} AddedAt(fs: seq<Fold>, f: Fold, j: nat)
    requires j <= |fs|
    requires forall i :: j <= i < |fs| ==> f.start < fs[i].start
    requires j > 0 ==> fs[j - 1].start <= f.start
    ensures Added(fs, f) == fs[..j] + [f] + fs[j..]
  {
    if j < |fs| {
      var n := |fs| - 1;
      AddedAt(fs[..n], f, j);
      assert fs[..n][..j] == fs[..j] && fs[..n][j..] + [fs[n]] == fs[j..];
      assert Added(fs, f) == (fs[..j] + [f] + fs[..n][j..]) + [fs[n]];
    } else {
      assert fs[..j] == fs && fs[j..] == [];
    }
  }

  lemma Regroup(x: seq<Fold>, y: seq<Fold>, z: seq<Fold>)
    ensures x + (y + z) == (x + y) + z
  {
  }

  lemma InsertFirst(fs: seq<Fold>, pos: nat, len: nat)
    requires fs != []
    ensures AfterInsert(fs, pos, len) == InsertOne(fs[0], pos, len) + AfterInsert(fs[1..], pos, len)
  {
  }

  lemma DeleteFirst(fs: seq<Fold>, pos: nat, len: nat)
    requires fs != []
    ensures AfterDelete(fs, pos, len) == DeleteOne(fs[0], pos, len) + AfterDelete(fs[1..], pos, len)
  {
  }

  lemma {:induction false} InsertConcat(a: seq<Fold>, b: seq<Fold>, pos: nat, len: nat)
    ensures AfterInsert(a + b, pos, len) == AfterInsert(a, pos, len) + AfterInsert(b, pos, len)
  {
    hide InsertOne;
    if a == [] {
      assert a + b == b;
    } else {
      InsertFirst(a, pos, len);
      InsertFirst(a + b, pos, len);
      InsertConcat(a[1..], b, pos, len);
      assert (a + b)[1..] == a[1..] + b && (a + b)[0] == a[0];
      Regroup(InsertOne(a[0], pos, len), AfterInsert(a[1..], pos, len), AfterInsert(b, pos, len));
    }
  }

  lemma {:induction false} DeleteConcat(a: seq<Fold>, b: seq<Fold>, pos: nat, len: nat)
    ensures AfterDelete(a + b, pos, len) == AfterDelete(a, pos, len) + AfterDelete(b, pos, len)
  {
    hide DeleteOne;
    if a == [] {
      assert a + b == b;
    } else {
      DeleteFirst(a, pos, len);
      DeleteFirst(a + b, pos, len);
      DeleteConcat(a[1..], b, pos, len);
      assert (a + b)[1..] == a[1..] + b && (a + b)[0] == a[0];
      Regroup(DeleteOne(a[0], pos, len), AfterDelete(a[1..], pos, len), AfterDelete(b, pos, len));
    }
  }

  function Zip(a: seq<nat>, b: seq<nat>): (r: seq<Fold>)
    requires |a| == |b|
    ensures |r| == |a| && forall i :: 0 <= i < |a| ==> r[i] == Fold(a[i], b[i])
  {
    seq(|a|, i requires 0 <= i < |a| => Fold(a[i], b[i]))
  }

  /** What becomes of one fold. */
  function InsertOne(f: Fold, pos: nat, len: nat): seq<Fold> {
    if pos <= f.start then [Fold(f.start + len, f.end + len)] else if pos < f.end then [] else [f]
  }

  function DeleteOne(f: Fold, pos: nat, len: nat): seq<Fold> {
    if pos + len <= f.start <= f.end then [Fold(f.start - len, f.end - len)] else if pos >= f.end then [f] else []
  }

  lemma InsertNext(fs: seq<Fold>, k: nat, pos: nat, len: nat)
    requires k < |fs|
    ensures AfterInsert(fs[..k + 1], pos, len) == AfterInsert(fs[..k], pos, len) + InsertOne(fs[k], pos, len)
  {
    assert fs[..k + 1] == fs[..k] + [fs[k]];
    InsertConcat(fs[..k], [fs[k]], pos, len);
    assert [fs[k]][1..] == [];
  }

  lemma DeleteNext(fs: seq<Fold>, k: nat, pos: nat, len: nat)
    requires k < |fs|
    ensures AfterDelete(fs[..k + 1], pos, len) == AfterDelete(fs[..k], pos, len) + DeleteOne(fs[k], pos, len)
  {
    assert fs[..k + 1] == fs[..k] + [fs[k]];
    DeleteConcat(fs[..k], [fs[k]], pos, len);
    assert [fs[k]][1..] == [];
  }

  ghost predicate Forward(fs: seq<Fold>) {
    forall i :: 0 <= i < |fs| ==> fs[i].start <= fs[i].end
  }

  lemma ForwardAt(fs: seq<Fold>, k: nat)
    requires Forward(fs) && k < |fs|
    ensures fs[k].start <= fs[k].end
  {
  }

  /** `v` is `fs` with one more place at `j`; the folds behind it start after `start`. */
  ghost predicate Hole(v: seq<Fold>, fs: seq<Fold>, j: nat, start: nat) {
    && j <= |fs| && |v| == |fs| + 1 && v[..j] == fs[..j] && v[j + 1..] == fs[j..]
    && forall i :: j <= i < |fs| ==> start < fs[i].start
  }

  lemma HoleStart(v: seq<Fold>, fs: seq<Fold>, start: nat)
    requires |v| == |fs| + 1 && v[..|fs|] == fs
    ensures Hole(v, fs, |fs|, start)
  {
  }

  /** A hole moves down by one. */
  lemma StepUp(v: seq<Fold>, fs: seq<Fold>, j: nat, start: nat)
    requires Hole(v, fs, j, start) && 0 < j
    ensures v[j - 1] == fs[j - 1]
    ensures start < fs[j - 1].start ==> Hole(v[j := fs[j - 1]], fs, j - 1, start)
  {
    assert v[j - 1] == v[..j][j - 1];
    assert v[j := fs[j - 1]][j..] == [fs[j - 1]] + v[j + 1..];
  }

  lemma Spliced(fs: seq<Fold>, f: Fold, j: nat, v: seq<Fold>)
    requires j <= |fs| && |v| == |fs| + 1 && v[..j] == fs[..j] && v[j + 1..] == fs[j..]
    ensures v[j := f] == fs[..j] + [f] + fs[j..]
  {
    assert v == v[..j] + [v[j]] + v[j + 1..];
  }

  lemma NoneYet(fs: seq<Fold>, pos: nat, len: nat)
    ensures AfterInsert(fs[..0], pos, len) == [] && AfterDelete(fs[..0], pos, len) == []
    ensures fs[..|fs|] == fs && [] + fs[0..] == fs
  {
  }

  /** The fold under work in an adjusted list. */
  lemma Under(done: seq<Fold>, fs: seq<Fold>, k: nat)
    requires k < |fs|
    ensures var v := done + fs[k..];
            v[|done|] == fs[k] && v[..|done|] == done && v[|done| + 1..] == fs[k + 1..]
  {
  }

  predicate ShouldFold(text: string) {
    '\n' in text || |text| >= PASTE_FOLD_THRESHOLD
  }

  /** Pasted line ends become line feeds. */
  function Normalized(s: string): string {
    if s == "" then ""
    else if s[0] != '\r' then [s[0]] + Normalized(s[1..])
    else if |s| > 1 && s[1] == '\n' then "\n" + Normalized(s[2..])
    else "\n" + Normalized(s[1..])
  }

  /** The cursor is not inside a fold. */
  ghost predicate Clear(fs: seq<Fold>, at: nat) {
    forall f :: f in fs ==> at <= f.start || f.end <= at
  }

  /** How far one step right goes: over a fold that starts here, or over `step`. */
  function HopRight(fs: seq<Fold>, at: nat, step: nat): nat {
    if fs == [] then step
    else if fs[0].start == at && fs[0].start <= fs[0].end then fs[0].end - fs[0].start
    else HopRight(fs[1..], at, step)
  }

  function HopLeft(fs: seq<Fold>, at: nat, step: nat): nat {
    if fs == [] then step
    else if fs[0].end == at && fs[0].start <= fs[0].end then fs[0].end - fs[0].start
    else HopLeft(fs[1..], at, step)
  }

  /** A step right stays in the line, and ends clear of the folds exactly if a fold starts here or
      the character stepped over does not end inside one. */
  lemma {:induction false} HopRightClear(fs: seq<Fold>, len: nat, at: nat, step: nat)
    requires Ok(fs, len) && at + step <= len
    ensures at + HopRight(fs, at, step) <= len
    ensures Clear(fs, at + HopRight(fs, at, step)) <==> (exists f :: f in fs && f.start == at) || Clear(fs, at + step)
  {
    HopBounds(fs, len, at, step);
    if forall i :: 0 <= i < |fs| ==> fs[i].start != at {
      NoHop(fs, at, step);
    } else {
      var i :| 0 <= i < |fs| && fs[i].start == at;
      HopsOver(fs, len, i, step);
      EndsClear(fs, len, i);
      assert fs[i] in fs;
    }
  }

  lemma {:induction false} HopLeftClear(fs: seq<Fold>, len: nat, at: nat, step: nat)
    requires Ok(fs, len) && step <= at <= len
    ensures HopLeft(fs, at, step) <= at
    ensures Clear(fs, at - HopLeft(fs, at, step)) <==> (exists f :: f in fs && f.end == at) || Clear(fs, at - step)
  {
    HopBounds(fs, len, at, step);
    if forall i :: 0 <= i < |fs| ==> fs[i].end != at {
      NoHop(fs, at, step);
    } else {
      var i :| 0 <= i < |fs| && fs[i].end == at;
      HopsOver(fs, len, i, step);
      EndsClear(fs, len, i);
      assert fs[i] in fs;
    }
  }

  /** Both ends of a fold are clear of all folds. */
  lemma EndsClear(fs: seq<Fold>, len: nat, i: nat)
    requires Ok(fs, len) && i < |fs|
    ensures Clear(fs, fs[i].start) && Clear(fs, fs[i].end)
  {
    forall f | f in fs
      ensures (fs[i].start <= f.start || f.end <= fs[i].start) && (fs[i].end <= f.start || f.end <= fs[i].end)
    {
      var j :| 0 <= j < |fs| && fs[j] == f;
    }
  }

  lemma {:induction false} NoHop(fs: seq<Fold>, at: nat, step: nat)
    ensures (forall i :: 0 <= i < |fs| ==> fs[i].start != at) ==> HopRight(fs, at, step) == step
    ensures (forall i :: 0 <= i < |fs| ==> fs[i].end != at) ==> HopLeft(fs, at, step) == step
  {
    if fs != [] { NoHop(fs[1..], at, step); }
  }

  /** From either end of a fold a step goes to its other end. */
  lemma {:induction false} HopsOver(fs: seq<Fold>, len: nat, i: nat, step: nat)
    requires Ok(fs, len) && i < |fs|
    ensures HopRight(fs, fs[i].start, step) == fs[i].end - fs[i].start
    ensures HopLeft(fs, fs[i].end, step) == fs[i].end - fs[i].start
  {
    if i > 0 { HopsOver(fs[1..], len, i - 1, step); }
  }

  /** The start of the run of blanks, or of other bytes, before `at`, in steps of
      `prev`. */
  ghost function Back(buf: string, fs: seq<Fold>, prev: nat -> nat, at: nat, blank: bool): (r: nat)
    requires at <= |buf| && Ok(fs, |buf|) && forall p: nat :: 0 < p <= |buf| ==> 0 < prev(p) <= p
    ensures r <= at && (r == 0 || (buf[r - 1] == ' ') != blank)
    decreases at
  {
    if at > 0 && (buf[at - 1] == ' ') == blank then
      HopBounds(fs, |buf|, at, prev(at));
      Back(buf, fs, prev, at - HopLeft(fs, at, prev(at)), blank)
    else at
  }

  /** What is walked back over is of the kind asked for, apart from folds that are hopped
      over. */
  lemma {:induction false} BackRun(buf: string, fs: seq<Fold>, prev: nat -> nat, at: nat, blank: bool, k: nat)
    requires at <= |buf| && Ok(fs, |buf|) && forall p: nat :: 0 < p <= |buf| ==> 0 < prev(p) <= p
    requires forall p, q: nat :: 0 < p <= |buf| && p - prev(p) <= q < p ==> (buf[q] == ' ') == (buf[p - 1] == ' ')
    requires Back(buf, fs, prev, at, blank) <= k < at
    ensures (buf[k] == ' ') == blank || exists f :: f in fs && f.start <= k < f.end
    decreases at
  {
    hide Back, Ok;
    BackStep(buf, fs, prev, at, blank);
    var n := HopLeft(fs, at, prev(at));
    if k < at - n { BackRun(buf, fs, prev, at - n, blank, k); } else { HoppedOver(buf, fs, at, prev(at), k); }
  }

  lemma HoppedOver(buf: string, fs: seq<Fold>, at: nat, step: nat, k: nat)
    requires 0 < at <= |buf| && step <= at && at - HopLeft(fs, at, step) <= k < at
    requires forall q: nat :: at - step <= q < at ==> (buf[q] == ' ') == (buf[at - 1] == ' ')
    ensures (buf[k] == ' ') == (buf[at - 1] == ' ') || exists f :: f in fs && f.start <= k < f.end
  {
    hide HopLeft;
    HopIs(fs, at, step);
  }

  /** A step left goes over a fold that ends here, or over a character. */
  lemma {:induction false} HopIs(fs: seq<Fold>, at: nat, step: nat)
    ensures var n := HopLeft(fs, at, step); n == step || exists f :: f in fs && f.end == at && f.end - f.start == n
  {
    if fs != [] { HopIs(fs[1..], at, step); }
  }

  lemma BackStep(buf: string, fs: seq<Fold>, prev: nat -> nat, at: nat, blank: bool)
    requires at <= |buf| && Ok(fs, |buf|) && forall p: nat :: 0 < p <= |buf| ==> 0 < prev(p) <= p
    ensures at > 0 && (buf[at - 1] == ' ') == blank ==>
              var n := HopLeft(fs, at, prev(at));
              0 < n <= at && Back(buf, fs, prev, at, blank) == Back(buf, fs, prev, at - n, blank)
    ensures !(at > 0 && (buf[at - 1] == ' ') == blank) ==> Back(buf, fs, prev, at, blank) == at
  {
    if at > 0 { HopBounds(fs, |buf|, at, prev(at)); }
  }

  lemma {:induction false} HopBounds(fs: seq<Fold>, len: nat, at: nat, step: nat)
    requires Ok(fs, len)
    ensures step <= at ==> HopLeft(fs, at, step) <= at
    ensures step > 0 ==> HopLeft(fs, at, step) > 0
    ensures at + step <= len ==> at + HopRight(fs, at, step) <= len
  {
    if fs != [] { HopBounds(fs[1..], len, at, step); }
  }

  /** What is left after a deletion is clear of the place it was made at. */
  lemma {:induction false} DeleteClear(fs: seq<Fold>, pos: nat, n: nat, len: nat)
    requires Ok(fs, len)
    ensures Clear(AfterDelete(fs, pos, n), pos)
  {
    if fs != [] {
      DeleteClear(fs[1..], pos, n, len);
    }
  }

  /** Two neighbouring stretches change places. */
  function Swapped(buf: string, a: nat, b: nat, c: nat): string
    requires a <= b <= c <= |buf|
  {
    buf[..a] + buf[b..c] + buf[a..b] + buf[c..]
  }

  lemma SwapKeeps(fs: seq<Fold>, buf: string, a: nat, b: nat, c: nat)
    requires a <= b <= c <= |buf| && Ok(fs, |buf|) && forall f :: f in fs ==> f.end <= a || c <= f.start
    ensures |Swapped(buf, a, b, c)| == |buf|
    ensures forall f :: f in fs ==> SameText(fs, buf, f, Swapped(buf, a, b, c))
  {
    var t := Swapped(buf, a, b, c);
    forall f | f in fs
      ensures SameText(fs, buf, f, t)
    {
      var i :| 0 <= i < |fs| && fs[i] == f;
      SwapSlice(buf, a, b, c, f.start, f.end);
      assert Text(buf, fs[i]) == Text(t, f);
    }
  }

  lemma SwapSlice(buf: string, a: nat, b: nat, c: nat, i: nat, j: nat)
    requires a <= b <= c <= |buf| && i <= j <= |buf| && (j <= a || c <= i)
    ensures |Swapped(buf, a, b, c)| == |buf| && Swapped(buf, a, b, c)[i..j] == buf[i..j]
  {
    var t := Swapped(buf, a, b, c);
    assert t[..a] == buf[..a] && t[c..] == buf[c..];
    if j <= a {
      assert t[i..j] == t[..a][i..j];
    } else {
      assert t[i..j] == t[c..][i - c..j - c];
    }
  }

  lemma Removal(v: seq<Fold>, fs: seq<Fold>, j: nat)
    requires j < |fs| && |v| == |fs| - 1
    requires forall k :: 0 <= k < |v| ==> v[k] == fs[if k < j then k else k + 1]
    ensures v == fs[..j] + fs[j + 1..]
  {
  }

  lemma NoFoldsLeft(at: nat, len: nat)
    ensures AfterInsert([], at, len) == [] && AfterDelete([], at, len) == []
  {
  }

  lemma {:induction false} NormalShorter(s: string)
    ensures |Normalized(s)| <= |s| && '\r' !in Normalized(s)
  {
    if s == "" {
    } else if s[0] == '\r' && |s| > 1 && s[1] == '\n' {
      NormalShorter(s[2..]);
    } else {
      NormalShorter(s[1..]);
    }
  }

  /** A text without CR stays as it is. */
  lemma {:induction false} NormalKeeps(s: string)
    requires '\r' !in s
    ensures Normalized(s) == s
  {
    if s != "" { NormalKeeps(s[1..]); }
  }

  /** CR and LF together, and CR alone, are one line feed each, wherever they stand. */
  lemma NormalLines(s: string, t: string)
    ensures Normalized(s + "\r\n" + t) == Normalized(s) + "\n" + Normalized(t)
    ensures (t == "" || t[0] != '\n') ==> Normalized(s + "\r" + t) == Normalized(s) + "\n" + Normalized(t)
  {
    NormalJoin(s, "\r\n" + t);
    assert s + ("\r\n" + t) == s + "\r\n" + t;
    assert ("\r\n" + t)[2..] == t;
    NormalJoin(s, "\r" + t);
    assert s + ("\r" + t) == s + "\r" + t;
    assert ("\r" + t)[1..] == t;
    Gather(Normalized(s), Normalized(t));
  }

  lemma Gather(a: string, b: string)
    ensures a + ("\n" + b) == a + "\n" + b
  {
  }

  /** A text cut in front of anything but a line feed is done piece by piece. */
  lemma {:induction false} NormalJoin(s: string, t: string)
    requires t == "" || t[0] != '\n'
    ensures Normalized(s + t) == Normalized(s) + Normalized(t)
    decreases |s|
  {
    hide Normalized;
    if s == "" {
      NormalNone();
      assert s + t == t;
    } else {
      var n, c := LineEnd(s), if s[0] == '\r' then "\n" else [s[0]];
      NormalFirst(s);
      NormalFirst(s + t);
      assert (s + t)[0] == s[0] && LineEnd(s + t) == n && (s + t)[n..] == s[n..] + t;
      NormalJoin(s[n..], t);
      Joined(c, Normalized(s[n..]), Normalized(t));
    }
  }

  lemma NormalNone()
    ensures Normalized("") == ""
  {
  }

  lemma Joined(a: string, b: string, c: string)
    ensures a + (b + c) == (a + b) + c
  {
  }

  /** How many characters go into the first of the normalized text. */
  function LineEnd(s: string): (r: nat)
    requires s != ""
    ensures 0 < r <= |s|
  {
    if |s| > 1 && s[0] == '\r' && s[1] == '\n' then 2 else 1
  }

  lemma NormalFirst(s: string)
    requires s != ""
    ensures Normalized(s) == (if s[0] == '\r' then "\n" else [s[0]]) + Normalized(s[LineEnd(s)..])
  {
  }

  lemma {:induction false} FewerFolds(fs: seq<Fold>, at: nat, len: nat)
    ensures |AfterInsert(fs, at, len)| <= |fs|
  {
    if fs != [] { FewerFolds(fs[1..], at, len); }
  }

  lemma NormalStep(s: string, i: nat, r: string)
    requires i < |s|
    ensures var n := if s[i] == '\r' && i + 1 < |s| && s[i + 1] == '\n' then 2 else 1;
            r + Normalized(s[i..]) == (r + if s[i] == '\r' then "\n" else [s[i]]) + Normalized(s[i + n..])
  {
    assert s[i..][1..] == s[i + 1..];
    if i + 1 < |s| { assert s[i..][2..] == s[i + 2..]; }
  }

  lemma AddedNone(f: Fold)
    ensures Added([], f) == [f]
  {
  }

  lemma AllDone(done: seq<Fold>, fs: seq<Fold>, k: nat)
    requires k <= |fs| && |done + fs[k..]| <= |done|
    ensures done + fs[k..] == done && fs[..k] == fs
  {
  }

  /** The folds left to show start at `src` or later. */
  ghost predicate RestFits(fs: seq<Fold>, len: nat, src: nat) {
    Ok(fs, len) && forall i :: 0 <= i < |fs| ==> src <= fs[i].start
  }

  lemma RestNext(fs: seq<Fold>, j: nat, len: nat, src: nat)
    requires j < |fs| && RestFits(fs[j..], len, src)
    ensures fs[j..][0] == fs[j] && fs[j..][1..] == fs[j + 1..] && src <= fs[j].start < fs[j].end <= len
    ensures RestFits(fs[j + 1..], len, fs[j].end) && Ok(fs[j..], len)
  {
    OkParts(fs[j..], len);
    assert fs[j..][1..] == fs[j + 1..];
  }

  /** A cursor clear of the folds is shown where the text before it, shown alone, ends. */
  lemma ClearCursor(buf: string, fs: seq<Fold>, pos: nat)
    requires Ok(fs, |buf|) && pos <= |buf| && Clear(fs, pos)
    ensures Ok(Before(fs, pos), pos)
    ensures Cursor(buf, fs, 0, pos) == |Shown(buf[..pos], Before(fs, pos), 0)|
    ensures Shown(buf[..pos], Before(fs, pos), 0) <= Shown(buf, fs, 0)
  {
    hide Shown, Cursor, Before, Display;
    CursorIsPrefix(buf, fs, 0, pos);
  }

  lemma RestAll(fs: seq<Fold>, len: nat)
    requires Ok(fs, len)
    ensures fs[0..] == fs && RestFits(fs, len, 0)
  {
  }

  /** Showing one fold more. */
  lemma ShowStep(buf: string, rest: seq<Fold>, src: nat, out: string)
    requires rest != [] && RestFits(rest, |buf|, src) && src <= rest[0].start < rest[0].end <= |buf|
    requires RestFits(rest[1..], |buf|, rest[0].end)
    ensures var f := rest[0];
            out + Shown(buf, rest, src)
            == out + buf[src..f.start] + Display(buf[f.start..f.end]) + Shown(buf, rest[1..], f.end)
  {
    hide Display;
  }

  lemma CursorStep(buf: string, rest: seq<Fold>, src: nat, pos: nat)
    requires rest != [] && RestFits(rest, |buf|, src) && src <= rest[0].start < rest[0].end <= |buf|
    requires RestFits(rest[1..], |buf|, rest[0].end) && src <= pos <= |buf|
    ensures var f := rest[0];
            var shown := f.start - src + |Display(buf[f.start..f.end])|;
            Cursor(buf, rest, src, pos) ==
              if pos <= f.start then pos - src
              else if pos <= f.end then shown
              else shown + Cursor(buf, rest[1..], f.end, pos)
  {
    hide Display;
  }

  lemma ShowEnd(buf: string, src: nat, pos: nat)
    requires src <= |buf|
    ensures Ok([], |buf|) && Shown(buf, [], src) == buf[src..]
    ensures src <= pos <= |buf| ==> Cursor(buf, [], src, pos) == pos - src
  {
  }

  /** The place after the first few characters, and whether one was a line feed. */
  function Ahead(buf: string, next: nat -> nat, p: nat, chars: nat, nl: bool): (r: (nat, bool))
    requires p <= |buf|
    ensures p <= r.0 <= |buf|
    decreases |buf| - p
  {
    if p < |buf| && chars < PASTE_FOLD_CONTEXT && next(p) != 0 && p + next(p) <= |buf| then
      Ahead(buf, next, p + next(p), chars + 1, nl || buf[p] == '\n')
    else (p, nl)
  }

  /** The place before the last few characters, and whether one was a line feed. */
  function Behind(buf: string, prev: nat -> nat, p: nat, chars: nat, nl: bool): (r: (nat, bool))
    requires p <= |buf|
    ensures r.0 <= p
    decreases p
  {
    if p > 0 && chars < PASTE_FOLD_CONTEXT && 0 != prev(p) <= p then
      Behind(buf, prev, p - prev(p), chars + 1, nl || buf[p - prev(p)] == '\n')
    else (p, nl)
  }

  /** The fold of a recalled line: all but a few characters at either end, and all of
      it where those few hold a line feed or meet. */
  function HistoryFold(buf: string, next: nat -> nat, prev: nat -> nat): (f: Fold)
    requires buf != ""
    ensures f.start < f.end <= |buf|
  {
    if |buf| <= 2 * PASTE_FOLD_CONTEXT then Fold(0, |buf|)
    else
      var a, b := Ahead(buf, next, 0, 0, false), Behind(buf, prev, |buf|, 0, false);
      var start, end := if a.1 then 0 else a.0, if b.1 then |buf| else b.0;
      if start < end then Fold(start, end) else Fold(0, |buf|)
  }

  /** Only the first byte of a character can be a line feed. */
  ghost predicate LinesApart(buf: string, next: nat -> nat, prev: nat -> nat) {
    && (forall p: nat, q: nat {:trigger buf[q], next(p)} :: p < q < p + next(p) && q < |buf| ==> buf[q] != '\n')
    && (forall p: nat, q: nat {:trigger buf[q], prev(p)} :: q < p < q + prev(p) && q < |buf| ==> buf[q] != '\n')
  }

  /** For characters of any length, no line feed is ever shown of a recalled line that needs a fold. */
  lemma HistoryFoldShows(buf: string, next: nat -> nat, prev: nat -> nat)
    requires buf != "" && LinesApart(buf, next, prev)
    ensures var f := HistoryFold(buf, next, prev); '\n' !in buf[..f.start] && '\n' !in buf[f.end..]
  {
    AheadShows(buf, next, prev, 0, 0, false);
    BehindShows(buf, next, prev, |buf|, 0, false);
  }

  lemma {:induction false} AheadShows(buf: string, next: nat -> nat, prev: nat -> nat, p: nat, chars: nat, nl: bool)
    requires LinesApart(buf, next, prev) && p <= |buf|
    ensures var r := Ahead(buf, next, p, chars, nl); p <= r.0 <= |buf| && (!r.1 ==> !nl && '\n' !in buf[p..r.0])
    decreases |buf| - p
  {
    if p < |buf| && chars < PASTE_FOLD_CONTEXT && next(p) != 0 && p + next(p) <= |buf| {
      var e := p + next(p);
      AheadShows(buf, next, prev, e, chars + 1, nl || buf[p] == '\n');
      var r := Ahead(buf, next, e, chars + 1, nl || buf[p] == '\n');
      assert buf[p..r.0] == buf[p..e] + buf[e..r.0];
    }
  }

  lemma {:induction false} BehindShows(buf: string, next: nat -> nat, prev: nat -> nat, p: nat, chars: nat, nl: bool)
    requires LinesApart(buf, next, prev) && p <= |buf|
    ensures var r := Behind(buf, prev, p, chars, nl); r.0 <= p && (!r.1 ==> !nl && '\n' !in buf[r.0..p])
    decreases p
  {
    hide LinesApart;
    if p > 0 && chars < PASTE_FOLD_CONTEXT && 0 != prev(p) <= p {
      var e := p - prev(p);
      BehindShows(buf, next, prev, e, chars + 1, nl || buf[e] == '\n');
      if buf[e] != '\n' { CharLines(buf, next, prev, p); }
      NoLine(buf, Behind(buf, prev, e, chars + 1, nl || buf[e] == '\n').0, e, p);
    }
  }

  lemma CharLines(buf: string, next: nat -> nat, prev: nat -> nat, p: nat)
    requires LinesApart(buf, next, prev) && 0 != prev(p) <= p <= |buf| && buf[p - prev(p)] != '\n'
    ensures '\n' !in buf[p - prev(p)..p]
  {
  }

  lemma NoLine(buf: string, a: nat, b: nat, c: nat)
    requires a <= b <= c <= |buf|
    ensures '\n' !in buf[a..b] && '\n' !in buf[b..c] ==> '\n' !in buf[a..c]
  {
    assert buf[a..c] == buf[a..b] + buf[b..c];
  }

  /** Where every character is one byte, eight are shown on each side that has no line
      feed in its eight, and no line feed is ever shown. */
  lemma HistoryFoldBytes(buf: string)
    requires buf != ""
    ensures var n, one := PASTE_FOLD_CONTEXT, (p: nat) => 1 as nat;
            var f := HistoryFold(buf, one, one);
            && (|buf| > 2 * n && '\n' !in buf[..n] ==> f.start == n)
            && (|buf| > 2 * n && '\n' !in buf[|buf| - n..] ==> f.end == |buf| - n)
            && '\n' !in buf[..f.start] && '\n' !in buf[f.end..]
  {
    var n, one := PASTE_FOLD_CONTEXT, (p: nat) => 1 as nat;
    if |buf| > 2 * n {
      AheadBytes(buf, one, 0, false);
      BehindBytes(buf, one, |buf|, 0, false);
    }
  }

  lemma {:induction false} AheadBytes(buf: string, one: nat -> nat, p: nat, nl: bool)
    requires (forall q: nat :: one(q) == 1) && p <= PASTE_FOLD_CONTEXT <= |buf|
    ensures Ahead(buf, one, p, p, nl) == (PASTE_FOLD_CONTEXT, nl || '\n' in buf[p..PASTE_FOLD_CONTEXT])
    decreases PASTE_FOLD_CONTEXT - p
  {
    if p < PASTE_FOLD_CONTEXT {
      AheadBytes(buf, one, p + 1, nl || buf[p] == '\n');
      assert buf[p..PASTE_FOLD_CONTEXT] == [buf[p]] + buf[p + 1..PASTE_FOLD_CONTEXT];
    }
  }

  lemma {:induction false} BehindBytes(buf: string, one: nat -> nat, p: nat, chars: nat, nl: bool)
    requires (forall q: nat :: one(q) == 1) && chars <= PASTE_FOLD_CONTEXT <= |buf| && p == |buf| - chars
    ensures var end := |buf| - PASTE_FOLD_CONTEXT;
            Behind(buf, one, p, chars, nl) == (end, nl || '\n' in buf[end..p])
    decreases p
  {
    var end := |buf| - PASTE_FOLD_CONTEXT;
    if chars < PASTE_FOLD_CONTEXT {
      BehindBytes(buf, one, p - 1, chars + 1, nl || buf[p - 1] == '\n');
      OneMoreByte(buf, end, p);
    }
  }

  lemma OneMoreByte(buf: string, end: nat, p: nat)
    requires end < p <= |buf|
    ensures '\n' in buf[end..p] <==> '\n' in buf[end..p - 1] || buf[p - 1] == '\n'
  {
    assert buf[end..p] == buf[end..p - 1] + [buf[p - 1]];
  }

  const MAX_LINE: nat := 1024 * 1024
  const INITIAL_BUFLEN: nat := 4096

  class Line {
    // The room of the buffer, and how far it can grow; 0 if it cannot.
    var bufLen: nat
    const bufMax: nat
    const mask: bool
    const foldStart: array<nat>
    const foldEnd: array<nat>
    var count: nat
    var buf: string
    var pos: nat

    ghost predicate Shape()
      reads `count
    {
      foldStart.Length == foldEnd.Length == MAX_FOLDS && foldStart != foldEnd && count <= MAX_FOLDS
    }

    ghost function View(): (r: seq<Fold>)
      requires Shape()
      reads `count, foldStart, foldEnd
      ensures |r| == count && forall i :: 0 <= i < count ==> r[i] == Fold(foldStart[i], foldEnd[i])
    {
      Zip(foldStart[..count], foldEnd[..count])
    }

    ghost predicate Sized()
      reads `bufLen
    {
      bufMax == 0 || 0 < bufLen <= bufMax
    }

    /** The longest line there is room for. */
    function Limit(): nat
      reads `bufLen
    {
      if bufMax == 0 then bufLen else bufMax
    }

    ghost predicate Valid()
      reads this, foldStart, foldEnd
    {
      Shape() && Sized() && pos <= |buf| <= bufLen && Ok(View(), |buf|) && (mask ==> count == 0)
    }

    /** Every fold hides text that an earlier fold hid. */
    ghost predicate Hides(fs: seq<Fold>, text: string)
      requires Shape()
      reads this, foldStart, foldEnd
    {
      forall f :: f in View() ==> SameText(fs, text, f, buf)
    }

    /** A line in a buffer of the caller, with one byte for the end. */
    constructor Fixed(len: nat, mask: bool)
      requires len > 0
      ensures Valid() && View() == [] && buf == "" && pos == 0 && Limit() == len - 1 && this.mask == mask
      ensures fresh(foldStart) && fresh(foldEnd)
    {
      this.bufLen, this.bufMax, this.mask := len - 1, 0, mask;
      foldStart, foldEnd := new nat[MAX_FOLDS], new nat[MAX_FOLDS];
      count, buf, pos := 0, "", 0;
    }

    /** A line in a buffer that grows. */
    constructor Growing(mask: bool)
      ensures Valid() && View() == [] && buf == "" && pos == 0 && Limit() == MAX_LINE && this.mask == mask
      ensures fresh(foldStart) && fresh(foldEnd)
    {
      this.bufLen, this.bufMax, this.mask := INITIAL_BUFLEN - 1, MAX_LINE, mask;
      foldStart, foldEnd := new nat[MAX_FOLDS], new nat[MAX_FOLDS];
      count, buf, pos := 0, "", 0;
    }

    /** Makes room for `needed` bytes, by doubling, if there can be. */
    method Grow(needed: nat) returns (ok: bool)
      requires Sized()
      modifies `bufLen
      ensures Sized() && Limit() == old(Limit()) && ok == (needed <= Limit())
      ensures if ok then bufLen >= needed && bufLen >= old(bufLen) else bufLen == old(bufLen)
    {
      if needed <= bufLen { return true; }
      if bufMax == 0 || needed > bufMax { return false; }
      var newLen := if bufLen != 0 then bufLen else 16;
      while newLen < needed
        invariant 0 < newLen <= bufMax && bufLen <= newLen
        decreases bufMax - newLen
      {
        if newLen > bufMax / 2 {
          newLen := bufMax;
          break;
        }
        newLen := newLen * 2;
      }
      bufLen := newLen;
      ok := true;
    }

    // ----- the fold arrays -----

    method Set(j: nat, start: nat, end: nat)
      requires Shape() && j < MAX_FOLDS
      modifies foldStart, foldEnd
      ensures forall n :: j < n <= MAX_FOLDS ==> All(n) == old(All(n))[j := Fold(start, end)]
      ensures forall i :: 0 <= i < MAX_FOLDS ==>
        Fold(foldStart[i], foldEnd[i]) == if i == j then Fold(start, end) else old(Fold(foldStart[i], foldEnd[i]))
    {
      foldStart[j] := start;
      foldEnd[j] := end;
    }

    /** Copies the fold before `j` to `j`. */
    method Shift(j: nat)
      requires Shape() && 0 < j <= count < MAX_FOLDS
      modifies foldStart, foldEnd
      ensures |old(All(count + 1))| == count + 1
      ensures All(count + 1) == old(All(count + 1))[j := old(All(count + 1))[j - 1]]
    {
      Set(j, foldStart[j - 1], foldEnd[j - 1]);
    }

    /** Moves the folds that start later up by one; the new one belongs at `j`. */
    method MakeRoom(start: nat) returns (j: nat)
      requires Shape() && count < MAX_FOLDS
      modifies foldStart, foldEnd
      ensures Hole(All(count + 1), old(View()), j, start) && j <= count && (j > 0 ==> old(View())[j - 1].start <= start)
    {
      hide Zip, Hole;
      ghost var fs, v := View(), All(count + 1);
      AllStart(count);
      HoleStart(v, fs, start);
      j := count;
      while j > 0 && start < foldStart[j - 1]
        invariant Shape() && j <= count == |fs| && |v| == count + 1 && v == All(count + 1) && Hole(v, fs, j, start)
      {
        AllAt(j - 1);
        StepUp(v, fs, j, start);
        Shift(j);
        v := v[j := fs[j - 1]];
        j := j - 1;
      }
      if j > 0 {
        AllAt(j - 1);
        StepUp(v, fs, j, start);
      }
    }

    method FoldAdd(start: nat, end: nat)
      requires Shape()
      modifies `count, foldStart, foldEnd
      ensures Shape()
      ensures View() == if start >= end || old(count) == MAX_FOLDS then old(View())
          else Added(old(View()), Fold(start, end))
    {
      if start >= end || count == MAX_FOLDS { return; }
      hide Added, Zip;
      ghost var fs := View();
      var j := MakeRoom(start);
      ghost var v := All(count + 1);
      Set(j, start, end);
      count := count + 1;
      AddedAt(fs, Fold(start, end), j);
      Spliced(fs, Fold(start, end), j, v);
    }

    /** The first `n` elements of the arrays. */
    ghost function All(n: nat): seq<Fold>
      requires Shape() && n <= MAX_FOLDS
      reads `count, foldStart, foldEnd
    {
      Zip(foldStart[..n], foldEnd[..n])
    }

    lemma AllStart(n: nat)
      requires Shape() && n == count < MAX_FOLDS
      ensures |All(n + 1)| == n + 1 && All(n + 1)[..n] == View() && All(n) == View()
    {
    }

    lemma AllAt(i: nat)
      requires Shape() && i < count < MAX_FOLDS
      ensures |All(count + 1)| == count + 1 && All(count + 1)[i] == Fold(foldStart[i], foldEnd[i])
    {
    }

    method FoldRemove(j: nat)
      requires Shape() && j < count
      modifies `count, foldStart, foldEnd
      ensures Shape() && View() == old(View()[..j] + View()[j + 1..])
    {
      hide Zip;
      ghost var fs := View();
      for i := j to count - 1
        invariant Shape() && count == old(count)
        invariant forall k :: 0 <= k < i ==> Fold(foldStart[k], foldEnd[k]) == fs[if k < j then k else k + 1]
        invariant forall k :: i <= k < count ==> Fold(foldStart[k], foldEnd[k]) == fs[k]
      {
        Set(i, foldStart[i + 1], foldEnd[i + 1]);
      }
      count := count - 1;
      Removal(View(), fs, j);
    }

    /** Puts what becomes of fold `j` in its place: one fold, or none. */
    method Become(j: nat, ghost one: seq<Fold>, gone: bool, start: nat, end: nat)
      requires Shape() && j < count && one == if gone then [] else [Fold(start, end)]
      modifies `count, foldStart, foldEnd
      ensures Shape() && View() == old(View()[..j]) + one + old(View()[j + 1..])
    {
      ghost var fs := View();
      if gone {
        FoldRemove(j);
        assert fs[..j] + [] == fs[..j];
      } else {
        foldStart[j] := start;
        foldEnd[j] := end;
        assert View() == fs[..j] + [Fold(start, end)] + fs[j + 1..];
      }
    }

    /** Adjusts one fold to an insertion; `kept` says that it stays. */
    method InsertAt(j: nat, at: nat, len: nat) returns (kept: bool)
      requires Shape() && j < count
      modifies `count, foldStart, foldEnd
      ensures var one := InsertOne(old(View()[j]), at, len);
              Shape() && View() == old(View()[..j]) + one + old(View()[j + 1..]) && |one| == if kept then 1 else 0
    {
      var s, e := foldStart[j], foldEnd[j];
      ghost var one := InsertOne(Fold(s, e), at, len);
      kept := true;
      if at <= s {
        Become(j, one, false, s + len, e + len);
      } else if at < e {
        Become(j, one, true, 0, 0);
        kept := false;
      } else {
        Become(j, one, false, s, e);
      }
    }

    method DeleteAt(j: nat, at: nat, len: nat) returns (kept: bool)
      requires Shape() && j < count && View()[j].start <= View()[j].end
      modifies `count, foldStart, foldEnd
      ensures var one := DeleteOne(old(View()[j]), at, len);
              Shape() && View() == old(View()[..j]) + one + old(View()[j + 1..]) && |one| == if kept then 1 else 0
    {
      var s, e := foldStart[j], foldEnd[j];
      ghost var one := DeleteOne(Fold(s, e), at, len);
      kept := true;
      if at + len <= s {
        Become(j, one, false, s - len, e - len);
      } else if at >= e {
        Become(j, one, false, s, e);
      } else {
        Become(j, one, true, 0, 0);
        kept := false;
      }
    }

    method AdjustAfterInsert(at: nat, len: nat)
      requires Shape()
      modifies `count, foldStart, foldEnd
      ensures Shape() && View() == AfterInsert(old(View()), at, len)
    {
      hide AfterInsert, InsertOne, Zip;
      ghost var fs, k := View(), 0;
      ghost var done: seq<Fold> := [];
      var j := 0;
      NoneYet(fs, at, len);
      while j < count
        invariant Shape() && 0 <= k <= |fs| && j == |done|
        invariant done == AfterInsert(fs[..k], at, len) && View() == done + fs[k..]
        decreases |fs| - k
      {
        InsertNext(fs, k, at, len);
        Under(done, fs, k);
        var kept := InsertAt(j, at, len);
        if kept { j := j + 1; }
        done, k := done + InsertOne(fs[k], at, len), k + 1;
      }
      AllDone(done, fs, k);
    }

    method AdjustAfterDelete(at: nat, len: nat)
      requires Shape() && Forward(View())
      modifies `count, foldStart, foldEnd
      ensures Shape() && View() == AfterDelete(old(View()), at, len)
    {
      hide AfterDelete, Forward, DeleteOne, Zip;
      ghost var fs, k := View(), 0;
      ghost var done: seq<Fold> := [];
      var j := 0;
      NoneYet(fs, at, len);
      while j < count
        invariant Shape() && 0 <= k <= |fs| && j == |done|
        invariant done == AfterDelete(fs[..k], at, len) && View() == done + fs[k..]
        decreases |fs| - k
      {
        DeleteNext(fs, k, at, len);
        Under(done, fs, k);
        ForwardAt(fs, k);
        var kept := DeleteAt(j, at, len);
        if kept { j := j + 1; }
        done, k := done + DeleteOne(fs[k], at, len), k + 1;
      }
      AllDone(done, fs, k);
    }

    lemma OkForward()
      requires Valid()
      ensures Forward(View()) && (mask ==> View() == [])
    {
    }

    // ----- editing -----

    /** Puts bytes at the cursor, if the line has room. */
    method InsertNoRefresh(c: string) returns (ok: bool)
      requires Valid()
      modifies this, foldStart, foldEnd
      ensures Valid() && Limit() == old(Limit()) && ok == (|old(buf)| + |c| <= Limit())
      ensures !ok ==> buf == old(buf) && pos == old(pos) && View() == old(View())
      ensures ok ==> buf == Inserted(old(buf), old(pos), c) && pos == old(pos) + |c|
      ensures ok ==> Hides(old(View()), old(buf)) && View() == AfterInsert(old(View()), old(pos), |c|)
      ensures ok ==> forall f :: f in View() ==> f.end <= old(pos) || pos <= f.start
    {
      hide Ok, AfterInsert, SameText;
      ok := Grow(|buf| + |c|);
      if !ok { return; }
      ghost var fs := View();
      InsertKeeps(fs, buf, pos, c);
      NoFoldsLeft(pos, |c|);
      AdjustAfterInsert(pos, |c|);
      buf := buf[..pos] + c + buf[pos..];
      pos := pos + |c|;
      ok := true;
    }

    /** Takes a range out of the line. */
    method DeleteRange(at: nat, n: nat)
      requires Valid() && at + n <= |buf|
      modifies this, foldStart, foldEnd
      ensures Valid() && bufLen == old(bufLen) && buf == Deleted(old(buf), at, n) && pos == at && Clear(View(), pos)
      ensures Hides(old(View()), old(buf)) && View() == AfterDelete(old(View()), at, n)
    {
      hide Ok, AfterDelete, SameText, Forward, Clear;
      ghost var fs := View();
      OkForward();
      DeleteKeeps(fs, buf, at, n);
      DeleteClear(fs, at, n, |buf|);
      NoFoldsLeft(at, n);
      AdjustAfterDelete(at, n);
      buf := buf[..at] + buf[at + n..];
      pos := at;
    }

    /** How far the cursor moves right: over one character, or one fold. */
    method NextLen(at: nat, step: nat) returns (n: nat)
      requires Valid()
      ensures n == HopRight(View(), at, step)
    {
      ghost var fs := View();
      OkForward();
      for j := 0 to count
        invariant HopRight(fs, at, step) == HopRight(fs[j..], at, step)
      {
        ForwardAt(fs, j);
        assert fs[j..][0] == fs[j] && fs[j..][1..] == fs[j + 1..];
        if at == foldStart[j] { return foldEnd[j] - foldStart[j]; }
      }
      n := step;
    }

    method PrevLen(at: nat, step: nat) returns (n: nat)
      requires Valid()
      ensures n == HopLeft(View(), at, step)
    {
      ghost var fs := View();
      OkForward();
      for j := 0 to count
        invariant HopLeft(fs, at, step) == HopLeft(fs[j..], at, step)
      {
        ForwardAt(fs, j);
        assert fs[j..][0] == fs[j] && fs[j..][1..] == fs[j + 1..];
        if at == foldEnd[j] { return foldEnd[j] - foldStart[j]; }
      }
      n := step;
    }

    /** `step` is the length of the character at the cursor. */
    method MoveRight(step: nat)
      requires Valid() && pos + step <= |buf|
      modifies `pos
      ensures Valid() && pos == old(pos) + if old(pos) == |buf| then 0 else HopRight(View(), old(pos), step)
    {
      hide Ok;
      if pos != |buf| {
        HopBounds(View(), |buf|, pos, step);
        var n := NextLen(pos, step);
        pos := pos + n;
      }
    }

    /** `step` is the length of the character before the cursor. */
    method MoveLeft(step: nat)
      requires Valid() && step <= pos
      modifies `pos
      ensures Valid() && pos == old(pos) - if old(pos) == 0 then 0 else HopLeft(View(), old(pos), step)
    {
      hide Ok;
      if pos > 0 {
        HopBounds(View(), |buf|, pos, step);
        var n := PrevLen(pos, step);
        pos := pos - n;
      }
    }

    /** The Delete key takes the character or the fold at the cursor. */
    method Delete(step: nat)
      requires Valid() && pos + step <= |buf|
      modifies this, foldStart, foldEnd
      ensures Valid() && bufLen == old(bufLen) && pos == old(pos) && Hides(old(View()), old(buf))
      ensures if old(pos) == |old(buf)| then buf == old(buf) && View() == old(View()) else
              var n := HopRight(old(View()), pos, step);
              && pos + n <= |old(buf)| && buf == Deleted(old(buf), pos, n)
              && View() == AfterDelete(old(View()), pos, n) && Clear(View(), pos)
    {
      hide Ok, AfterDelete, SameText, HopRight, Clear;
      Unchanged();
      if |buf| > 0 && pos < |buf| {
        HopBounds(View(), |buf|, pos, step);
        var n := NextLen(pos, step);
        DeleteRange(pos, n);
      }
    }

    /** Nothing changed: every fold hides what it hid. */
    lemma Unchanged()
      requires Valid()
      ensures Hides(View(), buf)
    {
      forall f | f in View()
        ensures SameText(View(), buf, f, buf)
      {
        var i :| 0 <= i < count && View()[i] == f;
      }
    }

    /** Backspace takes the character or the fold before the cursor. */
    method Backspace(step: nat)
      requires Valid() && step <= pos
      modifies this, foldStart, foldEnd
      ensures Valid() && bufLen == old(bufLen) && Hides(old(View()), old(buf))
      ensures if old(pos) == 0 then pos == 0 && buf == old(buf) && View() == old(View()) else
              var n := HopLeft(old(View()), old(pos), step);
              && n <= old(pos) && pos == old(pos) - n && buf == Deleted(old(buf), pos, n)
              && View() == AfterDelete(old(View()), pos, n) && Clear(View(), pos)
    {
      hide Ok, AfterDelete, SameText, HopLeft, Clear;
      Unchanged();
      if pos > 0 && |buf| > 0 {
        HopBounds(View(), |buf|, pos, step);
        var n := PrevLen(pos, step);
        DeleteRange(pos - n, n);
      }
    }

    /** Walks left over a run of blanks, or of other bytes. */
    method WalkBack(prev: nat -> nat, blank: bool)
      requires Valid() && forall p: nat :: 0 < p <= |buf| ==> 0 < prev(p) <= p
      modifies `pos
      ensures Valid() && pos == Back(buf, View(), prev, old(pos), blank)
    {
      hide Ok, HopLeft, Back;
      ghost var fs := View();
      while pos > 0 && (buf[pos - 1] == ' ') == blank
        invariant Valid() && View() == fs && pos <= old(pos)
        invariant Back(buf, fs, prev, pos, blank) == Back(buf, fs, prev, old(pos), blank)
        decreases pos
      {
        BackStep(buf, fs, prev, pos, blank);
        var n := PrevLen(pos, prev(pos));
        pos := pos - n;
      }
      BackStep(buf, fs, prev, pos, blank);
    }

    /** Deletes back over blanks and then over a word; `prev` gives the length of
        the character before a place. */
    method DeletePrevWord(prev: nat -> nat)
      requires Valid() && forall p: nat :: 0 < p <= |buf| ==> 0 < prev(p) <= p
      modifies this, foldStart, foldEnd
      ensures Valid() && bufLen == old(bufLen) && Hides(old(View()), old(buf)) && Clear(View(), pos)
      ensures var fs := old(View());
              var word := Back(old(buf), fs, prev, old(pos), true);
              && pos == Back(old(buf), fs, prev, word, false)
              && buf == Deleted(old(buf), pos, old(pos) - pos) && View() == AfterDelete(fs, pos, old(pos) - pos)
    {
      hide Ok, SameText, Back, Clear, AfterDelete;
      var from := pos;
      WalkBack(prev, true);
      WalkBack(prev, false);
      DeleteRange(pos, from - pos);
    }

    /** Deletes to the end of the line. */
    method KillToEnd()
      requires Valid()
      modifies this, foldStart, foldEnd
      ensures Valid() && bufLen == old(bufLen) && pos == old(pos) && buf == old(buf[..pos]) && Clear(View(), pos)
      ensures Hides(old(View()), old(buf)) && View() == AfterDelete(old(View()), pos, |old(buf)| - pos)
    {
      hide Ok, SameText, Clear, AfterDelete;
      DeleteRange(pos, |buf| - pos);
    }

    method KillLine()
      requires Shape() && Sized()
      modifies `buf, `pos, `count
      ensures Valid() && buf == "" && pos == 0 && View() == []
    {
      buf, pos, count := "", 0, 0;
    }

    /** Whether a range touches a fold. */
    method OverlapsFold(at: nat, len: nat) returns (r: bool)
      requires Shape()
      ensures r == exists f :: f in View() && at + len > f.start && at < f.end
    {
      for j := 0 to count
        invariant forall i :: 0 <= i < j ==> !(at + len > View()[i].start && at < View()[i].end)
      {
        if at + len > foldStart[j] && at < foldEnd[j] {
          assert View()[j] in View();
          return true;
        }
      }
      r := false;
    }

    /** Swaps the characters around the cursor, unless they are long or a fold is
        touched. */
    method Swap(before: nat, after: nat) returns (ok: bool)
      requires Valid() && before <= pos && pos + after <= |buf|
      modifies `buf, `pos
      ensures Valid() && View() == old(View()) && Hides(View(), old(buf))
      ensures !ok ==> buf == old(buf) && pos == old(pos)
      ensures var a, b := HopLeft(View(), old(pos), before), HopRight(View(), old(pos), after);
        ok <==> 0 < old(pos) < |old(buf)| && a <= 32 && b <= 32 &&
                forall f :: f in View() ==> old(pos) + b <= f.start || f.end <= old(pos) - a
      ensures ok ==> var a, b := HopLeft(View(), old(pos), before), HopRight(View(), old(pos), after);
        && a <= old(pos) && old(pos) + b <= |old(buf)| && pos == old(pos) + b
        && buf == Swapped(old(buf), old(pos) - a, old(pos), pos)
    {
      hide Ok, SameText, HopLeft, HopRight, Swapped;
      Unchanged();
      if pos == 0 || pos == |buf| { return false; }
      HopBounds(View(), |buf|, pos, before);
      HopBounds(View(), |buf|, pos, after);
      var a := PrevLen(pos, before);
      var b := NextLen(pos, after);
      if a > 32 || b > 32 { return false; }
      var touched := OverlapsFold(pos - a, a + b);
      if touched { return false; }
      SwapAt(pos - a, pos + b);
      ok := true;
    }

    /** Swaps the text before and behind the cursor, between `from` and `end`. */
    method SwapAt(from: nat, end: nat)
      requires Valid() && from <= pos <= end <= |buf| && forall f :: f in View() ==> f.end <= from || end <= f.start
      modifies `buf, `pos
      ensures Valid() && View() == old(View()) && Hides(View(), old(buf))
      ensures pos == end && buf == Swapped(old(buf), from, old(pos), end)
    {
      hide Ok, SameText;
      SwapKeeps(View(), buf, from, pos, end);
      buf := buf[..from] + buf[pos..end] + buf[from..pos] + buf[end..];
      pos := end;
    }

    /** Pastes text, hidden when it is long or has several lines. A paste that finds
        no room, or no place for a fold, is dropped. */
    method Paste(text: string) returns (ok: bool)
      requires Valid()
      modifies this, foldStart, foldEnd
      ensures Valid() && Limit() == old(Limit())
      ensures ok == (text != "" && old(count) < MAX_FOLDS && |text| <= PASTE_MAX_BYTES
                     && |old(buf)| + |text| <= Limit())
      ensures !ok ==> buf == old(buf) && pos == old(pos) && View() == old(View())
      ensures ok ==> var c := Normalized(text);
        && buf == Inserted(old(buf), old(pos), c) && pos == old(pos) + |c|
        && var moved := AfterInsert(old(View()), old(pos), |c|);
           View() == if !mask && ShouldFold(c) then Added(moved, Fold(old(pos), pos)) else moved
      ensures ok ==> var c := Normalized(text);
        forall f :: f in View() ==>
          SameText(old(View()), old(buf), f, buf) || (!mask && ShouldFold(c) && f == Fold(old(pos), pos))
    {
      hide Ok, AfterInsert, SameText, Added, Normalized;
      ghost var fs := View();
      if text == "" || count == MAX_FOLDS || |text| > PASTE_MAX_BYTES || |buf| + |text| > Limit() { return false; }
      NormalShorter(text);
      var c := Normalize(text);
      var start := pos;
      FewerFolds(fs, pos, |c|);
      ok := InsertNoRefresh(c);
      if !mask && ShouldFold(c) {
        AddedKeeps(View(), Fold(start, start + |c|), |buf|);
        FoldAdd(start, start + |c|);
      }
    }

    method Normalize(s: string) returns (r: string)
      ensures r == Normalized(s)
    {
      r := "";
      var i := 0;
      while i < |s|
        invariant 0 <= i <= |s| && Normalized(s) == r + Normalized(s[i..])
      {
        NormalStep(s, i, r);
        if s[i] == '\r' {
          r := r + "\n";
          i := i + if i + 1 < |s| && s[i + 1] == '\n' then 2 else 1;
        } else {
          r := r + [s[i]];
          i := i + 1;
        }
      }
      assert s[i..] == "";
    }

    /** Shows a history entry, with one fold if it needs one; `next` and `prev` give the lengths of
        characters. An entry too long for any line is cut to the room there is now. */
    method Recall(entry: string, next: nat -> nat, prev: nat -> nat)
      requires Shape() && Sized()
      modifies this, foldStart, foldEnd
      ensures Valid() && Limit() == old(Limit()) && pos == |buf| && Clear(View(), pos)
      ensures buf == if |entry| <= Limit() then entry else entry[..old(bufLen)]
      ensures View() == if buf != "" && !mask && ShouldFold(buf) then [HistoryFold(buf, next, prev)] else []
    {
      hide Added, HistoryFold;
      var room := Grow(|entry|);
      buf := if !room && |entry| > bufLen then entry[..bufLen] else entry;
      pos, count := |buf|, 0;
      var found, start, end := BuildHistoryFold(next, prev);
      if found {
        FoldAdd(start, end);
        AddedNone(Fold(start, end));
      }
    }

    /** One fold for a recalled line, with a few characters shown on either side. */
    method BuildHistoryFold(next: nat -> nat, prev: nat -> nat) returns (found: bool, start: nat, end: nat)
      ensures found == (buf != "" && !mask && ShouldFold(buf))
      ensures found ==> Fold(start, end) == HistoryFold(buf, next, prev)
    {
      start, end := 0, 0;
      if buf == "" || mask || !ShouldFold(buf) { return false, 0, 0; }
      found, end := true, |buf|;
      if |buf| > 2 * PASTE_FOLD_CONTEXT {
        var p: nat, chars: nat, nl := 0, 0, false;
        while p < |buf| && chars < PASTE_FOLD_CONTEXT
          invariant p <= |buf| && chars <= PASTE_FOLD_CONTEXT
          invariant Ahead(buf, next, p, chars, nl) == Ahead(buf, next, 0, 0, false)
          decreases |buf| - p
        {
          var step := next(p);
          if step == 0 || p + step > |buf| { break; }
          if buf[p] == '\n' { nl := true; }
          p, chars := p + step, chars + 1;
        }
        start := if nl then 0 else p;
        p, chars, nl := |buf|, 0, false;
        while p > 0 && chars < PASTE_FOLD_CONTEXT
          invariant p <= |buf| && chars <= PASTE_FOLD_CONTEXT
          invariant Behind(buf, prev, p, chars, nl) == Behind(buf, prev, |buf|, 0, false)
          decreases p
        {
          var step := prev(p);
          if step == 0 || step > p { break; }
          p := p - step;
          if buf[p] == '\n' { nl := true; }
          chars := chars + 1;
        }
        end := if nl then |buf| else p;
        if start >= end { start, end := 0, |buf|; }
      }
    }

    // ----- showing -----

    /** The line as it is shown, and where the cursor is in it. */
    method Render() returns (out: string, at: nat)
      requires Valid()
      ensures out == Shown(buf, View(), 0) && at == Cursor(buf, View(), 0, pos)
    {
      hide Display, Shown, Cursor, Ok;
      var src: nat := 0;
      var placed := false;
      out, at := "", 0;
      ghost var fs := View();
      RestAll(fs, |buf|);
      ghost var all, cursor := Shown(buf, fs, 0), Cursor(buf, fs, 0, pos);
      for j := 0 to count
        invariant src <= |buf| && (!placed ==> src <= pos) && RestFits(fs[j..], |buf|, src)
        invariant all == out + Shown(buf, fs[j..], src)
        invariant if placed then at == cursor else cursor == |out| + Cursor(buf, fs[j..], src, pos)
      {
        RestNext(fs, j, |buf|, src);
        var start, end := foldStart[j], foldEnd[j];
        ShowStep(buf, fs[j..], src, out);
        if !placed { CursorStep(buf, fs[j..], src, pos); }
        var shown := Display(buf[start..end]);
        if !placed && pos <= start { at, placed := |out| + (pos - src), true; }
        out := out + buf[src..start];
        if !placed && pos < end { at, placed := |out| + |shown|, true; }
        out := out + shown;
        if !placed && pos == end { at, placed := |out|, true; }
        src := end;
      }
      assert fs[count..] == [];
      ShowEnd(buf, src, pos);
      if !placed { at := |out| + (pos - src); }
      out := out + buf[src..];
    }
  }
}
