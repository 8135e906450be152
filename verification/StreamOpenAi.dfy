/** The OpenAI stream: thinking, then text, then hidden tool calls, sent as far as
    the text generated so far allows. */
module StreamOpenAi {
  import opened StreamText
  import opened StreamTool

  datatype Mode = Thinking | Text | Calls | Suppress

  datatype Stream = Stream(mode: Mode, pos: nat, checked: bool, tool: Tool)

  // All that a client has received, by field.
  datatype Out = Out(reasoning: string, content: string, calls: seq<Atom>)

  const NOTHING := Out("", "", [])

  function Plus(a: Out, b: Out): Out {
    Out(a.reasoning + b.reasoning, a.content + b.content, a.calls + b.calls)
  }

  lemma PlusAssoc(a: Out, b: Out, c: Out)
    ensures Plus(Plus(a, b), c) == Plus(a, Plus(b, c))
    ensures Plus(NOTHING, a) == a && Plus(a, NOTHING) == a
  {
  }

  const THINK := "<think>"
  const THINK_END := "</think>"

  const NO_TOOL := Tool(Error, PLAIN, 0, 0, false, false, false)

  function Start(thinking: bool): Stream {
    Stream(if thinking then Thinking else Text, 0, false, NO_TOOL)
  }

  // ----- tool call starts -----

  predicate StartsAt(s: string, i: nat) {
    MatchAt(s, i, LONG.callsStart) || MatchAt(s, i, SHORT.callsStart) || MatchAt(s, i, PLAIN.callsStart)
  }

  function Nearer(a: int, b: int): int {
    if b >= 0 && (a < 0 || b < a) then b else a
  }

  lemma StartsNonEmpty()
    ensures LONG.callsStart != "" && SHORT.callsStart != "" && PLAIN.callsStart != ""
  {
  }

  /** The first tool call start in any spelling at or after `from`, or -1. */
  function FindTool(s: string, from: nat): (r: int)
    ensures r >= 0 ==> from <= r && StartsAt(s, r) && forall k :: from <= k < r ==> !StartsAt(s, k)
    ensures r < 0 ==> r == -1 && forall k :: from <= k ==> !StartsAt(s, k)
  {
    StartsNonEmpty();
    Nearer(Nearer(Find(s, from, LONG.callsStart), Find(s, from, SHORT.callsStart)), Find(s, from, PLAIN.callsStart))
  }

  function LitsAt(s: string, i: nat): Lits {
    if MatchAt(s, i, LONG.callsStart) then LONG
    else if MatchAt(s, i, SHORT.callsStart) then SHORT
    else PLAIN
  }

  // ----- text -----

  /** How much text may be sent: not the white space before a tool call, not what
      may be the start of one, and no unfinished character. */
  function TextSafe(s: string, start: nat, hasTools: bool, final: bool): (r: nat)
    requires start <= |s|
    ensures start <= r <= |s|
  {
    var tool := if hasTools then FindTool(s, start) else -1;
    if tool >= 0 then (StartWithin(s, tool); Trim(s, start, tool))
    else if final then |s|
    else if !hasTools then Utf8Safe(s, start, |s|)
    else Utf8Safe(s, start, TextHold(s, start))
  }

  lemma StartWithin(s: string, i: nat)
    requires StartsAt(s, i)
    ensures i < |s| && s[i] == '<' && i + |LitsAt(s, i).callsStart| <= |s|
    ensures MatchAt(s, i, LitsAt(s, i).callsStart) && KnownLits(LitsAt(s, i))
  {
  }

  /** White space at the end is held, and all from the last `<` near the end. */
  function TextHold(s: string, start: nat): (r: nat)
    requires start <= |s|
    ensures start <= r <= |s|
    ensures r > start ==> !IsSpace(s[r - 1])
  {
    var limit := Trim(s, start, |s|);
    var scan := if |s| - start > MAX_MARKER then |s| - MAX_MARKER else start;
    var marker := LastOf(s, '<', scan, |s|);
    Trim(s, start, if marker >= 0 && marker < limit then marker else limit)
  }

  // ----- updates -----

  /** The state after thinking, what was sent, and whether text follows. */
  function ThinkUpdate(st: Stream, raw: string, final: bool): (Stream, Out, bool)
    requires st.pos <= |raw|
  {
    var n := |THINK|;
    if !st.checked && !final && |raw| < n && raw == THINK[..|raw|] then (st, NOTHING, false)
    else
      var pos := if !st.checked && |raw| >= n && raw[..n] == THINK then n else st.pos;
      var close := Find(raw, pos, THINK_END);
      var hold := |THINK_END| - 1;
      var limit := if close >= 0 then close
                   else if final then |raw|
                   else Utf8Safe(raw, pos, if |raw| > hold then |raw| - hold else pos);
      var sent := if limit > pos then Out(raw[pos..limit], "", []) else NOTHING;
      var pos' := if limit > pos then limit else pos;
      if close >= 0 then (st.(checked := true, pos := close + |THINK_END|, mode := Text), sent, true)
      else (st.(checked := true, pos := pos', mode := if final then Suppress else Thinking), sent, false)
  }

  function TextUpdate(st: Stream, raw: string, hasTools: bool, final: bool): (Stream, Out)
    requires st.pos <= |raw|
  {
    var tool := if hasTools then FindTool(raw, st.pos) else -1;
    var limit := TextSafe(raw, st.pos, hasTools, final);
    var sent := Out("", raw[st.pos..limit], []);
    if tool >= 0 then
      var lits := LitsAt(raw, tool);
      (st.(pos := tool, mode := Calls,
           tool := Tool(BetweenInvokes, lits, tool + |lits.callsStart|, 0, false, false, false)), sent)
    else (st.(pos := limit, mode := if final then Suppress else Text), sent)
  }

  ghost function CallsUpdate(st: Stream, raw: string): (Stream, Out)
    requires st.tool.pos <= |raw| && GoodLits(st.tool.lits)
  {
    var (t, sent) := ToolUpdate(st.tool, raw);
    (st.(tool := t, mode := if Active(t) then Calls else Suppress), Out("", "", sent))
  }

  ghost predicate Fits(st: Stream, raw: string) {
    && (st.mode == Thinking || st.mode == Text ==> st.pos <= |raw|)
    && (st.mode == Calls ==> st.tool.pos <= |raw| && GoodLits(st.tool.lits))
  }

  lemma TextFits(st: Stream, raw: string, hasTools: bool, final: bool)
    requires st.pos <= |raw|
    ensures Fits(TextUpdate(st, raw, hasTools, final).0, raw)
  {
    hide TextSafe, FindTool, Tagged;
    var tool := if hasTools then FindTool(raw, st.pos) else -1;
    TextSafeBounds(raw, st.pos, hasTools, final);
    if tool >= 0 {
      FindToolStarts(raw, st.pos);
      StartWithin(raw, tool);
      LitsTagged(LitsAt(raw, tool));
    }
  }

  lemma TextSafeBounds(s: string, start: nat, hasTools: bool, final: bool)
    requires start <= |s|
    ensures start <= TextSafe(s, start, hasTools, final) <= |s|
  {
  }

  lemma FindToolStarts(s: string, from: nat)
    ensures FindTool(s, from) >= 0 ==> from <= FindTool(s, from) && StartsAt(s, FindTool(s, from))
  {
  }

  /** From text on: the rest of an update. */
  ghost function RestUpdate(st: Stream, raw: string, hasTools: bool, final: bool): (Stream, Out)
    requires Fits(st, raw) && st.mode != Thinking
  {
    match st.mode
    case Text =>
      var (st1, o1) := TextUpdate(st, raw, hasTools, final);
      TextFits(st, raw, hasTools, final);
      if st1.mode == Calls then
        var (st2, o2) := CallsUpdate(st1, raw);
        (st2, Plus(o1, o2))
      else (st1, o1)
    case Calls => CallsUpdate(st, raw)
    case _ => (st, NOTHING)
  }

  ghost function Update(st: Stream, raw: string, hasTools: bool, final: bool): (Stream, Out)
    requires Fits(st, raw)
  {
    if st.mode == Thinking then
      var (st1, o1, more) := ThinkUpdate(st, raw, final);
      if more then
        var (st2, o2) := RestUpdate(st1, raw, hasTools, final);
        (st2, Plus(o1, o2))
      else (st1, o1)
    else RestUpdate(st, raw, hasTools, final)
  }

  // ----- growing text -----

  ghost predicate Inv(st: Stream, w: string) {
    && Fits(st, w)
    && (st.mode == Thinking || st.mode == Text ==> Boundary(w, st.pos))
    && (st.mode == Thinking && !st.checked ==> st.pos == 0)
    && (st.mode == Calls ==> ToolInv(st.tool, w))
  }

  /** At most one spelling stands at a place, and none inside another. */
  lemma StartsApart(s: string, i: nat, j: nat)
    requires StartsAt(s, i) && StartsAt(s, j) && i <= j < i + |LitsAt(s, i).callsStart|
    ensures i == j
  {
    StartWithin(s, j);
    var lit := LitsAt(s, i).callsStart;
    assert s[j] == s[i..i + |lit|][j - i] == lit[j - i];
    SpellingTagged(LitsAt(s, i));
  }

  lemma SpellingTagged(lits: Lits)
    requires KnownLits(lits)
    ensures Tagged('<', {lits.callsStart}, MAX_MARKER)
    ensures lits.callsStart in STARTS
  {
    hide Tagged;
    LitsTagged(lits);
    FewerTagged(lits.callsStart);
  }

  lemma FewerTagged(lit: string)
    requires Tagged('<', STARTS, MAX_MARKER) && lit in STARTS
    ensures Tagged('<', {lit}, MAX_MARKER)
  {
  }

  /** The spelling at a place does not change when more text comes. */
  lemma LitsStay(w: string, n: nat, i: nat)
    requires n <= |w| && StartsAt(w[..n], i)
    ensures StartsAt(w, i) && LitsAt(w, i) == LitsAt(w[..n], i)
    ensures i + |LitsAt(w, i).callsStart| <= n
  {
    MatchInPrefix(w, n, i, LONG.callsStart);
    MatchInPrefix(w, n, i, SHORT.callsStart);
    MatchInPrefix(w, n, i, PLAIN.callsStart);
    var p := w[..n];
    assert p[i + 1] == w[i + 1];
    if MatchAt(w, i, LONG.callsStart) { assert w[i + 1] == w[i..i + |LONG.callsStart|][1] == '\U{EF}'; }
    if MatchAt(w, i, SHORT.callsStart) { assert w[i + 1] == w[i..i + |SHORT.callsStart|][1] == 'D'; }
    if MatchAt(w, i, PLAIN.callsStart) { assert w[i + 1] == w[i..i + |PLAIN.callsStart|][1] == 't'; }
  }

  lemma FindToolStays(w: string, n: nat, from: nat)
    requires n <= |w|
    ensures FindTool(w[..n], from) >= 0 ==> FindTool(w, from) == FindTool(w[..n], from)
    ensures FindTool(w[..n], from) < 0 <= FindTool(w, from) ==>
      FindTool(w, from) + |LitsAt(w, FindTool(w, from)).callsStart| > n
  {
    hide LitsAt;
    var p, q := FindTool(w[..n], from), FindTool(w, from);
    if p >= 0 {
      LitsStay(w, n, p);
      if 0 <= q < p {
        StartWithin(w, q);
        if q + |LitsAt(w, q).callsStart| <= n {
          InPrefix(w, n, q);
        } else {
          StartWithin(w, p);
          StartsApart(w, q, p);
        }
      }
    } else if q >= 0 && q + |LitsAt(w, q).callsStart| <= n {
      InPrefix(w, n, q);
    }
  }

  lemma InPrefix(w: string, n: nat, i: nat)
    requires n <= |w| && StartsAt(w, i) && i + |LitsAt(w, i).callsStart| <= n
    ensures StartsAt(w[..n], i)
  {
    MatchInPrefix(w, n, i, LitsAt(w, i).callsStart);
  }

  lemma FindToolLater(s: string, from: nat, later: nat)
    requires from <= later && (FindTool(s, from) >= later || FindTool(s, from) < 0)
    ensures FindTool(s, later) == FindTool(s, from)
  {
    hide StartsAt;
  }

  lemma {:induction false} TrimLater(s: string, start: nat, later: nat, limit: nat)
    requires start <= limit <= |s| && start <= later <= Trim(s, start, limit)
    ensures Trim(s, later, limit) == Trim(s, start, limit)
  {
    if limit > later && IsSpace(s[limit - 1]) { TrimLater(s, start, later, limit - 1); }
  }

  /** The start of an incomplete tool call is the last `<` near the end. */
  lemma MarkerAt(w: string, n: nat, start: nat, t: nat)
    requires start <= t < n <= |w| && StartsAt(w, t) && t + |LitsAt(w, t).callsStart| > n
    ensures LastOf(w[..n], '<', if n - start > MAX_MARKER then n - MAX_MARKER else start, n) == t
  {
    hide StartsAt, LitsAt, KnownLits;
    StartWithin(w, t);
    var lit := LitsAt(w, t).callsStart;
    SpellingTagged(LitsAt(w, t));
    assert lit in {lit};
    assert w[t..t + |lit|] == lit;
    assert forall k :: t <= k < n ==> w[..n][k] == w[t..t + |lit|][k - t] == lit[k - t];
  }

  lemma HoldBefore(w: string, n: nat, start: nat)
    requires start <= n <= |w| && FindTool(w[..n], start) < 0 <= FindTool(w, start)
    ensures TextHold(w[..n], start) <= FindTool(w, start)
  {
    hide StartsAt, LitsAt;
    var t := FindTool(w, start);
    FindToolStays(w, n, start);
    if t < n { MarkerAt(w, n, start, t); }
  }

  lemma StopsBefore(w: string, start: nat, l: nat, h: nat, t: nat)
    requires start <= l <= h <= t <= |w|
    requires h > start ==> !IsSpace(w[h - 1])
    requires start < l < h ==> w[l] >= 0x80 as char
    ensures l <= Trim(w, start, t)
  {
  }

  /** What is held covers a tool call that starts in the text so far and is not yet
      complete, and the white space before any that comes next. */
  lemma HeldBefore(w: string, n: nat, start: nat)
    requires start <= n <= |w| && FindTool(w[..n], start) < 0 <= FindTool(w, start)
    ensures FindTool(w, start) < |w|
    ensures TextSafe(w[..n], start, true, false) <= Trim(w, start, FindTool(w, start))
  {
    hide StartsAt, LitsAt, Trim, TextHold;
    var s, t := w[..n], FindTool(w, start);
    FindToolStarts(w, start);
    StartWithin(w, t);
    HoldBefore(w, n, start);
    var h := TextHold(s, start);
    HoldEnds(s, start);
    var l := Utf8Safe(s, start, h);
    assert h > start ==> s[h - 1] == w[h - 1];
    assert start < l < h ==> s[l] == w[l];
    StopsBefore(w, start, l, h, t);
  }

  lemma HoldEnds(s: string, start: nat)
    requires start <= |s|
    ensures start <= TextHold(s, start) <= |s|
    ensures TextHold(s, start) > start ==> !IsSpace(s[TextHold(s, start) - 1])
  {
  }

  lemma SliceJoin(w: string, a: nat, b: nat, c: nat)
    requires a <= b <= c <= |w|
    ensures w[a..b] + w[b..c] == w[a..c]
  {
  }

  lemma Prefix(w: string, n: nat, a: nat, b: nat)
    requires a <= b <= n <= |w|
    ensures w[..n][a..b] == w[a..b]
  {
  }

  /** An update of text that finds no tool call, and then the final one. */
  lemma TextWaits(st: Stream, w: string, hasTools: bool, n: nat)
    requires st.mode == Text && st.pos <= n <= |w| && Boundary(w, st.pos) && Utf8(w)
    requires hasTools ==> FindTool(w[..n], st.pos) < 0
    ensures var (st1, o1) := TextUpdate(st, w[..n], hasTools, false);
            && st1.mode == Text && st1.pos <= n && Boundary(w, st1.pos)
            && TextUpdate(st, w, hasTools, true)
               == (TextUpdate(st1, w, hasTools, true).0, Plus(o1, TextUpdate(st1, w, hasTools, true).1))
  {
    hide FindTool, Utf8, Boundary, Trim, LitsAt, TextSafe;
    var l := TextSafe(w[..n], st.pos, hasTools, false);
    TextStays(w, st.pos, hasTools, n);
    TextJoins(st, w, hasTools, l);
    Prefix(w, n, st.pos, l);
  }

  /** What is found from where a first update stopped is what is found from its start. */
  lemma TextStays(w: string, p: nat, hasTools: bool, n: nat)
    requires p <= n <= |w| && Boundary(w, p) && Utf8(w)
    requires hasTools ==> FindTool(w[..n], p) < 0
    ensures var l := TextSafe(w[..n], p, hasTools, false);
            && p <= l <= n && Boundary(w, l) && l <= TextSafe(w, p, hasTools, true)
            && TextSafe(w, l, hasTools, true) == TextSafe(w, p, hasTools, true)
            && (hasTools ==> FindTool(w, l) == FindTool(w, p))
  {
    hide FindTool, Utf8, Boundary, Trim, LitsAt, TextHold, Utf8Safe;
    var l := TextSafe(w[..n], p, hasTools, false);
    TextSafeBounds(w[..n], p, hasTools, false);
    HoldEnds(w[..n], p);
    Utf8SafeBoundary(w, n, p, if hasTools then TextHold(w[..n], p) else n);
    var t := if hasTools then FindTool(w, p) else -1;
    if hasTools {
      if t >= 0 { HeldBefore(w, n, p); FindToolStarts(w, p); TrimBounds(w, p, t); TrimLater(w, p, l, t); }
      FindToolLater(w, p, l);
    }
    TextSafeBounds(w, p, hasTools, true);
    TextSafeBounds(w, l, hasTools, true);
  }

  /** Two final updates, one from a later place, send the same. */
  lemma TextJoins(st: Stream, w: string, hasTools: bool, l: nat)
    requires st.pos <= l <= |w| && l <= TextSafe(w, st.pos, hasTools, true)
    requires TextSafe(w, l, hasTools, true) == TextSafe(w, st.pos, hasTools, true)
    requires hasTools ==> FindTool(w, l) == FindTool(w, st.pos)
    ensures var r := TextUpdate(st.(pos := l, mode := Text), w, hasTools, true);
            st.mode == Text ==> TextUpdate(st, w, hasTools, true) == (r.0, Plus(Out("", w[st.pos..l], []), r.1))
  {
    hide FindTool, LitsAt, TextSafe;
    var x := TextSafe(w, st.pos, hasTools, true);
    SliceJoin(w, st.pos, l, x);
    ContentJoin(w[st.pos..l], w[l..x]);
  }

  lemma ContentJoin(a: string, b: string)
    ensures Plus(Out("", a, []), Out("", b, [])) == Out("", a + b, [])
    ensures Plus(Out(a, "", []), Out(b, "", [])) == Out(a + b, "", [])
  {
  }

  /** An update of text that finds a tool call is final for the text. */
  lemma TextEnds(st: Stream, w: string, n: nat)
    requires st.mode == Text && st.pos <= n <= |w| && FindTool(w[..n], st.pos) >= 0
    ensures TextUpdate(st, w[..n], true, false) == TextUpdate(st, w, true, true)
    ensures TextUpdate(st, w, true, true).0.mode == Calls
    ensures ToolInv(TextUpdate(st, w, true, true).0.tool, w) && TextUpdate(st, w, true, true).0.tool.pos <= n
  {
    hide FindTool, Trim, LitsAt, StartsAt, KnownLits;
    FindToolStarts(w[..n], st.pos);
    var t := FindTool(w[..n], st.pos);
    FindToolStays(w, n, st.pos);
    LitsStay(w, n, t);
    StartWithin(w[..n], t);
    LitsTagged(LitsAt(w, t));
    TrimSame(w, n, st.pos, t);
    TrimBounds(w, st.pos, t);
    Prefix(w, n, st.pos, Trim(w, st.pos, t));
  }

  lemma CallsSplit(st: Stream, w: string, n: nat)
    requires ToolInv(st.tool, w) && st.tool.pos <= n <= |w| && Utf8(w)
    ensures var (st1, o1) := CallsUpdate(st, w[..n]);
            && ToolInv(st1.tool, w) && st1.tool.pos <= n
            && (st1.mode == Calls || st1.mode == Suppress)
            && CallsUpdate(st, w).1 == Plus(o1, CallsUpdate(st1, w).1)
            && (st1.mode == Suppress ==> CallsUpdate(st1, w).1 == NOTHING)
  {
    hide Utf8;
    UpdateSplits(st.tool, w, n);
  }

  ghost function Sent(st: Stream, w: string, hasTools: bool): Out
    requires Fits(st, w)
  {
    Update(st, w, hasTools, true).1
  }

  ghost predicate Splits(st: Stream, st1: Stream, o1: Out, w: string, hasTools: bool, n: nat)
    requires Fits(st, w) && n <= |w|
  {
    && Inv(st1, w) && Fits(st1, w[..n])
    && Sent(st, w, hasTools) == Plus(o1, Sent(st1, w, hasTools))
  }

  lemma FoundSplits(st: Stream, w: string, n: nat)
    requires n <= |w| && Fits(st, w[..n]) && Inv(st, w) && Utf8(w) && st.mode == Text && FindTool(w[..n], st.pos) >= 0
    ensures var (st1, o1) := RestUpdate(st, w[..n], true, false); Splits(st, st1, o1, w, true, n)
  {
    hide Utf8, Boundary, ToolInv, TextUpdate, CallsUpdate, FindTool, Plus;
    var (st1, o1) := TextUpdate(st, w[..n], true, false);
    TextFits(st, w, true, true);
    TextEnds(st, w, n);
    CallsSplit(st1, w, n);
    ToolFits(st1.tool, w);
    var (st2, o2) := CallsUpdate(st1, w[..n]);
    ToolFits(st2.tool, w);
    PlusAssoc(o1, o2, CallsUpdate(st2, w).1);
    PlusAssoc(o1, Plus(o1, o2), NOTHING);
  }

  lemma WaitsSplits(st: Stream, w: string, hasTools: bool, n: nat)
    requires n <= |w| && Fits(st, w[..n]) && Inv(st, w) && Utf8(w) && st.mode == Text
    requires hasTools ==> FindTool(w[..n], st.pos) < 0
    ensures var (st1, o1) := RestUpdate(st, w[..n], hasTools, false); Splits(st, st1, o1, w, hasTools, n)
  {
    hide Utf8, Boundary, ToolInv, TextUpdate, CallsUpdate, FindTool, Plus;
    var (st1, o1) := TextUpdate(st, w[..n], hasTools, false);
    TextFits(st, w, hasTools, true);
    TextWaits(st, w, hasTools, n);
    TextFits(st1, w, hasTools, true);
    var (st2, o2) := TextUpdate(st1, w, hasTools, true);
    if st2.mode == Calls { PlusAssoc(o1, o2, CallsUpdate(st2, w).1); }
  }

  lemma CallsSplits(st: Stream, w: string, hasTools: bool, n: nat)
    requires n <= |w| && Fits(st, w[..n]) && Inv(st, w) && Utf8(w) && st.mode == Calls
    ensures var (st1, o1) := RestUpdate(st, w[..n], hasTools, false); Splits(st, st1, o1, w, hasTools, n)
  {
    hide Utf8, Boundary, ToolInv, TextUpdate, CallsUpdate, FindTool, Plus;
    ToolFits(st.tool, w);
    CallsSplit(st, w, n);
    var (st1, o1) := CallsUpdate(st, w[..n]);
    ToolFits(st1.tool, w);
    PlusAssoc(o1, o1, NOTHING);
  }

  lemma RestSplits(st: Stream, w: string, hasTools: bool, n: nat)
    requires n <= |w| && Fits(st, w[..n]) && Inv(st, w) && Utf8(w) && st.mode != Thinking
    ensures var (st1, o1) := RestUpdate(st, w[..n], hasTools, false); Splits(st, st1, o1, w, hasTools, n)
  {
    hide Utf8, Inv, RestUpdate, FindTool;
    match st.mode {
      case Text =>
        if hasTools && FindTool(w[..n], st.pos) >= 0 {
          FoundSplits(st, w, n);
        } else {
          WaitsSplits(st, w, hasTools, n);
        }
      case Calls => CallsSplits(st, w, hasTools, n);
      case Suppress => SuppressSplits(st, w, hasTools, n);
    }
  }

  lemma SuppressSplits(st: Stream, w: string, hasTools: bool, n: nat)
    requires n <= |w| && Fits(st, w[..n]) && Inv(st, w) && Utf8(w) && st.mode == Suppress
    ensures var (st1, o1) := RestUpdate(st, w[..n], hasTools, false); Splits(st, st1, o1, w, hasTools, n)
  {
    PlusAssoc(NOTHING, NOTHING, NOTHING);
  }

  lemma ToolFits(t: Tool, w: string)
    requires ToolInv(t, w)
    ensures t.pos <= |w| && GoodLits(t.lits)
  {
  }

  /** Whether the text opens with a thinking tag is known once it is long enough. */
  lemma ThinkPrefix(w: string, n: nat)
    requires n <= |w| && !(n < |THINK| && w[..n] == THINK[..n])
    ensures (n >= |THINK| && w[..n][..|THINK|] == THINK) <==> (|w| >= |THINK| && w[..|THINK|] == THINK)
  {
    if n >= |THINK| { assert w[..n][..|THINK|] == w[..|THINK|]; }
      else if |w| >= |THINK| { assert w[..|THINK|][..n] == w[..n]; }
  }

  lemma ThinkBoundary(w: string, i: nat, lit: string)
    requires Utf8(w) && MatchAt(w, i, lit) && lit != "" && lit[|lit| - 1] < 0x80 as char
    ensures Boundary(w, i + |lit|)
  {
    var k := i + |lit| - 1;
    assert w[k] == w[i..i + |lit|][|lit| - 1];
    AfterAscii(w, k);
  }

  /** An update that does not see the end of thinking, and then the final one. */
  lemma ThinkWaits(st: Stream, w: string, n: nat)
    requires st.mode == Thinking && st.checked && st.pos <= n <= |w| && Boundary(w, st.pos) && Utf8(w)
    requires Find(w[..n], st.pos, THINK_END) < 0
    ensures var (st1, o1, more) := ThinkUpdate(st, w[..n], false);
            && !more && st1.mode == Thinking && st1.checked && st1.pos <= n && Boundary(w, st1.pos)
            && ThinkUpdate(st, w, true)
               == (ThinkUpdate(st1, w, true).0, Plus(o1, ThinkUpdate(st1, w, true).1), ThinkUpdate(st1, w, true).2)
  {
    hide Utf8, Boundary, Find, ThinkUpdate;
    ThinkHeld(st, w, n);
    var l := ThinkUpdate(st, w[..n], false).0.pos;
    ThinkJoins(st, w, l);
    Prefix(w, n, st.pos, l);
    PlusAssoc(Out(w[st.pos..l], "", []), NOTHING, NOTHING);
  }

  /** The first update sends up to a place that no closing tag starts before. */
  lemma ThinkHeld(st: Stream, w: string, n: nat)
    requires st.mode == Thinking && st.checked && st.pos <= n <= |w| && Boundary(w, st.pos) && Utf8(w)
    requires Find(w[..n], st.pos, THINK_END) < 0
    ensures var (st1, o1, more) := ThinkUpdate(st, w[..n], false);
            && !more && st1 == st.(pos := st1.pos) && st.pos <= st1.pos <= n && Boundary(w, st1.pos)
            && o1 == Out(w[..n][st.pos..st1.pos], "", [])
            && Find(w, st1.pos, THINK_END) == Find(w, st.pos, THINK_END)
            && (Find(w, st.pos, THINK_END) >= 0 ==> st1.pos <= Find(w, st.pos, THINK_END) <= |w|)
  {
    hide Utf8, Boundary, Utf8Safe, Find;
    var p := st.pos;
    var h := if n > 7 then n - 7 else p;
    Utf8SafeBounds(w[..n], p, h);
    if p <= h { Utf8SafeBoundary(w, n, p, h); }
    FindInPrefix(w, n, p, THINK_END);
    var l := ThinkUpdate(st, w[..n], false).0.pos;
    FindBounds(w, p, THINK_END);
    FindLater(w, p, l, THINK_END);
  }

  /** A final update of reasoning sends all of it. */
  lemma ThinkFinal(st: Stream, w: string)
    requires st.mode == Thinking && st.checked && st.pos <= |w|
    requires Find(w, st.pos, THINK_END) >= 0 ==> st.pos <= Find(w, st.pos, THINK_END) <= |w|
    ensures var c := Find(w, st.pos, THINK_END);
            var x := if c >= 0 then c else |w|;
            ThinkUpdate(st, w, true) ==
              (if c >= 0 then st.(checked := true, pos := c + |THINK_END|, mode := Text)
                else st.(checked := true, pos := x, mode := Suppress),
               Out(w[st.pos..x], "", []), c >= 0)
  {
    hide Find;
    assert w[st.pos..st.pos] == "";
  }

  lemma ThinkJoins(st: Stream, w: string, l: nat)
    requires st.mode == Thinking && st.checked && st.pos <= l <= |w|
    requires Find(w, l, THINK_END) == Find(w, st.pos, THINK_END)
    requires Find(w, st.pos, THINK_END) >= 0 ==> l <= Find(w, st.pos, THINK_END) <= |w|
    ensures var r := ThinkUpdate(st.(pos := l), w, true);
            ThinkUpdate(st, w, true) == (r.0, Plus(Out(w[st.pos..l], "", []), r.1), r.2)
  {
    hide Find, ThinkUpdate, Plus;
    var c := Find(w, st.pos, THINK_END);
    var x := if c >= 0 then c else |w|;
    ThinkFinal(st, w);
    ThinkFinal(st.(pos := l), w);
    SliceJoin(w, st.pos, l, x);
    ContentJoin(w[st.pos..l], w[l..x]);
  }

  lemma Utf8SafeBounds(s: string, start: nat, limit: nat)
    requires limit <= |s|
    ensures start <= limit ==> start <= Utf8Safe(s, start, limit) <= limit
    ensures limit < start ==> Utf8Safe(s, start, limit) == limit
  {
  }

  /** The state once the opening tag has been looked at. */
  function Checked(st: Stream, raw: string): Stream {
    if !st.checked && |raw| >= |THINK| && raw[..|THINK|] == THINK then st.(checked := true, pos := |THINK|)
    else st.(checked := true)
  }

  lemma ThinkChecked(st: Stream, raw: string, final: bool)
    requires st.pos <= |raw| && !(!st.checked && !final && |raw| < |THINK| && raw == THINK[..|raw|])
    ensures Checked(st, raw).pos <= |raw|
    ensures ThinkUpdate(st, raw, final) == ThinkUpdate(Checked(st, raw), raw, final)
  {
    hide Find, Utf8Safe;
  }

  lemma ThinkEnds(st: Stream, w: string, n: nat)
    requires st.mode == Thinking && st.checked && st.pos <= n <= |w| && Utf8(w) && Find(w[..n], st.pos, THINK_END) >= 0
    ensures ThinkUpdate(st, w[..n], false) == ThinkUpdate(st, w, true)
    ensures var (st1, o1, more) := ThinkUpdate(st, w, true);
            more && st1.mode == Text && st1.pos <= n && Boundary(w, st1.pos)
  {
    hide Utf8, Boundary, Utf8Safe, MatchAt;
    FindInPrefix(w, n, st.pos, THINK_END);
    FindBounds(w[..n], st.pos, THINK_END);
    var c := Find(w[..n], st.pos, THINK_END);
    MatchInPrefix(w, n, c, THINK_END);
    Prefix(w, n, st.pos, c);
    ThinkBoundary(w, c, THINK_END);
  }

  lemma CheckedSplits(st: Stream, w: string, hasTools: bool, n: nat)
    requires st.mode == Thinking && st.checked && st.pos <= n <= |w| && Boundary(w, st.pos) && Utf8(w)
    ensures var (st1, o1) := Update(st, w[..n], hasTools, false); Splits(st, st1, o1, w, hasTools, n)
  {
    hide Utf8, Boundary, ThinkUpdate, RestUpdate, Plus, Find;
    var (st1, o1, more) := ThinkUpdate(st, w[..n], false);
    if Find(w[..n], st.pos, THINK_END) >= 0 {
      ThinkEnds(st, w, n);
      RestSplits(st1, w, hasTools, n);
      var (st2, o2) := RestUpdate(st1, w[..n], hasTools, false);
      PlusAssoc(o1, o2, Sent(st2, w, hasTools));
    } else {
      ThinkWaits(st, w, n);
      var (st2, o2, more2) := ThinkUpdate(st1, w, true);
      ThinkFits(st1, w, true);
      if more2 { PlusAssoc(o1, o2, RestUpdate(st2, w, hasTools, true).1); }
    }
  }

  /** An update on a prefix and then the final one on the whole send what one final
      update on the whole sends. */
  lemma StreamSplits(st: Stream, w: string, hasTools: bool, n: nat)
    requires n <= |w| && Fits(st, w[..n]) && Inv(st, w) && Utf8(w)
    ensures var (st1, o1) := Update(st, w[..n], hasTools, false); Splits(st, st1, o1, w, hasTools, n)
  {
    if st.mode != Thinking {
      RestSplits(st, w, hasTools, n);
    } else if !st.checked && n < |THINK| && w[..n] == THINK[..n] {
      PlusAssoc(NOTHING, Sent(st, w, hasTools), NOTHING);
    } else {
      CheckedStays(st, w, n);
      ThinkChecked(st, w[..n], false);
      ThinkChecked(st, w, true);
      CheckedSplits(Checked(st, w), w, hasTools, n);
    }
  }

  lemma CheckedStays(st: Stream, w: string, n: nat)
    requires st.mode == Thinking && st.pos <= n <= |w| && Inv(st, w) && Utf8(w)
    requires !(!st.checked && n < |THINK| && w[..n] == THINK[..n])
    ensures Checked(st, w[..n]) == Checked(st, w)
    ensures Checked(st, w).pos <= n && Boundary(w, Checked(st, w).pos)
  {
    if !st.checked {
      ThinkPrefix(w, n);
      if |w| >= |THINK| && w[..|THINK|] == THINK {
        assert MatchAt(w, 0, THINK);
        ThinkBoundary(w, 0, THINK);
      }
    }
  }

  lemma ThinkFits(st: Stream, raw: string, final: bool)
    requires st.pos <= |raw|
    ensures var (st1, _, more) := ThinkUpdate(st, raw, final); more ==> st1.mode == Text && st1.pos <= |raw|
  {
    hide Find;
    FindBounds(raw, Checked(st, raw).pos, THINK_END);
  }

  // ----- any way of cutting the text -----

  /** Growing prefixes of a text. */
  predicate Cuts(w: string, cuts: seq<nat>) {
    && (forall i :: 0 <= i < |cuts| ==> cuts[i] <= |w|)
    && (forall i, j :: 0 <= i < j < |cuts| ==> cuts[i] <= cuts[j])
  }

  /** All that is sent when the text comes in growing prefixes and the last call,
      on the whole text, is final. */
  ghost function Delivered(st: Stream, w: string, hasTools: bool, cuts: seq<nat>): Out
    requires Cuts(w, cuts) && Inv(st, w) && Utf8(w)
    requires cuts != [] ==> Fits(st, w[..cuts[0]])
    decreases |cuts|
  {
    if cuts == [] then Sent(st, w, hasTools)
    else
      var (st1, o1) := Update(st, w[..cuts[0]], hasTools, false);
      StreamSplits(st, w, hasTools, cuts[0]);
      Plus(o1, Delivered(st1, w, hasTools, cuts[1..]))
  }

  lemma {:induction false} DeliveredIsSent(st: Stream, w: string, hasTools: bool, cuts: seq<nat>)
    requires Cuts(w, cuts) && Inv(st, w) && Utf8(w)
    requires cuts != [] ==> Fits(st, w[..cuts[0]])
    ensures Delivered(st, w, hasTools, cuts) == Sent(st, w, hasTools)
    decreases |cuts|
  {
    if cuts != [] {
      StreamSplits(st, w, hasTools, cuts[0]);
      DeliveredIsSent(Update(st, w[..cuts[0]], hasTools, false).0, w, hasTools, cuts[1..]);
    }
  }

  /** What a client receives does not depend on how the text was cut. */
  lemma CuttingIsFree(thinking: bool, hasTools: bool, w: string, cuts: seq<nat>)
    requires Utf8(w) && Cuts(w, cuts)
    ensures Inv(Start(thinking), w) && (cuts != [] ==> Fits(Start(thinking), w[..cuts[0]]))
    ensures Delivered(Start(thinking), w, hasTools, cuts) == Sent(Start(thinking), w, hasTools)
  {
    DeliveredIsSent(Start(thinking), w, hasTools, cuts);
  }
}
