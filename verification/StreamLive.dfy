/** The stream as the server runs it: scanning loops over the text so far, and an
    object whose fields say how far everything has been sent. */
module StreamLive {
  import opened Common
  import opened StreamText
  import opened StreamTool
  import opened StreamOpenAi

  // ----- scanning loops -----

  method FindLit(s: string, from: nat, lit: string) returns (r: int)
    requires lit != "" && from <= |s|
    ensures r == Find(s, from, lit)
  {
    if |s| - from < |lit| {
      NoRoom(s, from, lit);
      return -1;
    }
    var i := from;
    while i <= |s| - |lit|
      invariant from <= i <= |s| - |lit| + 1 && Find(s, i, lit) == Find(s, from, lit)
    {
      if s[i..i + |lit|] == lit { return i; }
      i := i + 1;
    }
    NoRoom(s, i, lit);
    r := -1;
  }

  lemma NoRoom(s: string, from: nat, lit: string)
    requires lit != "" && from + |lit| > |s|
    ensures Find(s, from, lit) == -1
  {
  }

  method Utf8SafeLen(s: string, start: nat, limit: nat, final: bool) returns (r: nat)
    requires limit <= |s|
    ensures r == if final then limit else Utf8Safe(s, start, limit)
  {
    if final || limit <= start { return limit; }
    var p, cont := limit, 0;
    while p > start && cont < 4 && Cont(s[p - 1])
      invariant start <= p <= limit && 0 <= cont <= 4 && p == limit - cont
      invariant ContRun(s, start, limit, 4) == cont + ContRun(s, start, p, 4 - cont)
    {
      p, cont := p - 1, cont + 1;
    }
    assert ContRun(s, start, limit, 4) == cont;
    if p == limit { return if Need(s[limit - 1]) > 1 then limit - 1 else limit; }
    if p == start && Cont(s[p]) { return start; }
    var lead := p - 1;
    var need := Need(s[lead]);
    r := if limit - lead < need then lead else limit;
  }

  /** The last `c` near the end and, if a literal may be cut off there, its place. */
  method HoldBack(s: string, start: nat, limit: nat, c: char, lits: set<string>, window: nat) returns (r: nat)
    requires start <= limit <= |s|
    ensures r == Hold(s, start, limit, c, lits, window)
  {
    var scan := if limit > start + window then limit - window else start;
    r := limit;
    var i := limit;
    while i > scan && s[i - 1] != c
      invariant scan <= i <= limit && LastOf(s, c, scan, limit) == LastOf(s, c, scan, i)
    {
      i := i - 1;
    }
    if i > scan && Cut(s, i - 1, limit, lits) { r := i - 1; }
  }

  method ParamSafeLen(s: string, start: nat, paramEnd: string, isString: bool) returns (r: nat)
    requires start <= |s|
    ensures r == ValueSafe(s, start, paramEnd, isString)
  {
    var limit := HoldBack(s, start, |s|, '<', {paramEnd}, |paramEnd|);
    if isString { limit := HoldBack(s, start, limit, '&', ENTITIES, MAX_ENTITY); }
    r := Utf8SafeLen(s, start, limit, false);
  }

  method TrimSpace(s: string, start: nat, limit: nat) returns (r: nat)
    requires start <= limit <= |s|
    ensures r == Trim(s, start, limit)
  {
    r := limit;
    while r > start && IsSpace(s[r - 1])
      invariant start <= r <= limit && Trim(s, start, limit) == Trim(s, start, r)
    {
      r := r - 1;
    }
  }

  method SkipSpaces(s: string, pos: nat) returns (r: nat)
    requires pos <= |s|
    ensures r == SkipSpace(s, pos)
  {
    r := pos;
    while r < |s| && IsSpace(s[r])
      invariant pos <= r <= |s| && SkipSpace(s, pos) == SkipSpace(s, r)
    {
      r := r + 1;
    }
  }

  method FindToolStart(s: string, from: nat) returns (best: int)
    requires from <= |s|
    ensures best == FindTool(s, from)
  {
    StartsNonEmpty();
    var a := FindLit(s, from, LONG.callsStart);
    var b := FindLit(s, from, SHORT.callsStart);
    var c := FindLit(s, from, PLAIN.callsStart);
    best := -1;
    if a >= 0 { best := a; }
    if b >= 0 && (best < 0 || b < best) { best := b; }
    if c >= 0 && (best < 0 || c < best) { best := c; }
  }

  method TextHoldBack(s: string, start: nat) returns (limit: nat)
    requires start <= |s|
    ensures limit == TextHold(s, start)
  {
    limit := TrimSpace(s, start, |s|);
    var scan := if |s| - start > MAX_MARKER then |s| - MAX_MARKER else start;
    var i := |s|;
    while i > scan && s[i - 1] != '<'
      invariant scan <= i <= |s| && LastOf(s, '<', scan, |s|) == LastOf(s, '<', scan, i)
    {
      i := i - 1;
    }
    if i > scan && i - 1 < limit { limit := i - 1; }
    limit := TrimSpace(s, start, limit);
  }

  method TextSafeLimit(s: string, start: nat, hasTools: bool, final: bool) returns (limit: nat)
    requires start <= |s|
    ensures limit == TextSafe(s, start, hasTools, final)
  {
    hide FindTool, StartsAt, LitsAt, Trim, TextHold, Utf8Safe;
    if |s| <= start {
      EmptyText(s, start, hasTools, final);
      return |s|;
    }
    limit := |s|;
    if hasTools {
      var tool := FindToolStart(s, start);
      if tool >= 0 {
        FindToolStarts(s, start);
        StartWithin(s, tool);
        limit := TrimSpace(s, start, tool);
        return;
      }
      if !final { limit := TextHoldBack(s, start); HoldEnds(s, start); }
    }
    limit := Utf8SafeLen(s, start, limit, final);
  }

  lemma EmptyText(s: string, start: nat, hasTools: bool, final: bool)
    requires start == |s|
    ensures TextSafe(s, start, hasTools, final) == |s|
  {
  }

  method UnescapeText(s: string) returns (r: string)
    ensures r == Unescape(s)
  {
    hide Unescape, Token;
    r := "";
    var i := 0;
    while i < |s|
      invariant 0 <= i <= |s| && Unescape(s) == r + Unescape(s[i..])
    {
      UnescapeFrom(s, i, r);
      var t := Token(s[i..]);
      r := r + [t.1];
      i := i + t.0;
    }
    UnescapeNone();
    assert s[i..] == "";
  }

  lemma UnescapeFrom(s: string, i: nat, r: string)
    requires i < |s|
    ensures var t := Token(s[i..]);
            && 1 <= t.0 <= |s| - i
            && r + Unescape(s[i..]) == (r + [t.1]) + Unescape(s[i + t.0..])
  {
    hide Token;
    TokenFits(s[i..]);
    var t := Token(s[i..]);
    assert s[i..][t.0..] == s[i + t.0..];
  }

  lemma TokenFits(s: string)
    requires s != ""
    ensures 1 <= Token(s).0 <= |s|
  {
  }

  lemma UnescapeNone()
    ensures Unescape("") == "" && EscapeJson("") == ""
  {
  }

  method EscapeFragment(s: string) returns (r: string)
    ensures r == EscapeJson(s)
  {
    hide EscapeJson, EscapeChar;
    r := "";
    var i := 0;
    while i < |s|
      invariant 0 <= i <= |s| && EscapeJson(s) == r + EscapeJson(s[i..])
    {
      EscapeFrom(s, i, r);
      r := r + EscapeChar(s[i]);
      i := i + 1;
    }
    UnescapeNone();
    assert s[i..] == "";
  }

  lemma EscapeFrom(s: string, i: nat, r: string)
    requires i < |s|
    ensures r + EscapeJson(s[i..]) == (r + EscapeChar(s[i])) + EscapeJson(s[i + 1..])
  {
    hide EscapeChar;
    assert s[i..][1..] == s[i + 1..];
  }

  // ----- the live stream -----

  class Live {
    const hasTools: bool
    var mode: Mode
    var emitPos: nat
    var checkedPrefix: bool
    // the tool call parser
    var state: ToolState
    var lits: Lits
    var parsePos: nat
    var index: nat
    var argsOpen: bool
    var firstParam: bool
    var paramIsString: bool
    // what the client has received
    var reasoning: string
    var content: string
    var calls: seq<Atom>

    function ToolView(): Tool
      reads this
    {
      Tool(state, lits, parsePos, index, argsOpen, firstParam, paramIsString)
    }

    function View(): Stream
      reads this
    {
      Stream(mode, emitPos, checkedPrefix, ToolView())
    }

    function Received(): Out
      reads this
    {
      Out(reasoning, content, calls)
    }

    constructor (thinking: bool, hasTools: bool)
      ensures View() == Start(thinking) && Received() == NOTHING && this.hasTools == hasTools
    {
      this.hasTools := hasTools;
      mode := if thinking then Thinking else Text;
      emitPos, checkedPrefix := 0, false;
      state, lits, parsePos, index, argsOpen, firstParam, paramIsString := Error, PLAIN, 0, 0, false, false, false;
      reasoning, content, calls := "", "", [];
    }

    method EmitArgs(text: string)
      modifies `calls
      ensures calls == old(calls) + Args(index, text)
    {
      calls := calls + Args(index, text);
    }

    method EmitValue(text: string)
      modifies `calls
      ensures calls == old(calls) + Args(index, Value(text, paramIsString))
    {
      if text == "" {
        EmptyValue(paramIsString);
        return;
      }
      var t := text;
      if paramIsString {
        t := UnescapeText(t);
        t := EscapeFragment(t);
      }
      EmitArgs(t);
    }

    method StartInvokeTag(raw: string)
      requires parsePos <= |raw|
      modifies `state, `parsePos, `argsOpen, `firstParam, `calls
      ensures var r := StartInvoke(old(ToolView()), raw); ToolView() == r.t && calls == old(calls) + r.sent
    {
      hide Attr, Find;
      FindTag(raw, parsePos);
      var q := FindLit(raw, parsePos, ">");
      if q < 0 { return; }
      var name := Attr(raw[parsePos..q + 1], "name");
      if name == None {
        state := Error;
        return;
      }
      calls := calls + [Header(index, name.value)];
      EmitArgs("{");
      argsOpen, firstParam := true, true;
      parsePos := q + 1;
      state := BetweenParams;
    }

    method StartParamTag(raw: string)
      requires parsePos <= |raw|
      modifies `state, `parsePos, `firstParam, `paramIsString, `calls
      ensures var r := StartParam(old(ToolView()), raw); ToolView() == r.t && calls == old(calls) + r.sent
    {
      hide ParamPrefix, Attr, Find;
      FindTag(raw, parsePos);
      var q := FindLit(raw, parsePos, ">");
      if q < 0 { return; }
      var tag := raw[parsePos..q + 1];
      var name, isString := Attr(tag, "name"), Attr(tag, "string");
      if name == None || isString == None {
        state := Error;
        return;
      }
      var str := isString.value == "true";
      EmitArgs(ParamPrefix(firstParam, name.value, str));
      firstParam := false;
      paramIsString := str;
      parsePos := q + 1;
      state := ParamValue;
    }

    /** One turn of the parser's loop. */
    method Turn(raw: string) returns (more: bool)
      requires parsePos < |raw| && GoodLits(lits) && Active(ToolView())
      modifies `state, `parsePos, `argsOpen, `firstParam, `paramIsString, `index, `calls
      ensures var r := ToolRound(old(ToolView()), raw);
              ToolView() == r.t && calls == old(calls) + r.sent && more == r.more
    {
      hide Value, ValueSafe, StartInvoke, StartParam, ParamPrefix, Attr, MatchAt, PartialAt;
      if state == BetweenInvokes || state == BetweenParams {
        parsePos := SkipSpaces(raw, parsePos);
        if parsePos >= |raw| { return false; }
      }
      if state == BetweenInvokes {
        more := InvokeTurn(raw);
      } else if state == BetweenParams {
        more := ParamTurn(raw);
      } else {
        more := ValueTurn(raw);
      }
    }

    method InvokeTurn(raw: string) returns (more: bool)
      requires parsePos < |raw| && GoodLits(lits) && state == BetweenInvokes
      modifies `state, `parsePos, `argsOpen, `firstParam, `calls
      ensures var r := InvokeRound(old(ToolView()), raw);
              ToolView() == r.t && calls == old(calls) + r.sent && more == r.more
    {
      hide StartInvoke, Attr, MatchAt, PartialAt;
      if MatchAt(raw, parsePos, lits.callsEnd) {
        parsePos := parsePos + |lits.callsEnd|;
        state := Done;
        return false;
      }
      if PartialAt(raw, parsePos, lits.callsEnd) || PartialAt(raw, parsePos, lits.invokeStart) { return false; }
      if MatchAt(raw, parsePos, lits.invokeStart) {
        ghost var t := ToolView();
        StartInvokeMore(t, raw);
        StartInvokeTag(raw);
        more := state != BetweenInvokes && state != Error;
        return;
      }
      state := Error;
      more := false;
    }

    method ParamTurn(raw: string) returns (more: bool)
      requires parsePos < |raw| && GoodLits(lits) && state == BetweenParams
      modifies `state, `parsePos, `argsOpen, `firstParam, `paramIsString, `index, `calls
      ensures var r := ParamRound(old(ToolView()), raw);
              ToolView() == r.t && calls == old(calls) + r.sent && more == r.more
    {
      hide StartParam, Attr, MatchAt, PartialAt;
      if MatchAt(raw, parsePos, lits.invokeEnd) {
        if argsOpen { EmitArgs("}"); }
        argsOpen := false;
        parsePos := parsePos + |lits.invokeEnd|;
        index := index + 1;
        state := BetweenInvokes;
        return true;
      }
      if PartialAt(raw, parsePos, lits.invokeEnd) || PartialAt(raw, parsePos, lits.paramStart) { return false; }
      if MatchAt(raw, parsePos, lits.paramStart) {
        StartParamMore(ToolView(), raw);
        StartParamTag(raw);
        more := state != BetweenParams && state != Error;
        return;
      }
      state := Error;
      more := false;
    }

    method ValueTurn(raw: string) returns (more: bool)
      requires parsePos < |raw| && GoodLits(lits) && state == ParamValue
      modifies `state, `parsePos, `calls
      ensures var r := ValueRound(old(ToolView()), raw);
              ToolView() == r.t && calls == old(calls) + r.sent && more == r.more
    {
      hide Value, ValueSafe, GoodLits;
      TagEnds(lits);
      FindBounds(raw, parsePos, lits.paramEnd);
      var e := FindLit(raw, parsePos, lits.paramEnd);
      if e >= 0 {
        EmitValue(raw[parsePos..e]);
        if paramIsString { EmitArgs("\""); }
        parsePos := e + |lits.paramEnd|;
        state := BetweenParams;
        return true;
      }
      SafeBelowHold(raw, parsePos, lits.paramEnd, paramIsString);
      var limit := ParamSafeLen(raw, parsePos, lits.paramEnd, paramIsString);
      EmitValue(raw[parsePos..limit]);
      parsePos := limit;
      more := false;
    }

    /** Turns the text of a tool call into deltas, as far as it has come. */
    method UpdateCalls(raw: string)
      requires parsePos <= |raw| && GoodLits(lits)
      modifies `state, `parsePos, `argsOpen, `firstParam, `paramIsString, `index, `calls
      ensures var r := ToolUpdate(old(ToolView()), raw); ToolView() == r.0 && calls == old(calls) + r.1
    {
      hide ToolRound, ToolUpdate, GoodLits;
      var more := true;
      ghost var total, sent := ToolUpdate(ToolView(), raw), [];
      while more && state != Done && state != Error && parsePos < |raw|
        invariant parsePos <= |raw| && GoodLits(lits) && calls == old(calls) + sent
        invariant more ==> total.0 == ToolUpdate(ToolView(), raw).0 && total.1 == sent + ToolUpdate(ToolView(), raw).1
        invariant !more ==> total == (ToolView(), sent)
        decreases more, |raw| - parsePos
      {
        RoundMoves(ToolView(), raw);
        Unfold(ToolView(), raw, sent);
        sent := sent + ToolRound(ToolView(), raw).sent;
        more := Turn(raw);
      }
      if more { Unfold(ToolView(), raw, sent); }
    }

    /** Sends what the text so far allows; `final` says that no more will come. */
    method UpdateStream(raw: string, final: bool)
      requires Fits(View(), raw)
      modifies this
      ensures var (st, o) := StreamOpenAi.Update(old(View()), raw, hasTools, final);
              View() == st && Received() == Plus(old(Received()), o)
    {
      hide ThinkUpdate, RestUpdate, Plus;
      if mode == Thinking {
        ThinkFits(View(), raw, final);
        ghost var (st1, o1, m) := ThinkUpdate(View(), raw, final);
        var more := UpdateThinking(raw, final);
        if !more { return; }
        ghost var o2 := RestUpdate(View(), raw, hasTools, final).1;
        PlusAssoc(old(Received()), o1, o2);
      }
      UpdateRest(raw, final);
    }

    /** Looks at the opening tag, unless too little of it has come. */
    method CheckPrefix(raw: string, final: bool) returns (wait: bool)
      requires mode == Thinking && emitPos <= |raw|
      modifies `emitPos, `checkedPrefix
      ensures wait <==> !old(checkedPrefix) && !final && |raw| < |THINK| && raw == THINK[..|raw|]
      ensures View() == if wait then old(View()) else Checked(old(View()), raw)
    {
      wait := false;
      if !checkedPrefix {
        if |raw| < |THINK| && raw == THINK[..|raw|] && !final { return true; }
        if |raw| >= |THINK| && raw[..|THINK|] == THINK { emitPos := |THINK|; }
        checkedPrefix := true;
      }
    }

    method UpdateThinking(raw: string, final: bool) returns (more: bool)
      requires mode == Thinking && emitPos <= |raw|
      modifies `mode, `emitPos, `checkedPrefix, `reasoning
      ensures var (st, o, m) := ThinkUpdate(old(View()), raw, final);
              View() == st && Received() == Plus(old(Received()), o) && more == m
    {
      hide Find, Utf8Safe, Plus;
      PlusAssoc(Received(), Received(), Received());
      ghost var st0 := View();
      var wait := CheckPrefix(raw, final);
      if wait { return false; }
      ThinkChecked(st0, raw, final);
      more := SendThinking(raw, final);
    }

    method SendThinking(raw: string, final: bool) returns (more: bool)
      requires mode == Thinking && checkedPrefix && emitPos <= |raw|
      modifies `mode, `emitPos, `reasoning
      ensures var (st, o, m) := ThinkUpdate(old(View()), raw, final);
              View() == st && Received() == Plus(old(Received()), o) && more == m
    {
      hide Find, Utf8Safe, Plus;
      ghost var r0 := Received();
      PlusAssoc(r0, r0, r0);
      FindBounds(raw, emitPos, THINK_END);
      var close := FindLit(raw, emitPos, THINK_END);
      var limit: nat;
      if close >= 0 {
        limit := close;
      } else if final {
        limit := |raw|;
      } else {
        var hold := |THINK_END| - 1;
        limit := if |raw| > hold then |raw| - hold else emitPos;
        limit := Utf8SafeLen(raw, emitPos, limit, false);
      }
      if limit > emitPos {
        PlusField(r0, raw[emitPos..limit]);
        reasoning := reasoning + raw[emitPos..limit];
        emitPos := limit;
      }
      if close >= 0 {
        emitPos := close + |THINK_END|;
        mode := Text;
        return true;
      }
      if final { mode := Suppress; }
      more := false;
    }

    /** A fresh parser just after the tag that opens the calls. */
    method InitCalls(raw: string, pos: nat)
      requires StartsAt(raw, pos)
      modifies `state, `lits, `parsePos, `index, `argsOpen, `firstParam, `paramIsString
      ensures var lits := LitsAt(raw, pos);
              ToolView() == Tool(BetweenInvokes, lits, pos + |lits.callsStart|, 0, false, false, false)
    {
      state, index, argsOpen, firstParam, paramIsString := BetweenInvokes, 0, false, false, false;
      if MatchAt(raw, pos, LONG.callsStart) {
        lits := LONG;
      } else if MatchAt(raw, pos, SHORT.callsStart) {
        lits := SHORT;
      } else {
        lits := PLAIN;
      }
      parsePos := pos + |lits.callsStart|;
    }

    method UpdateText(raw: string, final: bool)
      requires mode == Text && emitPos <= |raw|
      modifies `mode, `emitPos, `content, `state, `lits, `parsePos, `index, `argsOpen, `firstParam, `paramIsString
      ensures var (st, o) := TextUpdate(old(View()), raw, hasTools, final);
              View() == st && Received() == Plus(old(Received()), o)
    {
      hide TextSafe, FindTool, LitsAt, StartsAt, Plus;
      PlusAssoc(NOTHING, Received(), NOTHING);
      var tool := -1;
      if hasTools { tool := FindToolStart(raw, emitPos); }
      FindToolStarts(raw, emitPos);
      var limit := TextSafeLimit(raw, emitPos, hasTools, final);
      TextSafeBounds(raw, emitPos, hasTools, final);
      PlusField(Received(), raw[emitPos..limit]);
      assert content + raw[emitPos..emitPos] == content;
      if limit > emitPos {
        content := content + raw[emitPos..limit];
        emitPos := limit;
      }
      if tool >= 0 {
        emitPos := tool;
        InitCalls(raw, tool);
        mode := Calls;
      } else if final {
        mode := Suppress;
      }
    }

    method UpdateRest(raw: string, final: bool)
      requires Fits(View(), raw) && mode != Thinking
      modifies this
      ensures var (st, o) := RestUpdate(old(View()), raw, hasTools, final);
              View() == st && Received() == Plus(old(Received()), o)
    {
      hide TextUpdate, ToolUpdate;
      ghost var st0 := View();
      if mode == Text {
        TextFits(View(), raw, hasTools, final);
        UpdateText(raw, final);
      }
      if mode == Calls {
        UpdateCalls(raw);
        if state == Done || state == Error { mode := Suppress; }
      }
    }
  }

  /** A whole reply: the text comes in growing prefixes, and the last call, on all of it,
      is final. What was sent is what one final call would send. */
  method Deliver(thinking: bool, hasTools: bool, w: string, cuts: seq<nat>) returns (sent: Out)
    requires Utf8(w) && Cuts(w, cuts)
    ensures Inv(Start(thinking), w) && Fits(Start(thinking), w)
    ensures sent == Sent(Start(thinking), w, hasTools)
  {
    hide StreamOpenAi.Update, Sent, Utf8, Inv, Fits;
    StartReady(thinking, w);
    var live := new Live(thinking, hasTools);
    var upTo: nat := 0;
    for i := 0 to |cuts|
      invariant fresh(live) && live.hasTools == hasTools && upTo <= |w| && upTo == if i > 0 then cuts[i - 1] else 0
      invariant Inv(live.View(), w) && Fits(live.View(), w[..upTo])
      invariant Fits(live.View(), w)
      invariant Sent(Start(thinking), w, hasTools) == Plus(live.Received(), Sent(live.View(), w, hasTools))
      modifies live
    {
      ghost var st, got := live.View(), live.Received();
      FitsMore(st, w, upTo, cuts[i]);
      StreamSplits(st, w, hasTools, cuts[i]);
      upTo := cuts[i];
      live.UpdateStream(w[..upTo], false);
      FitsMore(live.View(), w, upTo, |w|);
      assert w[..|w|] == w;
      SplitsSent(st, w, hasTools, upTo);
      PlusAssoc(got, StreamOpenAi.Update(st, w[..upTo], hasTools, false).1, Sent(live.View(), w, hasTools));
    }
    ghost var st := live.View();
    live.UpdateStream(w, true);
    sent := Out(live.reasoning, live.content, live.calls);
    assert sent == live.Received();
    SentIs(st, w, hasTools);
  }

  lemma StartReady(thinking: bool, w: string)
    requires Utf8(w)
    ensures Inv(Start(thinking), w) && Fits(Start(thinking), w[..0]) && Fits(Start(thinking), w)
  {
    CuttingIsFree(thinking, false, w, [0]);
  }

  lemma FitsMore(st: Stream, w: string, n: nat, k: nat)
    requires n <= k <= |w| && Fits(st, w[..n])
    ensures Fits(st, w[..k])
  {
  }

  lemma SplitsSent(st: Stream, w: string, hasTools: bool, n: nat)
    requires n <= |w| && Fits(st, w[..n]) && Fits(st, w)
    requires var (st1, o1) := StreamOpenAi.Update(st, w[..n], hasTools, false);
             StreamOpenAi.Splits(st, st1, o1, w, hasTools, n)
    ensures var (st1, o1) := StreamOpenAi.Update(st, w[..n], hasTools, false);
            Fits(st1, w) && Inv(st1, w) && Fits(st1, w[..n]) &&
              Sent(st, w, hasTools) == Plus(o1, Sent(st1, w, hasTools))
  {
    hide StreamOpenAi.Update, Sent, Inv;
  }

  lemma SentIs(st: Stream, w: string, hasTools: bool)
    requires Fits(st, w)
    ensures Sent(st, w, hasTools) == StreamOpenAi.Update(st, w, hasTools, true).1
  {
  }

  /** One turn of the loop, on what had been sent before it. */
  lemma Unfold(t: Tool, raw: string, sent: seq<Atom>)
    requires t.pos <= |raw| && GoodLits(t.lits)
    ensures !Active(t) || t.pos == |raw| ==> ToolUpdate(t, raw).0 == t && sent + ToolUpdate(t, raw).1 == sent
    ensures Active(t) && t.pos < |raw| ==>
      var r := ToolRound(t, raw);
      && r.t.pos <= |raw| && GoodLits(r.t.lits)
      && (if r.more then
            ToolUpdate(t, raw).0 == ToolUpdate(r.t, raw).0
            && sent + ToolUpdate(t, raw).1 == (sent + r.sent) + ToolUpdate(r.t, raw).1
          else
            ToolUpdate(t, raw).0 == r.t && sent + ToolUpdate(t, raw).1 == sent + r.sent)
  {
    hide ToolRound, GoodLits;
    if Active(t) && t.pos < |raw| { RoundMoves(t, raw); }
  }

  lemma PlusField(r: Out, s: string)
    ensures Plus(r, Out(s, "", [])) == r.(reasoning := r.reasoning + s)
    ensures Plus(r, Out("", s, [])) == r.(content := r.content + s)
  {
  }

  lemma StartInvokeMore(t: Tool, raw: string)
    requires t.pos <= |raw| && t.state == BetweenInvokes
    ensures var r := StartInvoke(t, raw); r.more <==> r.t.state != BetweenInvokes && r.t.state != Error
  {
    hide Attr;
  }

  lemma StartParamMore(t: Tool, raw: string)
    requires t.pos <= |raw| && t.state == BetweenParams
    ensures var r := StartParam(t, raw); r.more <==> r.t.state != BetweenParams && r.t.state != Error
  {
    hide Attr, ParamPrefix;
  }
}
