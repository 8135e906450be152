/** Whole messages with tool calls: rendering and parsing undo each other. */
module DsmlRound {
  import opened Common
  import opened StreamText
  import opened StreamTool
  import Json
  import opened JsonArgs
  import opened DsmlText
  import opened DsmlCalls
  import opened DsmlBack

  lemma InvokeAttrs(lits: Lits, name: string)
    requires KnownLits(lits)
    ensures Attr(InvokeTag(lits, name), "name") == Some(name)
    ensures var tag := InvokeTag(lits, name);
      && tag != "" && tag[|tag| - 1] == '>' && (forall k :: 0 <= k < |tag| - 1 ==> tag[k] != '>')
      && StartsWith(tag, lits.invokeStart)
  {
    hide Attr, AttrEscape, Unescape, Spelled;
    Heads(lits);
    AttrNoQuote(name);
    var head, text := lits.invokeStart, AttrEscape(name);
    NameAttr(head, text, ">");
    AttrBack(name);
    assert InvokeTag(lits, name) == head + " name=\"" + text + "\"" + ">";
    InvokeChars(head, text);
  }

  lemma InvokeChars(head: string, text: string)
    requires forall k :: 0 <= k < |head| ==> head[k] != '>'
    requires forall k :: 0 <= k < |text| ==> text[k] != '>'
    ensures var tag := head + " name=\"" + text + "\"" + ">";
            && tag[|tag| - 1] == '>' && (forall k :: 0 <= k < |tag| - 1 ==> tag[k] != '>') && StartsWith(tag, head)
  {
    var tag, h := head + " name=\"" + text + "\"" + ">", |head| + 7;
    assert forall k :: 0 <= k < h ==> tag[k] == (head + " name=\"")[k];
    assert forall k :: h <= k < h + |text| ==> tag[k] == text[k - h];
  }

  function MadeOf(c: Call): Made {
    Made(c.name, ObjectText(RereadAll(c.args)))
  }

  function MadeAll(calls: seq<Call>): seq<Made> {
    if calls == [] then [] else [MadeOf(calls[0])] + MadeAll(calls[1..])
  }

  /** What the parser makes of a written call. */
  function Taken(c: Invoke): Made {
    Made(c.name, ObjectText(ReadParams(c.params)))
  }

  function TakenAll(cs: seq<Invoke>): seq<Made> {
    if cs == [] then [] else [Taken(cs[0])] + TakenAll(cs[1..])
  }

  /** No closing tag stands in any parameter's text. */
  ghost predicate AllClosed(lits: Lits, cs: seq<Invoke>) {
    forall i :: 0 <= i < |cs| ==> Closed(lits, cs[i].params)
  }

  lemma {:induction false} RenderedTaken(calls: seq<Call>)
    ensures AllClosed(LONG, InvokesOf(calls)) && TakenAll(InvokesOf(calls)) == MadeAll(calls)
    ensures |InvokesOf(calls)| == |calls|
  {
    hide ParamsOf, Closed, ReadParams, ObjectText;
    if calls != [] {
      RenderedClosed(calls[0].args);
      RenderedTaken(calls[1..]);
      assert InvokesOf(calls)[1..] == InvokesOf(calls[1..]);
    }
  }

  /** A round of the parser whose pieces are known. */
  lemma CallRead(lits: Lits, s: string, tag: string, name: string, args: string, rest: string)
    requires Json.Ws(s) == s && !StartsWith(s, lits.callsEnd) && StartsWith(s, lits.invokeStart)
    requires tag != "" && Find(s, 0, ">") == |tag| - 1 && |tag| <= |s| && s[..|tag|] == tag
    requires Attr(tag, "name") == Some(name)
    requires ParseParams(s[|tag|..], lits, "") == Some((args, rest))
    ensures ParseInvokes(s, lits) ==
            match ParseInvokes(rest, lits)
            case None => None
            case Some((calls, end)) => Some(([Made(name, "{" + args + "}")] + calls, end))
  {
    hide Find, Attr, StartsWith, Json.Ws, ParseParams;
  }

  lemma InvokesLine(s: string, lits: Lits)
    ensures ParseInvokes("\n" + s, lits) == ParseInvokes(s, lits)
  {
    hide Find, Attr, StartsWith, Json.Ws, ParseParams;
    WsLine(s);
  }

  lemma CallText(lits: Lits, c: Invoke, rest: string)
    ensures WriteInvoke(lits, c) + rest
         == InvokeTag(lits, c.name) + ("\n" + (WriteParams(lits, c.params) + (lits.invokeEnd + ("\n" + rest))))
  {
    hide InvokeTag, WriteParams;
    var t, a, e, n := InvokeTag(lits, c.name), WriteParams(lits, c.params), lits.invokeEnd, "\n" + rest;
    assert WriteInvoke(lits, c) + rest == t + "\n" + a + e + n;
  }

  lemma StartsThrough(s: string, p: string, q: string)
    requires StartsWith(s, p) && StartsWith(p, q)
    ensures StartsWith(s, q)
    ensures |q| > 1 ==> |s| > 1 && s[0] == q[0] && s[1] == q[1]
  {
    assert s[..|p|][..|q|] == s[..|q|];
    assert |q| > 1 ==> s[0] == s[..|q|][0] && s[1] == s[..|q|][1];
  }

  /** One written call, parsed. */
  lemma CallStep(lits: Lits, c: Invoke, rest: string)
    requires KnownLits(lits) && Closed(lits, c.params)
    ensures ParseInvokes(WriteInvoke(lits, c) + rest, lits) ==
            match ParseInvokes(rest, lits)
            case None => None
            case Some((calls, end)) => Some(([Taken(c)] + calls, end))
  {
    hide Find, Attr, StartsWith, Json.Ws, ParseParams, ParseInvokes, InvokeTag, WriteParams, WriteInvoke, AddArgs,
      ReadParams, Spelled, Closed, KnownLits;
    Heads(lits);
    InvokeAttrs(lits, c.name);
    CallText(lits, c, rest);
    var tag, n := InvokeTag(lits, c.name), "\n" + rest;
    var body := WriteParams(lits, c.params) + (lits.invokeEnd + n);
    var s := tag + ("\n" + body);
    TagEnd(tag, "\n" + body);
    StartsHere(tag, "\n" + body);
    StartsThrough(s, tag, lits.invokeStart);
    NotStart(s, lits.callsEnd);
    WsBracket(s);
    ParamsLine(body, lits, "");
    ParamsBack(lits, c.params, n, "");
    CallRead(lits, s, tag, c.name, AddArgs("", ReadParams(c.params)), n);
    InvokesLine(rest, lits);
  }

  /** All written calls of a block, in any spelling, parsed. */
  lemma {:induction false} CallsBack(lits: Lits, cs: seq<Invoke>, rest: string)
    requires KnownLits(lits) && AllClosed(lits, cs)
    ensures ParseInvokes(WriteInvokes(lits, cs) + (lits.callsEnd + rest), lits) == Some((TakenAll(cs), rest))
    decreases |cs|
  {
    hide ParseInvokes, Taken, WriteInvoke, Spelled, Closed, KnownLits;
    var end := lits.callsEnd + rest;
    if cs == [] {
      assert "" + end == end;
      CallsEnd(lits, rest);
    } else {
      var more := WriteInvokes(lits, cs[1..]) + end;
      assert WriteInvokes(lits, cs) + end == WriteInvoke(lits, cs[0]) + more;
      CallStep(lits, cs[0], more);
      CallsBack(lits, cs[1..], rest);
    }
  }

  lemma CallsEnd(lits: Lits, rest: string)
    requires KnownLits(lits)
    ensures ParseInvokes(lits.callsEnd + rest, lits) == Some(([], rest))
  {
    hide Find, Attr, ParseParams, Spelled, StartsWith, KnownLits;
    Heads(lits);
    var s := lits.callsEnd + rest;
    WsBracket(s);
    StartsHere(lits.callsEnd, rest);
    assert s[|lits.callsEnd|..] == rest;
  }

  // ----- whole messages -----

  /** An opening tag has no line feed, and one bracket at its front. */
  lemma StartChars(lits: Lits)
    requires KnownLits(lits)
    ensures |lits.callsStart| > 2 && lits.callsStart[0] == '<'
    ensures forall k :: 0 < k < |lits.callsStart| ==> lits.callsStart[k] != '\n' && lits.callsStart[k] != '<'
  {
    hide Spelled;
    SpelledStart(DSML);
    SpelledStart(DSML_SHORT);
    SpelledStart("");
  }

  lemma SpelledStart(dsml: string)
    requires forall k :: 0 <= k < |dsml| ==> dsml[k] != '<' && dsml[k] != '\n'
    ensures var start := Spelled(dsml).callsStart;
      |start| > 2 && start[0] == '<' && forall k :: 0 < k < |start| ==> start[k] != '\n' && start[k] != '<'
  {
    assert Spelled(dsml).callsStart == "<" + dsml + "tool_calls>";
  }

  lemma NoStartBefore(content: string, gap: string, start: string, more: string, k: nat)
    requires Nowhere(content, start) && (gap == "" || gap == "\n\n") && k < |content| + |gap|
    requires |start| > 2 && start[0] == '<' && forall j :: 0 < j < |start| ==> start[j] != '\n' && start[j] != '<'
    ensures !MatchAt(content + gap + (start + more), k, start)
  {
    hide Nowhere, MatchAt;
    var rest := gap + (start + more);
    assert content + gap + (start + more) == content + rest;
    if k < |content| {
      assert rest[0] == '\n' || rest[0] == start[0];
      NoCross(content, rest, start, k);
    } else {
      assert (content + rest)[k] == rest[k - |content|] == gap[k - |content|];
      NoBracket(content + rest, k, start);
    }
  }

  /** The first opening tag behind a text without one, which two line feeds may follow. */
  lemma FirstStart(content: string, gap: string, lits: Lits, more: string)
    requires KnownLits(lits) && Nowhere(content, lits.callsStart) && (gap == "" || gap == "\n\n")
    ensures var start, n := lits.callsStart, |content| + |gap|;
      var text := content + gap + (start + more);
      && Find(text, 0, start) == n && Find(text, |content|, start) == n && text[n + |start|..] == more
  {
    hide Find, MatchAt, KnownLits, Spelled, Nowhere;
    StartChars(lits);
    var start, n := lits.callsStart, |content| + |gap|;
    var text := content + gap + (start + more);
    forall k: nat | k < n
      ensures !MatchAt(text, k, start)
    {
      NoStartBefore(content, gap, start, more, k);
    }
    StartPlace(content, gap, start, more);
    FoundAt(text, 0, start, n);
    FoundAt(text, |content|, start, n);
  }

  lemma StartPlace(content: string, gap: string, start: string, more: string)
    ensures var n, text := |content| + |gap|, content + gap + (start + more);
      MatchAt(text, n, start) && text[n + |start|..] == more
  {
    MatchPart(content + gap, start, more);
    assert content + gap + (start + more) == (content + gap) + start + more;
  }

  /** Where the parser finds the calls: at the line feeds, if there are any. */
  lemma StartFound(content: string, gap: string, lits: Lits, more: string)
    requires KnownLits(lits) && Nowhere(content, lits.callsStart) && (gap == "" || gap == "\n\n")
    requires gap == "" ==> Nowhere(content + (lits.callsStart + more), "\n\n" + lits.callsStart)
    ensures var text := content + gap + (lits.callsStart + more);
      var a := Find(text, 0, "\n\n" + lits.callsStart);
      if gap == "" then a < 0 else a == |content|
  {
    hide Find, MatchAt, KnownLits, Spelled;
    StartChars(lits);
    var start := lits.callsStart;
    var text, lines := content + gap + (start + more), "\n\n" + start;
    if gap == "" {
      assert text == content + (start + more);
      NotFound(text, lines);
    } else {
      FirstStart(content, gap, lits, more);
      FindFirst(text, start);
      forall k: nat | k < |content|
        ensures !MatchAt(text, k, lines)
      {
        MatchInner(text, k, start);
      }
      assert text == content + lines + more;
      MatchPart(content, lines, more);
      FoundAt(text, 0, lines, |content|);
    }
  }

  lemma NotFound(s: string, lit: string)
    requires Nowhere(s, lit) && lit != ""
    ensures Find(s, 0, lit) < 0
  {
    hide MatchAt;
  }

  lemma FindFirst(s: string, lit: string)
    requires lit != "" && Find(s, 0, lit) >= 0
    ensures forall k: nat :: k < Find(s, 0, lit) ==> !MatchAt(s, k, lit)
  {
  }

  lemma MatchInner(s: string, k: nat, lit: string)
    ensures MatchAt(s, k, "\n\n" + lit) ==> MatchAt(s, k + 2, lit)
  {
    var l := "\n\n" + lit;
    if MatchAt(s, k, l) { assert s[k + 2..k + 2 + |lit|] == s[k..k + |l|][2..] == lit; }
  }

  lemma ParsedAs(text: string, n: nat, q: nat, lits: Lits, made: seq<Made>, end: string)
    requires FindCalls(text) == Some((n, lits)) && n <= |text|
    requires Find(text, n, lits.callsStart) == q && q + |lits.callsStart| <= |text|
    requires ParseInvokes(text[q + |lits.callsStart|..], lits) == Some((made, end)) && n + |end| <= |text|
    ensures var r := SplitReasoning(text[..Trim(text, 0, n)]);
            Parse(text) == Message(r.0, r.1, made, text[n..|text| - |end|])
  {
    hide Find, FindCalls, ParseInvokes, SplitReasoning, Trim;
  }

  /** No start is spelled in a way that the parser looks for before `lits`. */
  ghost predicate Unspelled(text: string, lits: Lits) {
    && (lits != LONG ==> Nowhere(text, LONG.callsStart))
    && (lits == PLAIN ==> Nowhere(text, SHORT.callsStart))
  }

  lemma NoLines(s: string, lit: string)
    requires Nowhere(s, lit) && lit != ""
    ensures Find(s, 0, lit) < 0 && Find(s, 0, "\n\n" + lit) < 0
  {
    hide MatchAt;
    NotFound(s, lit);
    forall k: nat
      ensures !MatchAt(s, k, "\n\n" + lit)
    {
      MatchInner(s, k, lit);
    }
    NotFound(s, "\n\n" + lit);
  }

  lemma CallsFound(text: string, n: nat, lits: Lits)
    requires KnownLits(lits) && Unspelled(text, lits)
    requires var a, b := Find(text, 0, "\n\n" + lits.callsStart), Find(text, 0, lits.callsStart);
      a == n || (a < 0 && b == n)
    ensures FindCalls(text) == Some((n, lits))
  {
    hide Find, Nowhere, Spelled;
    StartChars(LONG);
    StartChars(SHORT);
    if lits != LONG { NoLines(text, LONG.callsStart); }
    if lits == PLAIN { NoLines(text, SHORT.callsStart); }
  }

  lemma BlockText(lits: Lits, cs: seq<Invoke>, rest: string)
    ensures Block(lits, cs) + rest == lits.callsStart + ("\n" + (WriteInvokes(lits, cs) + (lits.callsEnd + rest)))
  {
    hide WriteInvokes;
    assert Block(lits, cs) + rest == lits.callsStart + "\n" + WriteInvokes(lits, cs) + lits.callsEnd + rest;
  }

  /** Text, a block of calls in any spelling, and more text: the calls are read as they were
      written, and the text in front of them comes back without the white space at its
      end. A start that the parser looks for earlier must not stand anywhere, and a block that
      follows right on must have no other start behind line feeds. */
  lemma BlockParsed(content: string, gap: string, lits: Lits, cs: seq<Invoke>, rest: string)
    requires KnownLits(lits) && AllClosed(lits, cs) && Nowhere(content, lits.callsStart)
    requires gap == "\n\n" || (gap == "" && Nowhere(content + (Block(lits, cs) + rest), "\n\n" + lits.callsStart))
    requires Unspelled(content + gap + (Block(lits, cs) + rest), lits)
    ensures var r := SplitReasoning(content[..Trim(content, 0, |content|)]);
      Parse(content + gap + (Block(lits, cs) + rest)) == Message(r.0, r.1, TakenAll(cs), gap + Block(lits, cs))
  {
    hide *;
    var n, start := |content|, lits.callsStart;
    var inside := WriteInvokes(lits, cs) + (lits.callsEnd + rest);
    var text := content + gap + (Block(lits, cs) + rest);
    BlockText(lits, cs, rest);
    FirstStart(content, gap, lits, "\n" + inside);
    StartFound(content, gap, lits, "\n" + inside);
    CallsFound(text, n, lits);
    InvokesLine(inside, lits);
    CallsBack(lits, cs, rest);
    TextParts(content, gap, Block(lits, cs), rest);
    ParsedAs(text, n, n + |gap|, lits, TakenAll(cs), rest);
  }

  /** The text in front of a block, trimmed, and the block. */
  lemma TextParts(content: string, gap: string, block: string, rest: string)
    ensures var text, n := content + gap + (block + rest), |content|;
      && text[..Trim(text, 0, n)] == content[..Trim(content, 0, n)]
      && n <= |text| - |rest| && text[n..|text| - |rest|] == gap + block
  {
    var text, n := content + gap + (block + rest), |content|;
    assert text == content + (gap + block) + rest;
    assert text[..n] == content;
    TrimSame(text, n, 0, n);
    TrimBounds(content, 0, n);
  }

  /** A text and its calls, rendered and parsed: the text comes back without the
      white space at its end, and the calls as their parameters are read. */
  lemma RenderedParsed(content: string, calls: seq<Call>)
    requires calls != [] && Nowhere(content, LONG.callsStart)
    ensures var r := SplitReasoning(content[..Trim(content, 0, |content|)]);
            Parse(content + Render(calls)) == Message(r.0, r.1, MadeAll(calls), Render(calls))
  {
    hide *;
    RenderedTaken(calls);
    RenderText(content, calls);
    LongFirst(content + "\n\n" + (Block(LONG, InvokesOf(calls)) + ""));
    BlockParsed(content, "\n\n", LONG, InvokesOf(calls), "");
  }

  lemma LongFirst(text: string)
    ensures KnownLits(LONG) && Unspelled(text, LONG)
  {
    hide Nowhere;
    assert LONG.callsStart[1] != PLAIN.callsStart[1] by { assert PLAIN.callsStart == "<tool_calls>"; }
  }

  lemma RenderText(content: string, calls: seq<Call>)
    requires calls != []
    ensures Render(calls) == "\n\n" + Block(LONG, InvokesOf(calls))
    ensures content + Render(calls) == content + "\n\n" + (Block(LONG, InvokesOf(calls)) + "")
  {
    hide Block;
    assert Block(LONG, InvokesOf(calls)) + "" == Block(LONG, InvokesOf(calls));
  }

  /** Parameters that all survive are read as they were. */
  lemma {:induction false} SurvivorsBack(args: seq<JsonArg>)
    requires forall i :: 0 <= i < |args| ==> Survives(args[i])
    ensures RereadAll(args) == args
  {
    if args != [] {
      RereadExactly(args[0]);
      SurvivorsBack(args[1..]);
      assert [args[0]] + args[1..] == args;
    }
  }

  lemma {:induction false} MadeAt(calls: seq<Call>, i: nat)
    requires i < |calls|
    ensures |MadeAll(calls)| == |calls| && MadeAll(calls)[i] == MadeOf(calls[i])
  {
    if |calls| > 1 { MadeAt(calls[1..], if i > 0 then i - 1 else 0); }
  }
}
