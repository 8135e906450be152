/** The text of a conversation for the model, and why a longer conversation mostly
    goes on where a shorter one ended. */
module Prompt {
  import opened DsmlCalls
  import opened StreamTool

  // The special tokens of the model, with its bars and underscores as bytes.
  const GAP := "\U{E2}\U{96}\U{81}"
  const BEGIN := "<" + BAR + "begin" + GAP + "of" + GAP + "sentence" + BAR + ">"
  const END := "<" + BAR + "end" + GAP + "of" + GAP + "sentence" + BAR + ">"
  const USER := "<" + BAR + "User" + BAR + ">"
  const ASSISTANT := "<" + BAR + "Assistant" + BAR + ">"

  // A message; `raw` is the sampled text of its calls when it is known.
  datatype Msg = Msg(role: string, content: string, reasoning: string, calls: seq<Call>, raw: string)

  predicate IsSystem(m: Msg) { m.role == "system" || m.role == "developer" }

  predicate IsTool(m: Msg) { m.role == "tool" || m.role == "function" }

  predicate IsUserLike(m: Msg) { m.role == "user" || IsTool(m) }

  predicate IsAssistant(m: Msg) { m.role == "assistant" }

  /** The exact text of the calls if it is remembered, else the canonical one. */
  function CallsText(calls: seq<Call>, raw: string): string {
    if calls == [] then "" else if raw != "" then raw else Render(calls)
  }

  function TextEscape(s: string): string {
    if s == "" then ""
    else
      var c := if s[0] == '&' then "&amp;" else if s[0] == '<' then "&lt;" else if s[0] == '>' then "&gt;" else [s[0]];
      c + TextEscape(s[1..])
  }

  // ----- what comes first -----

  function SystemText(msgs: seq<Msg>): string {
    if msgs == [] then ""
    else
      var before, m := SystemText(msgs[..|msgs| - 1]), msgs[|msgs| - 1];
      if !IsSystem(m) then before else before + (if before == "" then "" else "\n\n") + m.content
  }

  /** The system messages and the description of the tools, if there are any. */
  function Head(msgs: seq<Msg>, tools: string, prefix: string): string {
    var s := SystemText(msgs);
    BEGIN + prefix + (if tools == "" then s else s + (if s == "" then "" else "\n\n") + tools)
  }

  // ----- the messages -----

  // The text so far, whether an answer is due, and whether a tool's result was last.
  datatype Body = Body(text: string, due: bool, afterTool: bool)

  /** One message; `show` says that an assistant's reasoning is kept. */
  function Step(b: Body, m: Msg, think: bool, show: bool): Body {
    if IsSystem(m) then b
    else if m.role == "user" then Body(b.text + USER + m.content, true, false)
    else if IsTool(m) then
      var start := if b.afterTool then "" else USER;
      Body(b.text + start + "<tool_result>" + TextEscape(m.content) + "</tool_result>", true, true)
    else if IsAssistant(m) then
      var opening := if !b.due then ""
                     else if think && show then ASSISTANT + "<think>" + m.reasoning + "</think>"
                     else ASSISTANT + "</think>";
      Body(b.text + opening + m.content + CallsText(m.calls, m.raw) + END, false, false)
    else b
  }

  /** The messages up to the end of the list; from `last` on, or with tools in the
      context, reasoning is kept. */
  function Messages(msgs: seq<Msg>, think: bool, context: bool, last: int): Body {
    if msgs == [] then Body("", false, false)
    else
      var n := |msgs| - 1;
      Step(Messages(msgs[..n], think, context, last), msgs[n], think, context || n > last)
  }

  function LastUser(msgs: seq<Msg>): (r: int)
    ensures -1 <= r < |msgs| && (r >= 0 ==> IsUserLike(msgs[r])) && forall k :: r < k < |msgs| ==> !IsUserLike(msgs[k])
  {
    if msgs == [] then -1
    else if IsUserLike(msgs[|msgs| - 1]) then |msgs| - 1
    else LastUser(msgs[..|msgs| - 1])
  }

  /** Tools are offered, or were used in the conversation. */
  predicate Context(msgs: seq<Msg>, tools: string) {
    tools != "" || exists i :: 0 <= i < |msgs| && ((IsAssistant(msgs[i]) && msgs[i].calls != []) || IsTool(msgs[i]))
  }

  function BodyOf(msgs: seq<Msg>, tools: string, think: bool): Body {
    Messages(msgs, think, Context(msgs, tools), LastUser(msgs))
  }

  function RenderPrompt(msgs: seq<Msg>, tools: string, think: bool, prefix: string): string {
    var b := BodyOf(msgs, tools, think);
    Head(msgs, tools, prefix) + b.text + if b.due then ASSISTANT + (if think then "<think>" else "</think>") else ""
  }

  /** What is generated after a prompt, as the next prompt will show it. */
  function Suffix(a: Msg, think: bool): string {
    (if think then a.reasoning + "</think>" else "") + a.content + CallsText(a.calls, a.raw) + END
  }

  // ----- growing conversations -----

  /** The last message that is shown asks for an answer. */
  function Asks(msgs: seq<Msg>): (r: bool)
    ensures r <==>
      exists i :: 0 <= i < |msgs| && IsUserLike(msgs[i]) && forall k :: i < k < |msgs| ==> !IsAssistant(msgs[k])
  {
    if msgs == [] then false
    else
      var m := msgs[|msgs| - 1];
      if IsSystem(m) || !(IsUserLike(m) || IsAssistant(m)) then Asks(msgs[..|msgs| - 1]) else IsUserLike(m)
  }

  lemma {:induction false} DueIsAsking(msgs: seq<Msg>, think: bool, context: bool, last: int)
    ensures Messages(msgs, think, context, last).due == Asks(msgs)
  {
    if msgs != [] { DueIsAsking(msgs[..|msgs| - 1], think, context, last); }
  }

  /** Where reasoning is not hidden it does not matter who spoke last. */
  lemma {:induction false} LastIrrelevant(msgs: seq<Msg>, think: bool, context: bool, last: int, last': int)
    requires context || !think
    ensures Messages(msgs, think, context, last) == Messages(msgs, think, context, last')
  {
    if msgs != [] { LastIrrelevant(msgs[..|msgs| - 1], think, context, last, last'); }
  }

  /** Nor does the context matter without thinking. */
  lemma {:induction false} ContextIrrelevant(msgs: seq<Msg>, context: bool, context': bool, last: int, last': int)
    ensures Messages(msgs, false, context, last) == Messages(msgs, false, context', last')
  {
    if msgs != [] { ContextIrrelevant(msgs[..|msgs| - 1], context, context', last, last'); }
  }

  lemma SystemAppend(msgs: seq<Msg>, m: Msg)
    requires !IsSystem(m)
    ensures SystemText(msgs + [m]) == SystemText(msgs)
  {
    assert (msgs + [m])[..|msgs|] == msgs;
  }

  // ----- answers already shown -----

  /** Message `i` answers a message that asks. */
  predicate AnswersAt(msgs: seq<Msg>, i: nat)
    requires i < |msgs|
  {
    IsAssistant(msgs[i]) && Asks(msgs[..i])
  }

  /** The conversation holds a question that was answered. */
  predicate Answered(msgs: seq<Msg>) {
    msgs != [] && (Answered(msgs[..|msgs| - 1]) || AnswersAt(msgs, |msgs| - 1))
  }

  function FirstAnswer(msgs: seq<Msg>): (i: nat)
    requires Answered(msgs)
    ensures i < |msgs| && AnswersAt(msgs, i) && !Answered(msgs[..i])
  {
    var n := |msgs| - 1;
    if Answered(msgs[..n]) then
      var i := FirstAnswer(msgs[..n]);
      assert msgs[..n][..i] == msgs[..i];
      i
    else n
  }

  /** Without an answer nothing depends on what is hidden. */
  lemma {:induction false} Unanswered(msgs: seq<Msg>, think: bool, c: bool, l: int, c': bool, l': int)
    requires !Answered(msgs)
    ensures Messages(msgs, think, c, l) == Messages(msgs, think, c', l')
  {
    if msgs != [] {
      Unanswered(msgs[..|msgs| - 1], think, c, l, c', l');
      DueIsAsking(msgs[..|msgs| - 1], think, c, l);
    }
  }

  /** A conversation whose first answer is shown with its reasoning in one prompt and
      without it in another: the two part there. */
  lemma Parts(msgs: seq<Msg>, c: bool, l: int, c': bool, l': int) returns (start: string, x: string, y: string)
    requires Answered(msgs)
    requires var i := FirstAnswer(msgs); (c || i > l) && !(c' || i > l')
    ensures Messages(msgs, true, c, l).text == start + ASSISTANT + "<think>" + x
    ensures Messages(msgs, true, c', l').text == start + ASSISTANT + "</think>" + y
  {
    hide CallsText, Messages;
    var i := FirstAnswer(msgs);
    var a, b, rest := msgs[i], Messages(msgs[..i], true, c, l), msgs[i + 1..];
    Unanswered(msgs[..i], true, c, l, c', l');
    DueIsAsking(msgs[..i], true, c, l);
    MessagesAppend(msgs[..i], a, true, c, l);
    MessagesAppend(msgs[..i], a, true, c', l');
    var upTo := msgs[..i] + [a];
    assert msgs == upTo + rest;
    MessagesPrefix(upTo, rest, true, c, l);
    MessagesPrefix(upTo, rest, true, c', l');
    var calls := CallsText(a.calls, a.raw);
    start := b.text;
    x := a.reasoning + "</think>" + a.content + calls + END +
      Messages(msgs, true, c, l).text[|Messages(upTo, true, c, l).text|..];
    y := a.content + calls + END + Messages(msgs, true, c', l').text[|Messages(upTo, true, c', l').text|..];
    Shown(b, a, true);
    Shown(b, a, false);
    Split(Messages(upTo, true, c, l).text, Messages(msgs, true, c, l).text);
    Split(Messages(upTo, true, c', l').text, Messages(msgs, true, c', l').text);
    Joined(start + ASSISTANT + "<think>", a.reasoning + "</think>" + a.content + calls + END,
           Messages(msgs, true, c, l).text[|Messages(upTo, true, c, l).text|..]);
    Joined(start + ASSISTANT + "</think>", a.content + calls + END,
           Messages(msgs, true, c', l').text[|Messages(upTo, true, c', l').text|..]);
  }

  lemma Joined(a: string, b: string, c: string)
    ensures (a + b) + c == a + (b + c)
  {
  }

  lemma Split(a: string, b: string)
    requires a <= b
    ensures b == a + b[|a|..]
  {
  }

  /** An answer that is due, with its reasoning or without it. */
  lemma Shown(b: Body, a: Msg, show: bool)
    requires b.due && IsAssistant(a)
    ensures Step(b, a, true, show).text
      == (b.text + ASSISTANT + if show then "<think>" else "</think>")
       + ((if show then a.reasoning + "</think>" + a.content else a.content) + CallsText(a.calls, a.raw) + END)
  {
    hide CallsText;
    var calls := CallsText(a.calls, a.raw);
    if show {
      RegroupShown(b.text, ASSISTANT, "<think>", a.reasoning, "</think>", a.content, calls, END);
    } else {
      RegroupHidden(b.text, ASSISTANT, "</think>", a.content, calls, END);
    }
  }

  lemma RegroupShown(t: string, a: string, b: string, r: string, e: string, c: string, d: string, f: string)
    ensures t + (a + b + r + e) + c + d + f == (t + a + b) + ((r + e + c) + d + f)
  {
  }

  lemma RegroupHidden(t: string, a: string, b: string, c: string, d: string, f: string)
    ensures t + (a + b) + c + d + f == (t + a + b) + (c + d + f)
  {
  }

  // ----- appending an answer -----

  /** An answer appended to a conversation that asks for one: the longer prompt is
      the shorter one and what was generated, exactly when there is no thinking, or
      the answer's calls are not the first use of tools, or no earlier answer's
      hidden reasoning would come back. */
  lemma AppendStable(msgs: seq<Msg>, a: Msg, tools: string, think: bool, prefix: string)
    requires Asks(msgs) && IsAssistant(a)
    ensures RenderPrompt(msgs, tools, think, prefix) + Suffix(a, think) ==
        RenderPrompt(msgs + [a], tools, think, prefix)
       <==> !think || Context(msgs, tools) == Context(msgs + [a], tools) || !Answered(msgs)
  {
    hide *;
    if !think || Context(msgs, tools) == Context(msgs + [a], tools) || !Answered(msgs) {
      AppendSame(msgs, a, tools, think, prefix);
    } else {
      AppendDiffers(msgs, a, tools, prefix);
    }
  }

  lemma AppendSame(msgs: seq<Msg>, a: Msg, tools: string, think: bool, prefix: string)
    requires Asks(msgs) && IsAssistant(a)
    requires !think || Context(msgs, tools) == Context(msgs + [a], tools) || !Answered(msgs)
    ensures RenderPrompt(msgs, tools, think, prefix) + Suffix(a, think) ==
        RenderPrompt(msgs + [a], tools, think, prefix)
  {
    hide Messages, CallsText, Asks, Step, Suffix, Head, Context, LastUser, SystemText, Answered;
    var all := msgs + [a];
    assert all[..|msgs|] == msgs && all[|msgs|] == a;
    SameHead(msgs, a, tools, prefix);
    LastAppend(msgs, a);
    var c, c', l := Context(msgs, tools), Context(all, tools), LastUser(msgs);
    DueIsAsking(msgs, think, c, l);
    if !think { ContextIrrelevant(msgs, c, c', l, l); }
    if !Answered(msgs) { Unanswered(msgs, think, c, l, c', l); }
    MessagesAppend(msgs, a, think, c', l);
    AnswerText(Messages(msgs, think, c, l), a, think);
    var b := Messages(msgs, think, c, l);
    Regroup4(Head(msgs, tools, prefix), b.text, ASSISTANT + if think then "<think>" else "</think>", Suffix(a, think));
  }

  /** The answer's calls bring the tools in, and with them the reasoning of the
      earlier answers. */
  lemma AppendDiffers(msgs: seq<Msg>, a: Msg, tools: string, prefix: string)
    requires Asks(msgs) && IsAssistant(a) && Context(msgs, tools) != Context(msgs + [a], tools) && Answered(msgs)
    ensures RenderPrompt(msgs, tools, true, prefix) + Suffix(a, true) != RenderPrompt(msgs + [a], tools, true, prefix)
  {
    hide Messages, CallsText, Asks, Step, Suffix, Head, SystemText, Answered, LastUser;
    var all, l, h := msgs + [a], LastUser(msgs), Head(msgs, tools, prefix);
    SameHead(msgs, a, tools, prefix);
    LastAppend(msgs, a);
    ContextGrows(msgs, [a], tools);
    AskedLast(msgs, FirstAnswer(msgs));
    var start, x, y := Parts(msgs, true, l, false, l);
    MessagesPrefix(msgs, [a], true, true, l);
    var m := Messages(all, true, true, l).text;
    Split(Messages(msgs, true, true, l).text, m);
    var tail := m[|Messages(msgs, true, true, l).text|..];
    Joined(start + ASSISTANT + "<think>", x, tail);
    var b, b' := BodyOf(msgs, tools, true), BodyOf(all, tools, true);
    var p := RenderPrompt(msgs, tools, true, prefix) + Suffix(a, true);
    var q := RenderPrompt(all, tools, true, prefix);
    assert b'.text == start + ASSISTANT + "<think>" + (x + tail);
    assert b.text == start + ASSISTANT + "</think>" + y;
    var opening := if b.due then ASSISTANT + "<think>" else "";
    var opening' := if b'.due then ASSISTANT + "<think>" else "";
    Apart(h, start + ASSISTANT, "<think>", x + tail, opening', "</think>", y, opening + Suffix(a, true));
    assert q == h + b'.text + opening';
    Joined(h + b.text, opening, Suffix(a, true));
  }

  lemma Apart(h: string, s: string, x: string, xs: string, xe: string, y: string, ys: string, ye: string)
    requires |x| > 1 && |y| > 1 && x[1] != y[1]
    ensures h + (s + x + xs) + xe != h + (s + y + ys) + ye
  {
    var p, q, n := h + (s + x + xs) + xe, h + (s + y + ys) + ye, |h + s|;
    assert p[n + 1] == x[1] && q[n + 1] == y[1];
  }

  lemma ContextGrows(msgs: seq<Msg>, more: seq<Msg>, tools: string)
    ensures Context(msgs, tools) ==> Context(msgs + more, tools)
  {
    if i :| 0 <= i < |msgs| && ((IsAssistant(msgs[i]) && msgs[i].calls != []) || IsTool(msgs[i])) {
      assert (msgs + more)[i] == msgs[i];
    }
  }

  /** Where the last message shown asks, every answer is older than a message that
      asks. */
  lemma {:induction false} AskedLast(msgs: seq<Msg>, i: nat)
    requires Asks(msgs) && i < |msgs| && IsAssistant(msgs[i])
    ensures i < LastUser(msgs)
  {
    var n := |msgs| - 1;
    if i < n && !IsUserLike(msgs[n]) { AskedLast(msgs[..n], i); }
  }

  lemma SameHead(msgs: seq<Msg>, a: Msg, tools: string, prefix: string)
    requires IsAssistant(a)
    ensures Head(msgs + [a], tools, prefix) == Head(msgs, tools, prefix)
  {
    SystemAppend(msgs, a);
  }

  lemma LastAppend(msgs: seq<Msg>, a: Msg)
    requires IsAssistant(a)
    ensures LastUser(msgs + [a]) == LastUser(msgs) < |msgs|
  {
    hide LastUser;
    LastBelow(msgs);
    LastStep(msgs + [a]);
    assert (msgs + [a])[..|msgs|] == msgs;
  }

  lemma LastStep(msgs: seq<Msg>)
    requires msgs != [] && !IsUserLike(msgs[|msgs| - 1])
    ensures LastUser(msgs) == LastUser(msgs[..|msgs| - 1])
  {
  }

  /** An answer is shown as what was generated behind the opening that asked for
      it. */
  lemma AnswerText(b: Body, a: Msg, think: bool)
    requires b.due && IsAssistant(a)
    ensures Step(b, a, think, true)
         == Body(b.text + (ASSISTANT + if think then "<think>" else "</think>") + Suffix(a, think), false, false)
    ensures !think ==> Step(b, a, think, false) == Step(b, a, think, true)
  {
    hide CallsText;
    var calls := CallsText(a.calls, a.raw);
    if think {
      Regroup7(b.text, ASSISTANT, "<think>", a.reasoning, "</think>", a.content, calls, END);
    } else {
      Regroup5(b.text, ASSISTANT, "</think>", a.content, calls, END);
    }
  }

  lemma Regroup4(a: string, b: string, c: string, d: string)
    ensures (a + b + c) + d == a + (b + c + d)
  {
  }

  lemma Regroup5(t: string, a: string, b: string, c: string, d: string, e: string)
    ensures t + (a + b) + c + d + e == t + (a + b) + ("" + c + d + e)
  {
  }

  lemma Regroup7(t: string, a: string, b: string, r: string, e: string, c: string, d: string, f: string)
    ensures t + (a + b + r + e) + c + d + f == t + (a + b) + ((r + e) + c + d + f)
  {
  }

  lemma LastBelow(msgs: seq<Msg>)
    ensures LastUser(msgs) < |msgs|
  {
  }

  lemma MessagesAppend(msgs: seq<Msg>, m: Msg, think: bool, context: bool, last: int)
    ensures Messages(msgs + [m], think, context, last) ==
        Step(Messages(msgs, think, context, last), m, think, context || |msgs| > last)
  {
    assert (msgs + [m])[..|msgs|] == msgs;
  }

  /** One more message adds to the text. */
  lemma StepAdds(b: Body, m: Msg, think: bool, show: bool)
    ensures b.text <= Step(b, m, think, show).text
  {
    hide CallsText, TextEscape;
    if IsAssistant(m) && !IsSystem(m) {
      var opening := if !b.due then ""
                     else if think && show then ASSISTANT + "<think>" + m.reasoning + "</think>"
                     else ASSISTANT + "</think>";
      assert b.text <= b.text + opening;
    }
  }

  lemma {:induction false} MessagesPrefix(msgs: seq<Msg>, more: seq<Msg>, think: bool, context: bool, last: int)
    ensures Messages(msgs, think, context, last).text <= Messages(msgs + more, think, context, last).text
    decreases |more|
  {
    if more == [] {
      assert msgs + more == msgs;
    } else {
      var n := |more| - 1;
      MessagesPrefix(msgs, more[..n], think, context, last);
      assert (msgs + more)[..|msgs| + n] == msgs + more[..n];
      var b := Messages(msgs + more[..n], think, context, last);
      StepAdds(b, more[n], think, context || |msgs| + n > last);
    }
  }

  // ----- growing further -----

  ghost predicate Talk(more: seq<Msg>) {
    forall i :: 0 <= i < |more| ==> !IsSystem(more[i])
  }

  /** A longer conversation shows what a shorter one showed, and then more. */
  lemma PrefixStable(msgs: seq<Msg>, more: seq<Msg>, tools: string, think: bool)
    requires !think || Context(msgs, tools) || !Answered(msgs)
    ensures BodyOf(msgs, tools, think).text <= BodyOf(msgs + more, tools, think).text
  {
    hide Messages, Context, LastUser, Answered;
    var c, c', l, l' := Context(msgs, tools), Context(msgs + more, tools), LastUser(msgs), LastUser(msgs + more);
    ContextGrows(msgs, more, tools);
    if !think { ContextIrrelevant(msgs, c, c', l, l'); }
    else if c { LastIrrelevant(msgs, think, c, l, l'); }
    else { Unanswered(msgs, think, c, l, c', l'); }
    MessagesPrefix(msgs, more, think, c', l');
  }

  /** Who spoke last, and whether there are tools, after one more message. */
  lemma AfterOne(msgs: seq<Msg>, m: Msg, tools: string)
    requires !Context(msgs, tools) && (m.role == "user" || IsTool(m))
    ensures LastUser(msgs + [m]) == |msgs| && Context(msgs + [m], tools) == IsTool(m)
  {
    var all := msgs + [m];
    assert all[..|msgs|] == msgs && all[|msgs|] == m;
    assert forall i :: 0 <= i < |msgs| ==> all[i] == msgs[i];
  }

  /** A message of the user hides reasoning that was shown, and a tool's result shows
      what was hidden; whatever is written behind, the old text is gone. */
  lemma PrefixBroken(msgs: seq<Msg>, m: Msg, tools: string, tail: string)
    requires !Context(msgs, tools) && Answered(msgs)
    requires if FirstAnswer(msgs) > LastUser(msgs) then m.role == "user" else IsTool(m)
    ensures !(BodyOf(msgs, tools, true).text <= BodyOf(msgs + [m], tools, true).text + tail)
  {
    hide Messages, Answered, Context, LastUser;
    var all, i, l, l' := msgs + [m], FirstAnswer(msgs), LastUser(msgs), |msgs|;
    AfterOne(msgs, m, tools);
    MessagesPrefix(msgs, [m], true, IsTool(m), l');
    var p, q := BodyOf(msgs, tools, true).text, BodyOf(all, tools, true).text;
    var r := Messages(msgs, true, IsTool(m), l').text;
    Split(r, q);
    if i > l {
      var start, x, y := Parts(msgs, false, l, false, l');
      Joined(start + ASSISTANT + "</think>", y, q[|r|..]);
      Joined(start + ASSISTANT + "</think>", y + q[|r|..], tail);
      Shared(start, ASSISTANT, "<think>", x, "</think>", (y + q[|r|..]) + tail);
    } else {
      var start, x, y := Parts(msgs, true, l', false, l);
      Joined(start + ASSISTANT + "<think>", x, q[|r|..]);
      Joined(start + ASSISTANT + "<think>", x + q[|r|..], tail);
      Shared(start, ASSISTANT, "</think>", y, "<think>", (x + q[|r|..]) + tail);
    }
  }

  /** What is shown of a conversation stays, however it goes on, exactly when there
      is no thinking, or tools are in the context, or nothing was answered yet. */
  lemma PrefixExactly(msgs: seq<Msg>, tools: string, think: bool)
    ensures (forall more :: Talk(more) ==> BodyOf(msgs, tools, think).text <= BodyOf(msgs + more, tools, think).text)
       <==> !think || Context(msgs, tools) || !Answered(msgs)
  {
    hide BodyOf, Answered, LastUser, Context, AnswersAt;
    if !think || Context(msgs, tools) || !Answered(msgs) {
      forall more | Talk(more)
        ensures BodyOf(msgs, tools, think).text <= BodyOf(msgs + more, tools, think).text
      {
        PrefixStable(msgs, more, tools, think);
      }
    } else {
      var m := Msg(if FirstAnswer(msgs) > LastUser(msgs) then "user" else "tool", "", "", [], "");
      PrefixBroken(msgs, m, tools, "");
      var q := BodyOf(msgs + [m], tools, true).text;
      assert q + "" == q && Talk([m]);
    }
  }

  lemma {:induction false} SystemSame(msgs: seq<Msg>, more: seq<Msg>)
    requires forall i :: 0 <= i < |more| ==> !IsSystem(more[i])
    ensures SystemText(msgs + more) == SystemText(msgs)
    decreases |more|
  {
    if more == [] {
      assert msgs + more == msgs;
    } else {
      var n := |more| - 1;
      SystemSame(msgs, more[..n]);
      assert (msgs + more)[..|msgs| + n] == msgs + more[..n];
    }
  }

  lemma PromptGrows(msgs: seq<Msg>, more: seq<Msg>, tools: string, think: bool, prefix: string)
    requires !think || Context(msgs, tools) || !Answered(msgs)
    requires Talk(more)
    ensures Head(msgs, tools, prefix) + BodyOf(msgs, tools, think).text
         <= RenderPrompt(msgs + more, tools, think, prefix)
  {
    hide BodyOf, SystemText;
    SystemSame(msgs, more);
    PrefixStable(msgs, more, tools, think);
    Longer(Head(msgs, tools, prefix), BodyOf(msgs, tools, think).text, BodyOf(msgs + more, tools, think).text);
  }

  /** The prompt up to the end of the messages is a prefix of every later prompt, as
      long as no system message is added, in exactly the same cases. */
  lemma PromptExactly(msgs: seq<Msg>, tools: string, think: bool, prefix: string)
    ensures (forall more :: Talk(more) ==>
              Head(msgs, tools, prefix) + BodyOf(msgs, tools, think).text
              <= RenderPrompt(msgs + more, tools, think, prefix))
       <==> !think || Context(msgs, tools) || !Answered(msgs)
  {
    hide BodyOf, Answered, LastUser, Context, AnswersAt, Head;
    if !think || Context(msgs, tools) || !Answered(msgs) {
      forall more | Talk(more)
        ensures Head(msgs, tools, prefix) + BodyOf(msgs, tools, think).text
             <= RenderPrompt(msgs + more, tools, think, prefix)
      {
        PromptGrows(msgs, more, tools, think, prefix);
      }
    } else {
      var m := Msg(if FirstAnswer(msgs) > LastUser(msgs) then "user" else "tool", "", "", [], "");
      var b := BodyOf(msgs + [m], tools, think);
      var tail := if b.due then ASSISTANT + "<think>" else "";
      PrefixBroken(msgs, m, tools, tail);
      assert Talk([m]);
      HeadSame(msgs, [m], tools, prefix);
      Joined(Head(msgs, tools, prefix), b.text, tail);
      NotLonger(Head(msgs, tools, prefix), BodyOf(msgs, tools, think).text, b.text + tail);
    }
  }

  lemma HeadSame(msgs: seq<Msg>, more: seq<Msg>, tools: string, prefix: string)
    requires Talk(more)
    ensures Head(msgs + more, tools, prefix) == Head(msgs, tools, prefix)
  {
    SystemSame(msgs, more);
  }

  lemma NotLonger(a: string, b: string, c: string)
    requires !(b <= c)
    ensures !(a + b <= a + c)
  {
    if |b| <= |c| {
      var i :| 0 <= i < |b| && b[i] != c[i];
      assert (a + b)[|a| + i] == b[i] && (a + c)[|a| + i] == c[i];
    }
  }

  lemma Longer(a: string, b: string, c: string)
    requires b <= c
    ensures a + b <= a + c
  {
  }

  lemma FirstAnswered(u: Msg, a: Msg)
    requires IsUserLike(u) && !IsAssistant(u) && IsAssistant(a)
    ensures !Answered([u]) && AnswersAt([u, a], 1)
  {
    assert [u][..0] == [] && !Answered([]) && !AnswersAt([u], 0);
    assert [u, a][..1] == [u] && Asks([u]);
  }

  /** Without tools the reasoning of an answer is hidden once the user goes on: then
      the longer prompt need not extend the shorter one. */
  lemma ReasoningHidden()
    ensures var u, a := Msg("user", "q", "", [], ""), Msg("assistant", "x", "r", [], "");
            !(BodyOf([u, a], "", true).text <= BodyOf([u, a, u], "", true).text)
  {
    hide BodyOf;
    var u, a := Msg("user", "q", "", [], ""), Msg("assistant", "x", "r", [], "");
    assert [u, a][..1] == [u] && [u][..0] == [] && Asks([u]);
    assert LastUser([u]) == 0 && LastUser([u, a]) == 0;
    FirstAnswered(u, a);
    PrefixBroken([u, a], u, "", "");
    assert [u, a] + [u] == [u, a, u];
    var q := BodyOf([u, a, u], "", true).text;
    assert q + "" == q;
  }

  /** An answered question, and then an answer that calls a tool for the first time: the reasoning
      of the first answer, hidden so far, comes back. */
  lemma ReasoningBack()
    ensures var u, a := Msg("user", "q", "", [], ""), Msg("assistant", "x", "r", [], "");
            var b := Msg("assistant", "", "", [Call("f", [])], "");
            RenderPrompt([u, a, u], "", true, "") + Suffix(b, true) != RenderPrompt([u, a, u, b], "", true, "")
  {
    hide RenderPrompt, Suffix;
    var u, a := Msg("user", "q", "", [], ""), Msg("assistant", "x", "r", [], "");
    var b, msgs := Msg("assistant", "", "", [Call("f", [])], ""), [u, a, u];
    assert msgs[..2] == [u, a] && msgs[..1] == [u] && msgs[..0] == [];
    assert Asks(msgs) && AnswersAt(msgs, 1) && Answered(msgs);
    assert msgs + [b] == [u, a, u, b] && [u, a, u, b][3] == b;
    assert !Context(msgs, "") && Context(msgs + [b], "");
    AppendStable(msgs, b, "", true, "");
  }

  /** Two texts with a common start and different tags behind it. */
  lemma Shared(s: string, o: string, x: string, xs: string, y: string, ys: string)
    requires |x| > 1 && |y| > 1 && x[1] != y[1]
    ensures !(s + o + x + xs <= s + o + y + ys)
  {
    var p, q, n := s + o + x + xs, s + o + y + ys, |s + o|;
    assert p[n + 1] == x[1] && q[n + 1] == y[1];
  }

  // ----- the loops -----

  method Write(msgs: seq<Msg>, tools: string, think: bool, prefix: string) returns (out: string)
    ensures out == RenderPrompt(msgs, tools, think, prefix)
  {
    hide Step, CallsText;
    var context, last, system := tools != "", -1, "";
    for i := 0 to |msgs|
      invariant system == SystemText(msgs[..i])
    {
      assert msgs[..i + 1][..i] == msgs[..i];
      if IsSystem(msgs[i]) {
        if system != "" { system := system + "\n\n"; }
        system := system + msgs[i].content;
      }
    }
    for i := 0 to |msgs|
      invariant last == LastUser(msgs[..i])
      invariant context <==> Context(msgs[..i], tools)
    {
      assert msgs[..i + 1][..i] == msgs[..i];
      ContextMore(msgs, i, tools);
      if IsUserLike(msgs[i]) { last := i; }
      if (IsAssistant(msgs[i]) && msgs[i].calls != []) || IsTool(msgs[i]) { context := true; }
    }
    assert msgs[..|msgs|] == msgs;
    if tools != "" {
      if system != "" { system := system + "\n\n"; }
      system := system + tools;
    }
    var b := Body("", false, false);
    for i := 0 to |msgs|
      invariant b == Messages(msgs[..i], think, context, last)
    {
      assert msgs[..i + 1][..i] == msgs[..i];
      b := Step(b, msgs[i], think, context || i > last);
    }
    out := BEGIN + prefix + system + b.text;
    if b.due { out := out + (ASSISTANT + if think then "<think>" else "</think>"); }
    HeadWith(msgs, tools, prefix, system);
  }

  lemma HeadWith(msgs: seq<Msg>, tools: string, prefix: string, system: string)
    requires system == if tools == "" then SystemText(msgs)
        else (if SystemText(msgs) != "" then SystemText(msgs) + "\n\n" else SystemText(msgs)) + tools
    ensures Head(msgs, tools, prefix) == BEGIN + prefix + system
  {
    var s := SystemText(msgs);
    if tools != "" { assert s + (if s == "" then "" else "\n\n") + tools == system; }
  }

  lemma ContextMore(msgs: seq<Msg>, i: nat, tools: string)
    requires i < |msgs|
    ensures Context(msgs[..i + 1], tools)
       <==> Context(msgs[..i], tools) || (IsAssistant(msgs[i]) && msgs[i].calls != []) || IsTool(msgs[i])
  {
    assert msgs[..i + 1][i] == msgs[i];
    assert forall k :: 0 <= k < i ==> msgs[..i + 1][k] == msgs[..i][k];
  }
}
