/** A prompt gives its conversation back: a reader that cuts the text at the markers finds every
    message again. */
module PromptBack {
  import opened Common
  import opened StreamText
  import opened StreamTool
  import opened DsmlText
  import opened DsmlCalls
  import opened DsmlBack
  import opened DsmlRound
  import opened Prompt

  // ----- cutting a text at the markers -----

  datatype Mark = User | Assistant | End | Think | ThinkEnd | Result | ResultEnd

  function Spell(m: Mark): string {
    match m
    case User => USER
    case Assistant => ASSISTANT
    case End => END
    case Think => "<think>"
    case ThinkEnd => "</think>"
    case Result => "<tool_result>"
    case ResultEnd => "</tool_result>"
  }

  /** The marker that a text starts with. */
  function MarkHere(s: string): Option<Mark> {
    if StartsWith(s, Spell(User)) then Some(User)
    else if StartsWith(s, Spell(Assistant)) then Some(Assistant)
    else if StartsWith(s, Spell(End)) then Some(End)
    else if StartsWith(s, Spell(Think)) then Some(Think)
    else if StartsWith(s, Spell(ThinkEnd)) then Some(ThinkEnd)
    else if StartsWith(s, Spell(Result)) then Some(Result)
    else if StartsWith(s, Spell(ResultEnd)) then Some(ResultEnd)
    else None
  }

  // A marker and the text behind it, up to the next one.
  datatype Piece = Piece(mark: Mark, text: string)

  // The text before the first marker, and the rest.
  datatype Cut = Cut(head: string, pieces: seq<Piece>)

  function CutAll(s: string): Cut
    decreases |s|
  {
    if s == "" then Cut("", [])
    else
      match MarkHere(s)
      case Some(m) =>
        SpellLong(m);
        var r := CutAll(s[|Spell(m)|..]);
        Cut("", [Piece(m, r.head)] + r.pieces)
      case None =>
        var r := CutAll(s[1..]);
        Cut([s[0]] + r.head, r.pieces)
  }

  /** The fifth character tells the special tokens apart, the second and third or the third and fourth
      the other markers. */
  lemma SpellChars(m: Mark)
    ensures var w := Spell(m);
      && |w| > 4 && w[0] == '<'
      && match m
         case User => w[1] == '\U{EF}' && w[4] == 'U'
         case Assistant => w[1] == '\U{EF}' && w[4] == 'A'
         case End => w[1] == '\U{EF}' && w[4] == 'e'
         case Think => w[1] == 't' && w[2] == 'h'
         case ThinkEnd => w[1] == '/' && w[3] == 'h'
         case Result => w[1] == 't' && w[2] == 'o'
         case ResultEnd => w[1] == '/' && w[3] == 'o'
  {
    Barred("User" + BAR + ">");
    Barred("Assistant" + BAR + ">");
    Barred("end" + GAP + "of" + GAP + "sentence" + BAR + ">");
    assert USER == "<" + BAR + ("User" + BAR + ">");
    assert ASSISTANT == "<" + BAR + ("Assistant" + BAR + ">");
    assert END == "<" + BAR + ("end" + GAP + "of" + GAP + "sentence" + BAR + ">");
  }

  lemma Barred(name: string)
    requires name != ""
    ensures var w := "<" + BAR + name; |w| > 4 && w[0] == '<' && w[1] == '\U{EF}' && w[4] == name[0]
  {
  }

  /** Markers start with a bracket and have no other. */
  lemma SpellLong(m: Mark)
    ensures |Spell(m)| > 4 && Spell(m)[0] == '<' && forall k :: 0 < k < |Spell(m)| ==> Spell(m)[k] != '<'
  {
    match m {
      case User => NoOther("User" + BAR + ">");
      case Assistant => NoOther("Assistant" + BAR + ">");
      case End => NoOther("end" + GAP + "of" + GAP + "sentence" + BAR + ">");
      case _ =>
    }
    assert USER == "<" + (BAR + ("User" + BAR + ">"));
    assert ASSISTANT == "<" + (BAR + ("Assistant" + BAR + ">"));
    assert END == "<" + (BAR + ("end" + GAP + "of" + GAP + "sentence" + BAR + ">"));
  }

  lemma NoOther(name: string)
    requires |name| > 1 && forall k :: 0 <= k < |name| ==> name[k] != '<'
    ensures var w := "<" + (BAR + name); |w| > 4 && w[0] == '<' && forall k :: 0 < k < |w| ==> w[k] != '<'
  {
    var w := "<" + (BAR + name);
    assert forall k :: 0 < k < 4 ==> w[k] == BAR[k - 1];
    assert forall k :: 4 <= k < |w| ==> w[k] == name[k - 4];
  }

  /** No text starts with two markers. */
  lemma OneMark(s: string, m: Mark, n: Mark)
    requires StartsWith(s, Spell(m)) && StartsWith(s, Spell(n))
    ensures m == n
  {
    hide Spell;
    SpellChars(m);
    SpellChars(n);
    var v, w := Spell(m), Spell(n);
    assert forall k :: 0 <= k < 5 ==> s[k] == s[..|v|][k] == v[k];
    assert forall k :: 0 <= k < 5 ==> s[k] == s[..|w|][k] == w[k];
  }

  lemma MarkHereIs(s: string, m: Mark)
    requires StartsWith(s, Spell(m))
    ensures MarkHere(s) == Some(m)
  {
    hide Spell, StartsWith;
    forall n: Mark | StartsWith(s, Spell(n))
      ensures n == m
    {
      OneMark(s, m, n);
    }
  }

  lemma NoMarkHere(s: string)
    requires forall m: Mark :: !StartsWith(s, Spell(m))
    ensures MarkHere(s) == None
  {
    hide Spell, StartsWith;
  }

  /** A text without markers. */
  ghost predicate Plain(s: string) {
    forall m: Mark :: Nowhere(s, Spell(m))
  }

  /** What is written for a cut. */
  function Write(ps: seq<Piece>): string {
    if ps == [] then "" else Spell(ps[0].mark) + ps[0].text + Write(ps[1..])
  }

  ghost predicate AllPlain(ps: seq<Piece>) {
    forall i :: 0 <= i < |ps| ==> Plain(ps[i].text)
  }

  /** Plain text in front of a marker, or of nothing. */
  lemma {:induction false} CutPlain(h: string, rest: string)
    requires Plain(h) && (rest == "" || rest[0] == '<')
    ensures CutAll(h + rest) == Cut(h + CutAll(rest).head, CutAll(rest).pieces)
  {
    hide Spell, MarkHere;
    if h == "" {
      assert h + rest == rest;
    } else {
      var s := h + rest;
      forall m: Mark
        ensures !StartsWith(s, Spell(m)) && Nowhere(h[1..], Spell(m))
      {
        SpellLong(m);
        NowhereTail(h, Spell(m));
        NoCross(h, rest, Spell(m), 0);
        StartsMatch(s, Spell(m));
      }
      NoMarkHere(s);
      assert s[1..] == h[1..] + rest && s[0] == h[0];
      CutPlain(h[1..], rest);
      assert [h[0]] + (h[1..] + CutAll(rest).head) == h + CutAll(rest).head;
    }
  }

  lemma CutMark(m: Mark, rest: string)
    ensures CutAll(Spell(m) + rest) == Cut("", [Piece(m, CutAll(rest).head)] + CutAll(rest).pieces)
  {
    hide Spell, MarkHere;
    SpellLong(m);
    var s := Spell(m) + rest;
    MarkHereIs(s, m);
    assert s[|Spell(m)|..] == rest;
  }

  lemma WriteStarts(ps: seq<Piece>)
    ensures Write(ps) == "" || Write(ps)[0] == '<'
  {
    hide Spell;
    if ps != [] { SpellLong(ps[0].mark); }
  }

  /** Cutting finds what was written. */
  lemma {:induction false} CutBack(h: string, ps: seq<Piece>)
    requires Plain(h) && AllPlain(ps)
    ensures CutAll(h + Write(ps)) == Cut(h, ps)
    decreases |ps|
  {
    hide Spell, Plain, CutAll;
    WriteStarts(ps);
    CutPlain(h, Write(ps));
    if ps == [] {
      CutNothing();
      assert h + "" == h;
    } else {
      CutBack(ps[0].text, ps[1..]);
      CutMark(ps[0].mark, ps[0].text + Write(ps[1..]));
      assert Spell(ps[0].mark) + (ps[0].text + Write(ps[1..])) == Write(ps);
      assert [ps[0]] + ps[1..] == ps;
      assert h + "" == h;
    }
  }

  lemma CutNothing()
    ensures CutAll("") == Cut("", [])
  {
  }

  lemma {:induction false} WriteMore(ps: seq<Piece>, p: Piece)
    ensures Write(ps + [p]) == Write(ps) + (Spell(p.mark) + p.text)
  {
    hide Spell;
    if ps == [] {
      assert [p][1..] == [];
    } else {
      assert (ps + [p])[1..] == ps[1..] + [p] && (ps + [p])[0] == ps[0];
      WriteMore(ps[1..], p);
    }
  }

  /** More text behind the last marker. */
  function Extended(ps: seq<Piece>, t: string): seq<Piece>
    requires ps != []
  {
    ps[..|ps| - 1] + [Piece(ps[|ps| - 1].mark, ps[|ps| - 1].text + t)]
  }

  lemma WriteExtended(ps: seq<Piece>, t: string)
    requires ps != []
    ensures Write(Extended(ps, t)) == Write(ps) + t
  {
    hide Spell, Write;
    var n := |ps| - 1;
    WriteMore(ps[..n], ps[n]);
    WriteMore(ps[..n], Piece(ps[n].mark, ps[n].text + t));
    assert ps == ps[..n] + [ps[n]];
  }

  // ----- reading the turns -----

  // One turn of a conversation; an answer has its reasoning where the prompt shows it.
  datatype Turn =
    UserTurn(text: string) | ResultTurn(text: string) | AnswerTurn(reasoning: Option<string>, text: string)

  /** The turn that is complete when the last marker comes. */
  function Complete(ps: seq<Piece>): seq<Turn>
    requires |ps| > 1
  {
    var n := |ps|;
    var p, next := ps[n - 2], ps[n - 1].mark;
    match p.mark
    case User => if next == Result then [] else [UserTurn(p.text)]
    case Result => [ResultTurn(Unescape(p.text))]
    case ThinkEnd =>
      if next != End then []
      else [AnswerTurn(if n > 2 && ps[n - 3].mark == Think then Some(ps[n - 3].text) else None, p.text)]
    case End => if next == End then [AnswerTurn(None, p.text)] else []
    case _ => []
  }

  function Turns(ps: seq<Piece>): seq<Turn> {
    if |ps| < 2 then [] else Turns(ps[..|ps| - 1]) + Complete(ps)
  }

  /** The prompt waits for an answer. */
  predicate Waits(ps: seq<Piece>) {
    ps != [] && (ps[|ps| - 1].mark == Think || ps[|ps| - 1].mark == ThinkEnd)
  }

  // ----- the conversation -----

  /** An answer with its calls. */
  function AnswerText(m: Msg): string {
    m.content + if m.calls == [] then "" else if m.raw != "" then m.raw else Render(m.calls)
  }

  /** The messages of a conversation without those of the system, and the reasoning where it is kept:
      of answers to a question, behind the last one or where there are tools. */
  function Conversation(msgs: seq<Msg>, think: bool, context: bool, last: int): seq<Turn> {
    if msgs == [] then []
    else
      var n, m := |msgs| - 1, msgs[|msgs| - 1];
      var before := Conversation(msgs[..n], think, context, last);
      if IsSystem(m) then before
      else if m.role == "user" then before + [UserTurn(m.content)]
      else if IsTool(m) then before + [ResultTurn(m.content)]
      else if IsAssistant(m) then
        var kept := think && Asks(msgs[..n]) && (context || n > last);
        before + [AnswerTurn(if kept then Some(m.reasoning) else None, AnswerText(m))]
      else before
  }

  /** An answer is never the first. */
  predicate Begins(msgs: seq<Msg>) {
    forall i :: 0 <= i < |msgs| && IsAssistant(msgs[i]) ==> exists j :: 0 <= j < i && IsUserLike(msgs[j])
  }

  ghost predicate PlainMsg(m: Msg) {
    && (m.role == "user" ==> Plain(m.content))
    && (IsAssistant(m) ==> Plain(m.reasoning) && Plain(AnswerText(m)))
  }

  // ----- the pieces a conversation is written in -----

  /** The pieces that one message adds. */
  function StepPieces(ps: seq<Piece>, b: Body, m: Msg, think: bool, show: bool): seq<Piece>
    requires IsAssistant(m) && !IsSystem(m) && !b.due ==> ps != []
  {
    if IsSystem(m) then ps
    else if m.role == "user" then ps + [Piece(User, m.content)]
    else if IsTool(m) then
      ps + (if b.afterTool then [] else [Piece(User, "")]) +
        [Piece(Result, TextEscape(m.content)), Piece(ResultEnd, "")]
    else if IsAssistant(m) then
      if !b.due then Extended(ps, AnswerText(m)) + [Piece(End, "")]
      else
        ps + [Piece(Assistant, "")] + (if think && show then [Piece(Think, m.reasoning)] else [])
        + [Piece(ThinkEnd, AnswerText(m)), Piece(End, "")]
    else ps
  }

  /** The pieces `ps` are written for a body whose turns are `turns`. */
  ghost predicate Says(ps: seq<Piece>, b: Body, turns: seq<Turn>) {
    && Write(ps) == b.text && AllPlain(ps)
    && (ps == [] ==> !b.due && !b.afterTool && turns == [])
    && (ps != [] && !b.due ==> ps[|ps| - 1] == Piece(End, "") && Turns(ps) == turns && !b.afterTool)
    && (b.due && !b.afterTool ==>
          ps[|ps| - 1].mark == User && turns == Turns(ps) + [UserTurn(ps[|ps| - 1].text)])
    && (b.due && b.afterTool ==> ps[|ps| - 1] == Piece(ResultEnd, "") && Turns(ps) == turns)
  }

  lemma TurnsMore(ps: seq<Piece>, p: Piece)
    requires ps != []
    ensures Turns(ps + [p]) == Turns(ps) + Complete(ps + [p])
  {
    assert (ps + [p])[..|ps|] == ps;
  }

  lemma OnePiece(p: Piece)
    ensures Turns([p]) == [] && Turns([]) == []
  {
  }

  /** A piece behind others, written and read. */
  lemma Added(ps: seq<Piece>, p: Piece)
    requires AllPlain(ps) && Plain(p.text)
    ensures AllPlain(ps + [p]) && Write(ps + [p]) == Write(ps) + (Spell(p.mark) + p.text)
    ensures ps != [] ==> Turns(ps + [p]) == Turns(ps) + Complete(ps + [p])
    ensures ps == [] ==> Turns(ps + [p]) == []
    ensures (ps + [p])[|ps|] == p && |ps + [p]| == |ps| + 1
  {
    hide Spell, Write, Plain;
    WriteMore(ps, p);
    if ps != [] { TurnsMore(ps, p); } else { OnePiece(p); assert [] + [p] == [p]; }
  }

  lemma EmptyPlain()
    ensures Plain("")
  {
    hide Spell;
    forall m: Mark
      ensures Nowhere("", Spell(m))
    {
      SpellLong(m);
    }
  }

  // ----- one message -----

  lemma UserSaid(ps: seq<Piece>, b: Body, turns: seq<Turn>, m: Msg)
    requires Says(ps, b, turns) && m.role == "user" && Plain(m.content)
    ensures Says(ps + [Piece(User, m.content)], Step(b, m, true, true), turns + [UserTurn(m.content)])
    ensures forall think, show :: Step(b, m, think, show) == Step(b, m, true, true)
  {
    hide Spell, Write, Plain, Turns;
    Added(ps, Piece(User, m.content));
    assert b.text + USER + m.content == b.text + (USER + m.content);
    assert Spell(User) == USER by { SpellUser(); }
  }

  lemma SpellUser()
    ensures Spell(User) == USER && Spell(Assistant) == ASSISTANT && Spell(End) == END
    ensures Spell(Think) == "<think>" && Spell(ThinkEnd) == "</think>"
    ensures Spell(Result) == "<tool_result>" && Spell(ResultEnd) == "</tool_result>"
  {
  }

  // ----- tool results -----

  function TextChar(c: char): string {
    if c == '&' then "&amp;" else if c == '<' then "&lt;" else if c == '>' then "&gt;" else [c]
  }

  lemma TextToken(c: char, rest: string)
    ensures Token(TextChar(c) + rest) == (|TextChar(c)|, c)
  {
    if c == '"' {
      var s := [c] + rest;
      assert |s| >= 4 ==> s[0..4][0] == s[0];
      assert |s| >= 5 ==> s[0..5][0] == s[0];
      assert |s| >= 6 ==> s[0..6][0] == s[0];
    } else {
      TokenOf(c, rest);
    }
  }

  /** A tool's result is decoded to what it was, whatever it holds. */
  lemma {:induction false} ResultBack(s: string)
    ensures Unescape(TextEscape(s)) == s
  {
    if s != "" {
      hide Token;
      ResultBack(s[1..]);
      var e := TextChar(s[0]);
      TextToken(s[0], TextEscape(s[1..]));
      assert TextEscape(s)[|e|..] == TextEscape(s[1..]);
      assert [s[0]] + s[1..] == s;
    }
  }

  lemma {:induction false} NoBracket(s: string)
    ensures forall k :: 0 <= k < |TextEscape(s)| ==> TextEscape(s)[k] != '<'
  {
    if s != "" {
      NoBracket(s[1..]);
      var e := TextChar(s[0]);
      assert TextEscape(s) == e + TextEscape(s[1..]);
    }
  }

  lemma ResultPlain(s: string)
    ensures Plain(TextEscape(s))
  {
    hide Spell, TextEscape;
    NoBracket(s);
    forall m: Mark
      ensures Nowhere(TextEscape(s), Spell(m))
    {
      SpellLong(m);
      NoneWithout(TextEscape(s), Spell(m));
    }
  }

  lemma NoneWithout(s: string, lit: string)
    requires lit != "" && forall k :: 0 <= k < |s| ==> s[k] != lit[0]
    ensures Nowhere(s, lit)
  {
    forall i: nat
      ensures !MatchAt(s, i, lit)
    {
      assert i + |lit| <= |s| ==> s[i..i + |lit|][0] == s[i];
    }
  }

  lemma ToolSaid(ps: seq<Piece>, b: Body, turns: seq<Turn>, m: Msg)
    requires Says(ps, b, turns) && IsTool(m)
    ensures Says(StepPieces(ps, b, m, true, true), Step(b, m, true, true), turns + [ResultTurn(m.content)])
    ensures forall think, show :: Step(b, m, think, show) == Step(b, m, true, true)
    ensures forall think, show :: StepPieces(ps, b, m, think, show) == StepPieces(ps, b, m, true, true)
  {
    hide *;
    var e := TextEscape(m.content);
    ResultPlain(m.content);
    ResultBack(m.content);
    var ps1 := Opened(ps, b, turns, e);
    var ps3 := Closed(ps1, e);
    ResultText(b.text, if b.afterTool then "" else USER, e);
    ToolSays(ps, b, turns, m, ps1, ps3);
  }

  /** A tool's result begins, behind another one or as a new turn. */
  lemma Opened(ps: seq<Piece>, b: Body, turns: seq<Turn>, e: string) returns (ps1: seq<Piece>)
    requires Says(ps, b, turns)
    ensures ps1 == (if b.afterTool then ps else ps + [Piece(User, "")]) && ps1 != [] && AllPlain(ps1)
    ensures Write(ps1) == b.text + if b.afterTool then "" else USER
    ensures Turns(ps1) + Complete(ps1 + [Piece(Result, e)]) == turns
  {
    hide Spell, Write, Plain, Turns;
    EmptyPlain();
    SpellUser();
    ps1 := ps;
    if !b.afterTool {
      ps1 := ps + [Piece(User, "")];
      Added(ps, Piece(User, ""));
      assert USER + "" == USER;
    } else {
      assert b.text + "" == b.text;
    }
    ResultTurns(ps, b, turns, ps1, e);
  }

  lemma Closed(ps1: seq<Piece>, e: string) returns (ps3: seq<Piece>)
    requires ps1 != [] && AllPlain(ps1) && Plain(e)
    ensures ps3 == ps1 + [Piece(Result, e), Piece(ResultEnd, "")] && AllPlain(ps3)
    ensures Write(ps3) == (Write(ps1) + ("<tool_result>" + e)) + ("</tool_result>" + "")
    ensures Turns(ps3) == Turns(ps1) + Complete(ps1 + [Piece(Result, e)]) + [ResultTurn(Unescape(e))]
  {
    hide Spell, Write, Plain, Turns, Unescape;
    EmptyPlain();
    SpellUser();
    var ps2 := ps1 + [Piece(Result, e)];
    Added(ps1, Piece(Result, e));
    ps3 := ps2 + [Piece(ResultEnd, "")];
    Added(ps2, Piece(ResultEnd, ""));
    assert ps3 == ps1 + [Piece(Result, e), Piece(ResultEnd, "")];
  }

  lemma ToolSays(ps: seq<Piece>, b: Body, turns: seq<Turn>, m: Msg, ps1: seq<Piece>, ps3: seq<Piece>)
    requires IsTool(m) && ps1 == (if b.afterTool then ps else ps + [Piece(User, "")])
    requires ps3 == ps1 + [Piece(Result, TextEscape(m.content)), Piece(ResultEnd, "")] && AllPlain(ps3)
    requires Write(ps3) ==
        b.text + (if b.afterTool then "" else USER) + "<tool_result>" + TextEscape(m.content) + "</tool_result>"
    requires Turns(ps3) == turns + [ResultTurn(m.content)]
    ensures Says(StepPieces(ps, b, m, true, true), Step(b, m, true, true), turns + [ResultTurn(m.content)])
    ensures forall think, show :: Step(b, m, think, show) == Step(b, m, true, true)
    ensures forall think, show :: StepPieces(ps, b, m, think, show) == StepPieces(ps, b, m, true, true)
  {
    hide Spell, Write, Plain, Turns, TextEscape, Unescape, AllPlain;
    assert StepPieces(ps, b, m, true, true) == ps3;
  }

  lemma ResultText(text: string, start: string, e: string)
    ensures ((text + start) + ("<tool_result>" + e)) + ("</tool_result>" + "")
         == text + start + "<tool_result>" + e + "</tool_result>"
  {
  }

  /** The turns up to a tool's result. */
  lemma ResultTurns(ps: seq<Piece>, b: Body, turns: seq<Turn>, ps1: seq<Piece>, e: string)
    requires Says(ps, b, turns) && ps1 == if b.afterTool then ps else ps + [Piece(User, "")]
    ensures ps1 != [] && Turns(ps1) + Complete(ps1 + [Piece(Result, e)]) == turns
  {
    hide Turns, Unescape, Write, AllPlain;
    if !b.afterTool {
      if ps != [] {
        TurnsMore(ps, Piece(User, ""));
      } else {
        OnePiece(Piece(User, "")); assert ps1 == [Piece(User, "")];
      }
    }
  }

  // ----- answers -----

  lemma AnswerIs(m: Msg)
    ensures m.content + CallsText(m.calls, m.raw) == AnswerText(m)
  {
    hide Render;
  }

  /** An answer that follows another answer. */
  lemma MoreSaid(ps: seq<Piece>, b: Body, turns: seq<Turn>, m: Msg, think: bool, show: bool)
    requires Says(ps, b, turns) && IsAssistant(m) && !b.due && ps != [] && Plain(AnswerText(m))
    ensures Says(StepPieces(ps, b, m, think, show), Step(b, m, think, show), turns + [AnswerTurn(None, AnswerText(m))])
  {
    hide Spell, Write, Plain, Turns, AnswerText, CallsText;
    var t := AnswerText(m);
    AnswerIs(m);
    var ps1 := Extended(ps, t);
    WriteExtended(ps, t);
    EmptyPlain();
    SpellUser();
    assert "" + t == t;
    LastTurns(ps, ps1);
    Added(ps1, Piece(End, ""));
    assert (b.text + "") + m.content + CallsText(m.calls, m.raw) + END == (b.text + t) + (END + "") by {
      Regroup(b.text, "", m.content, CallsText(m.calls, m.raw), END);
    }
  }

  lemma Regroup(a: string, o: string, b: string, c: string, d: string)
    ensures a + o + b + c + d == (a + o + (b + c)) + (d + "")
    ensures a + "" == a
  {
  }

  /** The text behind the last marker makes no turn yet. */
  lemma LastTurns(ps: seq<Piece>, qs: seq<Piece>)
    requires ps != [] && |qs| == |ps| && qs[..|ps| - 1] == ps[..|ps| - 1] && qs[|ps| - 1].mark == ps[|ps| - 1].mark
    ensures Turns(qs) == Turns(ps)
  {
    if |ps| > 1 {
      assert qs[|ps| - 2] == qs[..|ps| - 1][|ps| - 2] == ps[|ps| - 2];
      if |ps| > 2 { assert qs[|ps| - 3] == qs[..|ps| - 1][|ps| - 3] == ps[|ps| - 3]; }
    }
  }

  /** The answer to a question, with or without its reasoning. */
  lemma AnswerSaid(ps: seq<Piece>, b: Body, turns: seq<Turn>, m: Msg, think: bool, show: bool)
    requires Says(ps, b, turns) && IsAssistant(m) && b.due && Plain(AnswerText(m)) && Plain(m.reasoning)
    ensures var kept := if think && show then Some(m.reasoning) else None;
            Says(StepPieces(ps, b, m, think, show), Step(b, m, think, show), turns + [AnswerTurn(kept, AnswerText(m))])
  {
    hide *;
    var t := AnswerText(m);
    var kept := if think && show then Some(m.reasoning) else None;
    AnswerIs(m);
    var ps2 := AnswerOpened(ps, b, turns, kept, t);
    var ps4 := AnswerClosed(ps2, t);
    AnswerTextIs(b.text, kept, m.content, CallsText(m.calls, m.raw));
    AnswerSays(ps, b, turns, m, think, show, ps4);
  }

  /** The opening of an answer completes the turn before it. */
  lemma AnswerOpened(ps: seq<Piece>, b: Body, turns: seq<Turn>, kept: Option<string>, t: string)
    returns (ps2: seq<Piece>)
    requires Says(ps, b, turns) && b.due && (kept.Some? ==> Plain(kept.value))
    ensures ps2 == ps + [Piece(Assistant, "")] + (if kept.Some? then [Piece(Think, kept.value)] else [])
    ensures ps2 != [] && AllPlain(ps2) && Turns(ps2) + Complete(ps2 + [Piece(ThinkEnd, t)]) == turns
    ensures Complete(ps2 + [Piece(ThinkEnd, t)] + [Piece(End, "")]) == [AnswerTurn(kept, t)]
    ensures Write(ps2) == b.text + (ASSISTANT + "") + if kept.Some? then "<think>" + kept.value else ""
  {
    hide Spell, Write, Plain, Turns;
    EmptyPlain();
    SpellUser();
    var ps1 := ps + [Piece(Assistant, "")];
    Added(ps, Piece(Assistant, ""));
    assert Turns(ps1) == turns;
    ps2 := ps1;
    if kept.Some? {
      ps2 := ps1 + [Piece(Think, kept.value)];
      Added(ps1, Piece(Think, kept.value));
    } else {
      assert ps1 + [] == ps1;
      assert b.text + (ASSISTANT + "") + "" == b.text + (ASSISTANT + "");
    }
    ThoughtKept(ps2, kept, t);
  }

  lemma ThoughtKept(ps2: seq<Piece>, kept: Option<string>, t: string)
    requires ps2 != [] && ps2[|ps2| - 1] == if kept.Some? then Piece(Think, kept.value) else Piece(Assistant, "")
    ensures Complete(ps2 + [Piece(ThinkEnd, t)]) == []
    ensures Complete(ps2 + [Piece(ThinkEnd, t)] + [Piece(End, "")]) == [AnswerTurn(kept, t)]
  {
    var n, qs := |ps2|, ps2 + [Piece(ThinkEnd, t)] + [Piece(End, "")];
    assert qs[n - 1] == ps2[n - 1] && qs[n] == Piece(ThinkEnd, t) && qs[n + 1] == Piece(End, "");
  }

  lemma AnswerClosed(ps2: seq<Piece>, t: string) returns (ps4: seq<Piece>)
    requires ps2 != [] && AllPlain(ps2) && Plain(t)
    ensures ps4 == ps2 + [Piece(ThinkEnd, t)] + [Piece(End, "")] && AllPlain(ps4)
    ensures Write(ps4) == Write(ps2) + ("</think>" + t) + (END + "")
    ensures Turns(ps4) == Turns(ps2) + Complete(ps2 + [Piece(ThinkEnd, t)])
                          + Complete(ps2 + [Piece(ThinkEnd, t)] + [Piece(End, "")])
  {
    hide Spell, Write, Plain, Turns, Complete, AllPlain;
    EmptyPlain();
    SpellUser();
    var ps3 := ps2 + [Piece(ThinkEnd, t)];
    Added(ps2, Piece(ThinkEnd, t));
    ps4 := ps3 + [Piece(End, "")];
    Added(ps3, Piece(End, ""));
  }

  lemma AnswerSays(ps: seq<Piece>, b: Body, turns: seq<Turn>, m: Msg, think: bool, show: bool, ps4: seq<Piece>)
    requires IsAssistant(m) && b.due && AllPlain(ps4)
    requires var kept := if think && show then [Piece(Think, m.reasoning)] else [];
             ps4 == ps + [Piece(Assistant, "")] + kept + [Piece(ThinkEnd, AnswerText(m))] + [Piece(End, "")]
    requires var opening := if think && show then ASSISTANT + "<think>" + m.reasoning + "</think>"
        else ASSISTANT + "</think>";
             Write(ps4) == b.text + opening + m.content + CallsText(m.calls, m.raw) + END
    requires Turns(ps4) == turns + [AnswerTurn(if think && show then Some(m.reasoning) else None, AnswerText(m))]
    ensures var kept := if think && show then Some(m.reasoning) else None;
            Says(StepPieces(ps, b, m, think, show), Step(b, m, think, show), turns + [AnswerTurn(kept, AnswerText(m))])
  {
    hide Spell, Write, Plain, Turns, AnswerText, CallsText, AllPlain;
    assert ps4 == StepPieces(ps, b, m, think, show);
    assert ps4[|ps4| - 1] == Piece(End, "");
  }

  lemma AnswerTextIs(text: string, kept: Option<string>, content: string, calls: string)
    ensures match kept
      case None =>
        (text + (ASSISTANT + "") + "") + ("</think>" + (content + calls)) + (END + "")
        == text + (ASSISTANT + "</think>") + content + calls + END
      case Some(r) =>
        (text + (ASSISTANT + "") + ("<think>" + r)) + ("</think>" + (content + calls)) + (END + "")
        == text + (ASSISTANT + "<think>" + r + "</think>") + content + calls + END
  {
  }

  // ----- the whole conversation -----

  ghost predicate PlainMsgs(msgs: seq<Msg>) {
    forall i :: 0 <= i < |msgs| ==> PlainMsg(msgs[i])
  }

  lemma NothingSaid()
    ensures Says([], Body("", false, false), [])
  {
  }

  /** What a message adds to the conversation. */
  lemma ConversationMore(msgs: seq<Msg>, m: Msg, think: bool, context: bool, last: int)
    ensures var before := Conversation(msgs, think, context, last);
      Conversation(msgs + [m], think, context, last) ==
      if IsSystem(m) then before
      else if m.role == "user" then before + [UserTurn(m.content)]
      else if IsTool(m) then before + [ResultTurn(m.content)]
      else if IsAssistant(m) then
        before + [AnswerTurn(if think && Asks(msgs) && (context || |msgs| > last) then Some(m.reasoning)
          else None, AnswerText(m))]
      else before
  {
    hide AnswerText;
    assert (msgs + [m])[..|msgs|] == msgs;
  }

  lemma {:induction false} Said(msgs: seq<Msg>, think: bool, context: bool, last: int) returns (ps: seq<Piece>)
    requires Begins(msgs) && PlainMsgs(msgs)
    ensures Says(ps, Messages(msgs, think, context, last), Conversation(msgs, think, context, last))
    ensures ps == [] ==> forall j :: 0 <= j < |msgs| ==> !IsUserLike(msgs[j])
    decreases |msgs|
  {
    hide Says, Messages, Conversation, Plain, AnswerText, Step, Asks;
    if msgs == [] {
      NothingSaid();
      ps := [];
      NoMessages(think, context, last);
    } else {
      var n := |msgs| - 1;
      var before, m := msgs[..n], msgs[n];
      assert msgs == before + [m];
      FewerBegin(msgs);
      ps := Said(before, think, context, last);
      var b, turns := Messages(before, think, context, last), Conversation(before, think, context, last);
      MessagesAppend(before, m, think, context, last);
      ConversationMore(before, m, think, context, last);
      DueIsAsking(before, think, context, last);
      ps := OneSaid(ps, b, turns, m, think, context || n > last, exists j :: 0 <= j < n && IsUserLike(before[j]));
    }
  }

  lemma NoMessages(think: bool, context: bool, last: int)
    ensures Messages([], think, context, last) == Body("", false, false) && Conversation([], think, context, last) == []
  {
  }

  lemma FewerBegin(msgs: seq<Msg>)
    requires msgs != [] && Begins(msgs) && PlainMsgs(msgs)
    ensures var n := |msgs| - 1;
      && Begins(msgs[..n]) && PlainMsgs(msgs[..n]) && PlainMsg(msgs[n])
      && (IsAssistant(msgs[n]) ==> exists j :: 0 <= j < n && IsUserLike(msgs[..n][j]))
  {
    hide PlainMsg;
    var n := |msgs| - 1;
    assert forall j :: 0 <= j < n ==> msgs[..n][j] == msgs[j];
  }

  /** One message, whoever it is from. */
  lemma OneSaid(ps: seq<Piece>, b: Body, turns: seq<Turn>, m: Msg, think: bool, show: bool, asked: bool)
    returns (ps': seq<Piece>)
    requires Says(ps, b, turns) && PlainMsg(m) && (asked ==> ps != []) && (IsAssistant(m) ==> asked)
    ensures var kept := if think && b.due && show then Some(m.reasoning) else None;
      Says(ps', Step(b, m, think, show),
           if IsSystem(m) then turns
           else if m.role == "user" then turns + [UserTurn(m.content)]
           else if IsTool(m) then turns + [ResultTurn(m.content)]
           else if IsAssistant(m) then turns + [AnswerTurn(kept, AnswerText(m))]
           else turns)
    ensures ps' == [] ==> ps == [] && !IsUserLike(m)
  {
    hide Says, Plain, AnswerText, StepPieces;
    if IsSystem(m) {
      ps' := ps;
    } else if m.role == "user" {
      UserSaid(ps, b, turns, m);
      ps' := ps + [Piece(User, m.content)];
    } else if IsTool(m) {
      ToolSaid(ps, b, turns, m);
      ps' := StepPieces(ps, b, m, true, true);
      SomePieces(ps, b, m, true, true);
    } else if IsAssistant(m) {
      if b.due { AnswerSaid(ps, b, turns, m, think, show); } else { MoreSaid(ps, b, turns, m, think, show); }
      ps' := StepPieces(ps, b, m, think, show);
      SomePieces(ps, b, m, think, show);
    } else {
      ps' := ps;
    }
  }

  lemma SomePieces(ps: seq<Piece>, b: Body, m: Msg, think: bool, show: bool)
    requires !IsSystem(m) && (IsTool(m) || (IsAssistant(m) && ps != []))
    ensures StepPieces(ps, b, m, think, show) != []
  {
  }

  /** The end of a prompt that asks. */
  lemma AskSaid(ps: seq<Piece>, b: Body, turns: seq<Turn>, think: bool) returns (ps': seq<Piece>)
    requires Says(ps, b, turns)
    ensures AllPlain(ps') && Turns(ps') == turns && Waits(ps') == b.due
    ensures Write(ps') == b.text + if b.due then ASSISTANT + (if think then "<think>" else "</think>") else ""
  {
    hide Spell, Write, Plain, Turns;
    if !b.due {
      ps' := ps;
      assert b.text + "" == b.text;
      if ps == [] { OnePiece(Piece(End, "")); }
    } else {
      EmptyPlain();
      SpellUser();
      var ps1, k := ps + [Piece(Assistant, "")], if think then Think else ThinkEnd;
      Added(ps, Piece(Assistant, ""));
      assert Turns(ps1) == turns;
      ps' := ps1 + [Piece(k, "")];
      Added(ps1, Piece(k, ""));
      assert Turns(ps') == turns + [] == turns;
      assert (b.text + (ASSISTANT + "")) + (Spell(k) + "") == b.text + (ASSISTANT + Spell(k));
    }
  }

  /** The prompt of a conversation whose texts hold no markers and that does not begin with an answer:
      cut at the markers, it gives what comes first, every message in order with the reasoning that is
      kept, and whether an answer is asked for. */
  lemma ConversationBack(msgs: seq<Msg>, tools: string, think: bool, prefix: string)
    requires Begins(msgs) && PlainMsgs(msgs) && Plain(Head(msgs, tools, prefix))
    ensures var c := CutAll(RenderPrompt(msgs, tools, think, prefix));
      && c.head == Head(msgs, tools, prefix)
      && Turns(c.pieces) == Conversation(msgs, think, Context(msgs, tools), LastUser(msgs))
      && Waits(c.pieces) == Asks(msgs)
  {
    hide *;
    var context, last := Context(msgs, tools), LastUser(msgs);
    var ps := Said(msgs, think, context, last);
    var b := Messages(msgs, think, context, last);
    DueIsAsking(msgs, think, context, last);
    var ps' := AskSaid(ps, b, Conversation(msgs, think, context, last), think);
    RenderedIs(msgs, tools, think, prefix);
    CutBack(Head(msgs, tools, prefix), ps');
  }

  lemma RenderedIs(msgs: seq<Msg>, tools: string, think: bool, prefix: string)
    ensures var b := Messages(msgs, think, Context(msgs, tools), LastUser(msgs));
      RenderPrompt(msgs, tools, think, prefix)
      == Head(msgs, tools, prefix) + (b.text + if b.due then ASSISTANT + (if think then "<think>" else "</think>")
         else "")
  {
    hide Messages, Head, Context, LastUser;
  }

  // ----- a conversation that begins with an answer -----

  /** Message `i` is the first that is shown, and it is an answer. */
  ghost predicate FirstAnswers(msgs: seq<Msg>, i: nat) {
    && i < |msgs| && IsAssistant(msgs[i])
    && forall j :: 0 <= j < i ==> !IsUserLike(msgs[j]) && !IsAssistant(msgs[j])
  }

  lemma {:induction false} FirstOf(msgs: seq<Msg>) returns (i: nat)
    requires !Begins(msgs)
    ensures FirstAnswers(msgs, i)
  {
    var k :| 0 <= k < |msgs| && IsAssistant(msgs[k]) && forall j :: 0 <= j < k ==> !IsUserLike(msgs[j]);
    i := FirstUpTo(msgs, k);
  }

  lemma {:induction false} FirstUpTo(msgs: seq<Msg>, k: nat) returns (i: nat)
    requires k < |msgs| && IsAssistant(msgs[k]) && forall j :: 0 <= j < k ==> !IsUserLike(msgs[j])
    ensures FirstAnswers(msgs, i)
    decreases k
  {
    if j :| 0 <= j < k && IsAssistant(msgs[j]) { i := FirstUpTo(msgs, j); } else { i := k; }
  }

  /** Text in front stays in front. */
  lemma StepLead(lead: string, b: Body, m: Msg, think: bool, show: bool)
    ensures Step(b.(text := lead + b.text), m, think, show)
         == Step(b, m, think, show).(text := lead + Step(b, m, think, show).text)
  {
    hide CallsText, TextEscape;
    if IsSystem(m) {
    } else if m.role == "user" {
      assert (lead + b.text) + USER + m.content == lead + (b.text + USER + m.content);
    } else if IsTool(m) {
      LeadFour(lead, b.text, if b.afterTool then ""
        else USER, "<tool_result>", TextEscape(m.content), "</tool_result>");
    } else if IsAssistant(m) {
      var opening := if !b.due then ""
                     else if think && show then ASSISTANT + "<think>" + m.reasoning + "</think>"
                     else ASSISTANT + "</think>";
      LeadFour(lead, b.text, opening, m.content, CallsText(m.calls, m.raw), END);
    }
  }

  lemma LeadFour(lead: string, t: string, a: string, b: string, c: string, d: string)
    ensures (lead + t) + a + b + c + d == lead + (t + a + b + c + d)
  {
  }

  lemma {:induction false} HiddenOnly(msgs: seq<Msg>, think: bool, context: bool, last: int)
    requires forall j :: 0 <= j < |msgs| ==> !IsUserLike(msgs[j]) && !IsAssistant(msgs[j])
    ensures Messages(msgs, think, context, last) == Body("", false, false)
    ensures Conversation(msgs, think, context, last) == []
  {
    if msgs != [] { HiddenOnly(msgs[..|msgs| - 1], think, context, last); }
  }

  /** The first answer runs into what stands before it; the rest is read as ever. */
  lemma {:induction false} SaidLate(msgs: seq<Msg>, i: nat, think: bool, context: bool, last: int)
    returns (ps: seq<Piece>, rest: string)
    requires FirstAnswers(msgs, i) && PlainMsgs(msgs)
    ensures var b := Messages(msgs, think, context, last);
      && b.text == AnswerText(msgs[i]) + rest && ps != [] && Conversation(msgs, think, context, last) != []
      && Says(ps, b.(text := rest), Conversation(msgs, think, context, last)[1..])
    decreases |msgs|
  {
    hide Says, Messages, Conversation, Plain, AnswerText, Step, Asks;
    var n := |msgs| - 1;
    var before, m, lead := msgs[..n], msgs[n], AnswerText(msgs[i]);
    assert msgs == before + [m];
    MessagesAppend(before, m, think, context, last);
    ConversationMore(before, m, think, context, last);
    if i == n {
      HiddenOnly(before, think, context, last);
      LoneAnswer(m, think, context || n > last);
      ps, rest := [Piece(End, "")], END;
      assert Conversation(msgs, think, context, last)[1..] == [];
    } else {
      FewerLate(msgs, i);
      var r;
      ps, r := SaidLate(before, i, think, context, last);
      var b, turns := Messages(before, think, context, last), Conversation(before, think, context, last);
      DueIsAsking(before, think, context, last);
      StepLead(lead, b.(text := r), m, think, context || n > last);
      ps := OneSaid(ps, b.(text := r), turns[1..], m, think, context || n > last, true);
      var c := b.(text := r);
      assert c.(text := lead + c.text) == b;
      rest := Step(c, m, think, context || n > last).text;
      assert Messages(msgs, think, context, last).(text := rest) == Step(c, m, think, context || n > last);
      TailOne(turns);
    }
  }

  lemma FewerLate(msgs: seq<Msg>, i: nat)
    requires FirstAnswers(msgs, i) && i < |msgs| - 1 && PlainMsgs(msgs)
    ensures var n := |msgs| - 1;
      FirstAnswers(msgs[..n], i) && PlainMsgs(msgs[..n]) && PlainMsg(msgs[n]) && msgs[..n][i] == msgs[i]
  {
    hide PlainMsg;
  }

  lemma TailOne(turns: seq<Turn>)
    requires turns != []
    ensures forall x: Turn :: (turns + [x])[1..] == turns[1..] + [x]
  {
  }

  lemma LoneAnswer(m: Msg, think: bool, show: bool)
    requires IsAssistant(m)
    ensures Step(Body("", false, false), m, think, show) == Body(AnswerText(m) + END, false, false)
    ensures Says([Piece(End, "")], Body(END, false, false), [])
  {
    hide *;
    LoneStep(m, think, show);
    LoneEnd();
  }

  lemma LoneStep(m: Msg, think: bool, show: bool)
    requires IsAssistant(m)
    ensures Step(Body("", false, false), m, think, show) == Body(AnswerText(m) + END, false, false)
  {
    hide AnswerText, CallsText;
    AnswerIs(m);
    LoneText(m.content, CallsText(m.calls, m.raw));
  }

  lemma LoneText(a: string, b: string)
    ensures "" + "" + a + b + END == (a + b) + END
  {
  }

  lemma LoneEnd()
    ensures Says([Piece(End, "")], Body(END, false, false), [])
  {
    hide Plain, Spell;
    EmptyPlain();
    OnePiece(Piece(End, ""));
    SpellUser();
    assert [Piece(End, "")][1..] == [];
    assert Write([Piece(End, "")]) == END + "" + "" == END;
  }

  // What stands behind the head before the first marker: an answer, if the conversation begins with one.
  ghost function Lead(msgs: seq<Msg>): string {
    if exists i: nat :: FirstAnswers(msgs, i) then
      var i: nat :| FirstAnswers(msgs, i);
      AnswerText(msgs[i])
    else ""
  }

  /** A prompt gives its conversation back exactly when that does not begin with an answer. */
  lemma ConversationExactly(msgs: seq<Msg>, tools: string, think: bool, prefix: string)
    requires PlainMsgs(msgs) && Plain(Head(msgs, tools, prefix)) && Plain(Head(msgs, tools, prefix) + Lead(msgs))
    ensures var c := CutAll(RenderPrompt(msgs, tools, think, prefix));
      Begins(msgs) <==>
        c.head == Head(msgs, tools, prefix) &&
        Turns(c.pieces) == Conversation(msgs, think, Context(msgs, tools), LastUser(msgs))
  {
    hide Plain, PlainMsgs, CutAll, RenderPrompt, Head, Context, LastUser, Turns, Conversation, FirstAnswers, Begins;
    if Begins(msgs) {
      ConversationBack(msgs, tools, think, prefix);
    } else {
      var i := FirstOf(msgs);
      LeadIs(msgs, i);
      LateCut(msgs, i, tools, think, prefix);
    }
  }

  lemma LeadIs(msgs: seq<Msg>, i: nat)
    requires FirstAnswers(msgs, i)
    ensures Lead(msgs) == AnswerText(msgs[i])
  {
    hide AnswerText;
    forall j: nat | FirstAnswers(msgs, j)
      ensures j == i
    {
    }
  }

  lemma LateCut(msgs: seq<Msg>, i: nat, tools: string, think: bool, prefix: string)
    requires i < |msgs| && FirstAnswers(msgs, i) && PlainMsgs(msgs)
    requires Plain(Head(msgs, tools, prefix) + AnswerText(msgs[i]))
    ensures var c, conversation :=
        CutAll(RenderPrompt(msgs, tools, think, prefix)),
          Conversation(msgs, think, Context(msgs, tools), LastUser(msgs));
      && c.head == Head(msgs, tools, prefix) + AnswerText(msgs[i])
      && conversation != [] && Turns(c.pieces) == conversation[1..]
  {
    hide *;
    var context, last := Context(msgs, tools), LastUser(msgs);
    var ps, rest := SaidLate(msgs, i, think, context, last);
    var b := Messages(msgs, think, context, last);
    var conversation := Conversation(msgs, think, context, last);
    var ps' := AskSaid(ps, b.(text := rest), conversation[1..], think);
    RenderedIs(msgs, tools, think, prefix);
    var h, t := Head(msgs, tools, prefix), AnswerText(msgs[i]);
    var ask := if b.due then ASSISTANT + (if think then "<think>" else "</think>") else "";
    assert h + ((t + rest) + ask) == (h + t) + (rest + ask);
    CutBack(h + t, ps');
  }

  /** Two conversations with one prompt: an answer that comes first is not told from a system message. */
  lemma FirstAnswerLost(think: bool, prefix: string)
    ensures var s := Msg("system", "x", "", [], "");
      var a, b := Msg("assistant", "", "", [], ""), Msg("assistant", "x", "", [], "");
      RenderPrompt([s, a], "", think, prefix) == RenderPrompt([b], "", think, prefix)
  {
    hide RenderPrompt, SystemText;
    var s, a, b := Msg("system", "x", "", [], ""), Msg("assistant", "", "", [], ""), Msg("assistant", "x", "", [], "");
    OnlyAnswer([s], a, think, prefix);
    OnlyAnswer([], b, think, prefix);
    assert [s] + [a] == [s, a] && [] + [b] == [b];
    OneSystem(s);
    Shifted(BEGIN + prefix, "x", END);
  }

  lemma Shifted(h: string, x: string, e: string)
    ensures (h + x) + ("" + e) == (h + "") + (x + e)
  {
  }

  lemma OneSystem(s: Msg)
    requires IsSystem(s)
    ensures SystemText([]) == "" && SystemText([s]) == s.content
  {
    assert [s][..0] == [];
    assert "" + "" + s.content == s.content;
  }

  /** System messages and an answer without calls. */
  lemma OnlyAnswer(before: seq<Msg>, a: Msg, think: bool, prefix: string)
    requires forall j :: 0 <= j < |before| ==> !IsUserLike(before[j]) && !IsAssistant(before[j])
    requires IsAssistant(a) && a.calls == []
    ensures RenderPrompt(before + [a], "", think, prefix) == BEGIN + prefix + SystemText(before) + (a.content + END)
  {
    hide Messages, SystemText, Context, LastUser, RenderPrompt, Step, AnswerText, Head, Conversation, IsSystem;
    var all := before + [a];
    var context, last := Context(all, ""), LastUser(all);
    assert forall j :: 0 <= j < |before| ==> all[j] == before[j];
    RenderedIs(all, "", think, prefix);
    MessagesAppend(before, a, think, context, last);
    HiddenOnly(before, think, context, last);
    LoneStep(a, think, context || |before| > last);
    SystemAppend(before, a) by { AnswerNoSystem(a); }
    NoCallsText(a);
    HeadOnly(all, prefix);
    assert (a.content + END) + "" == a.content + END;
  }

  lemma AnswerNoSystem(a: Msg)
    requires IsAssistant(a)
    ensures !IsSystem(a)
  {
  }

  lemma HeadOnly(msgs: seq<Msg>, prefix: string)
    ensures Head(msgs, "", prefix) == BEGIN + prefix + SystemText(msgs)
  {
    hide SystemText;
  }

  lemma NoCallsText(a: Msg)
    requires a.calls == []
    ensures AnswerText(a) == a.content
  {
  }

  // ----- what comes first -----

  const LINES := "\n\n"

  /** A text cut at its empty lines. */
  function Paragraphs(s: string): seq<string>
    decreases |s|
  {
    var i := Find(s, 0, LINES);
    if i < 0 then [s] else [s[..i]] + Paragraphs(s[i + 2..])
  }

  function SystemTexts(msgs: seq<Msg>): seq<string> {
    if msgs == [] then []
    else
      var n, m := |msgs| - 1, msgs[|msgs| - 1];
      SystemTexts(msgs[..n]) + if IsSystem(m) then [m.content] else []
  }

  /** A system message of one paragraph. */
  ghost predicate Paragraph(s: string) {
    s != "" && s[|s| - 1] != '\n' && Nowhere(s, LINES)
  }

  lemma FindLines(x: string, c: string)
    requires x != "" && x[|x| - 1] != '\n'
    ensures var i := Find(x, 0, LINES);
      Find(x + LINES + c, 0, LINES) == if i < 0 then |x| else i
  {
    hide Find, MatchAt;
    var s, n := x + LINES + c, |x|;
    assert s[..n] == x && s[n - 1] == x[n - 1];
    FindInPrefix(s, n, 0, LINES);
    if Find(x, 0, LINES) < 0 {
      MatchPart(x, LINES, c);
      forall k: nat | k < n
        ensures !MatchAt(s, k, LINES)
      {
        FindNone(x, LINES);
        MatchInPrefix(s, n, k, LINES);
        LineAt(s, k);
      }
      FoundAt(s, 0, LINES, n);
    }
  }

  lemma FindNone(x: string, lit: string)
    requires lit != "" && Find(x, 0, lit) < 0
    ensures forall k: nat :: !MatchAt(x, k, lit)
  {
  }

  lemma LineAt(s: string, k: nat)
    ensures MatchAt(s, k, LINES) ==> k + 2 <= |s| && s[k] == '\n' && s[k + 1] == '\n'
  {
    if MatchAt(s, k, LINES) {
      assert s[k..k + 2][0] == s[k] && s[k..k + 2][1] == s[k + 1];
    }
  }

  lemma {:induction false} ParagraphsMore(x: string, c: string)
    requires x != "" && x[|x| - 1] != '\n' && Nowhere(c, LINES)
    ensures Paragraphs(x + LINES + c) == Paragraphs(x) + [c]
    decreases |x|
  {
    hide Find, MatchAt;
    var s, i := x + LINES + c, Find(x, 0, LINES);
    FindLines(x, c);
    if i < 0 {
      assert s[..|x|] == x && s[|x| + 2..] == c;
      NotFound(c, LINES);
      assert Paragraphs(c) == [c];
    } else {
      FindMeans(x);
      LineAt(x, i);
      var rest := x[i + 2..];
      assert s[..i] == x[..i] && s[i + 2..] == rest + LINES + c;
      assert i + 1 != |x| - 1 && rest != "";
      assert rest[|rest| - 1] == x[|x| - 1];
      ParagraphsMore(rest, c);
      assert [x[..i]] + (Paragraphs(rest) + [c]) == ([x[..i]] + Paragraphs(rest)) + [c];
    }
  }

  lemma FindMeans(x: string)
    requires Find(x, 0, LINES) >= 0
    ensures MatchAt(x, Find(x, 0, LINES), LINES)
  {
  }

  /** The system messages, each a paragraph, are read from the head in order. */
  lemma {:induction false} SystemBack(msgs: seq<Msg>)
    requires forall i :: 0 <= i < |msgs| && IsSystem(msgs[i]) ==> Paragraph(msgs[i].content)
    ensures var s, l := SystemText(msgs), SystemTexts(msgs);
      if l == [] then s == "" else s != "" && s[|s| - 1] != '\n' && Paragraphs(s) == l
  {
    hide Paragraphs;
    if msgs != [] {
      var n, m := |msgs| - 1, msgs[|msgs| - 1];
      SystemBack(msgs[..n]);
      var before := SystemText(msgs[..n]);
      if IsSystem(m) {
        var s := SystemText(msgs);
        assert s[|s| - 1] == m.content[|m.content| - 1];
        if before == "" {
          assert before + "" + m.content == m.content;
          OneParagraph(m.content);
        } else {
          ParagraphsMore(before, m.content);
        }
      }
    }
  }

  lemma OneParagraph(s: string)
    requires Nowhere(s, LINES)
    ensures Paragraphs(s) == [s]
  {
    NotFound(s, LINES);
  }

  /** What comes first: the begin token, the thinking prefix, the system messages in order, and the
      description of the tools. */
  lemma HeadBack(msgs: seq<Msg>, tools: string, prefix: string)
    requires forall i :: 0 <= i < |msgs| && IsSystem(msgs[i]) ==> Paragraph(msgs[i].content)
    ensures var l, s := SystemTexts(msgs), Head(msgs, tools, prefix);
      && BEGIN + prefix <= s
      && var rest := s[|BEGIN + prefix|..];
         if l == [] then rest == tools
         else if tools == "" then Paragraphs(rest) == l
         else |LINES + tools| < |rest| && rest[|rest| - |LINES + tools|..] == LINES + tools
              && Paragraphs(rest[..|rest| - |LINES + tools|]) == l
  {
    hide Paragraphs, SystemText, SystemTexts;
    SystemBack(msgs);
    var s := SystemText(msgs);
    var mid := if tools == "" then s else s + (if s == "" then "" else LINES) + tools;
    assert Head(msgs, tools, prefix) == (BEGIN + prefix) + mid;
    assert (BEGIN + prefix + mid)[|BEGIN + prefix|..] == mid;
    if s != "" && tools != "" {
      assert mid == s + (LINES + tools);
      assert mid[..|s|] == s && mid[|s|..] == LINES + tools;
    } else if s == "" {
      assert "" + "" + tools == tools;
    }
  }
}
