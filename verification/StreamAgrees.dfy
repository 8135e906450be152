/** The stream and the parser tell the same of a reply. */
module StreamAgrees {
  import opened Common
  import opened StreamText
  import opened StreamTool
  import opened StreamOpenAi
  import opened JsonArgs
  import opened JsonTight
  import opened DsmlText
  import opened DsmlCalls
  import opened DsmlBack
  import opened DsmlRound
  import opened DsmlReason
  import opened StreamSent

  /** A client of the stream has what the parser makes of the whole text: the reasoning, the content,
      the names of the calls, and arguments that are read as the same members. */
  ghost predicate Agrees(o: Out, m: Message) {
    && m.Message?
    && o.reasoning == (match m.reasoning case None => "" case Some(r) => r) && o.content == m.content
    && |Headers(o.calls)| == |m.calls|
    && (forall i :: 0 <= i < |m.calls| ==> Headers(o.calls)[i] == Header(i, m.calls[i].name))
    && (forall i: nat :: i < |m.calls| ==>
          ParseArgs(m.calls[i].arguments).Some? && ParseArgs(Joined(o.calls, i)) == ParseArgs(m.calls[i].arguments))
  }

  lemma {:induction false} SameCalls(cs: seq<Invoke>)
    requires ArgsJson(Meant(cs))
    ensures |Meant(cs)| == |TakenAll(cs)| == |KeptCalls(Meant(cs))| == |cs|
    ensures forall i :: 0 <= i < |cs| ==>
      && KeptCalls(Meant(cs))[i].name == TakenAll(cs)[i].name
      && ParseArgs(TakenAll(cs)[i].arguments) == Some(KeptCalls(Meant(cs))[i].args)
  {
    hide AllJson, AllKept, ParseArgs, ReadParams, ObjectText;
    if cs != [] {
      assert Meant(cs)[0].args == ReadParams(cs[0].params) && Meant(cs)[1..] == Meant(cs[1..]);
      ObjectTextRead(ReadParams(cs[0].params));
      SameCalls(cs[1..]);
    }
  }

  lemma AgreeOn(o: Out, m: Message, cs: seq<Invoke>)
    requires ArgsJson(Meant(cs)) && Received(o.calls, KeptCalls(Meant(cs)))
    requires m.Message? && m.calls == TakenAll(cs) && o.content == m.content
    requires o.reasoning == match m.reasoning case None => "" case Some(r) => r
    ensures Agrees(o, m)
  {
    hide ArgsJson, KeptCalls, TakenAll, Meant, ParseArgs, Headers, Joined, HeadersFirst;
    SameCalls(cs);
  }

  lemma GapFree(c: string, gap: string)
    requires NoCalls(c) && (gap == "" || gap == "\n\n")
    ensures NoCalls(c + gap) && Trimmed(c + gap) == Trimmed(c)
  {
    hide NoCalls, Trimmed;
    LinesFree(c);
    assert c + "" == c;
  }

  lemma Associate(a: string, c: string, gap: string, b: string)
    ensures a + c + gap + b == a + ((c + gap) + b)
  {
  }

  /** A reply with reasoning and with calls in any spelling. */
  lemma ThoughtfulAgrees(tagged: bool, r: string, c: string, gap: string, lits: Lits, cs: seq<Invoke>, rest: string)
    requires Nowhere(r, CLOSE) && (tagged || !StartsWith(r, OPEN)) && NoCalls(r) && NoCalls(c)
    requires KnownLits(lits) && AllClosed(lits, cs) && ArgsJson(Meant(cs))
    requires var text := Thought(tagged, r) + c + (Block(lits, cs) + rest);
      gap == "\n\n" || (gap == "" && Nowhere(text, "\n\n" + lits.callsStart))
    requires Unspelled(Thought(tagged, r) + c + gap + (Block(lits, cs) + rest), lits)
    ensures var text := Thought(tagged, r) + c + gap + (Block(lits, cs) + rest);
      Agrees(Sent(Start(true), text, true), Parse(text))
  {
    hide *;
    var text := Thought(tagged, r) + c + gap + (Block(lits, cs) + rest);
    FreeOf(r, lits);
    FreeOf(c, lits);
    SpelledBack(tagged, r, c, gap, lits, cs, rest);
    GapFree(c, gap);
    ThoughtfulSpelledReceived(tagged, r, c + gap, lits, cs, rest);
    Associate(Thought(tagged, r), c, gap, Block(lits, cs) + rest);
    StartFits(true, text);
    AgreeOn(Sent(Start(true), text, true), Parse(text), cs);
  }

  lemma FreeOf(c: string, lits: Lits)
    requires NoCalls(c) && KnownLits(lits)
    ensures Nowhere(c, lits.callsStart)
  {
    hide Spelled, Nowhere;
  }

  /** A reply without reasoning, from a model that does not think. */
  lemma ContentAgrees(c: string, gap: string, lits: Lits, cs: seq<Invoke>, rest: string)
    requires Nowhere(c, CLOSE) && NoCalls(c) && KnownLits(lits) && AllClosed(lits, cs) && ArgsJson(Meant(cs))
    requires gap == "\n\n" || (gap == "" && Nowhere(c + (Block(lits, cs) + rest), "\n\n" + lits.callsStart))
    requires Unspelled(c + gap + (Block(lits, cs) + rest), lits)
    ensures var text := c + gap + (Block(lits, cs) + rest);
      Agrees(Sent(Start(false), text, true), Parse(text))
  {
    hide *;
    var text := c + gap + (Block(lits, cs) + rest);
    FreeOf(c, lits);
    SpelledContent(c, gap, lits, cs, rest);
    GapFree(c, gap);
    SpelledReceived(c + gap, lits, cs, rest);
    StartFits(false, text);
    AgreeOn(Sent(Start(false), text, true), Parse(text), cs);
  }

  lemma StartFits(think: bool, text: string)
    ensures Fits(Start(think), text)
  {
  }

  // ----- replies without calls -----

  /** A text with a closing tag as reasoning and content. */
  lemma ThoughtIn(text: string) returns (tagged: bool, r: string, c: string)
    requires !Nowhere(text, CLOSE)
    ensures Nowhere(r, CLOSE) && (tagged || !StartsWith(r, OPEN)) && text == Thought(tagged, r) + c
  {
    hide MatchAt;
    tagged := StartsWith(text, OPEN);
    var body := if tagged then text[7..] else text;
    if tagged { CloseBehind(text); }
    var e := Find(body, 0, CLOSE);
    FindSome(body);
    r, c := body[..e], body[e + 8..];
    forall k: nat
      ensures !MatchAt(r, k, CLOSE)
    {
      MatchInPrefix(body, e, k, CLOSE);
    }
    CutAt(body, e);
    ThoughtText(text, tagged, r, c);
  }

  lemma FindSome(s: string)
    requires !Nowhere(s, CLOSE)
    ensures var e := Find(s, 0, CLOSE); e >= 0 && MatchAt(s, e, CLOSE) && e + 8 <= |s|
    ensures forall k: nat :: k < Find(s, 0, CLOSE) ==> !MatchAt(s, k, CLOSE)
  {
  }

  lemma CutAt(s: string, e: nat)
    requires MatchAt(s, e, CLOSE)
    ensures s == s[..e] + CLOSE + s[e + 8..]
  {
  }

  lemma ThoughtText(text: string, tagged: bool, r: string, c: string)
    requires tagged == StartsWith(text, OPEN) && (if tagged then text[7..] else text) == r + CLOSE + c
    ensures text == Thought(tagged, r) + c && (tagged || !StartsWith(r, OPEN))
  {
    hide StartsWith, Thought;
    ThoughtIs(tagged, r, c);
    if tagged { TagAhead(text); } else { Untagged(text, r, c); }
  }

  lemma ThoughtIs(tagged: bool, r: string, c: string)
    ensures Thought(tagged, r) + c == (if tagged then OPEN else "") + (r + CLOSE + c)
  {
    Gathered(if tagged then OPEN else "", r, CLOSE, c);
  }

  lemma Untagged(text: string, r: string, c: string)
    requires text == r + CLOSE + c && !StartsWith(text, OPEN)
    ensures text == "" + (r + CLOSE + c) && !StartsWith(r, OPEN)
  {
    hide StartsWith;
    Begun(r, CLOSE);
    Begun(r + CLOSE, c);
  }

  lemma Gathered(a: string, b: string, c: string, d: string)
    ensures a + (b + c + d) == a + b + c + d
  {
  }

  lemma TagAhead(text: string)
    requires StartsWith(text, OPEN)
    ensures |text| >= 7 && text == OPEN + text[7..]
  {
  }

  lemma Begun(a: string, b: string)
    ensures StartsWith(a, OPEN) ==> StartsWith(a + b, OPEN)
  {
    assert |a| >= 7 ==> (a + b)[..7] == a[..7];
  }

  /** The closing tag is not in the opening one. */
  lemma CloseBehind(text: string)
    requires StartsWith(text, OPEN) && !Nowhere(text, CLOSE)
    ensures !Nowhere(text[7..], CLOSE)
  {
    var k: nat :| MatchAt(text, k, CLOSE);
    MatchChars(text, k, CLOSE);
    assert forall i :: 0 <= i < 7 ==> text[i] == text[..7][i] == OPEN[i];
    assert text[k] == '<' && text[k + 1] == '/';
    assert k >= 7;
    assert text[..7] + text[7..] == text;
    MatchBehind(text[..7], text[7..], k, CLOSE);
  }

  lemma PartsFree(tagged: bool, r: string, c: string)
    requires NoCalls(Thought(tagged, r) + c)
    ensures NoCalls(r) && NoCalls(c)
  {
    hide Spelled, MatchAt;
    var a, b := if tagged then OPEN else "", CLOSE + c;
    assert Thought(tagged, r) + c == a + (r + b) == Thought(tagged, r) + c;
    forall k: nat, lits | KnownLits(lits)
      ensures !MatchAt(r, k, lits.callsStart) && !MatchAt(c, k, lits.callsStart)
    {
      MatchBehind(Thought(tagged, r), c, |Thought(tagged, r)| + k, lits.callsStart);
      MatchBehind(a, r + b, |a| + k, lits.callsStart);
      InFront(r, b, k, lits.callsStart);
    }
  }

  lemma InFront(a: string, b: string, k: nat, lit: string)
    ensures MatchAt(a, k, lit) ==> MatchAt(a + b, k, lit)
  {
    if MatchAt(a, k, lit) { assert (a + b)[k..k + |lit|] == a[k..k + |lit|]; }
  }

  /** Without calls, a stream and the parser tell the same exactly when the text is empty, or
      holds a closing tag of reasoning just when the model thinks. */
  lemma PlainExactly(think: bool, text: string, hasTools: bool)
    requires NoCalls(text)
    ensures Fits(Start(think), text)
    ensures Agrees(Sent(Start(think), text, hasTools), Parse(text)) <==>
      text == "" || (think <==> !Nowhere(text, CLOSE))
  {
    hide *;
    StartFits(think, text);
    if Nowhere(text, CLOSE) {
      ContentBack(text);
      if think {
        var tagged := StartsWith(text, OPEN);
        var r := Unopened(text);
        EndlessThoughtReceived(tagged, r, hasTools);
        NothingElse(Out(r, "", []), text, None);
        if text == "" {
          assert r == "";
          NoneAgree("", "", None);
        }
      } else {
        ContentReceived(text, hasTools);
        NoneAgree("", text, None);
      }
    } else {
      var tagged, r, c := ThoughtIn(text);
      PartsFree(tagged, r, c);
      ThoughtBack(tagged, r, c);
      if think {
        ThoughtReceived(tagged, r, c, hasTools);
        NoneAgree(r, c, Some(r));
      } else {
        ContentReceived(text, hasTools);
        Shorter(tagged, r, c);
        NothingElse(Out("", text, []), c, Some(r));
      }
    }
  }

  lemma Shorter(tagged: bool, r: string, c: string)
    ensures |Thought(tagged, r) + c| > |c|
  {
  }

  /** The text behind the opening tag, if there is one. */
  lemma Unopened(text: string) returns (r: string)
    requires Nowhere(text, CLOSE)
    ensures var tagged := StartsWith(text, OPEN);
      Nowhere(r, CLOSE) && (tagged || !StartsWith(r, OPEN)) && text == (if tagged then OPEN else "") + r
  {
    if StartsWith(text, OPEN) {
      r := text[7..];
      assert text == OPEN + r;
      forall k: nat
        ensures !MatchAt(r, k, CLOSE)
      {
        MatchBehind(OPEN, r, 7 + k, CLOSE);
      }
    } else {
      r := text;
      assert text == "" + r;
    }
  }

  /** They agree only on the same content. */
  lemma NothingElse(o: Out, content: string, reasoning: Option<string>)
    ensures Agrees(o, Message(content, reasoning, [], "")) ==> o.content == content
  {
  }

  lemma NoneAgree(r: string, c: string, reasoning: Option<string>)
    requires r == match reasoning case None => "" case Some(x) => x
    ensures Agrees(Out(r, c, []), Message(c, reasoning, [], ""))
  {
  }

  /** A reply that thinks and is cut off before the closing tag: reasoning for the client of the
      stream, content for the parser. */
  lemma CutThoughtDiffers()
    ensures Sent(Start(true), "x", true) == Out("x", "", []) && Parse("x") == Message("x", None, [], "")
  {
    hide *;
    StartTags(LONG.callsStart);
    StartTags(SHORT.callsStart);
    StartTags(PLAIN.callsStart);
    ShortFree("x");
    EndlessThoughtReceived(false, "x", true);
    assert "" + "x" == "x";
    ContentBack("x");
  }

  lemma ShortFree(s: string)
    requires |s| == 1 && s[0] != '<'
    requires |LONG.callsStart| > 2 && |SHORT.callsStart| > 2 && |PLAIN.callsStart| > 2
    ensures NoCalls(s) && Nowhere(s, CLOSE) && !StartsWith(s, OPEN)
  {
  }
}
