/** What a generated message is taken apart into: its reasoning, its content and its calls. */
module DsmlReason {
  import opened Common
  import opened StreamText
  import opened StreamTool
  import opened DsmlText
  import opened DsmlCalls
  import opened DsmlBack
  import opened DsmlRound

  const OPEN := "<think>"
  const CLOSE := "</think>"

  /** No spelling of a block of calls starts in the text. */
  ghost predicate NoCalls(s: string) {
    Nowhere(s, LONG.callsStart) && Nowhere(s, SHORT.callsStart) && Nowhere(s, PLAIN.callsStart)
  }

  /** The reasoning, in its tags or without the opening one. */
  function Thought(tagged: bool, r: string): string {
    (if tagged then OPEN else "") + r + CLOSE
  }

  // ----- reasoning and content -----

  /** The first closing tag behind a text without one. */
  lemma CloseFound(r: string, c: string)
    requires Nowhere(r, CLOSE)
    ensures Find(r + (CLOSE + c), 0, CLOSE) == |r|
  {
    hide Find, MatchAt;
    var s := r + (CLOSE + c);
    forall k: nat | k < |r|
      ensures !MatchAt(s, k, CLOSE)
    {
      NoCross(r, CLOSE + c, CLOSE, k);
    }
    MatchPart(r, CLOSE, c);
    assert s == r + CLOSE + c;
    FoundAt(s, 0, CLOSE, |r|);
  }

  /** A text that starts with reasoning is split behind the closing tag. */
  lemma ThoughtSplit(tagged: bool, r: string, c: string)
    requires Nowhere(r, CLOSE) && (tagged || !StartsWith(r, OPEN))
    ensures SplitReasoning(Thought(tagged, r) + c) == (c, Some(r))
  {
    hide Find, SplitReasoning, StartsWith;
    var body := r + (CLOSE + c);
    var s := Thought(tagged, r) + c;
    CloseFound(r, c);
    ThoughtBody(tagged, r, c);
    SplitAt(s, body, |r|);
    assert body[|r| + 8..] == c && body[..|r|] == r;
  }

  lemma ThoughtBody(tagged: bool, r: string, c: string)
    requires tagged || !StartsWith(r, OPEN)
    ensures var s, body := Thought(tagged, r) + c, r + (CLOSE + c);
            body == if StartsWith(s, OPEN) then s[7..] else s
  {
    var s, body := Thought(tagged, r) + c, r + (CLOSE + c);
    if tagged {
      assert s == OPEN + body;
    } else {
      assert s == body;
      NoOpening(r, c);
    }
  }

  lemma SplitAt(s: string, body: string, e: nat)
    requires body == (if StartsWith(s, OPEN) then s[7..] else s) && Find(body, 0, CLOSE) == e && e + 8 <= |body|
    ensures SplitReasoning(s) == (body[e + 8..], Some(body[..e]))
  {
    hide Find, StartsWith;
  }

  lemma NoOpening(r: string, c: string)
    requires !StartsWith(r, OPEN)
    ensures !StartsWith(r + (CLOSE + c), OPEN)
  {
    var s := r + (CLOSE + c);
    if |r| < 7 {
      assert s[|r|] == '<' && s[|r| + 1] == '/';
      assert |s| >= 7 ==> s[..7][|r|] == s[|r|];
      if |r| == 0 { assert |s| >= 7 ==> s[..7][1] == s[1]; }
    } else {
      assert s[..7] == r[..7];
    }
  }

  lemma NoThoughtSplit(s: string)
    requires Nowhere(s, CLOSE)
    ensures SplitReasoning(s) == (s, None)
  {
    hide Find;
    if StartsWith(s, OPEN) {
      forall i: nat
        ensures !MatchAt(s[7..], i, CLOSE)
      {
        assert i + 8 <= |s[7..]| ==> s[7..][i..i + 8] == s[7 + i..7 + i + 8];
        assert !MatchAt(s, 7 + i, CLOSE);
      }
      NotFound(s[7..], CLOSE);
    } else {
      NotFound(s, CLOSE);
    }
  }

  // ----- whole messages -----

  lemma StartTags(lit: string)
    requires lit == LONG.callsStart || lit == SHORT.callsStart || lit == PLAIN.callsStart
    ensures |lit| > 2 && lit[0] == '<' && (lit == "<tool_calls>" || (lit[1] != '/' && lit[1] != 't'))
    ensures forall k :: 0 < k < |lit| ==> lit[k] != '<'
  {
    StartTag(DSML);
    StartTag(DSML_SHORT);
    StartTag("");
  }

  lemma StartTag(dsml: string)
    requires dsml == DSML || dsml == DSML_SHORT || dsml == ""
    ensures var lit := Spelled(dsml).callsStart;
            && |lit| > 2 && lit[0] == '<' && (lit == "<tool_calls>" || (lit[1] != '/' && lit[1] != 't'))
            && (forall k :: 0 < k < |lit| ==> lit[k] != '<')
  {
    assert Spelled(dsml).callsStart == "<" + dsml + "tool_calls>";
  }

  /** Tags of reasoning do not make a start of calls. */
  lemma NoStart(tagged: bool, r: string, c: string, lit: string)
    requires lit == LONG.callsStart || lit == SHORT.callsStart || lit == PLAIN.callsStart
    requires Nowhere(r, lit) && Nowhere(c, lit)
    ensures Nowhere(Thought(tagged, r) + c, lit)
  {
    hide MatchAt, Spelled;
    StartTags(lit);
    forall k: nat
      ensures !MatchAt(r + (CLOSE + c), k, lit)
    {
      if k < |r| { NoCross(r, CLOSE + c, lit, k); } else { BehindTag(r, CLOSE, c, lit, k); }
    }
    assert Nowhere(r + (CLOSE + c), lit);
    if tagged {
      forall k: nat
        ensures !MatchAt("" + (OPEN + (r + (CLOSE + c))), k, lit)
      {
        BehindTag("", OPEN, r + (CLOSE + c), lit, k);
      }
      assert "" + (OPEN + (r + (CLOSE + c))) == Thought(tagged, r) + c;
    } else {
      assert r + (CLOSE + c) == Thought(tagged, r) + c;
    }
  }

  /** From a tag of reasoning on, a start of calls is only in what follows it. */
  lemma BehindTag(r: string, tag: string, c: string, lit: string, k: nat)
    requires (tag == OPEN || tag == CLOSE) && Nowhere(c, lit) && |r| <= k && |lit| > 2 && lit[0] == '<'
    requires (lit[1] != '/' && lit[1] != 't') || lit == "<tool_calls>"
    ensures !MatchAt(r + (tag + c), k, lit)
  {
    var s, n := r + (tag + c), |r| + |tag|;
    assert s == (r + tag) + c;
    if k >= n {
      MatchBehind(r + tag, c, k, lit);
    } else {
      assert forall i :: |r| <= i < n ==> s[i] == tag[i - |r|];
      assert s[|r| + 1] == tag[1] && s[|r| + 2] == tag[2] && "<tool_calls>"[1] == 't' && "<tool_calls>"[2] == 'o';
      assert forall i :: 0 < i < |tag| ==> tag[i] != '<';
      if MatchAt(s, k, lit) { MatchChars(s, k, lit); }
    }
  }

  /** A message without calls: its reasoning and its content come back. */
  lemma ThoughtBack(tagged: bool, r: string, c: string)
    requires Nowhere(r, CLOSE) && (tagged || !StartsWith(r, OPEN)) && NoCalls(r) && NoCalls(c)
    ensures Parse(Thought(tagged, r) + c) == Message(c, Some(r), [], "")
  {
    hide Find, Spelled, SplitReasoning, Nowhere, StartsWith, Thought;
    var s := Thought(tagged, r) + c;
    NoStart(tagged, r, c, LONG.callsStart);
    NoStart(tagged, r, c, SHORT.callsStart);
    NoStart(tagged, r, c, PLAIN.callsStart);
    ThoughtSplit(tagged, r, c);
    NothingFound(s);
  }

  /** A text without a closing tag is all content. */
  lemma ContentBack(s: string)
    requires NoCalls(s) && Nowhere(s, CLOSE)
    ensures Parse(s) == Message(s, None, [], "")
  {
    hide Find, Spelled, SplitReasoning, Nowhere;
    NothingFound(s);
    NoThoughtSplit(s);
  }

  lemma NothingFound(s: string)
    requires NoCalls(s)
    ensures FindCalls(s) == None
  {
    hide Find, Spelled;
    StartTags(LONG.callsStart);
    StartTags(SHORT.callsStart);
    StartTags(PLAIN.callsStart);
    NoLines(s, LONG.callsStart);
    NoLines(s, SHORT.callsStart);
    NoLines(s, PLAIN.callsStart);
  }

  /** What stands in front of a block of calls, without the white space at its end. */
  function Trimmed(c: string): string {
    c[..Trim(c, 0, |c|)]
  }

  lemma TrimBehind(head: string, c: string)
    requires head != "" && !IsSpace(head[|head| - 1])
    ensures Trimmed(head + c) == head + Trimmed(c)
  {
    TrimOver(head, c, |c|);
    assert head + c == (head + c)[..|head| + |c|];
  }

  lemma {:induction false} TrimOver(head: string, c: string, n: nat)
    requires head != "" && !IsSpace(head[|head| - 1]) && n <= |c|
    ensures Trim(head + c, 0, |head| + n) == |head| + Trim(c, 0, n)
  {
    if n > 0 {
      assert (head + c)[|head| + n - 1] == c[n - 1];
      TrimOver(head, c, n - 1);
    } else {
      assert (head + c)[|head| - 1] == head[|head| - 1];
    }
  }

  /** Reasoning, content and calls, parsed: each comes back, the content without the white space
      before the calls, and the calls as their parameters are read. */
  lemma WholeBack(tagged: bool, r: string, c: string, calls: seq<Call>)
    requires calls != [] && Nowhere(r, CLOSE) && (tagged || !StartsWith(r, OPEN))
    requires Nowhere(r, LONG.callsStart) && Nowhere(c, LONG.callsStart)
    ensures Parse(Thought(tagged, r) + c + Render(calls)) == Message(Trimmed(c), Some(r), MadeAll(calls), Render(calls))
  {
    hide *;
    NoStart(tagged, r, c, LONG.callsStart);
    RenderedParsed(Thought(tagged, r) + c, calls);
    ThoughtEnds(tagged, r);
    TrimBehind(Thought(tagged, r), c);
    TrimmedIs(Thought(tagged, r) + c);
    ThoughtSplit(tagged, r, Trimmed(c));
  }

  /** The same with the calls in any spelling, as a model may write them: right behind the
      content or after two line feeds, and with more text behind. */
  lemma SpelledBack(tagged: bool, r: string, c: string, gap: string, lits: Lits, cs: seq<Invoke>, rest: string)
    requires Nowhere(r, CLOSE) && (tagged || !StartsWith(r, OPEN))
    requires KnownLits(lits) && AllClosed(lits, cs) && Nowhere(r, lits.callsStart) && Nowhere(c, lits.callsStart)
    requires var text := Thought(tagged, r) + c + (Block(lits, cs) + rest);
      gap == "\n\n" || (gap == "" && Nowhere(text, "\n\n" + lits.callsStart))
    requires Unspelled(Thought(tagged, r) + c + gap + (Block(lits, cs) + rest), lits)
    ensures Parse(Thought(tagged, r) + c + gap + (Block(lits, cs) + rest))
         == Message(Trimmed(c), Some(r), TakenAll(cs), gap + Block(lits, cs))
  {
    hide *;
    NoStart(tagged, r, c, lits.callsStart) by { KnownStart(lits); }
    BlockParsed(Thought(tagged, r) + c, gap, lits, cs, rest);
    ThoughtEnds(tagged, r);
    TrimBehind(Thought(tagged, r), c);
    TrimmedIs(Thought(tagged, r) + c);
    ThoughtSplit(tagged, r, Trimmed(c));
  }

  lemma KnownStart(lits: Lits)
    requires KnownLits(lits)
    ensures
      lits.callsStart == LONG.callsStart || lits.callsStart == SHORT.callsStart || lits.callsStart == PLAIN.callsStart
  {
    hide Spelled;
  }

  lemma SpelledContent(c: string, gap: string, lits: Lits, cs: seq<Invoke>, rest: string)
    requires Nowhere(c, CLOSE) && KnownLits(lits) && AllClosed(lits, cs) && Nowhere(c, lits.callsStart)
    requires gap == "\n\n" || (gap == "" && Nowhere(c + (Block(lits, cs) + rest), "\n\n" + lits.callsStart))
    requires Unspelled(c + gap + (Block(lits, cs) + rest), lits)
    ensures Parse(c + gap + (Block(lits, cs) + rest)) == Message(Trimmed(c), None, TakenAll(cs), gap + Block(lits, cs))
  {
    hide *;
    BlockParsed(c, gap, lits, cs, rest);
    TrimmedIs(c);
    TrimmedClose(c);
    NoThoughtSplit(Trimmed(c));
  }

  lemma TrimmedClose(c: string)
    requires Nowhere(c, CLOSE)
    ensures Nowhere(Trimmed(c), CLOSE)
  {
    TrimBounds(c, 0, |c|);
    forall k: nat
      ensures !MatchAt(Trimmed(c), k, CLOSE)
    {
      MatchInPrefix(c, |Trimmed(c)|, k, CLOSE);
    }
  }

  lemma TrimmedIs(c: string)
    ensures Trimmed(c) == c[..Trim(c, 0, |c|)]
  {
  }

  lemma ThoughtEnds(tagged: bool, r: string)
    ensures Thought(tagged, r) != "" && !IsSpace(Thought(tagged, r)[|Thought(tagged, r)| - 1])
  {
  }

  /** Content and calls without a closing tag of reasoning. */
  lemma ContentAndCalls(c: string, calls: seq<Call>)
    requires calls != [] && Nowhere(c, LONG.callsStart) && Nowhere(c, CLOSE)
    ensures Parse(c + Render(calls)) == Message(Trimmed(c), None, MadeAll(calls), Render(calls))
  {
    hide *;
    RenderedParsed(c, calls);
    TrimmedIs(c);
    TrimmedClose(c);
    NoThoughtSplit(Trimmed(c));
  }
}
