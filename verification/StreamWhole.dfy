/** No piece of a stream splits a character. */
module StreamWhole {
  import opened StreamText
  import opened StreamTool
  import opened StreamOpenAi

  // ----- decoding and escaping -----

  lemma Utf8Concat(a: string, b: string)
    requires Utf8(a) && Utf8(b)
    ensures Utf8(a + b)
  {
    var s := a + b;
    forall i | 0 <= i < |s| && !Cont(s[i])
      ensures CharAt(s, i)
    {
      if i < |a| {
        assert CharAt(a, i);
        assert forall k :: i <= k < i + Need(a[i]) ==> s[k] == a[k];
        var e := i + Need(a[i]);
        assert e < |a| ==> s[e] == a[e];
        assert e == |a| && b != "" ==> s[e] == b[0];
      } else {
        assert CharAt(b, i - |a|);
        assert forall k :: 0 <= k < |b| ==> s[|a| + k] == b[k];
        forall k | i < k < i + Need(s[i])
          ensures Cont(s[k])
        {
          assert s[k] == b[k - |a|];
        }
      }
    }
  }

  lemma AsciiWhole(s: string)
    requires forall i :: 0 <= i < |s| ==> s[i] < 0x80 as char
    ensures Utf8(s)
  {
    forall i | 0 <= i < |s|
      ensures CharAt(s, i)
    {
    }
  }

  /** The first character of a text, and the rest. */
  lemma FirstChar(s: string) returns (k: nat)
    requires Utf8(s) && s != ""
    ensures 1 <= k <= |s| && Utf8(s[..k]) && Utf8(s[k..])
    ensures k > 1 ==> forall i :: 0 <= i < k ==> s[i] >= 0x80 as char
    ensures s[0] < 0x80 as char ==> k == 1
  {
    assert CharAt(s, 0);
    k := Need(s[0]);
    AllIsBoundary(s);
    Utf8Slice(s, 0, k);
    Utf8Slice(s, k, |s|);
    assert s[0..k] == s[..k] && s[k..|s|] == s[k..];
  }

  lemma {:induction false} EscapePlain(s: string)
    requires forall i :: 0 <= i < |s| ==> s[i] >= 0x80 as char
    ensures EscapeJson(s) == s
  {
    if s != "" { EscapePlain(s[1..]); }
  }

  lemma EscapeAscii(c: char)
    requires c < 0x80 as char
    ensures Utf8(EscapeChar(c))
  {
    AsciiWhole(EscapeChar(c));
  }

  lemma EscapeOne(s: string)
    requires |s| == 1
    ensures EscapeJson(s) == EscapeChar(s[0])
  {
    assert s[1..] == "" && EscapeJson("") == "";
    assert EscapeChar(s[0]) + "" == EscapeChar(s[0]);
  }

  /** A character above the ASCII range is not escaped. */
  lemma HighPlain(c: char)
    requires c >= 0x80 as char
    ensures EscapeChar(c) == [c]
  {
  }

  lemma {:induction false} EscapeWhole(s: string)
    requires Utf8(s)
    ensures Utf8(EscapeJson(s))
  {
    hide Utf8, EscapeChar;
    if s == "" {
      EmptyWhole();
    } else {
      var k := FirstChar(s);
      assert s == s[..k] + s[k..];
      EscapeConcat(s[..k], s[k..]);
      EscapeWhole(s[k..]);
      if k == 1 {
        EscapeOne(s[..1]);
        if s[0] < 0x80 as char { EscapeAscii(s[0]); } else { HighPlain(s[0]); assert s[..1] == [s[0]]; }
      } else {
        EscapePlain(s[..k]) by { assert forall i :: 0 <= i < k ==> s[..k][i] == s[i]; }
      }
      Utf8Concat(EscapeJson(s[..k]), EscapeJson(s[k..]));
    }
  }

  lemma {:induction false} UnescapePlain(s: string, k: nat)
    requires k <= |s| && forall i :: 0 <= i < k ==> s[i] != '&'
    ensures Unescape(s) == s[..k] + Unescape(s[k..])
  {
    hide Token;
    if k > 0 {
      NoEntity(s);
      UnescapePlain(s[1..], k - 1);
      PlainParts(s, k);
      Associative([s[0]], s[1..][..k - 1], Unescape(s[k..]));
    }
  }

  lemma PlainParts(s: string, k: nat)
    requires 0 < k <= |s|
    ensures s[1..][k - 1..] == s[k..] && [s[0]] + s[1..][..k - 1] == s[..k]
  {
  }

  lemma EntityStarts(s: string)
    requires s != ""
    ensures forall ent :: ent in ENTITIES && MatchAt(s, 0, ent) ==> s[0] == '&'
  {
    forall ent | ent in ENTITIES && MatchAt(s, 0, ent)
      ensures s[0] == '&'
    {
      assert s[0] == s[0..0 + |ent|][0];
    }
  }

  lemma NoEntity(s: string)
    requires s != "" && s[0] != '&'
    ensures Token(s) == (1, s[0])
  {
    hide MatchAt;
    EntityStarts(s);
  }

  /** What an entity stands for, and how it ends. */
  lemma TokenAscii(s: string)
    requires s != "" && s[0] < 0x80 as char
    ensures Token(s).1 < 0x80 as char && s[Token(s).0 - 1] < 0x80 as char
  {
    var k := Token(s).0;
    if k > 1 {
      var ent :| ent in ENTITIES && MatchAt(s, 0, ent) && |ent| == k;
      assert s[k - 1] == s[0..0 + k][k - 1] == ent[k - 1] == ';';
    }
  }

  lemma {:induction false} UnescapeWhole(s: string)
    requires Utf8(s)
    ensures Utf8(Unescape(s))
    decreases |s|
  {
    hide Utf8, Token, Boundary;
    if s == "" {
      EmptyWhole();
    } else if s[0] == '&' {
      TokenAscii(s);
      var k := Token(s).0;
      AfterAscii(s, k - 1);
      AllIsBoundary(s);
      Utf8Slice(s, k, |s|);
      assert s[k..|s|] == s[k..];
      UnescapeWhole(s[k..]);
      AsciiWhole([Token(s).1]);
      Utf8Concat([Token(s).1], Unescape(s[k..]));
    } else {
      var k := FirstChar(s);
      UnescapePlain(s, k);
      UnescapeWhole(s[k..]);
      Utf8Concat(s[..k], Unescape(s[k..]));
    }
  }

  lemma ValueWhole(s: string, isString: bool)
    requires Utf8(s)
    ensures Utf8(Value(s, isString))
  {
    hide Utf8;
    if isString {
      UnescapeWhole(s);
      EscapeWhole(Unescape(s));
    }
  }

  // ----- tool calls -----

  /** The argument characters among what is sent. */
  function ArgText(atoms: seq<Atom>): string {
    if atoms == [] then ""
    else (if atoms[0].Arg? then [atoms[0].c] else "") + ArgText(atoms[1..])
  }

  /** Names and argument characters sent at one go are of whole characters. */
  ghost predicate Whole(atoms: seq<Atom>) {
    Utf8(ArgText(atoms)) && forall a :: a in atoms && a.Header? ==> Utf8(a.name)
  }

  lemma {:induction false} ArgTextConcat(a: seq<Atom>, b: seq<Atom>)
    ensures ArgText(a + b) == ArgText(a) + ArgText(b)
  {
    if a == [] {
      assert a + b == b;
    } else {
      assert (a + b)[1..] == a[1..] + b && (a + b)[0] == a[0];
      ArgTextConcat(a[1..], b);
      var x := if a[0].Arg? then [a[0].c] else "";
      Associative(x, ArgText(a[1..]), ArgText(b));
    }
  }

  lemma Associative(x: string, y: string, z: string)
    ensures x + (y + z) == (x + y) + z
  {
  }

  lemma {:induction false} ArgTextArgs(index: nat, s: string)
    ensures ArgText(Args(index, s)) == s
  {
    if s != "" {
      assert Args(index, s)[1..] == Args(index, s[1..]);
      ArgTextArgs(index, s[1..]);
    }
  }

  lemma ArgsWhole(index: nat, s: string)
    requires Utf8(s)
    ensures Whole(Args(index, s))
  {
    ArgTextArgs(index, s);
  }

  lemma WholeConcat(a: seq<Atom>, b: seq<Atom>)
    requires Whole(a) && Whole(b)
    ensures Whole(a + b)
  {
    hide Utf8;
    ArgTextConcat(a, b);
    Utf8Concat(ArgText(a), ArgText(b));
  }

  lemma NoneWhole()
    ensures Whole([])
  {
  }

  /** A value between quotes in a tag. */
  lemma AttrWhole(tag: string, name: string)
    requires Utf8(tag)
    ensures Attr(tag, name).Some? ==> Utf8(Attr(tag, name).value)
  {
    hide Utf8, Unescape, Boundary;
    var lit := name + "=\"";
    var p := Find(tag, 0, lit);
    if p >= 0 {
      var v := p + |name| + 2;
      FindMatches(tag, 0, lit);
      assert lit[|lit| - 1] == '"' && tag[p..p + |lit|] == lit;
      assert tag[v - 1] == tag[p..p + |lit|][|lit| - 1];
      AfterAscii(tag, v - 1);
      var q := Find(tag, v, "\"");
      if q >= 0 {
        assert tag[q..q + 1] == "\"";
        assert tag[q] == tag[q..q + 1][0];
        NotCont(tag, q);
        Utf8Slice(tag, v, q);
        UnescapeWhole(tag[v..q]);
      }
    }
  }

  /** A tag found in a prefix of a text of whole characters. */
  lemma TagWhole(w: string, n: nat, pos: nat, lit: string)
    requires n <= |w| && Utf8(w) && MatchAt(w[..n], pos, lit) && lit != "" && lit[0] < 0x80 as char
    ensures var q := Find(w[..n], pos, ">"); q >= 0 ==> pos <= q < n && Utf8(w[..n][pos..q + 1])
  {
    hide Utf8, Boundary;
    var s, q := w[..n], Find(w[..n], pos, ">");
    MatchStarts(s, pos, lit);
    assert w[pos] == s[pos];
    NotCont(w, pos);
    if q >= 0 {
      assert s[q..q + 1] == ">";
      assert w[q] == s[q] == s[q..q + 1][0];
      AfterAscii(w, q);
      Utf8Slice(w, pos, q + 1);
      assert s[pos..q + 1] == w[pos..q + 1];
    }
  }

  lemma PrefixWhole(first: bool, name: string, isString: bool)
    requires Utf8(name)
    ensures Utf8(ParamPrefix(first, name, isString))
  {
    hide Utf8;
    var start, end := (if first then "" else ",") + "\"", "\":" + if isString then "\"" else "";
    EscapeWhole(name);
    AsciiWhole(start);
    AsciiWhole(end);
    Utf8Concat(start, EscapeJson(name));
    Utf8Concat(start + EscapeJson(name), end);
    assert start + EscapeJson(name) + end == ParamPrefix(first, name, isString);
  }

  lemma StartsAscii(lits: Lits)
    requires GoodLits(lits)
    ensures lits.invokeStart != "" && lits.paramStart != "" && lits.paramEnd != ""
    ensures lits.invokeStart[0] == lits.paramStart[0] == lits.paramEnd[0] == '<'
  {
  }

  lemma InvokeWhole(t: Tool, w: string, n: nat)
    requires t.pos <= n <= |w| && GoodLits(t.lits) && Utf8(w)
    ensures Whole(InvokeRound(t, w[..n]).sent)
  {
    hide Utf8, Attr, Args, Whole, Find, MatchAt, PartialAt;
    NoneWhole();
    StartsAscii(t.lits);
    if MatchAt(w[..n], t.pos, t.lits.invokeStart) {
      TagWhole(w, n, t.pos, t.lits.invokeStart);
      var q := Find(w[..n], t.pos, ">");
      if q >= 0 {
        var tag := w[..n][t.pos..q + 1];
        AttrWhole(tag, "name");
        match Attr(tag, "name") {
          case None =>
          case Some(name) =>
            HeaderWhole(t.index, name);
            AsciiWhole("{");
            ArgsWhole(t.index, "{");
            WholeConcat([Header(t.index, name)], Args(t.index, "{"));
        }
      }
    }
  }

  lemma HeaderWhole(index: nat, name: string)
    requires Utf8(name)
    ensures Whole([Header(index, name)])
  {
    EmptyWhole();
    assert ArgText([Header(index, name)]) == "" + ArgText([]);
  }

  lemma ParamWhole(t: Tool, w: string, n: nat)
    requires t.pos <= n <= |w| && GoodLits(t.lits) && Utf8(w)
    ensures Whole(ParamRound(t, w[..n]).sent)
  {
    hide Utf8, Attr, Args, Whole, Find, MatchAt, PartialAt, ParamPrefix;
    NoneWhole();
    AsciiWhole("}");
    ArgsWhole(t.index, "}");
    StartsAscii(t.lits);
    if MatchAt(w[..n], t.pos, t.lits.paramStart) {
      TagWhole(w, n, t.pos, t.lits.paramStart);
      var q := Find(w[..n], t.pos, ">");
      if q >= 0 {
        var tag := w[..n][t.pos..q + 1];
        AttrWhole(tag, "name");
        match (Attr(tag, "name"), Attr(tag, "string")) {
          case (Some(name), Some(isString)) =>
            PrefixWhole(t.first, name, isString == "true");
            ArgsWhole(t.index, ParamPrefix(t.first, name, isString == "true"));
          case _ =>
        }
      }
    }
  }

  lemma ValueRoundWhole(t: Tool, w: string, n: nat)
    requires t.pos <= n <= |w| && GoodLits(t.lits) && Utf8(w) && Boundary(w, t.pos)
    ensures Whole(ValueRound(t, w[..n]).sent)
  {
    hide Utf8, Args, Whole, Find, Value, ValueSafe, Boundary;
    StartsAscii(t.lits);
    var s, end := w[..n], t.lits.paramEnd;
    var e := Find(s, t.pos, end);
    if e >= 0 {
      FindBounds(s, t.pos, end);
      FindMatches(s, t.pos, end);
      MatchStarts(s, e, end);
      assert w[e] == s[e];
      NotCont(w, e);
      Utf8Slice(w, t.pos, e);
      assert s[t.pos..e] == w[t.pos..e];
      ValueWhole(s[t.pos..e], t.isString);
      ArgsWhole(t.index, Value(s[t.pos..e], t.isString));
      AsciiWhole(if t.isString then "\"" else "");
      ArgsWhole(t.index, if t.isString then "\"" else "");
      WholeConcat(Args(t.index, Value(s[t.pos..e], t.isString)), Args(t.index, if t.isString then "\"" else ""));
    } else {
      SafeWhole(w, n, t.pos, end, t.isString) by { EndTagOf(t.lits); }
      var l := ValueSafe(s, t.pos, end, t.isString);
      ValueWhole(s[t.pos..l], t.isString);
      ArgsWhole(t.index, Value(s[t.pos..l], t.isString));
    }
  }

  /** What may be sent of a value is of whole characters. */
  lemma SafeWhole(w: string, n: nat, pos: nat, end: string, isString: bool)
    requires pos <= n <= |w| && EndTag(end) && Utf8(w) && Boundary(w, pos)
    ensures var l := ValueSafe(w[..n], pos, end, isString); pos <= l <= n && Utf8(w[..n][pos..l])
  {
    hide Utf8, ValueSafe, Boundary;
    ValueSafeStays(w, n, pos, end, isString);
    SafeBelowHold(w[..n], pos, end, isString);
    var l := ValueSafe(w[..n], pos, end, isString);
    Utf8Slice(w, pos, l);
    assert w[..n][pos..l] == w[pos..l];
  }

  lemma EndTagOf(lits: Lits)
    requires GoodLits(lits)
    ensures EndTag(lits.paramEnd)
  {
  }

  /** What one round of the tool parser sends is of whole characters. */
  lemma RoundWhole(t: Tool, w: string, n: nat)
    requires t.pos < n <= |w| && ToolInv(t, w) && Active(t) && Utf8(w)
    ensures Whole(ToolRound(t, w[..n]).sent)
  {
    hide Utf8, Whole, InvokeRound, ParamRound, ValueRound, Boundary;
    var t1 := t.(pos := SkipSpace(w[..n], t.pos));
    if t.state == BetweenInvokes {
      InvokeWhole(t1, w, n);
    } else if t.state == BetweenParams {
      ParamWhole(t1, w, n);
    } else {
      ValueRoundWhole(t, w, n);
    }
  }

  lemma {:induction false} ToolWhole(t: Tool, w: string, n: nat)
    requires t.pos <= n <= |w| && ToolInv(t, w) && Utf8(w)
    ensures Whole(ToolUpdate(t, w[..n]).1)
    decreases n - t.pos
  {
    hide Utf8, Whole, ToolRound;
    NoneWhole();
    if Active(t) && t.pos < n {
      RoundWhole(t, w, n);
      RoundSplits(t, w, n);
      RoundMoves(t, w[..n]);
      var r := ToolRound(t, w[..n]);
      if r.more {
        ToolWhole(r.t, w, n);
        WholeConcat(r.sent, ToolUpdate(r.t, w[..n]).1);
      }
    }
  }

  // ----- reasoning and content -----

  lemma TextWhole(st: Stream, w: string, hasTools: bool, n: nat, final: bool)
    requires st.pos <= n <= |w| && Boundary(w, st.pos) && Utf8(w) && (final ==> n == |w|)
    ensures Utf8(TextUpdate(st, w[..n], hasTools, final).1.content)
  {
    hide Utf8, FindTool, Trim, TextHold, Utf8Safe, LitsAt;
    var s, p := w[..n], st.pos;
    TextSafeBounds(s, p, hasTools, final);
    var l := TextSafe(s, p, hasTools, final);
    var t := if hasTools then FindTool(s, p) else -1;
    if t >= 0 {
      FindToolStarts(s, p);
      StartWithin(s, t);
      TrimEnds(s, p, t);
      assert s[l] == w[l];
    } else if !final {
      HoldEnds(s, p);
      Utf8SafeBoundary(w, n, p, if hasTools then TextHold(s, p) else n);
    }
    Prefix(w, n, p, l);
    Utf8Slice(w, p, l);
  }

  lemma TrimEnds(s: string, start: nat, limit: nat)
    requires start <= limit < |s| && !Cont(s[limit])
    ensures start <= Trim(s, start, limit) <= limit && !Cont(s[Trim(s, start, limit)])
  {
    var r := Trim(s, start, limit);
    assert r < limit ==> IsSpace(s[r]);
  }

  lemma ThinkWhole(st: Stream, w: string, n: nat, final: bool)
    requires st.mode == Thinking && st.pos <= n <= |w| && Inv(st, w) && Utf8(w) && (final ==> n == |w|)
    ensures Utf8(ThinkUpdate(st, w[..n], final).1.reasoning)
    ensures ThinkUpdate(st, w[..n], final).2 ==> Boundary(w, ThinkUpdate(st, w[..n], final).0.pos)
  {
    hide Utf8, Find, MatchAt;
    var s := w[..n];
    if !final && !st.checked && n < |THINK| && s == THINK[..n] {
      assert Utf8("") by { EmptyWhole(); }
    } else {
      ThinkChecked(st, s, final);
      if final { assert s == w; } else { CheckedStays(st, w, n); }
      CheckedAtStart(st, w);
      CheckedWhole(Checked(st, w), w, n, final);
    }
  }

  lemma CheckedAtStart(st: Stream, w: string)
    requires st.mode == Thinking && Inv(st, w) && Utf8(w)
    ensures Checked(st, w).pos <= |w| && Boundary(w, Checked(st, w).pos)
  {
    if !st.checked && |w| >= |THINK| && w[..|THINK|] == THINK {
      assert MatchAt(w, 0, THINK);
      ThinkBoundary(w, 0, THINK);
    }
  }

  lemma EmptyWhole()
    ensures Utf8("")
  {
  }

  lemma CheckedWhole(st: Stream, w: string, n: nat, final: bool)
    requires st.mode == Thinking && st.checked && st.pos <= n <= |w| && Boundary(w, st.pos) && Utf8(w)
    requires final ==> n == |w|
    ensures Utf8(ThinkUpdate(st, w[..n], final).1.reasoning)
    ensures ThinkUpdate(st, w[..n], final).2 ==> Boundary(w, ThinkUpdate(st, w[..n], final).0.pos)
  {
    hide Utf8, Find, MatchAt, Boundary, Utf8Safe;
    EmptyWhole();
    var s, p := w[..n], st.pos;
    if Find(s, p, THINK_END) >= 0 {
      if final { assert s == w; }
      ThinkEnds(st, w, n);
      FindBounds(s, p, THINK_END);
      var c := Find(s, p, THINK_END);
      FindMatches(s, p, THINK_END);
      MatchStarts(s, c, THINK_END);
      NotCont(w, c);
      Prefix(w, n, p, c);
      Utf8Slice(w, p, c);
    } else if final {
      AllIsBoundary(w);
      assert s == w;
      Utf8Slice(w, p, n);
    } else {
      ThinkWaits(st, w, n);
      var l := ThinkUpdate(st, s, false).0.pos;
      Prefix(w, n, p, l);
      if l > p { Utf8Slice(w, p, l); }
    }
  }

  lemma FindMatches(s: string, from: nat, lit: string)
    requires lit != ""
    ensures Find(s, from, lit) >= 0 ==> MatchAt(s, Find(s, from, lit), lit)
  {
  }

  lemma MatchStarts(s: string, i: nat, lit: string)
    requires MatchAt(s, i, lit) && lit != ""
    ensures i < |s| && s[i] == lit[0]
  {
    assert s[i] == s[i..i + |lit|][0];
  }

  lemma NotCont(w: string, i: nat)
    requires i < |w| && !Cont(w[i])
    ensures Boundary(w, i)
  {
  }

  lemma AllIsBoundary(w: string)
    ensures Boundary(w, |w|)
  {
  }

  lemma TextOwnFields(st: Stream, s: string, hasTools: bool, final: bool)
    requires st.pos <= |s| && st.mode == Text
    ensures var (o, t) := (RestUpdate(st, s, hasTools, final).1, TextUpdate(st, s, hasTools, final).1);
            o.reasoning == "" && o.content == t.content
  {
    TextFits(st, s, hasTools, final);
  }

  lemma OwnFields(st: Stream, s: string, hasTools: bool, final: bool)
    requires Fits(st, s) && st.mode != Thinking && st.mode != Text
    ensures var o := RestUpdate(st, s, hasTools, final).1; o.reasoning == "" && o.content == ""
  {
  }

  lemma ThinkOwnField(st: Stream, s: string, final: bool)
    requires st.pos <= |s|
    ensures ThinkUpdate(st, s, final).1.content == ""
  {
  }

  /** No piece of reasoning or of content ever splits a character, nor does the last. */
  lemma ContentWhole(st: Stream, w: string, hasTools: bool, n: nat, final: bool)
    requires n <= |w| && Fits(st, w[..n]) && Inv(st, w) && Utf8(w) && (final ==> n == |w|)
    ensures var o := Update(st, w[..n], hasTools, final).1; Utf8(o.reasoning) && Utf8(o.content)
  {
    hide Utf8, Boundary, ThinkUpdate, TextUpdate, RestUpdate;
    EmptyWhole();
    var s := w[..n];
    match st.mode {
      case Thinking =>
        ThinkWhole(st, w, n, final);
        ThinkFits(st, s, final);
        ThinkOwnField(st, s, final);
        var (st1, o1, more) := ThinkUpdate(st, s, final);
        if more {
          TextWhole(st1, w, hasTools, n, final);
          TextOwnFields(st1, s, hasTools, final);
          var o2 := RestUpdate(st1, s, hasTools, final).1;
          assert o1.reasoning + o2.reasoning == o1.reasoning && o1.content + o2.content == o2.content;
        }
      case Text =>
        TextWhole(st, w, hasTools, n, final);
        TextOwnFields(st, s, hasTools, final);
      case _ => OwnFields(st, s, hasTools, final);
    }
  }

  lemma RestWhole(st: Stream, w: string, hasTools: bool, n: nat, final: bool)
    requires n <= |w| && Fits(st, w[..n]) && st.mode != Thinking && Utf8(w) && (final ==> n == |w|)
    requires st.mode == Calls ==> ToolInv(st.tool, w)
    ensures Whole(RestUpdate(st, w[..n], hasTools, final).1.calls)
  {
    hide Utf8, Whole, ToolUpdate, Boundary;
    NoneWhole();
    var s := w[..n];
    match st.mode {
      case Text =>
        TextFits(st, s, hasTools, final);
        var (st1, o1) := TextUpdate(st, s, hasTools, final);
        if st1.mode == Calls {
          ToolWhole(st1.tool, w, n);
          assert o1.calls + CallsUpdate(st1, s).1.calls == CallsUpdate(st1, s).1.calls;
        }
      case Calls => ToolWhole(st.tool, w, n);
      case _ =>
    }
  }

  lemma ThinkNoCalls(st: Stream, s: string, final: bool)
    requires st.pos <= |s|
    ensures ThinkUpdate(st, s, final).1.calls == []
  {
  }

  lemma CallsWhole(st: Stream, w: string, hasTools: bool, n: nat, final: bool)
    requires n <= |w| && Fits(st, w[..n]) && Inv(st, w) && Utf8(w) && (final ==> n == |w|)
    ensures Whole(Update(st, w[..n], hasTools, final).1.calls)
  {
    hide Utf8, Whole, Boundary, ThinkUpdate, RestUpdate;
    NoneWhole();
    var s := w[..n];
    if st.mode == Thinking {
      ThinkFits(st, s, final);
      ThinkNoCalls(st, s, final);
      var (st1, o1, more) := ThinkUpdate(st, s, final);
      if more {
        RestWhole(st1, w, hasTools, n, final);
        var o2 := RestUpdate(st1, s, hasTools, final).1;
        assert o1.calls + o2.calls == o2.calls;
      }
    } else {
      RestWhole(st, w, hasTools, n, final);
    }
  }

  /** No update, the final one included, splits a character of the reasoning, of the content, of a
      tool's name or of its arguments. */
  lemma NeverSplitsCharacters(st: Stream, w: string, hasTools: bool, n: nat, final: bool)
    requires n <= |w| && Fits(st, w[..n]) && Inv(st, w) && Utf8(w) && (final ==> n == |w|)
    ensures var o := Update(st, w[..n], hasTools, final).1;
            Utf8(o.reasoning) && Utf8(o.content) && Whole(o.calls)
  {
    hide *;
    ContentWhole(st, w, hasTools, n, final);
    CallsWhole(st, w, hasTools, n, final);
  }
}
