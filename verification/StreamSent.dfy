/** What a client receives of a reply: its reasoning, its content, and calls whose arguments are the
    JSON objects that were written. */
module StreamSent {
  import opened Common
  import opened StreamText
  import opened StreamTool
  import opened StreamOpenAi
  import opened JsonArgs
  import opened JsonObject
  import opened JsonTight
  import opened DsmlText
  import opened DsmlCalls
  import opened DsmlBack
  import opened DsmlRound
  import opened DsmlReason

  // ----- looking from a place on -----

  lemma MatchFrom(raw: string, p: nat, lit: string)
    requires p <= |raw|
    ensures MatchAt(raw, p, lit) <==> StartsWith(raw[p..], lit)
  {
    if p + |lit| <= |raw| { assert raw[p..p + |lit|] == raw[p..][..|lit|]; }
  }

  lemma FindFrom(raw: string, p: nat, lit: string, r: nat)
    requires p <= |raw| && lit != "" && Find(raw[p..], 0, lit) == r
    ensures Find(raw, p, lit) == p + r
  {
    hide Find, MatchAt;
    var a, c := raw[..p], raw[p..];
    assert a + c == raw;
    MatchBehind(a, c, p + r, lit);
    FindMeans(c, lit);
    forall k: nat | p <= k < p + r
      ensures !MatchAt(raw, k, lit)
    {
      MatchBehind(a, c, k, lit);
    }
    FoundAt(raw, p, lit, p + r);
  }

  lemma FindMeans(s: string, lit: string)
    requires lit != "" && Find(s, 0, lit) >= 0
    ensures MatchAt(s, Find(s, 0, lit), lit) && forall k: nat :: k < Find(s, 0, lit) ==> !MatchAt(s, k, lit)
  {
  }

  lemma NotHere(raw: string, p: nat, lit: string)
    requires p + 1 < |raw| && |lit| > 1 && raw[p + 1] != lit[1]
    ensures !MatchAt(raw, p, lit) && !PartialAt(raw, p, lit)
  {
    assert p + |lit| <= |raw| ==> raw[p..p + |lit|][1] == raw[p + 1];
    assert raw[p..][1] == raw[p + 1];
  }

  // ----- one round -----

  /** The text from the parser's place on. */
  ghost predicate At(t: Tool, raw: string, text: string) {
    t.pos <= |raw| && raw[t.pos..] == text && KnownLits(t.lits)
  }

  lemma Further(t: Tool, raw: string, a: string, b: string)
    requires At(t, raw, a + b)
    ensures At(t.(pos := t.pos + |a|), raw, b) && t.pos + |a| <= |raw| && raw[t.pos..t.pos + |a|] == a
  {
    assert raw[t.pos..][|a|..] == b;
    assert raw[t.pos..][..|a|] == a;
  }

  lemma NoSpaceHere(t: Tool, raw: string, text: string)
    requires At(t, raw, text) && text != "" && !IsSpace(text[0])
    ensures SkipSpace(raw, t.pos) == t.pos < |raw| && t.(pos := t.pos) == t
  {
    assert raw[t.pos] == raw[t.pos..][0];
  }

  /** An opening tag of a call. */
  lemma InvokeRoundIs(t: Tool, raw: string, tag: string, name: string, rest: string)
    requires At(t, raw, tag + rest) && tag != "" && StartsWith(tag, t.lits.invokeStart)
    requires Find(tag + rest, 0, ">") == |tag| - 1 && Attr(tag, "name") == Some(name)
    ensures InvokeRound(t, raw) ==
            Round(t.(argsOpen := true, first := true, pos := t.pos + |tag|, state := BetweenParams),
                  [Header(t.index, name)] + Args(t.index, "{"), true)
  {
    hide Find, Attr, Args, Spelled, MatchAt, PartialAt;
    Heads(t.lits);
    var s, p := tag + rest, t.pos;
    StartsHere(tag, rest);
    StartsThrough(s, tag, t.lits.invokeStart);
    assert raw[p + 1] == raw[p..][1];
    NotHere(raw, p, t.lits.callsEnd);
    MatchFrom(raw, p, t.lits.invokeStart);
    NotPartial(raw, p, t.lits.invokeStart);
    FindFrom(raw, p, ">", |tag| - 1);
    Further(t, raw, tag, rest);
  }

  lemma NotPartial(raw: string, p: nat, lit: string)
    requires MatchAt(raw, p, lit)
    ensures !PartialAt(raw, p, lit) && (lit != "" ==> p < |raw|)
  {
  }

  /** An opening tag of a parameter. */
  lemma ParamRoundIs(t: Tool, raw: string, tag: string, name: string, kind: string, rest: string)
    requires At(t, raw, tag + rest) && tag != "" && StartsWith(tag, t.lits.paramStart)
    requires Find(tag + rest, 0, ">") == |tag| - 1
    requires Attr(tag, "name") == Some(name) && Attr(tag, "string") == Some(kind)
    ensures ParamRound(t, raw) ==
            Round(t.(first := false, isString := kind == "true", pos := t.pos + |tag|, state := ParamValue),
                  Args(t.index, ParamPrefix(t.first, name, kind == "true")), true)
  {
    hide Find, Attr, Args, Spelled, MatchAt, PartialAt, ParamPrefix;
    Heads(t.lits);
    var s, p := tag + rest, t.pos;
    StartsHere(tag, rest);
    StartsThrough(s, tag, t.lits.paramStart);
    assert raw[p + 1] == raw[p..][1];
    NotHere(raw, p, t.lits.invokeEnd);
    MatchFrom(raw, p, t.lits.paramStart);
    NotPartial(raw, p, t.lits.paramStart);
    FindFrom(raw, p, ">", |tag| - 1);
    Further(t, raw, tag, rest);
  }

  /** The value of a parameter, up to its closing tag. */
  lemma ValueRoundIs(t: Tool, raw: string, text: string, rest: string)
    requires At(t, raw, text + (t.lits.paramEnd + rest))
    requires t.lits.paramEnd != "" && Find(text + (t.lits.paramEnd + rest), 0, t.lits.paramEnd) == |text|
    ensures ValueRound(t, raw) ==
            Round(t.(pos := t.pos + |text| + |t.lits.paramEnd|, state := BetweenParams),
                  Args(t.index, Value(text, t.isString)) + Args(t.index, if t.isString then "\"" else ""), true)
  {
    hide Find, Args, Value, Spelled;
    FindFrom(raw, t.pos, t.lits.paramEnd, |text|);
    Further(t, raw, text, t.lits.paramEnd + rest);
  }

  /** The end of a call. */
  lemma CloseRoundIs(t: Tool, raw: string, rest: string)
    requires At(t, raw, t.lits.invokeEnd + rest) && t.argsOpen
    ensures ParamRound(t, raw) ==
            Round(t.(pos := t.pos + |t.lits.invokeEnd|, argsOpen := false, index := t.index + 1,
                     state := BetweenInvokes),
                  Args(t.index, "}"), true)
  {
    hide Find, Attr, Args, Spelled, MatchAt, PartialAt, ParamPrefix;
    Heads(t.lits);
    StartsHere(t.lits.invokeEnd, rest);
    MatchFrom(raw, t.pos, t.lits.invokeEnd);
    NotPartial(raw, t.pos, t.lits.invokeEnd);
  }

  /** The end of the calls. */
  lemma EndRoundIs(t: Tool, raw: string, rest: string)
    requires At(t, raw, t.lits.callsEnd + rest)
    ensures InvokeRound(t, raw) == Round(t.(pos := t.pos + |t.lits.callsEnd|, state := Done), [], false)
  {
    hide Find, Attr, Args, Spelled, MatchAt, PartialAt;
    Heads(t.lits);
    StartsHere(t.lits.callsEnd, rest);
    MatchFrom(raw, t.pos, t.lits.callsEnd);
    NotPartial(raw, t.pos, t.lits.callsEnd);
  }

  // ----- updates -----

  ghost predicate Ready(t: Tool, raw: string) {
    t.pos <= |raw| && GoodLits(t.lits)
  }

  lemma AtReady(t: Tool, raw: string, text: string)
    requires At(t, raw, text)
    ensures Ready(t, raw)
  {
    hide Spelled, GoodLits;
    LitsTagged(t.lits);
  }

  /** `t'` is where the parser gets from `t`, and `sent` is what it sends on the way. */
  ghost predicate Goes(t: Tool, sent: seq<Atom>, t': Tool, raw: string) {
    && Ready(t, raw) && Ready(t', raw)
    && ToolUpdate(t, raw) == (ToolUpdate(t', raw).0, sent + ToolUpdate(t', raw).1)
  }

  lemma GoesOn(t: Tool, a: seq<Atom>, t1: Tool, b: seq<Atom>, t2: Tool, raw: string)
    requires Goes(t, a, t1, raw) && Goes(t1, b, t2, raw)
    ensures Goes(t, a + b, t2, raw)
  {
    hide ToolUpdate;
    assert a + (b + ToolUpdate(t2, raw).1) == (a + b) + ToolUpdate(t2, raw).1;
  }

  lemma OneRound(t: Tool, raw: string, r: Round)
    requires Ready(t, raw) && Active(t) && t.pos < |raw| && ToolRound(t, raw) == r && r.more
    ensures Goes(t, r.sent, r.t, raw)
  {
    hide ToolRound;
    RoundMoves(t, raw);
  }

  /** A line feed between tags is skipped. */
  lemma LineSkipped(t: Tool, raw: string, text: string)
    requires At(t, raw, "\n" + text) && text != "" && (t.state == BetweenInvokes || t.state == BetweenParams)
    ensures var t' := t.(pos := t.pos + 1); At(t', raw, text) && Goes(t, [], t', raw)
  {
    hide InvokeRound, ParamRound, Spelled, GoodLits;
    Further(t, raw, "\n", text);
    var t' := t.(pos := t.pos + 1);
    AtReady(t, raw, "\n" + text);
    assert raw[t.pos] == raw[t.pos..][0] == '\n';
    assert t'.pos < |raw| by { assert |raw[t'.pos..]| > 0; }
    assert SkipSpace(raw, t.pos) == SkipSpace(raw, t'.pos);
    assert ToolRound(t, raw) == ToolRound(t', raw);
    RoundMoves(t, raw);
    assert [] + ToolUpdate(t', raw).1 == ToolUpdate(t', raw).1;
  }

  // ----- what was written -----

  /** What is sent for a written parameter is what the parser reads from it. */
  lemma ValueRead(p: Param)
    ensures var a := ReadParam(p);
      && (KindRead(p) == "true") == a.isString
      && Value(p.text, a.isString) == if a.isString then EscapeJson(a.value) else a.value
  {
    hide Unescape, EndsWith, EscapeJson;
  }

  /** The pieces sent for one parameter are its member. */
  lemma PiecesText(a: JsonArg, first: bool, value: string)
    requires value == if a.isString then EscapeJson(a.value) else a.value
    ensures ParamPrefix(first, a.key, a.isString) + (value + if a.isString then "\"" else "")
         == (if first then "" else ",") + TightPair(a)
  {
    hide EscapeJson;
  }

  lemma ArgsThree(index: nat, a: string, b: string, c: string)
    ensures Args(index, a) + (Args(index, b) + Args(index, c)) == Args(index, a + (b + c))
  {
    hide Args;
    ArgsConcat(index, b, c);
    ArgsConcat(index, a, b + c);
  }

  /** One written parameter: its member is sent, behind a comma unless it is the first. */
  lemma ArgSent(t: Tool, raw: string, p: Param, rest: string) returns (t': Tool)
    requires At(t, raw, WriteParam(t.lits, p) + rest) && t.state == BetweenParams && rest != ""
    requires Nowhere(p.text, t.lits.paramEnd)
    ensures At(t', raw, rest) && t' == t.(pos := t'.pos, first := false, isString := t'.isString)
    ensures Goes(t, Args(t.index, (if t.first then "" else ",") + TightPair(ReadParam(p))), t', raw)
  {
    hide *;
    var t1 := TagSent(t, raw, p, rest);
    var t2 := ValueSent(t1, raw, p, rest);
    LineSkipped(t2, raw, rest);
    t' := t2.(pos := t2.pos + 1);
    var a := ReadParam(p);
    var value, quote := if a.isString then EscapeJson(a.value) else a.value, if a.isString then "\"" else "";
    var sent := (if t.first then "" else ",") + TightPair(a);
    GoesOn(t, Args(t.index, ParamPrefix(t.first, a.key, a.isString)), t1,
           Args(t.index, value) + Args(t.index, quote), t2, raw);
    ArgsThree(t.index, ParamPrefix(t.first, a.key, a.isString), value, quote);
    PiecesText(a, t.first, value);
    GoesOn(t, Args(t.index, sent), t2, [], t', raw);
    assert Args(t.index, sent) + [] == Args(t.index, sent);
  }

  lemma TagSent(t: Tool, raw: string, p: Param, rest: string) returns (t1: Tool)
    requires At(t, raw, WriteParam(t.lits, p) + rest) && t.state == BetweenParams
    ensures At(t1, raw, p.text + (t.lits.paramEnd + ("\n" + rest)))
    ensures t1 == t.(pos := t1.pos, state := ParamValue, first := false, isString := ReadParam(p).isString)
    ensures Goes(t, Args(t.index, ParamPrefix(t.first, ReadParam(p).key, ReadParam(p).isString)), t1, raw)
  {
    hide Find, Attr, Args, Spelled, KnownLits, ParamPrefix, WriteParam, ParamTag, EndsWith, StartsWith, ParamRound,
      Goes, GoodLits, KindRead, PlainTags;
    var tag, tail := ParamTag(t.lits, p), p.text + (t.lits.paramEnd + ("\n" + rest));
    ParamPieces(t.lits, p, rest);
    ParamAttrs(t.lits, p);
    TagEnd(tag, tail);
    StartsHere(tag, "");
    assert tag + "" == tag;
    ParamStarts(t.lits, p, tag);
    ValueRead(p);
    ParamRoundIs(t, raw, tag, p.key, KindRead(p), tail);
    TagStarts(t.lits, p);
    NoSpaceHere(t, raw, tag + tail);
    AtReady(t, raw, tag + tail);
    Further(t, raw, tag, tail);
    OneRound(t, raw, ParamRound(t, raw));
    t1 := ParamRound(t, raw).t;
  }

  lemma TagStarts(lits: Lits, p: Param)
    requires KnownLits(lits)
    ensures ParamTag(lits, p) != "" && ParamTag(lits, p)[0] == '<'
  {
    hide AttrEscape, Spelled, KnownLits;
    Heads(lits);
  }

  lemma ValueSent(t: Tool, raw: string, p: Param, rest: string) returns (t2: Tool)
    requires At(t, raw, p.text + (t.lits.paramEnd + ("\n" + rest))) && t.state == ParamValue
    requires t.isString == ReadParam(p).isString && Nowhere(p.text, t.lits.paramEnd)
    ensures At(t2, raw, "\n" + rest) && t2 == t.(pos := t2.pos, state := BetweenParams)
    ensures var a := ReadParam(p);
      Goes(t, Args(t.index, if a.isString then EscapeJson(a.value) else a.value)
              + Args(t.index, if a.isString then "\"" else ""), t2, raw)
  {
    hide Find, Args, Spelled, KnownLits, Value, ValueRound, Goes, GoodLits, EscapeJson, ReadParam, Nowhere;
    var n := "\n" + rest;
    Heads(t.lits);
    TextEnd(t.lits, p.text, n);
    ValueRead(p);
    ValueRoundIs(t, raw, p.text, n);
    AtReady(t, raw, p.text + (t.lits.paramEnd + n));
    Further(t, raw, p.text, t.lits.paramEnd + n);
    Further(t.(pos := t.pos + |p.text|), raw, t.lits.paramEnd, n);
    OneRound(t, raw, ValueRound(t, raw));
    t2 := ValueRound(t, raw).t;
  }

  /** All parameters of a call, and its end. */
  lemma {:induction false} ArgsSent(t: Tool, raw: string, ps: seq<Param>, rest: string) returns (t': Tool)
    requires At(t, raw, WriteParams(t.lits, ps) + (t.lits.invokeEnd + rest)) && t.state == BetweenParams && t.argsOpen
    requires Closed(t.lits, ps)
    ensures At(t', raw, rest) && t'.state == BetweenInvokes && t'.index == t.index + 1 && t'.lits == t.lits
    ensures Goes(t, Args(t.index, TightPairs(ReadParams(ps), t.first) + "}"), t', raw)
    decreases |ps|
  {
    hide At, Args, Spelled, KnownLits, Goes, WriteParam, TightPair, ReadParam, Nowhere, PlainTags;
    var end := t.lits.invokeEnd + rest;
    if ps == [] {
      assert "" + end == end;
      t' := CloseSent(t, raw, rest);
      assert "" + "}" == "}";
    } else {
      var more := WriteParams(t.lits, ps[1..]) + end;
      assert WriteParams(t.lits, ps) + end == WriteParam(t.lits, ps[0]) + more;
      InvokeEnds(t, raw, WriteParams(t.lits, ps) + end);
      var t1 := ArgSent(t, raw, ps[0], more);
      t' := ArgsSent(t1, raw, ps[1..], rest);
      var a := (if t.first then "" else ",") + TightPair(ReadParam(ps[0]));
      var b := TightPairs(ReadParams(ps[1..]), false) + "}";
      GoesOn(t, Args(t.index, a), t1, Args(t.index, b), t', raw);
      ArgsConcat(t.index, a, b);
      assert a + b == TightPairs(ReadParams(ps), t.first) + "}";
    }
  }

  lemma InvokeEnds(t: Tool, raw: string, text: string)
    requires At(t, raw, text)
    ensures t.lits.invokeEnd != "" && t.lits.callsEnd != "" && t.lits.invokeStart != ""
  {
    hide KnownLits;
    Heads(t.lits);
  }

  lemma CloseSent(t: Tool, raw: string, rest: string) returns (t': Tool)
    requires At(t, raw, t.lits.invokeEnd + rest) && t.state == BetweenParams && t.argsOpen
    ensures At(t', raw, rest) && t'.state == BetweenInvokes && t'.index == t.index + 1 && t'.lits == t.lits
    ensures Goes(t, Args(t.index, "}"), t', raw)
  {
    hide Find, Args, Spelled, KnownLits, ParamRound, Goes, GoodLits;
    Heads(t.lits);
    CloseRoundIs(t, raw, rest);
    NoSpaceHere(t, raw, t.lits.invokeEnd + rest);
    AtReady(t, raw, t.lits.invokeEnd + rest);
    Further(t, raw, t.lits.invokeEnd, rest);
    OneRound(t, raw, ParamRound(t, raw));
    t' := ParamRound(t, raw).t;
  }

  /** What is sent for a call: its name, and then its arguments. */
  function CallAtoms(index: nat, c: Call): seq<Atom> {
    [Header(index, c.name)] + Args(index, TightObject(c.args))
  }

  function AllAtoms(index: nat, calls: seq<Call>): seq<Atom>
    decreases |calls|
  {
    if calls == [] then [] else CallAtoms(index, calls[0]) + AllAtoms(index + 1, calls[1..])
  }

  /** The calls that written calls are read as. */
  function Meant(cs: seq<Invoke>): seq<Call> {
    if cs == [] then [] else [Call(cs[0].name, ReadParams(cs[0].params))] + Meant(cs[1..])
  }

  lemma CallSent(t: Tool, raw: string, c: Invoke, rest: string) returns (t': Tool)
    requires At(t, raw, WriteInvoke(t.lits, c) + rest) && t.state == BetweenInvokes && Closed(t.lits, c.params)
    requires rest != ""
    ensures At(t', raw, rest) && t'.state == BetweenInvokes && t'.index == t.index + 1 && t'.lits == t.lits
    ensures Goes(t, CallAtoms(t.index, Call(c.name, ReadParams(c.params))), t', raw)
  {
    hide At, Args, Spelled, KnownLits, Goes, WriteParams, InvokeTag, TightPairs, Closed, ReadParams;
    var n := "\n" + rest;
    var body := WriteParams(t.lits, c.params) + (t.lits.invokeEnd + n);
    CallText(t.lits, c, rest);
    var t1 := InvokeSent(t, raw, c.name, "\n" + body);
    InvokeEnds(t, raw, WriteInvoke(t.lits, c) + rest);
    LineSkipped(t1, raw, body);
    var t2 := t1.(pos := t1.pos + 1);
    var t3 := ArgsSent(t2, raw, c.params, n);
    LineSkipped(t3, raw, rest);
    t' := t3.(pos := t3.pos + 1);
    CallGoes(t, t1, t2, t3, t', raw, c.name, ReadParams(c.params));
  }

  lemma CallGoes(t: Tool, t1: Tool, t2: Tool, t3: Tool, t4: Tool, raw: string, name: string, args: seq<JsonArg>)
    requires Goes(t, [Header(t.index, name)] + Args(t.index, "{"), t1, raw) && Goes(t1, [], t2, raw)
    requires Goes(t2, Args(t.index, TightPairs(args, true) + "}"), t3, raw) && Goes(t3, [], t4, raw)
    ensures Goes(t, CallAtoms(t.index, Call(name, args)), t4, raw)
  {
    hide Args, Goes, TightPairs;
    var open := [Header(t.index, name)] + Args(t.index, "{");
    var inside := Args(t.index, TightPairs(args, true) + "}");
    GoesOn(t, open, t1, [], t2, raw);
    GoesOn(t, open + [], t2, inside, t3, raw);
    GoesOn(t, open + [] + inside, t3, [], t4, raw);
    ArgsConcat(t.index, "{", TightPairs(args, true) + "}");
    assert "{" + (TightPairs(args, true) + "}") == TightObject(args);
    assert open + [] + inside + [] == CallAtoms(t.index, Call(name, args));
  }

  lemma InvokeSent(t: Tool, raw: string, name: string, rest: string) returns (t': Tool)
    requires At(t, raw, InvokeTag(t.lits, name) + rest) && t.state == BetweenInvokes
    ensures At(t', raw, rest) && t'.state == BetweenParams && t'.argsOpen && t'.first && t'.index == t.index
    ensures t'.lits == t.lits
    ensures Goes(t, [Header(t.index, name)] + Args(t.index, "{"), t', raw)
  {
    hide Find, Attr, Args, Spelled, KnownLits, InvokeRound, Goes, GoodLits, InvokeTag, StartsWith;
    var tag := InvokeTag(t.lits, name);
    Heads(t.lits);
    InvokeAttrs(t.lits, name);
    TagEnd(tag, rest);
    InvokeRoundIs(t, raw, tag, name, rest);
    StartsThrough(tag, tag, t.lits.invokeStart) by { StartsHere(tag, ""); assert tag + "" == tag; }
    NoSpaceHere(t, raw, tag + rest);
    AtReady(t, raw, tag + rest);
    Further(t, raw, tag, rest);
    OneRound(t, raw, InvokeRound(t, raw));
    t' := InvokeRound(t, raw).t;
  }

  /** All calls of a block: that is all the parser sends. */
  lemma {:induction false} CallsSent(t: Tool, raw: string, cs: seq<Invoke>, rest: string)
    requires At(t, raw, WriteInvokes(t.lits, cs) + (t.lits.callsEnd + rest)) && t.state == BetweenInvokes
    requires AllClosed(t.lits, cs)
    ensures Ready(t, raw) && ToolUpdate(t, raw).1 == AllAtoms(t.index, Meant(cs))
    decreases |cs|
  {
    hide At, Spelled, KnownLits, Closed, WriteInvoke, CallAtoms, ToolUpdate, ReadParams;
    AtReady(t, raw, WriteInvokes(t.lits, cs) + (t.lits.callsEnd + rest));
    var end := t.lits.callsEnd + rest;
    if cs == [] {
      assert "" + end == end;
      EndSent(t, raw, rest);
    } else {
      var more := WriteInvokes(t.lits, cs[1..]) + end;
      assert WriteInvokes(t.lits, cs) + end == WriteInvoke(t.lits, cs[0]) + more;
      InvokeEnds(t, raw, WriteInvoke(t.lits, cs[0]) + more);
      var t1 := CallSent(t, raw, cs[0], more);
      CallsSent(t1, raw, cs[1..], rest);
    }
  }

  lemma EndSent(t: Tool, raw: string, rest: string)
    requires At(t, raw, t.lits.callsEnd + rest) && t.state == BetweenInvokes && Ready(t, raw)
    ensures ToolUpdate(t, raw).1 == []
  {
    hide Find, Spelled, KnownLits, InvokeRound, GoodLits;
    Heads(t.lits);
    EndRoundIs(t, raw, rest);
    NoSpaceHere(t, raw, t.lits.callsEnd + rest);
  }

  // ----- what the client reads -----

  /** The headers received, in order. */
  function Headers(atoms: seq<Atom>): seq<Atom> {
    if atoms == [] then [] else (if atoms[0].Header? then [atoms[0]] else []) + Headers(atoms[1..])
  }

  /** The argument characters received for one call, joined. */
  function Joined(atoms: seq<Atom>, index: nat): string {
    if atoms == [] then ""
    else (if atoms[0].Arg? && atoms[0].index == index then [atoms[0].c] else "") + Joined(atoms[1..], index)
  }

  /** No argument comes before its call's header. */
  ghost predicate HeadersFirst(atoms: seq<Atom>) {
    forall k :: 0 <= k < |atoms| && atoms[k].Arg? ==>
      exists j :: 0 <= j < k && atoms[j].Header? && atoms[j].index == atoms[k].index
  }

  lemma {:induction false} ReadConcat(a: seq<Atom>, b: seq<Atom>, index: nat)
    ensures Headers(a + b) == Headers(a) + Headers(b) && Joined(a + b, index) == Joined(a, index) + Joined(b, index)
  {
    if a == [] {
      assert a + b == b;
    } else {
      assert (a + b)[1..] == a[1..] + b && (a + b)[0] == a[0];
      ReadConcat(a[1..], b, index);
      var h := if a[0].Header? then [a[0]] else [];
      var x := if a[0].Arg? && a[0].index == index then [a[0].c] else "";
      assert h + (Headers(a[1..]) + Headers(b)) == (h + Headers(a[1..])) + Headers(b);
      assert x + (Joined(a[1..], index) + Joined(b, index)) == (x + Joined(a[1..], index)) + Joined(b, index);
    }
  }

  lemma {:induction false} ReadArgs(i: nat, s: string, index: nat)
    ensures Headers(Args(i, s)) == [] && Joined(Args(i, s), index) == if i == index then s else ""
  {
    if s != "" {
      assert Args(i, s)[1..] == Args(i, s[1..]);
      ReadArgs(i, s[1..], index);
    }
  }

  lemma ReadCall(i: nat, c: Call, index: nat)
    ensures Headers(CallAtoms(i, c)) == [Header(i, c.name)]
    ensures Joined(CallAtoms(i, c), index) == if i == index then TightObject(c.args) else ""
  {
    hide TightObject, Args;
    var h := [Header(i, c.name)];
    ReadConcat(h, Args(i, TightObject(c.args)), index);
    ReadArgs(i, TightObject(c.args), index);
    assert h[1..] == [];
  }

  lemma {:induction false} HeadersAll(first: nat, calls: seq<Call>)
    ensures |Headers(AllAtoms(first, calls))| == |calls|
    ensures forall i :: 0 <= i < |calls| ==> Headers(AllAtoms(first, calls))[i] == Header(first + i, calls[i].name)
    decreases |calls|
  {
    hide TightObject, CallAtoms, Joined, Headers;
    if calls == [] {
      NothingRead(0);
    } else {
      ReadCall(first, calls[0], 0);
      HeadersAll(first + 1, calls[1..]);
      ReadConcat(CallAtoms(first, calls[0]), AllAtoms(first + 1, calls[1..]), 0);
    }
  }

  lemma NothingRead(index: nat)
    ensures Headers([]) == [] && Joined([], index) == ""
  {
  }

  lemma {:induction false} JoinedAll(first: nat, calls: seq<Call>, index: nat)
    ensures first <= index < first + |calls| ==>
      Joined(AllAtoms(first, calls), index) == TightObject(calls[index - first].args)
    ensures !(first <= index < first + |calls|) ==> Joined(AllAtoms(first, calls), index) == ""
    decreases |calls|
  {
    hide TightObject, CallAtoms, Joined, Headers;
    if calls == [] {
      NothingRead(index);
    } else {
      ReadCall(first, calls[0], index);
      JoinedAll(first + 1, calls[1..], index);
      ReadConcat(CallAtoms(first, calls[0]), AllAtoms(first + 1, calls[1..]), index);
      if first == index { assert TightObject(calls[0].args) + "" == TightObject(calls[0].args); }
    }
  }

  lemma {:induction false} AllHeadersFirst(first: nat, calls: seq<Call>)
    ensures HeadersFirst(AllAtoms(first, calls))
    decreases |calls|
  {
    hide TightObject, Args;
    if calls != [] {
      AllHeadersFirst(first + 1, calls[1..]);
      ArgsAre(first, TightObject(calls[0].args));
      CallThenOthers(first, calls[0], AllAtoms(first + 1, calls[1..]));
    }
  }

  lemma CallThenOthers(i: nat, c: Call, b: seq<Atom>)
    requires HeadersFirst(b)
    requires forall k :: 0 <= k < |Args(i, TightObject(c.args))| ==> Args(i, TightObject(c.args))[k].index == i
    ensures HeadersFirst(CallAtoms(i, c) + b)
  {
    hide TightObject, Args;
    var a: seq<Atom> := CallAtoms(i, c);
    var s: seq<Atom> := a + b;
    assert s[0] == Header(i, c.name);
    forall k | 0 <= k < |s| && s[k].Arg?
      ensures exists j :: 0 <= j < k && s[j].Header? && s[j].index == s[k].index
    {
      if k < |a| {
        assert k > 0 && s[k] == Args(i, TightObject(c.args))[k - 1];
      } else {
        assert s[k] == b[k - |a|];
        var j :| 0 <= j < k - |a| && b[j].Header? && b[j].index == b[k - |a|].index;
        assert s[|a| + j] == b[j];
      }
    }
  }

  lemma ArgsAre(i: nat, s: string)
    ensures forall k :: 0 <= k < |Args(i, s)| ==> Args(i, s)[k].Arg? && Args(i, s)[k].index == i
  {
  }

  /** The argument characters of one call are one JSON object with these members. */
  ghost predicate ReceivedAt(atoms: seq<Atom>, i: nat, args: seq<JsonArg>) {
    IsJson(Joined(atoms, i)) && ParseArgs(Joined(atoms, i)) == Some(args)
  }

  /** The calls a client has received: each name under its index, in order and before its arguments,
      and arguments that are one JSON object with the members that were written. */
  ghost predicate Received(atoms: seq<Atom>, calls: seq<Call>) {
    && |Headers(atoms)| == |calls| && HeadersFirst(atoms)
    && (forall i :: 0 <= i < |calls| ==> Headers(atoms)[i] == Header(i, calls[i].name))
    && (forall i: nat :: i < |calls| ==> ReceivedAt(atoms, i, calls[i].args))
  }

  /** Every value that is no string is JSON. */
  ghost predicate ArgsJson(calls: seq<Call>) {
    forall i :: 0 <= i < |calls| ==> AllJson(calls[i].args)
  }

  /** The calls as a reader of their arguments keeps them. */
  function KeptCalls(calls: seq<Call>): seq<Call>
    requires ArgsJson(calls)
  {
    if calls == [] then [] else [Call(calls[0].name, AllKept(calls[0].args))] + KeptCalls(calls[1..])
  }

  lemma {:induction false} KeptAt(calls: seq<Call>)
    requires ArgsJson(calls)
    ensures |KeptCalls(calls)| == |calls|
    ensures forall i :: 0 <= i < |calls| ==>
      KeptCalls(calls)[i].name == calls[i].name && KeptCalls(calls)[i].args == AllKept(calls[i].args)
  {
    hide AllJson, AllKept;
    if calls != [] { KeptAt(calls[1..]); }
  }

  lemma AllReceived(calls: seq<Call>)
    requires ArgsJson(calls)
    ensures Received(AllAtoms(0, calls), KeptCalls(calls))
  {
    hide *;
    AllHeadersFirst(0, calls);
    HeadersAll(0, calls);
    KeptAt(calls);
    EachReceived(calls);
    IsReceived(AllAtoms(0, calls), calls, KeptCalls(calls));
  }

  lemma EachReceived(calls: seq<Call>)
    requires ArgsJson(calls)
    ensures |KeptCalls(calls)| == |calls|
    ensures forall i: nat :: i < |calls| ==> ReceivedAt(AllAtoms(0, calls), i, KeptCalls(calls)[i].args)
  {
    hide ReceivedAt, AllAtoms, AllJson, AllKept, KeptCalls;
    KeptAt(calls);
    forall i: nat | i < |calls|
      ensures ReceivedAt(AllAtoms(0, calls), i, KeptCalls(calls)[i].args)
    {
      OneReceived(calls, i);
    }
  }

  lemma IsReceived(atoms: seq<Atom>, calls: seq<Call>, kept: seq<Call>)
    requires |Headers(atoms)| == |calls| == |kept| && HeadersFirst(atoms)
    requires forall i :: 0 <= i < |calls| ==> Headers(atoms)[i] == Header(0 + i, calls[i].name)
    requires forall i :: 0 <= i < |calls| ==> kept[i].name == calls[i].name
    requires forall i: nat :: i < |calls| ==> ReceivedAt(atoms, i, kept[i].args)
    ensures Received(atoms, kept)
  {
    hide HeadersFirst, Headers, Joined, IsJson, ParseArgs;
  }

  lemma OneReceived(calls: seq<Call>, i: nat)
    requires i < |calls| && AllJson(calls[i].args)
    ensures ReceivedAt(AllAtoms(0, calls), i, AllKept(calls[i].args))
  {
    hide TightObject, IsJson, ParseArgs, AllAtoms, Joined, AllJson, AllKept, Headers;
    JoinedAt(calls, i);
    TightRead(calls[i].args);
  }

  lemma JoinedAt(calls: seq<Call>, i: nat)
    requires i < |calls|
    ensures Joined(AllAtoms(0, calls), i) == TightObject(calls[i].args)
  {
    hide *;
    JoinedAll(0, calls, i);
  }

  // ----- whole replies -----

  /** Behind a text without a start of calls, the first start is that of the written calls. */
  lemma CallsStart(head: string, c: string, lits: Lits, more: string)
    requires NoCalls(c) && KnownLits(lits)
    ensures var raw, n := head + (c + (lits.callsStart + more)), |head| + |c|;
      && FindTool(raw, |head|) == n && LitsAt(raw, n) == lits
      && raw[..n] == head + c && raw[n..] == lits.callsStart + more
  {
    hide FindTool, MatchAt, Spelled, Nowhere, KnownLits, LitsAt;
    var rest := lits.callsStart + more;
    var raw, n := head + (c + rest), |head| + |c|;
    RawText(head, c, rest);
    MatchFrom(raw, n, lits.callsStart);
    StartsHere(lits.callsStart, more);
    KnownStart(lits);
    forall k: nat | |head| <= k < n
      ensures !StartsAt(raw, k)
    {
      NotYet(head, c, lits, more, LONG.callsStart, k);
      NotYet(head, c, lits, more, SHORT.callsStart, k);
      NotYet(head, c, lits, more, PLAIN.callsStart, k);
    }
    FirstTool(raw, |head|, n);
    OneSpelling(raw, n, lits);
  }

  lemma RawText(head: string, c: string, rest: string)
    ensures var raw, n := head + (c + rest), |head| + |c|; n <= |raw| && raw[..n] == head + c && raw[n..] == rest
  {
    assert head + (c + rest) == (head + c) + rest;
  }

  /** The spellings differ in their second character. */
  lemma OneSpelling(raw: string, n: nat, lits: Lits)
    requires KnownLits(lits) && MatchAt(raw, n, lits.callsStart)
    ensures LitsAt(raw, n) == lits
  {
    hide MatchAt;
    assert LONG.callsStart == "<" + DSML + "tool_calls>" && SHORT.callsStart == "<" + DSML_SHORT + "tool_calls>";
    assert PLAIN.callsStart == "<" + "" + "tool_calls>";
    MatchChars(raw, n, lits.callsStart);
    var x := raw[n + 1];
    if MatchAt(raw, n, LONG.callsStart) { MatchChars(raw, n, LONG.callsStart); }
    if MatchAt(raw, n, SHORT.callsStart) { MatchChars(raw, n, SHORT.callsStart); }
  }

  lemma FirstTool(raw: string, from: nat, n: nat)
    requires from <= n && StartsAt(raw, n) && forall k: nat :: from <= k < n ==> !StartsAt(raw, k)
    ensures FindTool(raw, from) == n
  {
    hide StartsAt;
  }

  lemma NotYet(head: string, c: string, lits: Lits, more: string, lit: string, k: nat)
    requires KnownLits(lits) && (lit == LONG.callsStart || lit == SHORT.callsStart || lit == PLAIN.callsStart)
    requires Nowhere(c, lit) && |head| <= k < |head| + |c|
    ensures !MatchAt(head + (c + (lits.callsStart + more)), k, lit)
  {
    hide Spelled, MatchAt, KnownLits, Nowhere;
    StartTags(lit);
    KnownStart(lits);
    StartTags(lits.callsStart);
    var rest := lits.callsStart + more;
    assert rest[0] == '<';
    MatchBehind(head, c + rest, k, lit);
    NoCross(c, rest, lit, k - |head|);
  }

  /** The text part of a reply that ends in calls, and in text that is not sent. */
  lemma TextAndCalls(st: Stream, head: string, c: string, lits: Lits, cs: seq<Invoke>, rest: string)
    requires st.mode == Text && st.pos == |head| && NoCalls(c) && KnownLits(lits) && AllClosed(lits, cs)
    requires ArgsJson(Meant(cs))
    ensures var raw := head + (c + (Block(lits, cs) + rest));
            && Fits(st, raw)
            && var o := RestUpdate(st, raw, true, true).1;
               o.reasoning == "" && o.content == Trimmed(c) && Received(o.calls, KeptCalls(Meant(cs)))
  {
    hide *;
    var n, more := |head| + |c|, "\n" + (WriteInvokes(lits, cs) + (lits.callsEnd + rest));
    BlockText(lits, cs, rest);
    var raw := head + (c + (lits.callsStart + more));
    CallsStart(head, c, lits, more);
    ContentSent(head, c, raw);
    BlockSent(raw, n, lits, cs, rest);
    TextThenCalls(st, raw, n, lits, Trimmed(c), AllAtoms(0, Meant(cs)));
    AllReceived(Meant(cs));
  }

  /** One final update in front of a block of calls. */
  lemma TextThenCalls(st: Stream, raw: string, n: nat, lits: Lits, content: string, calls: seq<Atom>)
    requires st.mode == Text && st.pos <= |raw| && FindTool(raw, st.pos) == n && LitsAt(raw, n) == lits
    requires raw[st.pos..TextSafe(raw, st.pos, true, true)] == content
    requires var t := Tool(BetweenInvokes, lits, n + |lits.callsStart|, 0, false, false, false);
      Ready(t, raw) && ToolUpdate(t, raw).1 == calls
    ensures Fits(st, raw) && RestUpdate(st, raw, true, true).1 == Out("", content, calls)
  {
    hide FindTool, Spelled, ToolUpdate, LitsAt, GoodLits, Trim;
    TextFits(st, raw, true, true);
    assert [] + calls == calls;
  }

  /** The tool mode, from the block's opening tag on. */
  lemma BlockSent(raw: string, n: nat, lits: Lits, cs: seq<Invoke>, rest: string)
    requires n <= |raw| && KnownLits(lits) && AllClosed(lits, cs)
    requires raw[n..] == lits.callsStart + ("\n" + (WriteInvokes(lits, cs) + (lits.callsEnd + rest)))
    ensures var t := Tool(BetweenInvokes, lits, n + |lits.callsStart|, 0, false, false, false);
      Ready(t, raw) && ToolUpdate(t, raw).1 == AllAtoms(0, Meant(cs))
  {
    hide Spelled, KnownLits, ToolUpdate, GoodLits, AllClosed, WriteInvokes, PlainTags, AllAtoms, Meant;
    var body := WriteInvokes(lits, cs) + (lits.callsEnd + rest);
    BehindStart(raw, n, lits.callsStart, "\n" + body);
    var t := Tool(BetweenInvokes, lits, n + |lits.callsStart|, 0, false, false, false);
    AtReady(t, raw, "\n" + body);
    InvokeEnds(t, raw, "\n" + body);
    LineSkipped(t, raw, body);
    CallsSent(t.(pos := t.pos + 1), raw, cs, rest);
    assert [] + AllAtoms(0, Meant(cs)) == AllAtoms(0, Meant(cs));
  }

  lemma BehindStart(raw: string, n: nat, start: string, body: string)
    requires n <= |raw| && raw[n..] == start + body
    ensures n + |start| <= |raw| && raw[n + |start|..] == body
  {
    assert raw[n + |start|..] == raw[n..][|start|..];
  }

  /** What is sent in front of the calls. */
  lemma ContentSent(head: string, c: string, raw: string)
    requires |raw| >= |head| + |c| && FindTool(raw, |head|) == |head| + |c|
    requires raw[..|head| + |c|] == head + c
    ensures |head| <= TextSafe(raw, |head|, true, true) <= |raw|
    ensures raw[|head|..TextSafe(raw, |head|, true, true)] == Trimmed(c)
  {
    hide FindTool, Trim, Trimmed;
    PartIs(head, c, raw);
    TrimmedPart(raw, |head|, c);
  }

  lemma TrimmedPart(raw: string, p: nat, c: string)
    requires p + |c| <= |raw| && forall k :: 0 <= k < |c| ==> raw[p + k] == c[k]
    ensures var e := Trim(raw, p, p + |c|); p <= e <= |raw| && raw[p..e] == Trimmed(c)
  {
    hide Trim;
    TrimSlice(raw, p, c, |c|);
    TrimBounds(c, 0, |c|);
    SamePart(raw, p, c, Trim(c, 0, |c|));
  }

  lemma PartIs(head: string, c: string, raw: string)
    requires |raw| >= |head| + |c| && raw[..|head| + |c|] == head + c
    ensures forall k :: 0 <= k < |c| ==> raw[|head| + k] == c[k]
  {
    assert forall k :: 0 <= k < |c| ==> c[k] == raw[..|head| + |c|][|head| + k] == raw[|head| + k];
  }

  lemma SamePart(raw: string, p: nat, c: string, m: nat)
    requires p + |c| <= |raw| && m <= |c| && forall k :: 0 <= k < |c| ==> raw[p + k] == c[k]
    ensures raw[p..p + m] == c[..m]
  {
  }

  /** Trimming goes by the characters alone. */
  lemma {:induction false} TrimSlice(raw: string, p: nat, c: string, m: nat)
    requires m <= |c| && p + m <= |raw| && forall k :: 0 <= k < m ==> raw[p + k] == c[k]
    ensures Trim(raw, p, p + m) == p + Trim(c, 0, m)
  {
    if m > 0 {
      assert raw[p + (m - 1)] == c[m - 1];
      TrimSlice(raw, p, c, m - 1);
    }
  }

  lemma TrimLines(c: string)
    ensures Trim(c + "\n\n", 0, |c| + 2) == Trim(c, 0, |c|)
  {
    var s := c + "\n\n";
    assert s[|c|] == '\n' && s[|c| + 1] == '\n' && s[..|c|] == c;
    assert Trim(s, 0, |c| + 2) == Trim(s, 0, |c| + 1) == Trim(s, 0, |c|);
    TrimSame(s, |c|, 0, |c|);
  }

  /** Without thinking, in any spelling: the content, and then the calls. */
  lemma SpelledReceived(c: string, lits: Lits, cs: seq<Invoke>, rest: string)
    requires NoCalls(c) && KnownLits(lits) && AllClosed(lits, cs)
    requires ArgsJson(Meant(cs))
    ensures var o := Sent(Start(false), c + (Block(lits, cs) + rest), true);
            o.reasoning == "" && o.content == Trimmed(c) && Received(o.calls, KeptCalls(Meant(cs)))
  {
    hide RestUpdate, Block, Received, NoCalls, ArgsJson, KeptCalls, Meant, AllClosed, KnownLits, Trimmed;
    assert "" + (c + (Block(lits, cs) + rest)) == c + (Block(lits, cs) + rest);
    TextAndCalls(Start(false), "", c, lits, cs, rest);
  }

  /** Calls that were rendered, all of them surviving, are meant as they were. */
  lemma {:induction false} RenderedMeant(calls: seq<Call>)
    requires forall i :: 0 <= i < |calls| ==> AllSurvive(calls[i]) && AllStored(calls[i].args)
    ensures AllClosed(LONG, InvokesOf(calls)) && Meant(InvokesOf(calls)) == calls
    ensures ArgsJson(calls) && KeptCalls(calls) == calls
  {
    hide Closed, ReadParams, ParamsOf, AllStored, Survives, AllJson, AllKept;
    if calls != [] {
      AllStoredKept(calls[0].args);
      RenderedClosed(calls[0].args);
      SurvivorsBack(calls[0].args);
      RenderedMeant(calls[1..]);
      assert InvokesOf(calls)[1..] == InvokesOf(calls[1..]);
      assert Call(calls[0].name, calls[0].args) == calls[0];
    }
  }

  ghost predicate AllSurvive(c: Call) {
    forall i :: 0 <= i < |c.args| ==> Survives(c.args[i])
  }

  lemma LinesFree(c: string)
    requires NoCalls(c)
    ensures NoCalls(c + "\n\n") && Trimmed(c + "\n\n") == Trimmed(c)
  {
    hide Spelled, MatchAt;
    TrimLines(c);
    TrimBounds(c, 0, |c|);
    forall k: nat, lits | KnownLits(lits)
      ensures !MatchAt(c + "\n\n", k, lits.callsStart)
    {
      LineFree(c, lits, k);
    }
  }

  lemma LineFree(c: string, lits: Lits, k: nat)
    requires KnownLits(lits) && Nowhere(c, lits.callsStart)
    ensures !MatchAt(c + "\n\n", k, lits.callsStart)
  {
    hide Spelled, KnownLits, MatchAt;
    StartChars(lits);
    var lit, s := lits.callsStart, c + "\n\n";
    if k < |c| {
      NoCross(c, "\n\n", lit, k);
    } else if k < |s| {
      assert s[k] == "\n\n"[k - |c|];
      NoBracket(s, k, lit);
    } else {
      NoRoom(s, k, lit);
    }
  }

  /** The same for rendered calls. */
  lemma ReplyReceived(c: string, calls: seq<Call>)
    requires NoCalls(c) && calls != []
    requires forall i :: 0 <= i < |calls| ==> AllSurvive(calls[i]) && AllStored(calls[i].args)
    ensures var o := Sent(Start(false), c + Render(calls), true);
            o.reasoning == "" && o.content == Trimmed(c) && Received(o.calls, calls)
  {
    hide *;
    LinesFree(c);
    RenderedMeant(calls);
    RenderText(c, calls);
    LongFirst("");
    SpelledReceived(c + "\n\n", LONG, InvokesOf(calls), "");
  }

  // ----- thinking -----

  /** The closing tag, found by the stream behind its opening tag. */
  lemma ThoughtSent(tagged: bool, r: string, rest: string)
    requires Nowhere(r, CLOSE) && (tagged || !StartsWith(r, OPEN))
    ensures var raw := Thought(tagged, r) + rest;
            var (st, o, more) := ThinkUpdate(Start(true), raw, true);
            && more && st.mode == Text && st.pos == |Thought(tagged, r)| && o == Out(r, "", [])
  {
    hide Find, Nowhere;
    var raw := Thought(tagged, r) + rest;
    var p := if tagged then 7 else 0;
    var body := r + (CLOSE + rest);
    assert raw[p..] == body;
    CloseFound(r, rest);
    FindFrom(raw, p, CLOSE, |r|);
    StreamOpening(tagged, r, rest);
    assert raw[p..p + |r|] == body[..|r|] == r;
  }

  lemma StreamOpening(tagged: bool, r: string, rest: string)
    requires tagged || !StartsWith(r, OPEN)
    ensures var raw := Thought(tagged, r) + rest; (|raw| >= |THINK| && raw[..|THINK|] == THINK) == tagged
  {
    var raw := Thought(tagged, r) + rest;
    if tagged {
      assert raw[..7] == OPEN;
    } else {
      assert raw == r + (CLOSE + rest);
      NoOpening(r, rest);
    }
  }

  lemma SentThinking(raw: string, hasTools: bool, r: string)
    requires var (st, o, more) := ThinkUpdate(Start(true), raw, true);
             more && st.mode == Text && st.pos <= |raw| && o == Out(r, "", [])
    ensures var st := ThinkUpdate(Start(true), raw, true).0;
            && Fits(Start(true), raw) && Fits(st, raw)
            && var (a, b) := (Sent(Start(true), raw, hasTools), RestUpdate(st, raw, hasTools, true).1);
               a.reasoning == r + b.reasoning && a.content == b.content && a.calls == b.calls
  {
    hide ThinkUpdate, RestUpdate;
    var (st, o, more) := ThinkUpdate(Start(true), raw, true);
    var b := RestUpdate(st, raw, hasTools, true).1;
    assert "" + b.content == b.content && [] + b.calls == b.calls;
  }

  /** Reasoning, content and calls in any spelling: each is sent as what it is. */
  lemma ThoughtfulSpelledReceived(tagged: bool, r: string, c: string, lits: Lits, cs: seq<Invoke>, rest: string)
    requires Nowhere(r, CLOSE) && (tagged || !StartsWith(r, OPEN))
    requires NoCalls(c) && KnownLits(lits) && AllClosed(lits, cs)
    requires ArgsJson(Meant(cs))
    ensures var o := Sent(Start(true), Thought(tagged, r) + (c + (Block(lits, cs) + rest)), true);
            o.reasoning == r && o.content == Trimmed(c) && Received(o.calls, KeptCalls(Meant(cs)))
  {
    hide *;
    var head, tail := Thought(tagged, r), c + (Block(lits, cs) + rest);
    HeadFits(head, tail);
    StartsAtZero();
    ThoughtSent(tagged, r, tail);
    TextAndCalls(ThinkUpdate(Start(true), head + tail, true).0, head, c, lits, cs, rest);
    SentThinking(head + tail, true, r);
    assert r + "" == r;
  }

  /** The same for rendered calls. */
  lemma ThoughtfulReplyReceived(tagged: bool, r: string, c: string, calls: seq<Call>)
    requires Nowhere(r, CLOSE) && (tagged || !StartsWith(r, OPEN)) && NoCalls(c) && calls != []
    requires forall i :: 0 <= i < |calls| ==> AllSurvive(calls[i]) && AllStored(calls[i].args)
    ensures var o := Sent(Start(true), Thought(tagged, r) + (c + Render(calls)), true);
            o.reasoning == r && o.content == Trimmed(c) && Received(o.calls, calls)
  {
    hide *;
    LinesFree(c);
    RenderedMeant(calls);
    RenderText(c, calls);
    LongFirst("");
    ThoughtfulSpelledReceived(tagged, r, c + "\n\n", LONG, InvokesOf(calls), "");
  }

  lemma StartsAtZero()
    ensures Start(true).pos == 0 && Start(true).mode == Thinking
  {
  }

  lemma HeadFits(a: string, b: string)
    ensures |a| <= |a + b|
  {
  }

  /** A final text update without calls sends all that is left. */
  lemma TextOnly(st: Stream, raw: string, hasTools: bool)
    requires st.mode == Text && st.pos <= |raw| && (hasTools ==> FindTool(raw, st.pos) < 0)
    ensures Fits(st, raw) && RestUpdate(st, raw, hasTools, true).1 == Out("", raw[st.pos..], [])
  {
    hide FindTool;
    TextFits(st, raw, hasTools, true);
  }

  lemma NoToolIn(head: string, c: string)
    requires NoCalls(c)
    ensures FindTool(head + c, |head|) < 0
  {
    hide FindTool, MatchAt, Spelled;
    FindToolStarts(head + c, |head|);
    var k := FindTool(head + c, |head|);
    if k >= 0 {
      MatchBehind(head, c, k, LONG.callsStart);
      MatchBehind(head, c, k, SHORT.callsStart);
      MatchBehind(head, c, k, PLAIN.callsStart);
    }
  }

  /** Reasoning and content without calls. */
  lemma ThoughtReceived(tagged: bool, r: string, c: string, hasTools: bool)
    requires Nowhere(r, CLOSE) && (tagged || !StartsWith(r, OPEN)) && (hasTools ==> NoCalls(c))
    ensures Sent(Start(true), Thought(tagged, r) + c, hasTools) == Out(r, c, [])
  {
    hide *;
    var head := Thought(tagged, r);
    ThoughtSent(tagged, r, c);
    HeadFits(head, c);
    StartsAtZero();
    if hasTools { NoToolIn(head, c); }
    TextOnly(ThinkUpdate(Start(true), head + c, true).0, head + c, hasTools);
    assert (head + c)[|head|..] == c;
    SentThinking(head + c, hasTools, r);
    assert r + "" == r;
  }

  /** Content alone, and reasoning that never ends. */
  lemma ContentReceived(c: string, hasTools: bool)
    requires hasTools ==> NoCalls(c)
    ensures Sent(Start(false), c, hasTools) == Out("", c, [])
  {
    hide FindTool, Spelled, RestUpdate, NoCalls;
    assert "" + c == c;
    if hasTools { NoToolIn("", c); }
    TextOnly(Start(false), c, hasTools);
    assert c[0..] == c;
  }

  lemma EndlessThoughtReceived(tagged: bool, r: string, hasTools: bool)
    requires Nowhere(r, CLOSE) && (tagged || !StartsWith(r, OPEN))
    ensures Sent(Start(true), (if tagged then OPEN else "") + r, hasTools) == Out(r, "", [])
  {
    hide Find, Nowhere;
    var raw, p := (if tagged then OPEN else "") + r, if tagged then 7 else 0;
    assert raw[p..] == r;
    assert raw[..p] + r == raw;
    NoCloseFrom(raw, p, r);
    if tagged { assert raw[..7] == OPEN; } else { assert raw == r; }
  }

  lemma NoCloseFrom(raw: string, p: nat, r: string)
    requires p <= |raw| && raw == raw[..p] + r && Nowhere(r, CLOSE)
    ensures Find(raw, p, CLOSE) < 0
  {
    hide MatchAt;
    if Find(raw, p, CLOSE) >= 0 {
      MatchBehind(raw[..p], r, Find(raw, p, CLOSE), CLOSE);
    }
  }
}
