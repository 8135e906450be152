/** The loops that write and read the markup of tool calls. */
module DsmlLoops {
  import opened Common
  import opened StreamText
  import opened StreamTool
  import Json
  import opened JsonArgs
  import opened DsmlText
  import opened DsmlCalls

  method WriteAttribute(s: string) returns (b: string)
    ensures b == AttrEscape(s)
  {
    hide AttrChar;
    b := "";
    for i := 0 to |s|
      invariant AttrEscape(s) == b + AttrEscape(s[i..])
    {
      assert s[i..][1..] == s[i + 1..];
      b := b + AttrChar(s[i]);
    }
    assert s[|s|..] == "";
  }

  /** Copies a value, with `rep` for the bracket of every closing tag in it. */
  method WriteValue(s: string, end: string, rep: string) returns (b: string)
    ensures b == Shield(s, end, rep)
  {
    hide MatchAt;
    b := "";
    for i := 0 to |s|
      invariant Shield(s, end, rep) == b + Shield(s[i..], end, rep)
    {
      assert s[i..][1..] == s[i + 1..] && s[i..][0] == s[i];
      b := b + if MatchAt(s[i..], 0, end) then rep else [s[i]];
    }
    assert s[|s|..] == "";
  }

  method ReadParams(text: string, lits: Lits) returns (r: Option<(string, string)>)
    requires lits.paramEnd != ""
    ensures r == ParseParams(text, lits, "")
  {
    hide Attr, AddArg, Unescape, Json.Ws, StartsWith;
    var s, args := text, "";
    while true
      invariant ParseParams(text, lits, "") == ParseParams(s, lits, args)
      decreases |s|
    {
      ghost var before := s;
      WsShorter(s);
      s := Json.Ws(s);
      if StartsWith(s, lits.invokeEnd) {
        StartsShorter(s, lits.invokeEnd);
        return Some((args, s[|lits.invokeEnd|..]));
      }
      if !StartsWith(s, lits.paramStart) { return None; }
      var q := Find(s, 0, ">");
      if q < 0 { return None; }
      var name, isString := Attr(s[..q + 1], "name"), Attr(s[..q + 1], "string");
      if name == None || isString == None { return None; }
      var after := s[q + 1..];
      var e := Find(after, 0, lits.paramEnd);
      if e < 0 { return None; }
      var str := isString.value == "true";
      var value := if str then Unescape(after[..e]) else after[..e];
      args := AddArg(args, name.value, value, str);
      s := after[e + |lits.paramEnd|..];
    }
  }

  lemma WsShorter(s: string)
    ensures |Json.Ws(s)| <= |s| && Json.Ws(Json.Ws(s)) == Json.Ws(s)
  {
  }

  lemma StartsShorter(s: string, p: string)
    requires StartsWith(s, p)
    ensures |p| <= |s|
  {
  }

  method ReadCalls(text: string, lits: Lits) returns (r: Option<(seq<Made>, string)>)
    requires GoodLits(lits)
    ensures r == ParseInvokes(text, lits)
  {
    hide Attr, ParseParams, Json.Ws, StartsWith, EndTag;
    var s: string, calls: seq<Made> := text, [];
    AfterNone(ParseInvokes(text, lits));
    while true
      invariant |s| <= |text| && ParseInvokes(text, lits) == After(calls, ParseInvokes(s, lits))
      decreases |s|
    {
      WsShorter(s);
      InvokesTrimmed(s, lits);
      s := Json.Ws(s);
      ReadStep(s, lits);
      if StartsWith(s, lits.callsEnd) {
        StartsShorter(s, lits.callsEnd);
        assert calls + [] == calls;
        return Some((calls, s[|lits.callsEnd|..]));
      }
      if !StartsWith(s, lits.invokeStart) { return None; }
      var q := Find(s, 0, ">");
      if q < 0 { return None; }
      var name := Attr(s[..q + 1], "name");
      if name == None { return None; }
      var params := ReadParams(s[q + 1..], lits);
      if params == None { return None; }
      AfterMore(calls, Made(name.value, "{" + params.value.0 + "}"), ParseInvokes(params.value.1, lits));
      ParamsShorter(s[q + 1..], lits);
      calls := calls + [Made(name.value, "{" + params.value.0 + "}")];
      s := params.value.1;
    }
  }

  /** Calls read before the rest. */
  function After(calls: seq<Made>, rest: Option<(seq<Made>, string)>): Option<(seq<Made>, string)> {
    match rest
    case None => None
    case Some((more, end)) => Some((calls + more, end))
  }

  lemma AfterNone(rest: Option<(seq<Made>, string)>)
    ensures After([], rest) == rest
  {
    if rest.Some? { assert [] + rest.value.0 == rest.value.0; }
  }

  lemma AfterMore(calls: seq<Made>, c: Made, rest: Option<(seq<Made>, string)>)
    ensures After(calls, After([c], rest)) == After(calls + [c], rest)
  {
    if rest.Some? { assert calls + ([c] + rest.value.0) == (calls + [c]) + rest.value.0; }
  }

  lemma ParamsShorter(s: string, lits: Lits)
    ensures ParseParams(s, lits, "").Some? ==> |ParseParams(s, lits, "").value.1| <= |s|
  {
  }

  lemma InvokesTrimmed(s: string, lits: Lits)
    ensures ParseInvokes(Json.Ws(s), lits) == ParseInvokes(s, lits)
  {
    hide Attr, ParseParams, StartsWith;
    WsShorter(s);
  }

  /** One call, and then what the rest gives. */
  function ReadOne(s: string, lits: Lits): Option<(seq<Made>, string)> {
    var q := Find(s, 0, ">");
    if StartsWith(s, lits.callsEnd) then Some(([], s[|lits.callsEnd|..]))
    else if !StartsWith(s, lits.invokeStart) || q < 0 then None
    else if Attr(s[..q + 1], "name") == None then None
    else
      var params := ParseParams(s[q + 1..], lits, "");
      if params == None then None
      else After([Made(Attr(s[..q + 1], "name").value, "{" + params.value.0 + "}")], ParseInvokes(params.value.1, lits))
  }

  lemma ReadStep(s: string, lits: Lits)
    requires Json.Ws(s) == s
    ensures ParseInvokes(s, lits) == ReadOne(s, lits)
  {
    hide Attr, ParseParams, Json.Ws;
  }
}
