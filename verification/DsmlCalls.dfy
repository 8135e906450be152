/** Tool calls as the model's markup: rendering them for a prompt, parsing them out
    of generated text, and when the one undoes the other. */
module DsmlCalls {
  import opened Common
  import opened StreamText
  import opened StreamTool
  import Json
  import opened JsonArgs
  import opened DsmlText

  datatype Call = Call(name: string, args: seq<JsonArg>)

  // A call as markup in any of the three spellings; `text` stands between the
  // parameter's tags.
  datatype Param = Param(key: string, isString: bool, text: string)
  datatype Invoke = Invoke(name: string, params: seq<Param>)

  // ----- writing -----

  function Bool(b: bool): string { if b then "true" else "false" }

  function ParamTag(lits: Lits, p: Param): string {
    lits.paramStart + " name=\"" + AttrEscape(p.key) + "\" string=\"" + Bool(p.isString) + "\">"
  }

  function WriteParam(lits: Lits, p: Param): string {
    ParamTag(lits, p) + p.text + lits.paramEnd + "\n"
  }

  function WriteParams(lits: Lits, ps: seq<Param>): string {
    if ps == [] then "" else WriteParam(lits, ps[0]) + WriteParams(lits, ps[1..])
  }

  function InvokeTag(lits: Lits, name: string): string {
    lits.invokeStart + " name=\"" + AttrEscape(name) + "\">"
  }

  function WriteInvoke(lits: Lits, c: Invoke): string {
    InvokeTag(lits, c.name) + "\n" + WriteParams(lits, c.params) + lits.invokeEnd + "\n"
  }

  function WriteInvokes(lits: Lits, cs: seq<Invoke>): string {
    if cs == [] then "" else WriteInvoke(lits, cs[0]) + WriteInvokes(lits, cs[1..])
  }

  function Block(lits: Lits, cs: seq<Invoke>): string {
    lits.callsStart + "\n" + WriteInvokes(lits, cs) + lits.callsEnd
  }

  // ----- rendering -----

  function ValueMarkup(a: JsonArg): string {
    if a.isString then ParamText(a.value) else Shield(a.value, PARAM_END, JSON_REP)
  }

  function ParamOf(a: JsonArg): Param {
    Param(a.key, a.isString, ValueMarkup(a))
  }

  function ParamsOf(args: seq<JsonArg>): seq<Param> {
    if args == [] then [] else [ParamOf(args[0])] + ParamsOf(args[1..])
  }

  function InvokesOf(calls: seq<Call>): seq<Invoke> {
    if calls == [] then [] else [Invoke(calls[0].name, ParamsOf(calls[0].args))] + InvokesOf(calls[1..])
  }

  /** All calls of a message, or nothing when it has none. */
  function Render(calls: seq<Call>): string {
    if calls == [] then "" else "\n\n" + Block(LONG, InvokesOf(calls))
  }

  // ----- parsing -----

  // A call as the parser makes it: its arguments are JSON text.
  datatype Made = Made(name: string, arguments: string)

  /** The parameters of one call, added to the members in `acc`, and the text after
      the call's closing tag. */
  function ParseParams(s0: string, lits: Lits, acc: string): (r: Option<(string, string)>)
    ensures r.Some? ==> |r.value.1| <= |s0|
    decreases |s0|
  {
    var s := Json.Ws(s0);
    if StartsWith(s, lits.invokeEnd) then Some((acc, s[|lits.invokeEnd|..]))
    else if !StartsWith(s, lits.paramStart) then None
    else
      var q := Find(s, 0, ">");
      if q < 0 then None
      else
        match (Attr(s[..q + 1], "name"), Attr(s[..q + 1], "string"))
        case (Some(name), Some(isString)) =>
          var after := s[q + 1..];
          if lits.paramEnd == "" then None
          else
            var e := Find(after, 0, lits.paramEnd);
            if e < 0 then None
            else
              var raw := after[..e];
              var value := if isString == "true" then Unescape(raw) else raw;
              ParseParams(after[e + |lits.paramEnd|..], lits, AddArg(acc, name, value, isString == "true"))
        case _ => None
  }

  /** The calls of a block and the text after its closing tag. */
  function ParseInvokes(s0: string, lits: Lits): (r: Option<(seq<Made>, string)>)
    ensures r.Some? ==> |r.value.1| <= |s0|
    decreases |s0|
  {
    var s := Json.Ws(s0);
    if StartsWith(s, lits.callsEnd) then Some(([], s[|lits.callsEnd|..]))
    else if !StartsWith(s, lits.invokeStart) then None
    else
      var q := Find(s, 0, ">");
      if q < 0 then None
      else
        match Attr(s[..q + 1], "name")
        case None => None
        case Some(name) =>
          match ParseParams(s[q + 1..], lits, "")
          case None => None
          case Some((args, rest)) =>
            match ParseInvokes(rest, lits)
            case None => None
            case Some((calls, end)) => Some(([Made(name, "{" + args + "}")] + calls, end))
  }

  // A generated message taken apart; `raw` is the exact text of its calls.
  datatype Message = Failed | Message(content: string, reasoning: Option<string>, calls: seq<Made>, raw: string)

  function SplitReasoning(s: string): (string, Option<string>) {
    var body := if StartsWith(s, "<think>") then s[7..] else s;
    var e := Find(body, 0, "</think>");
    if e < 0 then (s, None) else (body[e + 8..], Some(body[..e]))
  }

  /** Where the calls of a text start, and how they are spelled. */
  function FindCalls(text: string): (r: Option<(nat, Lits)>)
    ensures r.Some? ==> KnownLits(r.value.1) && Find(text, r.value.0, r.value.1.callsStart) >= 0 && r.value.0 <= |text|
  {
    StartLits(text);
    var a := Find(text, 0, "\n\n" + LONG.callsStart);
    var b := Find(text, 0, LONG.callsStart);
    var c := Find(text, 0, "\n\n" + SHORT.callsStart);
    var d := Find(text, 0, SHORT.callsStart);
    var e := Find(text, 0, "\n\n" + PLAIN.callsStart);
    var f := Find(text, 0, PLAIN.callsStart);
    if a >= 0 then Some((a, LONG)) else if b >= 0 then Some((b, LONG))
    else if c >= 0 then Some((c, SHORT)) else if d >= 0 then Some((d, SHORT))
    else if e >= 0 then Some((e, PLAIN)) else if f >= 0 then Some((f, PLAIN))
    else None
  }

  /** A start found behind two line feeds is found from there. */
  lemma FindBehind(text: string, lit: string)
    requires lit != ""
    ensures var a := Find(text, 0, "\n\n" + lit); a >= 0 ==> a <= |text| && Find(text, a, lit) >= 0
    ensures var b := Find(text, 0, lit); b >= 0 ==> b <= |text| && Find(text, b, lit) >= 0
  {
    var a := Find(text, 0, "\n\n" + lit);
    if a >= 0 {
      assert text[a + 2..a + 2 + |lit|] == text[a..a + 2 + |lit|][2..] == lit;
      assert MatchAt(text, a + 2, lit);
    }
  }

  lemma StartLits(text: string)
    ensures forall lits :: KnownLits(lits) ==>
      && lits.callsStart != ""
      && (var a := Find(text, 0, "\n\n" + lits.callsStart); a >= 0 ==>
           a <= |text| && Find(text, a, lits.callsStart) >= 0)
      && (var b := Find(text, 0, lits.callsStart); b >= 0 ==> b <= |text| && Find(text, b, lits.callsStart) >= 0)
  {
    forall lits | KnownLits(lits)
      ensures lits.callsStart != ""
      ensures var a := Find(text, 0, "\n\n" + lits.callsStart); a >= 0 ==>
        a <= |text| && Find(text, a, lits.callsStart) >= 0
      ensures var b := Find(text, 0, lits.callsStart); b >= 0 ==> b <= |text| && Find(text, b, lits.callsStart) >= 0
    {
      LitsTagged(lits);
      FindBehind(text, lits.callsStart);
    }
  }

  function Parse(text: string): Message {
    match FindCalls(text)
    case None =>
      var (content, reasoning) := SplitReasoning(text);
      Message(content, reasoning, [], "")
    case Some((start, lits)) =>
      var p := Find(text, start, lits.callsStart) + |lits.callsStart|;
      match ParseInvokes(text[p..], lits)
      case None => Failed
      case Some((calls, end)) =>
        var (content, reasoning) := SplitReasoning(text[..Trim(text, 0, start)]);
        Message(content, reasoning, calls, text[start..|text| - |end|])
  }
}
