/** The hidden tool mode of the OpenAI stream: the text of a tool call, as far as it
    has come, is turned into tool headers and pieces of JSON arguments. */
module StreamTool {
  import opened Common
  import opened StreamText

  // The full-width bar of the model's markup, as its three bytes.
  const BAR := "\U{EF}\U{BD}\U{9C}"
  const DSML := BAR + "DSML" + BAR
  const DSML_SHORT := "DSML" + BAR

  /** The spellings of the tags. */
  datatype Lits = Lits(callsStart: string, callsEnd: string, invokeStart: string, invokeEnd: string,
    paramStart: string, paramEnd: string)

  function Spelled(dsml: string): Lits {
    Lits("<" + dsml + "tool_calls>", "</" + dsml + "tool_calls>", "<" + dsml + "invoke", "</" + dsml + "invoke>",
         "<" + dsml + "parameter", "</" + dsml + "parameter>")
  }

  const LONG := Spelled(DSML)
  const SHORT := Spelled(DSML_SHORT)
  const PLAIN := Spelled("")

  predicate KnownLits(lits: Lits) {
    lits == LONG || lits == SHORT || lits == PLAIN
  }

  // ----- values -----

  function HexDigit(d: nat): char
    requires d < 16
  {
    if d < 10 then '0' + d as char else 'a' + (d - 10) as char
  }

  function EscapeChar(c: char): string {
    if c == '"' || c == '\\' then ['\\', c]
    else if c == '\n' then "\\n"
    else if c == '\r' then "\\r"
    else if c == '\t' then "\\t"
    else if c < ' ' then "\\u00" + [HexDigit(c as int / 16), HexDigit(c as int % 16)]
    else [c]
  }

  /** The inside of a JSON string literal. */
  function EscapeJson(s: string): string {
    if s == "" then "" else EscapeChar(s[0]) + EscapeJson(s[1..])
  }

  lemma {:induction false} EscapeConcat(a: string, b: string)
    ensures EscapeJson(a + b) == EscapeJson(a) + EscapeJson(b)
  {
    hide EscapeChar;
    if a == "" {
      assert a + b == b;
    } else {
      EscapeConcat(a[1..], b);
      assert (a + b)[1..] == a[1..] + b && (a + b)[0] == a[0];
      calc {
        EscapeJson(a + b);
        EscapeChar(a[0]) + EscapeJson(a[1..] + b);
        EscapeChar(a[0]) + (EscapeJson(a[1..]) + EscapeJson(b));
        (EscapeChar(a[0]) + EscapeJson(a[1..])) + EscapeJson(b);
        EscapeJson(a) + EscapeJson(b);
      }
    }
  }

  /** What a piece of a parameter's text becomes in the JSON arguments. */
  function Value(text: string, isString: bool): string {
    if isString then EscapeJson(Unescape(text)) else text
  }

  /** Where a closing tag or an entity may be cut off. */
  function ValueHold(s: string, start: nat, paramEnd: string, isString: bool): (r: nat)
    requires start <= |s|
    ensures start <= r <= |s|
    ensures r < |s| ==> s[r] == '<' || s[r] == '&'
  {
    var limit := Hold(s, start, |s|, '<', {paramEnd}, |paramEnd|);
    if isString then Hold(s, start, limit, '&', ENTITIES, MAX_ENTITY) else limit
  }

  /** How much of a parameter's text, from `start` on, may be sent. */
  function ValueSafe(s: string, start: nat, paramEnd: string, isString: bool): (r: nat)
    requires start <= |s|
    ensures start <= r <= |s|
  {
    Utf8Safe(s, start, ValueHold(s, start, paramEnd, isString))
  }

  ghost predicate EndTag(lit: string) {
    Tagged('<', {lit}, |lit|)
  }

  lemma EntitiesTagged()
    ensures Tagged('&', ENTITIES, MAX_ENTITY)
  {
    forall lit | lit in ENTITIES
      ensures 0 < |lit| <= MAX_ENTITY && lit[0] == '&' && forall k :: 0 < k < |lit| ==>
        lit[k] != '&' && lit[k] != '<' && lit[k] < 0x80 as char
    {
    }
  }

  lemma EntityChars(ent: string, k: nat)
    requires ent in ENTITIES && 0 < k < |ent|
    ensures ent[k] != '&' && ent[k] != '<' && ent[k] < 0x80 as char
  {
  }

  /** What the parser needs of the spellings. */
  ghost predicate GoodLits(l: Lits) {
    && l.callsStart != "" && l.callsEnd != "" && l.invokeStart != "" && l.invokeEnd != ""
    && l.paramStart != "" && l.paramEnd != ""
    && l.invokeStart[0] == '<' && l.paramStart[0] == '<' && EndTag(l.paramEnd)
  }

  ghost predicate Without(c: char, s: string) {
    forall k :: 0 <= k < |s| ==> s[k] != c
  }

  lemma OneTag(body: string)
    requires Without('<', body)
    ensures EndTag("<" + body)
  {
  }

  lemma SpelledTagged(dsml: string)
    requires Without('<', dsml)
    ensures GoodLits(Spelled(dsml)) && EndTag(Spelled(dsml).callsStart) && |Spelled(dsml).callsStart| == |dsml| + 12
  {
    hide EndTag;
    OneTag("/" + dsml + "parameter>");
    assert "</" + dsml + "parameter>" == "<" + ("/" + dsml + "parameter>");
    OneTag(dsml + "tool_calls>");
    assert "<" + dsml + "tool_calls>" == "<" + (dsml + "tool_calls>");
  }

  const STARTS: set<string> := {LONG.callsStart, SHORT.callsStart, PLAIN.callsStart}

  const MAX_MARKER: nat := 80

  lemma LitsTagged(lits: Lits)
    requires KnownLits(lits)
    ensures GoodLits(lits)
    ensures Tagged('<', STARTS, MAX_MARKER)
  {
    hide Spelled, GoodLits, EndTag;
    Markers();
    SpelledTagged(DSML);
    SpelledTagged(DSML_SHORT);
    SpelledTagged("");
    StartsTagged(LONG.callsStart, SHORT.callsStart, PLAIN.callsStart);
  }

  lemma Markers()
    ensures Without('<', DSML) && Without('<', DSML_SHORT) && Without('<', "") && |DSML| == 10 && |DSML_SHORT| == 7
  {
  }

  lemma StartsTagged(a: string, b: string, c: string)
    requires EndTag(a) && EndTag(b) && EndTag(c) && |a| <= MAX_MARKER && |b| <= MAX_MARKER && |c| <= MAX_MARKER
    ensures Tagged('<', {a, b, c}, MAX_MARKER)
  {
  }

  /** The text from `a` to `l` reads like the start of `lit`, and not all of it. */
  ghost predicate Like(w: string, a: nat, l: nat, lit: string) {
    a <= l <= |w| && l - a < |lit| && forall k :: a <= k < l ==> w[k] == lit[k - a]
  }

  lemma PartialIsLike(w: string, a: nat, l: nat, lit: string)
    requires a <= l <= |w|
    ensures PartialAt(w[..l], a, lit) <==> Like(w, a, l, lit)
  {
    var s := w[..l];
    assert forall k :: a <= k < l ==> w[k] == s[a..][k - a];
    if Like(w, a, l, lit) { assert s[a..] == lit[..l - a]; }
  }

  lemma MatchChars(s: string, i: nat, lit: string)
    requires MatchAt(s, i, lit)
    ensures i + |lit| <= |s| && forall k :: i <= k < i + |lit| ==> s[k] == lit[k - i]
  {
    assert forall k :: i <= k < i + |lit| ==> s[k] == s[i..i + |lit|][k - i];
  }

  /** Where sending stops no entity is cut: if the text before it ends like one,
      the next byte does not go on like it. */
  lemma NoEntityCut(w: string, n: nat, start: nat, paramEnd: string, a: nat, ent: string)
    requires start <= n <= |w|
    requires var l := ValueSafe(w[..n], start, paramEnd, true);
             start <= a < l && ent in ENTITIES && Like(w, a, l, ent)
    ensures var l := ValueSafe(w[..n], start, paramEnd, true);
            l < n && (w[l] == '&' || w[l] >= 0x80 as char)
  {
    hide Tagged, Like, Cut;
    var s := w[..n];
    var l1 := Hold(s, start, n, '<', {paramEnd}, |paramEnd|);
    var l2 := Hold(s, start, l1, '&', ENTITIES, MAX_ENTITY);
    var l := Utf8Safe(s, start, l2);
    EntitiesTagged();
    if l == l2 == l1 {
      LikeCut(w, n, a, l, ent);
      HoldFinds(s, start, l1, '&', ENTITIES, MAX_ENTITY, a);
    }
  }

  lemma LikeCut(w: string, n: nat, a: nat, l: nat, ent: string)
    requires a < l <= n <= |w| && ent in ENTITIES && Like(w, a, l, ent)
    ensures Cut(w[..n], a, l, ENTITIES)
  {
    assert w[..n][..l] == w[..l];
    PartialIsLike(w, a, l, ent);
  }

  /** Nothing already sent is held back when the text has grown. */
  lemma MarkerStays(w: string, n: nat, start: nat, paramEnd: string)
    requires start <= n <= |w| && EndTag(paramEnd)
    ensures Hold(w[..n], start, n, '<', {paramEnd}, |paramEnd|) <= Hold(w, start, |w|, '<', {paramEnd}, |paramEnd|)
  {
    var l, x := Hold(w[..n], start, n, '<', {paramEnd}, |paramEnd|), Hold(w, start, |w|, '<', {paramEnd}, |paramEnd|);
    if x < l {
      assert w[..|w|] == w && w[..n][..n] == w[..n];
      PartialInPrefix(w, n, x, paramEnd);
      assert PartialAt(w, x, paramEnd);
      assert Cut(w[..n], x, n, {paramEnd});
      HoldFinds(w[..n], start, n, '<', {paramEnd}, |paramEnd|, x);
    }
  }

  lemma EntityStays(w: string, n: nat, start: nat, paramEnd: string)
    requires start <= n <= |w| && EndTag(paramEnd)
    ensures ValueSafe(w[..n], start, paramEnd, true) <= ValueHold(w, start, paramEnd, true)
  {
    hide ValueSafe, Tagged, Cut, Hold, Like;
    SafeBelowHold(w[..n], start, paramEnd, true);
    SafeBelowHold(w, start, paramEnd, true);
    MarkerStays(w, n, start, paramEnd);
    var l := ValueSafe(w[..n], start, paramEnd, true);
    var x1 := Hold(w, start, |w|, '<', {paramEnd}, |paramEnd|);
    var x2 := Hold(w, start, x1, '&', ENTITIES, MAX_ENTITY);
    if x2 < l {
      HoldCuts(w, start, x1);
      var ent := CutIsLike(w, x2, x1);
      LikeShorter(w, x2, l, x1, ent);
      NoEntityCut(w, n, start, paramEnd, x2, ent);
      if l == x1 { MarkerHere(w, start, paramEnd); } else { EntityChars(ent, l - x2); }
      assert false;
    }
  }

  lemma HoldCuts(s: string, start: nat, limit: nat)
    requires start <= limit <= |s|
    ensures var r := Hold(s, start, limit, '&', ENTITIES, MAX_ENTITY); r < limit ==> Cut(s, r, limit, ENTITIES)
  {
  }

  lemma MarkerHere(s: string, start: nat, paramEnd: string)
    requires start <= |s|
    ensures var r := Hold(s, start, |s|, '<', {paramEnd}, |paramEnd|); r < |s| ==> s[r] == '<'
  {
  }

  lemma CutIsLike(w: string, a: nat, l: nat) returns (ent: string)
    requires a < l <= |w| && Cut(w, a, l, ENTITIES)
    ensures ent in ENTITIES && Like(w, a, l, ent)
  {
    ent :| ent in ENTITIES && PartialAt(w[..l], a, ent);
    PartialIsLike(w, a, l, ent);
  }

  lemma LikeShorter(w: string, a: nat, l: nat, m: nat, ent: string)
    requires a < l <= m && Like(w, a, m, ent)
    ensures Like(w, a, l, ent) && l - a < |ent|
    ensures l < m ==> w[l] == ent[l - a]
  {
  }

  lemma HoldStays(w: string, n: nat, start: nat, paramEnd: string, isString: bool)
    requires start <= n <= |w| && EndTag(paramEnd)
    ensures var l := ValueSafe(w[..n], start, paramEnd, isString);
            && l <= ValueHold(w, start, paramEnd, isString)
            && ValueHold(w, l, paramEnd, isString) == ValueHold(w, start, paramEnd, isString)
  {
    hide Hold, Utf8Safe, Tagged;
    var l := ValueSafe(w[..n], start, paramEnd, isString);
    var x1 := Hold(w, start, |w|, '<', {paramEnd}, |paramEnd|);
    MarkerStays(w, n, start, paramEnd);
    SafeBelowHold(w[..n], start, paramEnd, isString);
    HoldLater(w, start, l, |w|, '<', {paramEnd}, |paramEnd|);
    if isString {
      EntityStays(w, n, start, paramEnd);
      EntitiesTagged();
      HoldBelow(w, start, x1);
      HoldLater(w, start, l, x1, '&', ENTITIES, MAX_ENTITY);
    }
  }

  lemma HoldBelow(s: string, start: nat, limit: nat)
    requires start <= limit <= |s|
    ensures Hold(s, start, limit, '&', ENTITIES, MAX_ENTITY) <= limit
  {
  }

  lemma SafeBelowHold(s: string, start: nat, paramEnd: string, isString: bool)
    requires start <= |s|
    ensures start <= ValueSafe(s, start, paramEnd, isString) <= ValueHold(s, start, paramEnd, isString)
    ensures ValueHold(s, start, paramEnd, isString) <= Hold(s, start, |s|, '<', {paramEnd}, |paramEnd|) <= |s|
  {
  }

  /** Sending a part first does not change where sending stops in the end. */
  lemma ValueSafeStays(w: string, n: nat, start: nat, paramEnd: string, isString: bool)
    requires start <= n <= |w| && EndTag(paramEnd) && Utf8(w) && Boundary(w, start)
    ensures var l := ValueSafe(w[..n], start, paramEnd, isString);
            && Boundary(w, l)
            && l <= ValueSafe(w, start, paramEnd, isString) == ValueSafe(w, l, paramEnd, isString)
            && Boundary(w, ValueSafe(w, start, paramEnd, isString))
  {
    hide ValueHold, Utf8Safe, Utf8;
    var l := ValueSafe(w[..n], start, paramEnd, isString);
    SafeBelowHold(w[..n], start, paramEnd, isString);
    SafeBelowHold(w, start, paramEnd, isString);
    Utf8SafeBoundary(w, n, start, ValueHold(w[..n], start, paramEnd, isString));
    HoldStays(w, n, start, paramEnd, isString);
    var x := ValueHold(w, start, paramEnd, isString);
    HoldBoundary(w, start, paramEnd, isString);
    assert w[..|w|] == w;
    Utf8SafeBoundary(w, |w|, start, x);
    Utf8SafeBoundary(w, |w|, l, x);
  }

  lemma HoldBoundary(s: string, start: nat, paramEnd: string, isString: bool)
    requires start <= |s|
    ensures Boundary(s, ValueHold(s, start, paramEnd, isString))
  {
  }

  lemma CutClear(w: string, n: nat, start: nat, paramEnd: string, e: nat)
    requires start <= n <= |w| && EndTag(paramEnd)
    requires ValueSafe(w[..n], start, paramEnd, true) <= e <= |w|
    ensures Clear(w[start..e], ValueSafe(w[..n], start, paramEnd, true) - start)
  {
    hide ValueSafe, EndTag, MatchAt;
    SafeBelowHold(w[..n], start, paramEnd, true);
    var l := ValueSafe(w[..n], start, paramEnd, true);
    var t := w[start..e];
    forall i, ent | 0 <= i < l - start && ent in ENTITIES && MatchAt(t, i, ent)
      ensures i + |ent| <= l - start
    {
      if i + |ent| > l - start {
        MatchChars(t, i, ent);
        LikeIn(w, start, e, i, l, ent);
        EntityChars(ent, l - start - i);
        NoEntityCut(w, n, start, paramEnd, start + i, ent);
        assert false;
      }
    }
  }

  lemma LikeIn(w: string, start: nat, e: nat, i: nat, l: nat, ent: string)
    requires start <= e <= |w| && start + i < l < start + i + |ent| <= e
    requires forall k :: i <= k < i + |ent| ==> w[start..e][k] == ent[k - i]
    ensures Like(w, start + i, l, ent) && w[l] == ent[l - start - i]
  {
    forall k | start + i <= k <= l
      ensures w[k] == ent[k - start - i]
    {
      assert w[k] == w[start..e][k - start];
    }
  }

  /** A part sent first and the rest sent later are what the whole is. */
  lemma ValueSplit(w: string, n: nat, start: nat, paramEnd: string, isString: bool, e: nat)
    requires start <= n <= |w| && EndTag(paramEnd)
    requires ValueSafe(w[..n], start, paramEnd, isString) <= e <= |w|
    ensures var l := ValueSafe(w[..n], start, paramEnd, isString);
            Value(w[start..e], isString) == Value(w[start..l], isString) + Value(w[l..e], isString)
  {
    hide ValueSafe, Clear, EscapeJson, Unescape;
    SafeBelowHold(w[..n], start, paramEnd, isString);
    var l := ValueSafe(w[..n], start, paramEnd, isString);
    var t := w[start..e];
    assert t[..l - start] == w[start..l] && t[l - start..] == w[l..e];
    if isString {
      CutClear(w, n, start, paramEnd, e);
      UnescapeSplit(t, l - start);
      EscapeConcat(Unescape(w[start..l]), Unescape(w[l..e]));
    }
  }

  /** A closing tag that only the whole text has starts no earlier than where
      sending stopped. */
  lemma EndNotSent(w: string, n: nat, start: nat, paramEnd: string, isString: bool)
    requires start <= n <= |w| && EndTag(paramEnd)
    requires Find(w[..n], start, paramEnd) < 0 <= Find(w, start, paramEnd)
    ensures ValueSafe(w[..n], start, paramEnd, isString) <= Find(w, start, paramEnd)
  {
    var e := Find(w, start, paramEnd);
    SafeBelowHold(w[..n], start, paramEnd, isString);
    if e < n {
      FindInPrefix(w, n, start, paramEnd);
      PartialInPrefix(w, n, e, paramEnd);
      MatchInPrefix(w, n, e, paramEnd);
      assert w[..n][..n] == w[..n];
      assert Cut(w[..n], e, n, {paramEnd});
      HoldFinds(w[..n], start, n, '<', {paramEnd}, |paramEnd|, e);
    }
  }

  // ----- the tool call parser -----

  /** The decoded value of an attribute in a tag. */
  function Attr(tag: string, name: string): Option<string> {
    var p := Find(tag, 0, name + "=\"");
    if p < 0 then None
    else
      var v := p + |name| + 2;
      var q := Find(tag, v, "\"");
      if q < 0 then None else Some(Unescape(tag[v..q]))
  }

  datatype ToolState = BetweenInvokes | BetweenParams | ParamValue | Done | Error

  datatype Tool = Tool(state: ToolState, lits: Lits, pos: nat, index: nat, argsOpen: bool, first: bool, isString: bool)

  predicate Active(t: Tool) { t.state != Done && t.state != Error }

  // What a client receives of tool calls: a header, or one character of arguments.
  datatype Atom = Header(index: nat, name: string) | Arg(index: nat, c: char)

  function Args(index: nat, text: string): (r: seq<Atom>)
    ensures |r| == |text|
  {
    seq(|text|, i requires 0 <= i < |text| => Arg(index, text[i]))
  }

  lemma ArgsConcat(index: nat, a: string, b: string)
    ensures Args(index, a + b) == Args(index, a) + Args(index, b)
  {
  }

  /** What one round of the parser does: the new state, what is sent, and whether
      another round may follow. */
  datatype Round = Round(t: Tool, sent: seq<Atom>, more: bool)

  function StartInvoke(t: Tool, raw: string): Round
    requires t.pos <= |raw|
  {
    var q := Find(raw, t.pos, ">");
    if q < 0 then Round(t, [], false)
    else
      match Attr(raw[t.pos..q + 1], "name")
      case None => Round(t.(state := Error), [], false)
      case Some(name) =>
        Round(t.(argsOpen := true, first := true, pos := q + 1, state := BetweenParams),
              [Header(t.index, name)] + Args(t.index, "{"), true)
  }

  /** Before a parameter's value: a comma unless it is the first, its name, and the
      opening quote of a string. */
  function ParamPrefix(first: bool, name: string, isString: bool): string {
    (if first then "" else ",") + "\"" + EscapeJson(name) + "\":" + if isString then "\"" else ""
  }

  function StartParam(t: Tool, raw: string): Round
    requires t.pos <= |raw|
  {
    var q := Find(raw, t.pos, ">");
    if q < 0 then Round(t, [], false)
    else
      var tag := raw[t.pos..q + 1];
      match (Attr(tag, "name"), Attr(tag, "string"))
      case (Some(name), Some(isString)) =>
        var str := isString == "true";
        Round(t.(first := false, isString := str, pos := q + 1, state := ParamValue),
              Args(t.index, ParamPrefix(t.first, name, str)), true)
      case _ => Round(t.(state := Error), [], false)
  }

  function InvokeRound(t: Tool, raw: string): Round
    requires t.pos <= |raw|
  {
    if t.pos == |raw| then Round(t, [], false)
    else if MatchAt(raw, t.pos, t.lits.callsEnd) then
      Round(t.(pos := t.pos + |t.lits.callsEnd|, state := Done), [], false)
    else if PartialAt(raw, t.pos, t.lits.callsEnd) || PartialAt(raw, t.pos, t.lits.invokeStart) then Round(t, [], false)
    else if MatchAt(raw, t.pos, t.lits.invokeStart) then StartInvoke(t, raw)
    else Round(t.(state := Error), [], false)
  }

  function ParamRound(t: Tool, raw: string): Round
    requires t.pos <= |raw|
  {
    if t.pos == |raw| then Round(t, [], false)
    else if MatchAt(raw, t.pos, t.lits.invokeEnd) then
      Round(t.(pos := t.pos + |t.lits.invokeEnd|, argsOpen := false, index := t.index + 1, state := BetweenInvokes),
            if t.argsOpen then Args(t.index, "}") else [], true)
    else if PartialAt(raw, t.pos, t.lits.invokeEnd) || PartialAt(raw, t.pos, t.lits.paramStart) then Round(t, [], false)
    else if MatchAt(raw, t.pos, t.lits.paramStart) then StartParam(t, raw)
    else Round(t.(state := Error), [], false)
  }

  function ValueRound(t: Tool, raw: string): Round
    requires t.pos <= |raw| && t.lits.paramEnd != ""
  {
    var e := Find(raw, t.pos, t.lits.paramEnd);
    if e >= 0 then
      Round(t.(pos := e + |t.lits.paramEnd|, state := BetweenParams),
            Args(t.index, Value(raw[t.pos..e], t.isString)) + Args(t.index, if t.isString then "\"" else ""), true)
    else
      var limit := ValueSafe(raw, t.pos, t.lits.paramEnd, t.isString);
      Round(t.(pos := limit), Args(t.index, Value(raw[t.pos..limit], t.isString)), false)
  }

  ghost function ToolRound(t: Tool, raw: string): Round
    requires t.pos <= |raw| && GoodLits(t.lits) && Active(t)
  {
    if t.state == BetweenInvokes then InvokeRound(t.(pos := SkipSpace(raw, t.pos)), raw)
    else if t.state == BetweenParams then ParamRound(t.(pos := SkipSpace(raw, t.pos)), raw)
    else ValueRound(t, raw)
  }

  ghost predicate Moves(t: Tool, r: Round, raw: string) {
    && t.pos <= r.t.pos <= |raw| && r.t.lits == t.lits
    && (r.more ==> t.pos < r.t.pos && Active(r.t))
  }

  lemma InvokeMoves(t: Tool, raw: string)
    requires t.pos <= |raw| && GoodLits(t.lits)
    ensures Moves(t, InvokeRound(t, raw), raw)
  {
    hide Attr, Find;
    FindTag(raw, t.pos);
  }

  lemma ParamMoves(t: Tool, raw: string)
    requires t.pos <= |raw| && GoodLits(t.lits)
    ensures Moves(t, ParamRound(t, raw), raw)
  {
    hide Attr, Find, ParamPrefix;
    FindTag(raw, t.pos);
  }

  lemma FindTag(raw: string, pos: nat)
    ensures Find(raw, pos, ">") >= 0 ==> pos <= Find(raw, pos, ">") < |raw|
  {
  }

  lemma ValueMoves(t: Tool, raw: string)
    requires t.pos <= |raw| && GoodLits(t.lits)
    ensures Moves(t, ValueRound(t, raw), raw)
  {
    hide Value, ValueSafe;
    SafeBelowHold(raw, t.pos, t.lits.paramEnd, t.isString);
  }

  lemma RoundMoves(t: Tool, raw: string)
    requires t.pos <= |raw| && GoodLits(t.lits) && Active(t)
    ensures Moves(t, ToolRound(t, raw), raw)
  {
    hide InvokeRound, ParamRound, ValueRound;
    if t.state == BetweenInvokes {
      InvokeMoves(t.(pos := SkipSpace(raw, t.pos)), raw);
    } else if t.state == BetweenParams {
      ParamMoves(t.(pos := SkipSpace(raw, t.pos)), raw);
    } else {
      ValueMoves(t, raw);
    }
  }

  /** Rounds until the text is used up, more text is needed, or the call ends. */
  ghost function ToolUpdate(t: Tool, raw: string): (r: (Tool, seq<Atom>))
    requires t.pos <= |raw| && GoodLits(t.lits)
    decreases |raw| - t.pos
  {
    if !Active(t) || t.pos == |raw| then (t, [])
    else
      RoundMoves(t, raw);
      var r := ToolRound(t, raw);
      if !r.more then (r.t, r.sent)
      else
        var rest := ToolUpdate(r.t, raw);
        (rest.0, r.sent + rest.1)
  }

  // ----- growing text -----

  lemma SpaceStable(w: string, n: nat, pos: nat)
    requires pos <= n <= |w|
    ensures var p := SkipSpace(w[..n], pos);
            && p <= SkipSpace(w, pos) == SkipSpace(w, p)
            && (p < n ==> SkipSpace(w, pos) == p)
    decreases n - pos
  {
    if pos < n && IsSpace(w[pos]) { SpaceStable(w, n, pos + 1); }
  }

  lemma StartInvokeStable(t: Tool, w: string, n: nat)
    requires Active(t)
    requires t.pos <= n <= |w|
    ensures var r, r' := StartInvoke(t, w[..n]), StartInvoke(t, w);
            if r.more || !Active(r.t) then r' == r else r == Round(t, [], false)
  {
    hide Attr;
    FindInPrefix(w, n, t.pos, ">");
    var q := Find(w[..n], t.pos, ">");
    if q >= 0 { assert w[..n][t.pos..q + 1] == w[t.pos..q + 1]; }
  }

  lemma StartParamStable(t: Tool, w: string, n: nat)
    requires Active(t)
    requires t.pos <= n <= |w|
    ensures var r, r' := StartParam(t, w[..n]), StartParam(t, w);
            if r.more || !Active(r.t) then r' == r else r == Round(t, [], false)
  {
    hide Attr, ParamPrefix;
    FindInPrefix(w, n, t.pos, ">");
    var q := Find(w[..n], t.pos, ">");
    if q >= 0 { assert w[..n][t.pos..q + 1] == w[t.pos..q + 1]; }
  }

  /** A prefix already decides between two tags, unless it ends in a part of one. */
  lemma TagStable(w: string, n: nat, i: nat, lit: string)
    requires i < n <= |w|
    ensures MatchAt(w[..n], i, lit) ==> MatchAt(w, i, lit) && !PartialAt(w, i, lit)
    ensures !MatchAt(w[..n], i, lit) && !PartialAt(w[..n], i, lit) ==> !MatchAt(w, i, lit) && !PartialAt(w, i, lit)
  {
    MatchInPrefix(w, n, i, lit);
    if MatchAt(w, i, lit) || PartialAt(w, i, lit) { PartialInPrefix(w, n, i, lit); }
  }

  /** With more text a round that waited is done again, and any other stays. */
  lemma InvokeStable(t: Tool, w: string, n: nat)
    requires Active(t)
    requires t.pos <= n <= |w|
    ensures var r, r' := InvokeRound(t, w[..n]), InvokeRound(t, w);
            if r.more || !Active(r.t) then r' == r else r == Round(t, [], false)
    ensures t.pos == n ==> InvokeRound(t, w[..n]) == Round(t, [], false)
    ensures t.pos == |w| ==> InvokeRound(t, w) == Round(t, [], false)
  {
    hide MatchAt, PartialAt, StartInvoke;
    if t.pos < n {
      TagStable(w, n, t.pos, t.lits.callsEnd);
      TagStable(w, n, t.pos, t.lits.invokeStart);
      StartInvokeStable(t, w, n);
    }
  }

  lemma ParamStable(t: Tool, w: string, n: nat)
    requires Active(t)
    requires t.pos <= n <= |w|
    ensures var r, r' := ParamRound(t, w[..n]), ParamRound(t, w);
            if r.more || !Active(r.t) then r' == r else r == Round(t, [], false)
    ensures t.pos == n ==> ParamRound(t, w[..n]) == Round(t, [], false)
    ensures t.pos == |w| ==> ParamRound(t, w) == Round(t, [], false)
  {
    hide MatchAt, PartialAt, StartParam;
    if t.pos < n {
      TagStable(w, n, t.pos, t.lits.invokeEnd);
      TagStable(w, n, t.pos, t.lits.paramStart);
      StartParamStable(t, w, n);
    }
  }

  /** A round on a prefix and then one on the whole do what one on the whole does. */
  ghost predicate Splits(r: Round, r': Round, w: string)
    requires r.t.pos <= |w| && GoodLits(r.t.lits)
  {
    if r.more || !Active(r.t) then r' == r
    else
      var r2 := if r.t.pos == |w| then Round(r.t, [], false) else ToolRound(r.t, w);
      r' == Round(r2.t, r.sent + r2.sent, r2.more)
  }

  lemma TagEnds(lits: Lits)
    requires GoodLits(lits)
    ensures lits.paramEnd != "" && EndTag(lits.paramEnd)
  {
  }

  lemma FindBounds(s: string, from: nat, lit: string)
    requires lit != ""
    ensures Find(s, from, lit) >= 0 ==> from <= Find(s, from, lit) <= |s| - |lit|
  {
  }

  /** The value ends in the part that has come since. */
  lemma ValueEndsLater(t: Tool, w: string, n: nat)
    requires t.pos <= n <= |w| && GoodLits(t.lits) && t.state == ParamValue
    requires Find(w[..n], t.pos, t.lits.paramEnd) < 0 <= Find(w, t.pos, t.lits.paramEnd)
    ensures var r := ValueRound(t, w[..n]); r.t.pos < |w| && GoodLits(r.t.lits) && Splits(r, ValueRound(t, w), w)
  {
    hide Value, ValueSafe, Find, GoodLits, EndTag, ToolRound, Splits;
    TagEnds(t.lits);
    var end, s := t.lits.paramEnd, t.pos;
    var e := Find(w, s, end);
    FindBounds(w, s, end);
    SafeBelowHold(w[..n], s, end, t.isString);
    EndNotSent(w, n, s, end, t.isString);
    var l := ValueSafe(w[..n], s, end, t.isString);
    FindLater(w, s, l, end);
    assert w[..n][s..l] == w[s..l];
    var a, b := Value(w[s..l], t.isString), Value(w[l..e], t.isString);
    ValueSplit(w, n, s, end, t.isString, e);
    var q := Args(t.index, if t.isString then "\"" else "");
    ArgsThree(t.index, a, b, q);
    ValueIsRound(t.(pos := l), w);
    SplitsBy(ValueRound(t, w[..n]), ValueRound(t, w), w);
  }

  lemma ArgsThree(index: nat, a: string, b: string, q: seq<Atom>)
    ensures Args(index, a + b) + q == Args(index, a) + (Args(index, b) + q)
  {
  }

  lemma ValueIsRound(t: Tool, w: string)
    requires t.pos <= |w| && GoodLits(t.lits) && t.state == ParamValue
    ensures ToolRound(t, w) == ValueRound(t, w)
  {
  }

  lemma SplitsBy(r: Round, r': Round, w: string)
    requires r.t.pos < |w| && GoodLits(r.t.lits) && Active(r.t) && !r.more
    requires var r2 := ToolRound(r.t, w); r' == Round(r2.t, r.sent + r2.sent, r2.more)
    ensures Splits(r, r', w)
  {
  }

  /** The value does not end in the text either. */
  lemma ValueGoesOn(t: Tool, w: string, n: nat)
    requires t.pos <= n <= |w| && GoodLits(t.lits) && t.state == ParamValue && Utf8(w) && Boundary(w, t.pos)
    requires Find(w, t.pos, t.lits.paramEnd) < 0 && Find(w[..n], t.pos, t.lits.paramEnd) < 0
    ensures var r := ValueRound(t, w[..n]); r.t.pos <= |w| && GoodLits(r.t.lits) && Splits(r, ValueRound(t, w), w)
  {
    hide Value, ValueSafe, Utf8, Boundary, InvokeRound, ParamRound, Find, GoodLits, EndTag;
    TagEnds(t.lits);
    var end, s := t.lits.paramEnd, t.pos;
    SafeBelowHold(w[..n], s, end, t.isString);
    SafeBelowHold(w, s, end, t.isString);
    ValueSafeStays(w, n, s, end, t.isString);
    var l, x := ValueSafe(w[..n], s, end, t.isString), ValueSafe(w, s, end, t.isString);
    assert w[..n][s..l] == w[s..l];
    FindLater(w, s, l, end);
    ValueSplit(w, n, s, end, t.isString, x);
    ArgsConcat(t.index, Value(w[s..l], t.isString), Value(w[l..x], t.isString));
    if l == |w| {
      EmptyValue(t.isString);
      assert w[l..x] == "";
    }
  }

  lemma ValueSplits(t: Tool, w: string, n: nat)
    requires t.pos <= n <= |w| && GoodLits(t.lits) && t.state == ParamValue && Utf8(w) && Boundary(w, t.pos)
    ensures var r := ValueRound(t, w[..n]);
            && r.t.pos <= |w| && r.t.lits == t.lits && Splits(r, ValueRound(t, w), w)
            && (r.t.state == ParamValue ==> Boundary(w, r.t.pos))
  {
    hide Value, ValueSafe, Utf8, Boundary;
    var end, s := t.lits.paramEnd, t.pos;
    FindInPrefix(w, n, s, end);
    var e0, e := Find(w[..n], s, end), Find(w, s, end);
    if e0 >= 0 {
      assert w[..n][s..e0] == w[s..e0];
    } else {
      ValueSafeStays(w, n, s, end, t.isString);
      if e >= 0 { ValueEndsLater(t, w, n); } else { ValueGoesOn(t, w, n); }
    }
  }

  lemma EmptyValue(isString: bool)
    ensures Value("", isString) == ""
  {
  }

  lemma AfterAscii(w: string, i: nat)
    requires Utf8(w) && i < |w| && w[i] < 0x80 as char
    ensures Boundary(w, i + 1)
  {
    assert CharAt(w, i);
  }

  lemma NoValueHere(t: Tool, s: string)
    requires t.pos <= |s| && GoodLits(t.lits) && t.state == BetweenInvokes
    ensures InvokeRound(t, s).t.state != ParamValue
  {
    hide Attr, MatchAt, PartialAt;
  }

  /** A parameter's value starts just after the end of its tag. */
  lemma ValueStarts(t: Tool, w: string, n: nat)
    requires t.pos <= n <= |w| && GoodLits(t.lits) && t.state == BetweenParams && Utf8(w)
    ensures var r := ParamRound(t, w[..n]).t; r.state == ParamValue ==> r.pos <= |w| && Boundary(w, r.pos)
  {
    hide Attr, ParamPrefix, Boundary, Utf8;
    var q := Find(w[..n], t.pos, ">");
    if q >= 0 {
      assert w[..n][q..q + 1] == ">";
      assert w[q] == w[..n][q..q + 1][0];
      AfterAscii(w, q);
    }
  }

  ghost predicate ToolInv(t: Tool, w: string) {
    && t.pos <= |w| && GoodLits(t.lits)
    && (t.state == ParamValue ==> Boundary(w, t.pos))
  }

  lemma RoundSplits(t: Tool, w: string, n: nat)
    requires t.pos < n <= |w| && ToolInv(t, w) && Active(t) && Utf8(w)
    ensures var r := ToolRound(t, w[..n]); ToolInv(r.t, w) && Splits(r, ToolRound(t, w), w)
  {
    hide InvokeRound, ParamRound, ValueRound, Utf8, Boundary;
    RoundMoves(t, w[..n]);
    SpaceStable(w, n, t.pos);
    var t1 := t.(pos := SkipSpace(w[..n], t.pos));
    if t.state == BetweenInvokes {
      InvokeStable(t1, w, n);
      NoValueHere(t1, w[..n]);
    } else if t.state == BetweenParams {
      ParamStable(t1, w, n);
      ValueStarts(t1, w, n);
    } else {
      ValueSplits(t, w, n);
    }
  }

  /** An update on a prefix and then one on the whole send what one on the whole
      sends, and end alike. */
  lemma {:induction false} UpdateSplits(t: Tool, w: string, n: nat)
    requires t.pos <= n <= |w| && ToolInv(t, w) && Utf8(w)
    ensures var (t1, sent) := ToolUpdate(t, w[..n]);
            && t1.pos <= n && ToolInv(t1, w)
            && ToolUpdate(t, w) == (ToolUpdate(t1, w).0, sent + ToolUpdate(t1, w).1)
    decreases n - t.pos
  {
    hide ToolRound, Utf8;
    if !Active(t) || t.pos == n {
      assert [] + ToolUpdate(t, w).1 == ToolUpdate(t, w).1;
    } else {
      RoundSplits(t, w, n);
      RoundMoves(t, w[..n]);
      var r, r' := ToolRound(t, w[..n]), ToolRound(t, w);
      RoundMoves(t, w);
      if r.more {
        UpdateSplits(r.t, w, n);
        var (t1, sent) := ToolUpdate(r.t, w[..n]);
        assert r.sent + (sent + ToolUpdate(t1, w).1) == (r.sent + sent) + ToolUpdate(t1, w).1;
      } else if Active(r.t) && r.t.pos < |w| {
        RoundMoves(r.t, w);
        var r2 := ToolRound(r.t, w);
        if r2.more {
          assert r.sent + (r2.sent + ToolUpdate(r2.t, w).1) == (r.sent + r2.sent) + ToolUpdate(r2.t, w).1;
        }
        assert ToolUpdate(t, w[..n]) == (r.t, r.sent);
        assert r'.sent == r.sent + r2.sent && r'.t == r2.t && r'.more == r2.more;
        assert ToolUpdate(t, w) == (ToolUpdate(r.t, w).0, r.sent + ToolUpdate(r.t, w).1);
      } else {
        assert r.sent + [] == r.sent;
      }
    }
  }
}
