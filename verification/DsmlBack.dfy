/** Parsing what was rendered. */
module DsmlBack {
  import opened Common
  import opened StreamText
  import opened StreamTool
  import Json
  import opened JsonArgs
  import opened DsmlText
  import opened DsmlCalls

  /** A place that matches, with no match before it, is the one found. */
  lemma FoundAt(s: string, from: nat, lit: string, r: nat)
    requires lit != "" && from <= r && MatchAt(s, r, lit)
    requires forall k: nat :: from <= k < r ==> !MatchAt(s, k, lit)
    ensures Find(s, from, lit) == r
  {
  }

  lemma OneMatch(s: string, i: nat, c: char)
    ensures MatchAt(s, i, [c]) <==> i < |s| && s[i] == c
  {
    if i < |s| { assert s[i..i + 1] == [s[i]]; }
  }

  lemma FoundChar(s: string, from: nat, c: char, r: nat)
    requires from <= r < |s| && s[r] == c && forall k :: from <= k < r ==> s[k] != c
    ensures Find(s, from, [c]) == r
  {
    forall k: nat
      ensures MatchAt(s, k, [c]) <==> k < |s| && s[k] == c
    {
      OneMatch(s, k, c);
    }
    FoundAt(s, from, [c], r);
  }

  /** An attribute whose place is known. */
  lemma AttrValue(tag: string, name: string, p: nat, text: string)
    requires Find(tag, 0, name + "=\"") == p
    requires MatchAt(tag, p + |name| + 2, text + "\"")
    requires forall k :: 0 <= k < |text| ==> text[k] != '"'
    ensures Attr(tag, name) == Some(Unescape(text))
  {
    hide Find, Unescape, MatchAt;
    var v := p + |name| + 2;
    MatchChars(tag, v, text + "\"");
    assert forall k :: v <= k < v + |text| ==> tag[k] == (text + "\"")[k - v] == text[k - v];
    assert tag[v + |text|] == (text + "\"")[|text|] == '"';
    FoundChar(tag, v, '"', v + |text|);
    assert tag[v..v + |text|] == text;
    assert ['"'] == "\"";
  }

  lemma MatchPart(a: string, b: string, c: string)
    ensures MatchAt(a + b + c, |a|, b)
  {
    assert (a + b + c)[|a|..|a| + |b|] == b;
  }

  predicate NoQuote(s: string) {
    forall k :: 0 <= k < |s| ==> s[k] != '"'
  }

  /** The name is the first attribute of a tag. */
  lemma NameAttr(head: string, text: string, rest: string)
    requires NoQuote(head) && NoQuote(text)
    ensures Attr(head + " name=\"" + text + "\"" + rest, "name") == Some(Unescape(text))
  {
    hide Find, Unescape, MatchAt;
    var tag := head + " name=\"" + text + "\"" + rest;
    var p := |head| + 1;
    NameText(head, text, rest);
    MatchPart(head + " ", "name=\"", text + "\"" + rest);
    forall k: nat | k < p
      ensures !MatchAt(tag, k, "name=\"")
    {
      NameNotBefore(head, text + "\"" + rest, k);
    }
    FoundAt(tag, 0, "name=\"", p);
    MatchPart(head + " name=\"", text + "\"", rest);
    assert "name" + "=\"" == "name=\"";
    AttrValue(tag, "name", p, text);
  }

  lemma NameText(head: string, text: string, rest: string)
    ensures head + " name=\"" + text + "\"" + rest == (head + " ") + "name=\"" + (text + "\"" + rest)
    ensures head + " name=\"" + text + "\"" + rest == (head + " name=\"") + (text + "\"") + rest
    ensures |head + " "| == |head| + 1 && |head + " name=\""| == |head| + 7
  {
  }

  lemma NameNotBefore(head: string, more: string, k: nat)
    requires NoQuote(head) && k <= |head|
    ensures !MatchAt((head + " ") + "name=\"" + more, k, "name=\"")
  {
    var tag := (head + " ") + "name=\"" + more;
    assert forall j :: 0 <= j <= |head| ==> tag[j] != '"';
    assert forall j :: |head| + 1 <= j < |head| + 6 ==> tag[j] == "name=\""[j - |head| - 1];
    MatchQuote(tag, k, "name=");
  }

  /** A literal that ends in a quote matches only where the text has one. */
  lemma MatchQuote(s: string, i: nat, lit: string)
    ensures MatchAt(s, i, lit + "\"") ==> i + |lit| < |s| && s[i + |lit|] == '"'
    ensures MatchAt(s, i, lit + "\"") && |lit| > 1 ==> s[i + |lit| - 2] == lit[|lit| - 2]
  {
    if MatchAt(s, i, lit + "\"") {
      MatchChars(s, i, lit + "\"");
      assert s[i + |lit|] == (lit + "\"")[|lit|];
      if |lit| > 1 { assert s[i + |lit| - 2] == (lit + "\"")[|lit| - 2]; }
    }
  }

  const STRING_IS := "string="

  /** The text of a parameter's tag, from its name on. */
  function TagFrom(head: string, text: string, kind: string): string {
    (head + " name=\"") + text + ("\" string=\"" + kind + "\">")
  }

  lemma TagChars(head: string, text: string, kind: string)
    ensures var tag, h := TagFrom(head, text, kind), |head| + 7;
            && |tag| == h + |text| + 10 + |kind| + 2
            && (forall k :: 0 <= k < h ==> tag[k] == (head + " name=\"")[k])
            && (forall k :: h <= k < h + |text| ==> tag[k] == text[k - h])
            && (forall k :: h + |text| <= k < h + |text| + 10 ==> tag[k] == "\" string=\""[k - h - |text|])
            && (forall k :: h + |text| + 10 <= k < |tag| - 2 ==> tag[k] == kind[k - h - |text| - 10])
            && tag[|tag| - 2] == '"' && tag[|tag| - 1] == '>'
  {
    var tag, h := TagFrom(head, text, kind), |head| + 7;
    var tail := "\" string=\"" + kind + "\">";
    assert forall k :: 0 <= k < |tail| ==> tag[h + |text| + k] == tail[k];
    assert forall k :: h + |text| <= k < |tag| ==> tag[k] == tail[k - h - |text|];
  }

  /** Where `string="` stands in a parameter's tag: after the name, or one quote
      earlier when the name itself ends in `string=`. */
  lemma StringPlace(head: string, text: string, kind: string)
    requires NoQuote(head) && NoQuote(text)
    ensures Find(TagFrom(head, text, kind), 0, "string=\"")
         == if EndsWith(text, STRING_IS) then |head| + |text| else |head| + |text| + 9
  {
    hide Find, TagFrom, MatchAt;
    var tag, h := TagFrom(head, text, kind), |head| + 7;
    var r := if EndsWith(text, STRING_IS) then |head| + |text| else |head| + |text| + 9;
    TagChars(head, text, kind);
    assert MatchAt(tag, r, "string=\"") by {
      EndsByChars(text, STRING_IS);
      CharsMatch(tag, r, "string=\"");
    }
    forall i: nat | i < r
      ensures !MatchAt(tag, i, "string=\"")
    {
      NoEarlierString(head, text, kind, i);
    }
    FoundAt(tag, 0, "string=\"", r);
  }

  lemma CharsMatch(s: string, i: nat, lit: string)
    requires i + |lit| <= |s| && forall k :: 0 <= k < |lit| ==> s[i + k] == lit[k]
    ensures MatchAt(s, i, lit)
  {
    assert s[i..i + |lit|] == lit;
  }

  lemma NoEarlierString(head: string, text: string, kind: string, i: nat)
    requires NoQuote(head) && NoQuote(text)
    requires i < if EndsWith(text, STRING_IS) then |head| + |text| else |head| + |text| + 9
    ensures !MatchAt(TagFrom(head, text, kind), i, "string=\"")
  {
    hide TagFrom, MatchAt, EndsWith;
    var tag, h := TagFrom(head, text, kind), |head| + 7;
    TagChars(head, text, kind);
    EndsByChars(text, STRING_IS);
    assert tag[h - 1] == '"' && tag[h - 3] == 'e';
    assert forall k :: 0 <= k < h - 1 ==> tag[k] != '"';
    assert forall k :: h <= k < h + |text| ==> tag[k] != '"';
    assert forall k :: h + |text| < k < h + |text| + 9 ==> tag[k] != '"';
    assert "string=" + "\"" == "string=\"";
    MatchQuote(tag, i, "string=");
    if i + 7 == h + |text| { StringInName(head, text, kind, i); }
  }

  /** A name that the attribute's opening runs into ends in `string=`. */
  lemma StringInName(head: string, text: string, kind: string, i: nat)
    requires i + 7 == |head| + 7 + |text|
    ensures MatchAt(TagFrom(head, text, kind), i, "string=\"") ==> EndsWith(text, STRING_IS)
  {
    hide TagFrom, MatchAt, EndsWith;
    var tag, h := TagFrom(head, text, kind), |head| + 7;
    TagChars(head, text, kind);
    EndsByChars(text, STRING_IS);
    assert tag[h - 1] == '"';
    if MatchAt(tag, i, "string=\"") {
      MatchChars(tag, i, "string=\"");
      forall k | |text| - 7 <= k < |text| && k >= 0
        ensures text[k] == STRING_IS[k - (|text| - 7)]
      {
        assert tag[h + k] == text[k];
      }
    }
  }

  lemma EndsByChars(s: string, p: string)
    ensures EndsWith(s, p) <==> |p| <= |s| && forall k :: |s| - |p| <= k < |s| ==> s[k] == p[k - (|s| - |p|)]
  {
    if EndsWith(s, p) {
      assert forall k :: |s| - |p| <= k < |s| ==> s[k] == s[|s| - |p|..][k - (|s| - |p|)];
    }
  }

  /** What the parser takes for a parameter's kind. */
  lemma StringAttr(head: string, text: string, kind: string)
    requires NoQuote(head) && NoQuote(text) && NoQuote(kind)
    ensures Attr(TagFrom(head, text, kind), "string") ==
        Some(Unescape(if EndsWith(text, STRING_IS) then " string=" else kind))
  {
    hide Find, TagFrom, MatchAt, EndsWith, Unescape;
    var tag, h := TagFrom(head, text, kind), |head| + 7;
    TagChars(head, text, kind);
    StringPlace(head, text, kind);
    assert "string" + "=\"" == "string=\"";
    if EndsWith(text, STRING_IS) {
      CharsMatch(tag, h + |text| + 1, " string=" + "\"");
      AttrValue(tag, "string", |head| + |text|, " string=");
    } else {
      CharsMatch(tag, h + |text| + 10, kind + "\"");
      AttrValue(tag, "string", |head| + |text| + 9, kind);
    }
  }

  /** A tag ends at its first closing bracket. */
  lemma TagEnd(tag: string, rest: string)
    requires tag != "" && tag[|tag| - 1] == '>' && forall k :: 0 <= k < |tag| - 1 ==> tag[k] != '>'
    ensures Find(tag + rest, 0, ">") == |tag| - 1 && (tag + rest)[..|tag|] == tag && (tag + rest)[|tag|..] == rest
  {
    FoundChar(tag + rest, 0, '>', |tag| - 1);
    assert ['>'] == ">";
  }

  /** The tags are plain. */
  ghost predicate PlainTags(lits: Lits) {
    && NoQuote(lits.paramStart) && NoQuote(lits.invokeStart)
    && (forall k :: 0 <= k < |lits.paramStart| ==> lits.paramStart[k] != '>')
    && (forall k :: 0 <= k < |lits.invokeStart| ==> lits.invokeStart[k] != '>')
    && |lits.paramStart| > 1 && lits.paramStart[0] == '<' && lits.paramStart[1] != '/'
    && |lits.invokeStart| > 1 && lits.invokeStart[0] == '<' && lits.invokeStart[1] != '/'
    && |lits.invokeEnd| > 1 && lits.invokeEnd[0] == '<' && lits.invokeEnd[1] == '/'
    && |lits.callsEnd| > 1 && lits.callsEnd[0] == '<' && lits.callsEnd[1] == '/'
    && |lits.paramEnd| > 1 && lits.paramEnd[0] == '<' &&
         (forall k :: 0 < k < |lits.paramEnd| ==> lits.paramEnd[k] != '<')
  }

  lemma Heads(lits: Lits)
    requires KnownLits(lits)
    ensures PlainTags(lits)
  {
    hide Spelled, PlainTags;
    PlainSpelling(DSML);
    PlainSpelling(DSML_SHORT);
    PlainSpelling("");
  }

  lemma PlainSpelling(dsml: string)
    requires forall k :: 0 <= k < |dsml| ==> dsml[k] != '<' && dsml[k] != '>' && dsml[k] != '"' && dsml[k] != '/'
    ensures PlainTags(Spelled(dsml))
  {
    var l := Spelled(dsml);
    assert l.paramStart == "<" + dsml + "parameter" && l.invokeStart == "<" + dsml + "invoke";
    assert l.invokeEnd == "</" + dsml + "invoke>" && l.callsEnd == "</" + dsml + "tool_calls>";
    assert l.paramEnd == "</" + dsml + "parameter>";
  }

  lemma AttrNoQuote(s: string)
    ensures NoQuote(AttrEscape(s)) && forall k :: 0 <= k < |AttrEscape(s)| ==> AttrEscape(s)[k] != '>'
  {
    forall k | 0 <= k < |AttrEscape(s)|
      ensures AttrEscape(s)[k] != '"' && AttrEscape(s)[k] != '>'
    {
      AttrPlain(s, k);
    }
  }

  /** The attributes of a parameter's tag: its name, and its kind unless the name
      ends in `string=`. */
  lemma ParamAttrs(lits: Lits, p: Param)
    requires KnownLits(lits)
    ensures Attr(ParamTag(lits, p), "name") == Some(p.key)
    ensures Attr(ParamTag(lits, p), "string") == Some(KindRead(p))
    ensures var tag := ParamTag(lits, p);
      tag != "" && tag[|tag| - 1] == '>' && forall k :: 0 <= k < |tag| - 1 ==> tag[k] != '>'
  {
    hide Attr, AttrEscape, Unescape, EndsWith, Spelled;
    Heads(lits);
    AttrNoQuote(p.key);
    var head, text, kind := lits.paramStart, AttrEscape(p.key), Bool(p.isString);
    TagTexts(head, text, kind);
    assert ParamTag(lits, p) == TagFrom(head, text, kind);
    NameAttr(head, text, " string=\"" + kind + "\">");
    AttrBack(p.key);
    StringAttr(head, text, kind);
    AttrEndsWith(p.key, STRING_IS);
    PlainKinds();
    TagChars(head, text, kind);
    NoBracketInTag(head, text, kind);
  }

  lemma TagTexts(head: string, text: string, kind: string)
    ensures TagFrom(head, text, kind) == head + " name=\"" + text + "\"" + (" string=\"" + kind + "\">")
    ensures TagFrom(head, text, kind) == head + " name=\"" + text + "\" string=\"" + kind + "\">"
  {
  }

  lemma PlainKinds()
    ensures Unescape(" string=") == " string=" && Unescape("true") == "true" && Unescape("false") == "false"
  {
    hide Unescape;
    PlainBack(" string=");
    PlainBack("true");
    PlainBack("false");
  }

  lemma {:induction false} PlainBack(s: string)
    requires forall k :: 0 <= k < |s| ==> s[k] != '&'
    ensures Unescape(s) == s
  {
    if s != "" {
      forall ent | ent in ENTITIES
        ensures !MatchAt(s, 0, ent)
      {
        EntityStart(ent);
        assert |ent| <= |s| ==> s[0..|ent|][0] == s[0];
      }
      TokenPlain(s);
      PlainBack(s[1..]);
      assert [s[0]] + s[1..] == s;
    }
  }

  lemma NoBracketInTag(head: string, text: string, kind: string)
    requires forall k :: 0 <= k < |head| ==> head[k] != '>'
    requires forall k :: 0 <= k < |text| ==> text[k] != '>'
    requires forall k :: 0 <= k < |kind| ==> kind[k] != '>'
    ensures var tag := TagFrom(head, text, kind); forall k :: 0 <= k < |tag| - 1 ==> tag[k] != '>'
  {
    hide TagFrom;
    TagChars(head, text, kind);
  }

  // ----- one parameter -----

  /** What the parser takes for the kind of a written parameter. */
  function KindRead(p: Param): string {
    if EndsWith(p.key, STRING_IS) then " string=" else Bool(p.isString)
  }

  /** What the parser reads from a written parameter. */
  function ReadParam(p: Param): JsonArg {
    var isString := p.isString && !EndsWith(p.key, STRING_IS);
    JsonArg(p.key, if isString then Unescape(p.text) else p.text, isString)
  }

  function ReadParams(ps: seq<Param>): seq<JsonArg> {
    if ps == [] then [] else [ReadParam(ps[0])] + ReadParams(ps[1..])
  }

  /** What the parser reads from a rendered parameter. */
  function Reread(a: JsonArg): JsonArg {
    ReadParam(ParamOf(a))
  }

  /** When a parameter survives rendering and parsing. */
  ghost predicate Survives(a: JsonArg) {
    if a.isString then EntityFree(a.value) && !EndsWith(a.key, STRING_IS) else Nowhere(a.value, PARAM_END)
  }

  /** A parameter is read back as it was exactly in these cases. */
  lemma RereadExactly(a: JsonArg)
    ensures Reread(a) == a <==> Survives(a)
  {
    hide Unescape, Shield, EndsWith;
    ParamTextBack(a.value);
    JsonTextBack(a.value);
  }

  lemma StartsHere(p: string, rest: string)
    ensures StartsWith(p + rest, p)
  {
  }

  lemma NotStart(s: string, p: string)
    requires |s| > 1 && |p| > 1 && s[1] != p[1]
    ensures !StartsWith(s, p)
  {
    assert |p| <= |s| ==> s[..|p|][1] == s[1];
  }

  lemma WsLine(s: string)
    ensures Json.Ws("\n" + s) == Json.Ws(s)
  {
    assert ("\n" + s)[1..] == s;
  }

  lemma WsBracket(s: string)
    requires s != "" && s[0] == '<'
    ensures Json.Ws(s) == s
  {
  }

  /** No closing tag stands in the text of a parameter. */
  ghost predicate Closed(lits: Lits, ps: seq<Param>) {
    forall i :: 0 <= i < |ps| ==> Nowhere(ps[i].text, lits.paramEnd)
  }

  /** A round of the parser whose pieces are known. */
  lemma ParamRead(lits: Lits, s: string, acc: string, tag: string, text: string, rest: string, name: string,
                  kind: string)
    requires Json.Ws(s) == s && !StartsWith(s, lits.invokeEnd) && StartsWith(s, lits.paramStart)
    requires tag != "" && Find(s, 0, ">") == |tag| - 1 && s[..|tag|] == tag
    requires s[|tag|..] == text + (lits.paramEnd + rest)
    requires Attr(tag, "name") == Some(name) && Attr(tag, "string") == Some(kind)
    requires lits.paramEnd != "" && Find(text + (lits.paramEnd + rest), 0, lits.paramEnd) == |text|
    ensures ParseParams(s, lits, acc)
         == ParseParams(rest, lits, AddArg(acc, name, if kind == "true" then Unescape(text) else text, kind == "true"))
  {
    hide Find, Attr, Unescape, AddArg, StartsWith, Json.Ws;
    var after := text + (lits.paramEnd + rest);
    assert after[..|text|] == text;
    assert after[|text| + |lits.paramEnd|..] == rest;
  }

  lemma ParamPieces(lits: Lits, p: Param, rest: string)
    ensures WriteParam(lits, p) + rest == ParamTag(lits, p) + (p.text + (lits.paramEnd + ("\n" + rest)))
  {
    hide ParamTag;
    var n := "\n" + rest;
    assert WriteParam(lits, p) + rest == ParamTag(lits, p) + p.text + lits.paramEnd + n;
  }

  lemma ParamStarts(lits: Lits, p: Param, s: string)
    requires KnownLits(lits) && StartsWith(s, ParamTag(lits, p))
    ensures StartsWith(s, lits.paramStart)
    ensures |s| > 1 && s[0] == '<' && s[1] != '/'
  {
    hide AttrEscape, Spelled;
    Heads(lits);
    var tag, head := ParamTag(lits, p), lits.paramStart;
    assert tag[..|head|] == head;
    assert s[..|tag|][..|head|] == s[..|head|];
    assert s[0] == s[..|head|][0] && s[1] == s[..|head|][1];
  }

  /** One written parameter, parsed. */
  lemma ParamStep(lits: Lits, p: Param, rest: string, acc: string)
    requires KnownLits(lits) && Nowhere(p.text, lits.paramEnd)
    ensures var a := ReadParam(p);
      ParseParams(WriteParam(lits, p) + rest, lits, acc)
        == ParseParams("\n" + rest, lits, AddArg(acc, a.key, a.value, a.isString))
  {
    hide Find, Attr, Unescape, AddArg, StartsWith, Json.Ws, ParseParams, ParamTag, EndsWith, Spelled, KnownLits,
      WriteParam;
    Heads(lits);
    ParamAttrs(lits, p);
    ParamPieces(lits, p, rest);
    var tag := ParamTag(lits, p);
    var tail := p.text + (lits.paramEnd + ("\n" + rest));
    var s := tag + tail;
    TagEnd(tag, tail);
    StartsHere(tag, tail);
    ParamStarts(lits, p, s);
    NotStart(s, lits.invokeEnd);
    WsBracket(s);
    TextEnd(lits, p.text, "\n" + rest);
    ParamRead(lits, s, acc, tag, p.text, "\n" + rest, p.key, KindRead(p));
  }

  /** The first closing tag behind a text without one is the real one. */
  lemma TextEnd(lits: Lits, text: string, rest: string)
    requires KnownLits(lits) && Nowhere(text, lits.paramEnd)
    ensures Find(text + (lits.paramEnd + rest), 0, lits.paramEnd) == |text|
  {
    hide Find, Spelled, MatchAt, KnownLits;
    Heads(lits);
    var end := lits.paramEnd;
    forall k: nat | k < |text|
      ensures !MatchAt(text + (end + rest), k, end)
    {
      NoCross(text, end + rest, end, k);
    }
    MatchPart(text, end, rest);
    assert text + end + rest == text + (end + rest);
    FoundAt(text + (end + rest), 0, end, |text|);
  }

  /** What is rendered for a value holds no closing tag. */
  lemma MarkupClosed(a: JsonArg)
    ensures Nowhere(ValueMarkup(a), PARAM_END)
  {
    hide Shield, MatchAt;
    RealTags();
    var rep := if a.isString then TEXT_REP else JSON_REP;
    var v := Shield(a.value, PARAM_END, rep);
    assert v == ValueMarkup(a);
    forall k: nat
      ensures !MatchAt(v, k, PARAM_END)
    {
      if k < |v| {
        NoneInside(a.value, PARAM_END, rep, PARAM_END, k);
        assert (v + PARAM_END)[..|v|] == v;
        MatchInPrefix(v + PARAM_END, |v|, k, PARAM_END);
      } else {
        NoRoom(v, k, PARAM_END);
      }
    }
  }

  lemma NoRoom(s: string, k: nat, lit: string)
    requires k >= |s| && lit != ""
    ensures !MatchAt(s, k, lit)
  {
  }

  lemma {:induction false} RenderedClosed(args: seq<JsonArg>)
    ensures Closed(LONG, ParamsOf(args)) && ReadParams(ParamsOf(args)) == RereadAll(args)
  {
    hide ParamOf, Reread, ReadParam;
    if args != [] {
      RenderedClosed(args[1..]);
      OneClosed(args[0]);
      assert ParamsOf(args)[1..] == ParamsOf(args[1..]);
    }
  }

  lemma OneClosed(a: JsonArg)
    ensures Nowhere(ParamOf(a).text, LONG.paramEnd) && ReadParam(ParamOf(a)) == Reread(a)
  {
    MarkupClosed(a);
  }

  function RereadAll(args: seq<JsonArg>): seq<JsonArg> {
    if args == [] then [] else [Reread(args[0])] + RereadAll(args[1..])
  }

  lemma ParamsLine(s: string, lits: Lits, acc: string)
    ensures ParseParams("\n" + s, lits, acc) == ParseParams(s, lits, acc)
  {
    hide Find, Attr, Unescape, AddArg, StartsWith, Json.Ws;
    WsLine(s);
  }

  /** All written parameters of a call, parsed. */
  lemma {:induction false} ParamsBack(lits: Lits, ps: seq<Param>, rest: string, acc: string)
    requires KnownLits(lits) && Closed(lits, ps)
    ensures ParseParams(WriteParams(lits, ps) + (lits.invokeEnd + rest), lits, acc) ==
        Some((AddArgs(acc, ReadParams(ps)), rest))
    decreases |ps|
  {
    hide Find, Attr, Unescape, AddArg, Json.Ws, ReadParam, WriteParam, Spelled, KnownLits;
    var end := lits.invokeEnd + rest;
    if ps == [] {
      assert "" + end == end;
      ParamsEnd(lits, rest, acc);
    } else {
      hide ParseParams;
      var r := ReadParam(ps[0]);
      var acc' := AddArg(acc, r.key, r.value, r.isString);
      var more := WriteParams(lits, ps[1..]) + end;
      assert WriteParams(lits, ps) + end == WriteParam(lits, ps[0]) + more;
      ParamStep(lits, ps[0], more, acc);
      ParamsLine(more, lits, acc');
      ParamsBack(lits, ps[1..], rest, acc');
      AddedFirst(acc, r, ReadParams(ps[1..]));
      assert ReadParams(ps) == [r] + ReadParams(ps[1..]);
    }
  }

  lemma AddedFirst(acc: string, a: JsonArg, more: seq<JsonArg>)
    ensures AddArgs(acc, [a] + more) == AddArgs(AddArg(acc, a.key, a.value, a.isString), more)
  {
    assert ([a] + more)[1..] == more;
  }

  lemma ParamsEnd(lits: Lits, rest: string, acc: string)
    requires KnownLits(lits)
    ensures ParseParams(lits.invokeEnd + rest, lits, acc) == Some((acc, rest))
  {
    hide Find, Attr, Unescape, AddArg, Spelled, StartsWith, KnownLits;
    Heads(lits);
    var s := lits.invokeEnd + rest;
    WsBracket(s);
    StartsHere(lits.invokeEnd, rest);
    assert s[|lits.invokeEnd|..] == rest;
  }
}
