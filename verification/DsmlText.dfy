/** Escaping and unescaping the text of a tool call, and when the one undoes the
    other. */
module DsmlText {
  import opened Common
  import opened StreamText
  import opened StreamTool

  const PARAM_END := LONG.paramEnd

  // ----- attributes -----

  function AttrChar(c: char): string {
    if c == '&' then "&amp;" else if c == '<' then "&lt;" else if c == '>' then "&gt;"
    else if c == '"' then "&quot;" else [c]
  }

  function AttrEscape(s: string): string {
    if s == "" then "" else AttrChar(s[0]) + AttrEscape(s[1..])
  }

  lemma TokenOf(c: char, rest: string)
    ensures Token(AttrChar(c) + rest) == (|AttrChar(c)|, c)
  {
    var e := AttrChar(c);
    var s := e + rest;
    assert s[..|e|] == e;
    if |e| > 1 {
      assert s[0..|e|] == e;
      assert s[1] == e[1];
      if |s| >= 5 { assert s[0..5][1] == s[1]; }
      if |s| >= 6 { assert s[0..6][1] == s[1]; }
      assert s[0..4][1] == s[1];
    } else {
      assert |s| >= 4 ==> s[0..4][0] == s[0];
      assert |s| >= 5 ==> s[0..5][0] == s[0];
      assert |s| >= 6 ==> s[0..6][0] == s[0];
    }
  }

  /** An attribute is read back as it was written. */
  lemma {:induction false} AttrBack(s: string)
    ensures Unescape(AttrEscape(s)) == s
  {
    if s != "" {
      hide Token;
      AttrBack(s[1..]);
      var e := AttrChar(s[0]);
      TokenOf(s[0], AttrEscape(s[1..]));
      assert AttrEscape(s)[|e|..] == AttrEscape(s[1..]);
      assert [s[0]] + s[1..] == s;
    }
  }

  /** No quote and no angle bracket is left in an attribute. */
  lemma {:induction false} AttrPlain(s: string, k: nat)
    requires k < |AttrEscape(s)|
    ensures AttrEscape(s)[k] != '"' && AttrEscape(s)[k] != '<' && AttrEscape(s)[k] != '>'
  {
    var e := AttrChar(s[0]);
    if k >= |e| { AttrPlain(s[1..], k - |e|); }
  }

  lemma {:induction false} AttrLast(s: string)
    requires s != ""
    ensures AttrEscape(s) == AttrEscape(s[..|s| - 1]) + AttrChar(s[|s| - 1])
  {
    hide AttrChar;
    if |s| == 1 {
      assert s == [s[0]];
    } else {
      AttrLast(s[1..]);
      assert s[..|s| - 1][1..] == s[1..][..|s| - 2];
      assert s[1..][|s| - 2] == s[|s| - 1];
    }
  }

  predicate EndsWith(s: string, p: string) {
    |p| <= |s| && s[|s| - |p|..] == p
  }

  /** An attribute ends in ordinary characters exactly when its escaped form does. */
  lemma {:induction false} AttrEndsWith(s: string, p: string)
    requires forall k :: 0 <= k < |p| ==> AttrChar(p[k]) == [p[k]] && p[k] != ';'
    ensures EndsWith(AttrEscape(s), p) <==> EndsWith(s, p)
    decreases |p|
  {
    hide EndsWith, AttrEscape;
    if p == "" {
      EndsNone(AttrEscape(s));
      EndsNone(s);
    } else if s == "" {
      EndsShort(p);
    } else {
      var n, m := |s| - 1, |p| - 1;
      AttrLast(s);
      var e := AttrEscape(s);
      var e', c := AttrEscape(s[..n]), AttrChar(s[n]);
      AttrEndsWith(s[..n], p[..m]);
      EndsStep(s, p);
      EndsStep(e, p);
      assert e[|e| - 1] == c[|c| - 1];
      if |c| == 1 { assert e[..|e| - 1] == e' && c == [s[n]]; }
    }
  }

  lemma EndsNone(s: string)
    ensures EndsWith(s, "")
  {
  }

  lemma EndsShort(p: string)
    requires p != ""
    ensures AttrEscape("") == "" && !EndsWith("", p)
  {
  }

  lemma EndsStep(s: string, p: string)
    requires s != "" && p != ""
    ensures EndsWith(s, p) <==> EndsWith(s[..|s| - 1], p[..|p| - 1]) && s[|s| - 1] == p[|p| - 1]
  {
    var n, m := |s| - 1, |p| - 1;
    if m <= n {
      assert s[n - m..] == s[..n][n - m..] + [s[n]];
      assert p == p[..m] + [p[m]];
    }
  }

  // ----- parameter text -----

  /** A text in which every closing tag has its bracket replaced. */
  function Shield(s: string, end: string, rep: string): string {
    if s == "" then ""
    else (if MatchAt(s, 0, end) then rep else [s[0]]) + Shield(s[1..], end, rep)
  }

  // What replaces a bracket in string text and in JSON text.
  const TEXT_REP := "&lt;"
  const JSON_REP := "\\u003c"

  /** What the proofs need of a closing tag and of what replaces its bracket. */
  ghost predicate Tags(end: string, rep: string) {
    && |end| > 1 && end[0] == '<'
    && (forall k :: 0 < k < |end| ==> end[k] != '<' && end[k] != '&' && end[k] != '\\')
    && |rep| > 1 && (rep[0] == '&' || rep[0] == '\\')
    && (forall k :: 0 <= k < |rep| ==> rep[k] != '<')
  }

  lemma RealTags()
    ensures Tags(PARAM_END, TEXT_REP) && Tags(PARAM_END, JSON_REP)
  {
    assert PARAM_END == "</" + DSML + "parameter>";
  }

  lemma StartsStep(s: string, p: string)
    requires p != ""
    ensures StartsWith(s, p) <==> s != "" && s[0] == p[0] && StartsWith(s[1..], p[1..])
  {
    if |p| <= |s| {
      assert s[..|p|] == [s[0]] + s[1..][..|p| - 1];
      assert p == [p[0]] + p[1..];
    }
  }

  lemma StartsMatch(s: string, p: string)
    ensures StartsWith(s, p) <==> MatchAt(s, 0, p)
  {
  }

  /** Text without brackets that a shielded text starts with was there before. */
  lemma {:induction false} ShieldStart(v: string, end: string, rep: string, tail: string, p: string)
    requires Tags(end, rep) && (tail == "" || tail[0] == '<') && StartsWith(Shield(v, end, rep) + tail, p)
    requires forall k :: 0 <= k < |p| ==> p[k] != '<' && p[k] != rep[0]
    ensures StartsWith(v, p)
    decreases |p|
  {
    if p != "" {
      var s := Shield(v, end, rep) + tail;
      StartsStep(s, p);
      if v != "" && !MatchAt(v, 0, end) {
        assert s[1..] == Shield(v[1..], end, rep) + tail;
        ShieldStart(v[1..], end, rep, tail, p[1..]);
        StartsStep(v, p);
      }
    }
  }

  lemma FirstOfEnd(s: string, end: string)
    requires end != "" && end[0] == '<'
    ensures MatchAt(s, 0, end) ==> s != "" && s[0] == '<'
  {
    assert |end| <= |s| ==> s[0] == s[0..|end|][0];
  }

  /** What is not shielded is no closing tag, also with what follows it. */
  lemma NoneAtStart(v: string, end: string, rep: string, tail: string)
    requires Tags(end, rep) && StartsWith(tail, end) && v != "" && !MatchAt(v, 0, end)
    ensures !MatchAt([v[0]] + (Shield(v[1..], end, rep) + tail), 0, end)
  {
    hide Shield;
    var rest := Shield(v[1..], end, rep) + tail;
    var s := [v[0]] + rest;
    StartsMatch(s, end);
    StartsStep(s, end);
    assert s[1..] == rest;
    StartsStep(tail, end);
    if StartsWith(rest, end[1..]) { ShieldStart(v[1..], end, rep, tail, end[1..]); }
    StartsStep(v, end);
    StartsMatch(v, end);
  }

  /** No closing tag is left in a shielded text, and none begins in it. */
  lemma {:induction false} NoneInside(v: string, end: string, rep: string, tail: string, i: nat)
    requires Tags(end, rep) && StartsWith(tail, end) && i < |Shield(v, end, rep)|
    ensures !MatchAt(Shield(v, end, rep) + tail, i, end)
    decreases |v|
  {
    hide MatchAt;
    var rest := Shield(v[1..], end, rep) + tail;
    var x := if MatchAt(v, 0, end) then rep else [v[0]];
    assert Shield(v, end, rep) + tail == x + rest;
    if i >= |x| {
      NoneInside(v[1..], end, rep, tail, i - |x|);
      MatchBehind(x, rest, i, end);
    } else if !MatchAt(v, 0, end) {
      NoneAtStart(v, end, rep, tail);
    } else {
      assert rep[i] != '<' && (rep + rest)[i] == rep[i];
      NoBracket(rep + rest, i, end);
    }
  }

  lemma MatchBehind(x: string, rest: string, i: nat, end: string)
    requires i >= |x|
    ensures MatchAt(x + rest, i, end) <==> MatchAt(rest, i - |x|, end)
  {
    var s := x + rest;
    if i + |end| <= |s| { assert s[i..i + |end|] == rest[i - |x|..i - |x| + |end|]; }
  }

  lemma NoBracket(s: string, i: nat, end: string)
    requires end != "" && end[0] == '<' && i < |s| && s[i] != '<'
    ensures !MatchAt(s, i, end)
  {
    assert i + |end| <= |s| ==> s[i] == s[i..i + |end|][0];
  }

  /** The first closing tag found is always the real one. */
  lemma FirstEnd(v: string, end: string, rep: string, rest: string)
    requires Tags(end, rep)
    ensures Find(Shield(v, end, rep) + (end + rest), 0, end) == |Shield(v, end, rep)|
  {
    hide Shield;
    var p, tail := Shield(v, end, rep), end + rest;
    var s := p + tail;
    assert tail[..|end|] == end;
    forall i | 0 <= i < |p|
      ensures !MatchAt(s, i, end)
    {
      NoneInside(v, end, rep, tail, i);
    }
    assert s[|p|..|p| + |end|] == end;
    assert MatchAt(s, |p|, end);
  }

  lemma MatchTail(s: string, i: nat, lit: string)
    requires s != "" && i > 0
    ensures MatchAt(s, i, lit) <==> MatchAt(s[1..], i - 1, lit)
  {
    if i + |lit| <= |s| { assert s[i..i + |lit|] == s[1..][i - 1..i - 1 + |lit|]; }
  }

  ghost predicate Nowhere(s: string, lit: string) {
    forall i: nat :: !MatchAt(s, i, lit)
  }

  /** A literal with one place for its first character does not start in a text that does not hold it,
      whatever stands behind and starts in a character the literal does not go on with. */
  lemma NoCross(a: string, more: string, lit: string, k: nat)
    requires Nowhere(a, lit) && k < |a|
    requires more != "" ==> forall j :: 0 < j < |lit| ==> lit[j] != more[0]
    ensures !MatchAt(a + more, k, lit)
  {
    var s, n := a + more, |a|;
    assert s[..n] == a && (more != "" ==> s[n] == more[0]);
    MatchInPrefix(s, n, k, lit);
    if MatchAt(s, k, lit) { MatchChars(s, k, lit); }
  }

  lemma NowhereTail(s: string, lit: string)
    requires s != "" && lit != ""
    ensures Nowhere(s, lit) <==> !MatchAt(s, 0, lit) && Nowhere(s[1..], lit)
  {
    if Nowhere(s, lit) {
      forall i: nat
        ensures !MatchAt(s[1..], i, lit)
      {
        MatchTail(s, i + 1, lit);
      }
    }
    if !MatchAt(s, 0, lit) && Nowhere(s[1..], lit) {
      forall i: nat
        ensures !MatchAt(s, i, lit)
      {
        if i > 0 { MatchTail(s, i, lit); }
      }
    }
  }

  /** Shielding changes a text exactly when a closing tag occurs in it. */
  lemma {:induction false} ShieldKeeps(v: string, end: string, rep: string)
    requires Tags(end, rep)
    ensures |Shield(v, end, rep)| >= |v|
    ensures Shield(v, end, rep) == v <==> Nowhere(v, end)
    ensures !Nowhere(v, end) ==> |Shield(v, end, rep)| > |v|
  {
    if v != "" {
      ShieldKeeps(v[1..], end, rep);
      NowhereTail(v, end);
      assert v == [v[0]] + v[1..];
    }
  }

  // ----- string text -----

  /** None of the five entities that the parser decodes. */
  ghost predicate EntityFree(s: string) {
    forall ent :: ent in ENTITIES ==> Nowhere(s, ent)
  }

  lemma EntityFreeTail(s: string)
    requires s != ""
    ensures EntityFree(s) <==> EntityFree(s[1..]) && forall ent :: ent in ENTITIES ==> !MatchAt(s, 0, ent)
  {
    forall ent | ent in ENTITIES
      ensures Nowhere(s, ent) <==> !MatchAt(s, 0, ent) && Nowhere(s[1..], ent)
    {
      NowhereTail(s, ent);
    }
  }

  lemma EntityStart(ent: string)
    requires ent in ENTITIES
    ensures |ent| > 1 && ent[0] == '&' && forall k :: 0 < k < |ent| ==> ent[k] != '&' && ent[k] != '<'
  {
  }

  /** Plain text at the front of a value stays in front. */
  lemma {:induction false} ShieldPlain(v: string, end: string, rep: string, n: nat)
    requires Tags(end, rep) && n <= |v| && forall k :: 0 <= k < n ==> v[k] != '<'
    ensures Shield(v, end, rep) == v[..n] + Shield(v[n..], end, rep)
  {
    if n > 0 {
      FirstOfEnd(v, end);
      ShieldPlain(v[1..], end, rep, n - 1);
      assert v[..n] == [v[0]] + v[1..][..n - 1] && v[1..][n - 1..] == v[n..];
    } else {
      assert v[0..] == v;
    }
  }

  function ParamText(v: string): string {
    Shield(v, PARAM_END, TEXT_REP)
  }

  lemma TokenPlain(s: string)
    requires s != "" && forall ent :: ent in ENTITIES ==> !MatchAt(s, 0, ent)
    ensures Token(s) == (1, s[0])
  {
    assert {"&amp;", "&lt;", "&gt;", "&quot;", "&apos;"} == ENTITIES;
  }

  lemma TokenEntity(s: string, ent: string)
    requires ent in ENTITIES && MatchAt(s, 0, ent)
    ensures Token(s).0 == |ent|
  {
    assert forall other :: other in ENTITIES && MatchAt(s, 0, other) ==> other == ent by {
      forall other | other in ENTITIES && MatchAt(s, 0, other)
        ensures other == ent
      {
        OneEntity(s, ent, other);
      }
    }
    assert {"&amp;", "&lt;", "&gt;", "&quot;", "&apos;"} == ENTITIES;
  }

  lemma OneEntity(s: string, a: string, b: string)
    requires a in ENTITIES && b in ENTITIES && MatchAt(s, 0, a) && MatchAt(s, 0, b)
    ensures a == b
  {
    assert a[1] == s[0..|a|][1] == s[1] && b[1] == s[0..|b|][1] == s[1];
    assert a[2] == s[0..|a|][2] == s[2] && b[2] == s[0..|b|][2] == s[2];
  }

  /** One step of unescaping a shielded text. */
  lemma ShieldedToken(v: string)
    requires v != "" && !MatchAt(v, 0, PARAM_END) && forall ent :: ent in ENTITIES ==> !MatchAt(v, 0, ent)
    ensures Unescape(ParamText(v)) == [v[0]] + Unescape(ParamText(v[1..]))
  {
    hide Token, MatchAt;
    RealTags();
    var s := ParamText(v);
    var rest := ParamText(v[1..]);
    assert s == [v[0]] + rest && s[1..] == rest;
    forall ent | ent in ENTITIES
      ensures !MatchAt(s, 0, ent)
    {
      EntityStart(ent);
      StartsMatch(s, ent);
      StartsMatch(v, ent);
      StartsStep(s, ent);
      StartsStep(v, ent);
      if StartsWith(rest, ent[1..]) {
        assert rest + "" == rest;
        ShieldStart(v[1..], PARAM_END, TEXT_REP, "", ent[1..]);
      }
    }
    TokenPlain(s);
  }

  lemma ShieldedBracket(v: string)
    requires MatchAt(v, 0, PARAM_END)
    ensures v != "" && v[0] == '<' && Unescape(ParamText(v)) == [v[0]] + Unescape(ParamText(v[1..]))
  {
    RealTags();
    FirstOfEnd(v, PARAM_END);
    var rest := ParamText(v[1..]);
    assert AttrChar('<') == TEXT_REP;
    TokenOf('<', rest);
    assert ParamText(v) == TEXT_REP + rest && (TEXT_REP + rest)[4..] == rest;
  }

  lemma ShieldedEntity(v: string, ent: string)
    requires ent in ENTITIES && MatchAt(v, 0, ent)
    ensures |Unescape(ParamText(v))| == 1 + |Unescape(ParamText(v[|ent|..]))|
  {
    hide Token, Shield;
    RealTags();
    EntityStart(ent);
    assert forall k :: 0 <= k < |ent| ==> v[k] == v[0..|ent|][k] == ent[k];
    ShieldPlain(v, PARAM_END, TEXT_REP, |ent|);
    var s, rest := ParamText(v), ParamText(v[|ent|..]);
    assert s == ent + rest && s[..|ent|] == ent && s[|ent|..] == rest;
    assert MatchAt(s, 0, ent);
    TokenEntity(s, ent);
  }

  lemma {:induction false} ParamTextLength(v: string)
    ensures |Unescape(ParamText(v))| <= |v|
    ensures EntityFree(v) ==> Unescape(ParamText(v)) == v
    ensures !EntityFree(v) ==> |Unescape(ParamText(v))| < |v|
    decreases |v|
  {
    hide Unescape, MatchAt;
    if v == "" {
      NothingThere();
    } else {
      EntityFreeTail(v);
      if MatchAt(v, 0, PARAM_END) {
        ShieldedBracket(v);
        NoEntityHere(v);
        ParamTextLength(v[1..]);
      } else if ent :| ent in ENTITIES && MatchAt(v, 0, ent) {
        EntityStart(ent);
        ShieldedEntity(v, ent);
        MatchFits(v, ent);
        ParamTextLength(v[|ent|..]);
      } else {
        ShieldedToken(v);
        ParamTextLength(v[1..]);
      }
      assert [v[0]] + v[1..] == v;
    }
  }

  lemma MatchFits(s: string, lit: string)
    requires MatchAt(s, 0, lit)
    ensures |lit| <= |s|
  {
  }

  lemma NoEntityHere(v: string)
    requires v != "" && v[0] == '<'
    ensures forall ent :: ent in ENTITIES ==> !MatchAt(v, 0, ent)
  {
    forall ent | ent in ENTITIES
      ensures !MatchAt(v, 0, ent)
    {
      EntityStart(ent);
      assert |ent| <= |v| ==> v[0..|ent|][0] == v[0];
    }
  }

  lemma NothingThere()
    ensures Unescape(ParamText("")) == "" && EntityFree("")
  {
    forall ent | ent in ENTITIES
      ensures Nowhere("", ent)
    {
      EntityStart(ent);
    }
  }

  /** String text is read back as it was exactly when it holds none of the entities
      the parser decodes. */
  lemma ParamTextBack(v: string)
    ensures Unescape(ParamText(v)) == v <==> EntityFree(v)
  {
    ParamTextLength(v);
  }

  /** JSON text is sent as it is exactly when it holds no closing tag. */
  lemma JsonTextBack(v: string)
    ensures Shield(v, PARAM_END, JSON_REP) == v <==> Nowhere(v, PARAM_END)
  {
    RealTags();
    ShieldKeeps(v, PARAM_END, JSON_REP);
  }
}
