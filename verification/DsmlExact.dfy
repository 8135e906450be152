/** When rendered calls come back exactly: the arguments of a call are read back as
    they were if, and only if, every parameter survives. */
module DsmlExact {
  import opened Common
  import opened StreamText
  import opened StreamTool
  import opened Json
  import opened JsonFacts
  import opened JsonStable
  import opened JsonMinify
  import opened JsonArgs
  import opened DsmlText
  import opened DsmlCalls
  import opened DsmlBack
  import opened DsmlRound

  // ----- string literals that decode to themselves -----

  /** A character that stands for itself wherever it occurs in a string literal. */
  predicate Plain(c: char) {
    c != '"' && c != '\\' && c != 'u' && Hex(c) < 0 && SimpleEscape(c).None?
  }

  lemma PlainOnes()
    ensures Plain('&') && Plain(',') && Plain('}')
  {
  }

  /** How far a literal goes that is read from `b`. */
  function Inside(b: string): int
    requires StringBody(b).Some?
  {
    |b| - |StringBody(b).value.1| - 1
  }

  lemma EscapeText(s: string)
    requires IsHex4(s)
    ensures 0 < |UnicodeEscape(s).0| <= 4 <= UnicodeEscape(s).1 <= |s|
  {
  }

  lemma {:induction false} BodyShrinks(b: string)
    requires StringBody(b).Some?
    ensures |StringBody(b).value.0| <= Inside(b)
    decreases |b|
  {
    hide UnicodeEscape, IsHex4, SimpleEscape, StringBody;
    BodyFirst(b);
    if b[0] == '\\' && b[1] == 'u' {
      BodyUnicode(b);
      EscapeText(b[2..]);
      BodyShrinks(b[2..][UnicodeEscape(b[2..]).1..]);
    } else if b[0] == '\\' {
      BodySimple(b);
      BodyShrinks(b[2..]);
    } else if b[0] != '"' {
      BodyPlain(b);
      BodyShrinks(b[1..]);
    }
  }

  lemma NoPlainInEscape(s: string, k: nat)
    requires IsHex4(s) && k < UnicodeEscape(s).1 <= |s|
    ensures !Plain(s[k])
  {
    if k >= 6 { assert s[6..][k - 6] == s[k]; }
  }

  /** A plain character inside a literal is decoded to itself, no later than it was. */
  lemma {:induction false} BodySent(b: string, q: nat) returns (k: nat)
    requires StringBody(b).Some? && q < Inside(b) && Plain(b[q])
    ensures k <= q && k < |StringBody(b).value.0| && StringBody(b).value.0[k] == b[q]
    decreases |b|
  {
    hide UnicodeEscape, IsHex4, SimpleEscape, StringBody, Plain, Hex;
    BodyFirst(b);
    PlainIsNot(b[q]);
    if b[0] == '\\' && b[1] == 'u' {
      BodyUnicode(b);
      EscapeText(b[2..]);
      var n := UnicodeEscape(b[2..]).1;
      if 2 <= q < 2 + n {
        NoPlainInEscape(b[2..], q - 2);
      }
      var rest := b[2..][n..];
      assert rest[q - 2 - n] == b[q];
      k := BodySent(rest, q - 2 - n);
      k := k + |UnicodeEscape(b[2..]).0|;
    } else if b[0] == '\\' {
      BodySimple(b);
      assert b[2..][q - 2] == b[q];
      k := BodySent(b[2..], q - 2);
      k := k + 1;
    } else {
      BodyPlain(b);
      if q == 0 {
        k := 0;
      } else {
        assert b[1..][q - 1] == b[q];
        k := BodySent(b[1..], q - 1);
        k := k + 1;
      }
    }
  }

  lemma PlainIsNot(c: char)
    requires Plain(c)
    ensures c != '"' && c != '\\' && c != 'u' && SimpleEscape(c).None?
  {
  }

  /** A literal whose value has a plain character only where the literal, shifted by
      more than nothing, has it: it has none. */
  lemma {:induction false} Descent(b: string, c: char, w: nat, q: nat)
    requires StringBody(b).Some? && Plain(c) && q < Inside(b) && b[q] == c
    requires forall k: nat :: k <= q && k < |StringBody(b).value.0| && StringBody(b).value.0[k] == c ==>
      w < k && b[k - w - 1] == c
    ensures false
    decreases q
  {
    hide StringBody, Plain;
    var k := BodySent(b, q);
    Descent(b, c, w, k - w - 1);
  }

  // ----- what is written for a value that does not survive -----

  /** The first closing tag of a text, and the same text with the tags taken apart. */
  lemma {:induction false} FirstTag(v: string, end: string, rep: string) returns (t: nat)
    requires Tags(end, rep) && !Nowhere(v, end)
    ensures t < |v| && v[t] == '<' && t < |Shield(v, end, rep)|
    ensures Shield(v, end, rep)[..t] == v[..t] && Shield(v, end, rep)[t] == rep[0]
  {
    hide Nowhere;
    NowhereNot(v, end);
    NowhereTail(v, end);
    FirstOfEnd(v, end);
    if MatchAt(v, 0, end) {
      t := 0;
    } else {
      t := FirstTag(v[1..], end, rep);
      assert Shield(v, end, rep) == [v[0]] + Shield(v[1..], end, rep);
      t := t + 1;
      assert v[..t] == [v[0]] + v[1..][..t - 1];
      assert Shield(v, end, rep)[..t] == [v[0]] + Shield(v[1..], end, rep)[..t - 1];
    }
  }

  lemma NowhereNot(v: string, end: string)
    requires !Nowhere(v, end) && end != ""
    ensures v != ""
  {
  }

  /** Where the text of a string, taken as a literal, stops to be the literal. */
  lemma NotInside(v: string, w: string, s: string)
    requires ParamText(v) == w + s && (forall k :: 0 <= k < |w| ==> IsSpace(w[k])) && s != "" && s[0] == '"'
    ensures StringBody(s[1..]).Some? ==> StringBody(s[1..]).value.0 != v
  {
    hide StringBody, Plain, Shield;
    var b := s[1..];
    if StringBody(b).Some? && StringBody(b).value.0 == v {
      RealTags();
      ShieldKeeps(v, PARAM_END, TEXT_REP);
      BodyShrinks(b);
      TextShifted(v, w, s, "", '&');
      var t := FirstTag(v, PARAM_END, TEXT_REP);
      assert s + "" == s;
      PlainOnes();
      Descent(b, '&', |w|, t - |w| - 1);
    }
  }

  /** The same for a literal that only ends behind the text. */
  lemma NotBeyond(v: string, w: string, s: string, tail: string)
    requires ParamText(v) == w + s && (forall k :: 0 <= k < |w| ==> IsSpace(w[k])) && s != "" && s[0] == '"'
    requires tail != "" && (tail[0] == ',' || tail[0] == '}')
    ensures StringBody(s[1..]).None? && StringBody(s[1..] + tail).Some? ==> StringBody(s[1..] + tail).value.0 != v
  {
    hide StringBody, Plain, Shield;
    var b := s[1..] + tail;
    if StringBody(s[1..]).None? && StringBody(b).Some? && StringBody(b).value.0 == v {
      RealTags();
      PlainOnes();
      BodyBeyond(s[1..], tail);
      ShieldKeeps(v, PARAM_END, TEXT_REP);
      if Nowhere(v, PARAM_END) {
        assert b[|s| - 1] == tail[0];
        BodyCloses(b);
        TextShifted(v, w, s, tail, tail[0]);
        Descent(b, tail[0], |w|, |s| - 1);
      } else {
        var t := FirstTag(v, PARAM_END, TEXT_REP);
        TextShifted(v, w, s, tail, '&');
        Descent(b, '&', |w|, t - |w| - 1);
      }
    }
  }

  /** Up to its first tag a text and its markup are one; the literal starts one place
      behind the white space. */
  lemma TextShifted(v: string, w: string, s: string, tail: string, c: char)
    requires ParamText(v) == w + s && (forall k :: 0 <= k < |w| ==> IsSpace(w[k])) && s != "" && s[0] == '"'
    requires c == '&' || c == ',' || c == '}'
    ensures forall k: nat :: k < |ParamText(v)| && ParamText(v)[k] == c ==> |w| < k && (s[1..] + tail)[k - |w| - 1] == c
  {
    hide Shield;
    var m := ParamText(v);
    forall k: nat | k < |m|
      ensures k < |w| ==> m[k] == w[k]
      ensures k >= |w| ==> m[k] == s[k - |w|]
    {
    }
  }

  lemma BodyBeyond(p: string, tail: string)
    requires StringBody(p).None? && StringBody(p + tail).Some?
    ensures |StringBody(p + tail).value.1| < |tail|
  {
    hide StringBody;
    var rest := StringBody(p + tail).value.1;
    var c := BodyAppend(p + tail, "");
    if |rest| >= |tail| {
      assert c == (p + tail)[..|c|] == p[..|c|];
      assert p == c + p[|c|..];
      var d := BodyAppend(p + tail, p[|c|..]);
    }
  }

  lemma BodyCloses(b: string)
    requires StringBody(b).Some?
    ensures 0 <= Inside(b) < |b| && b[Inside(b)] == '"'
  {
    hide StringBody;
    var c := BodyAppend(b, "");
  }

  lemma MinifyMin(m: string)
    ensures SkipValue(m).None? ==> Minify(m) == m
    ensures SkipValue(m).Some? ==> Minify(m) == SkipValue(m).value.min != "" && !IsSpace(Minify(m)[0])
  {
    hide SkipValue, Squeeze, Ends;
    if SkipValue(m).Some? {
      ValueSqueezed(m, "");
      MinStart(m);
      NoSpace(SkipValue(m).value.min[0]);
      var h := Head(Ws(m), SkipValue(m).value.rest);
      SqueezeNone();
      assert h + "" == h && SkipValue(m).value.min + "" == SkipValue(m).value.min;
    }
  }

  lemma SqueezeNone()
    ensures Squeeze("", false, false) == ""
  {
  }

  /** A string that is written without quotes is not read back as that string. */
  lemma NotAString(v: string, tail: string)
    requires tail != "" && (tail[0] == ',' || tail[0] == '}')
    ensures var r := ParseValue(Ws(ValueText(ParamText(v), false) + tail)); r.Some? && r.value.1 ==> r.value.0 != v
  {
    hide SkipValue, Minify, StringBody, ParamText, Ws;
    var m := ParamText(v);
    var w := WsSuffix(m);
    var s := Ws(m);
    MinifyMin(m);
    if s == "" {
      NoValueThere(m, w, tail);
    } else if SkipValue(m).Some? {
      LiteralRead(m, s, tail);
      WsStarts(m);
      if s[0] == '"' { NotInside(v, w, s); }
    } else {
      BrokenLiteral(m, s, tail);
      if s[0] == '"' { NotBeyond(v, w, s, tail); }
    }
  }

  lemma WsStarts(m: string)
    ensures Ws(m) != "" ==> !IsSpace(Ws(m)[0])
  {
  }

  lemma NoValueThere(m: string, w: string, tail: string)
    requires m == w && Ws(m) == "" && (forall k :: 0 <= k < |w| ==> IsSpace(w[k]))
    requires tail != "" && (tail[0] == ',' || tail[0] == '}')
    ensures var r := ParseValue(Ws(ValueText(m, false) + tail)); r.Some? ==> !r.value.1
  {
    assert SkipValue(m).None? && Minify(m) == m;
    if m == "" {
      assert ("null" + tail)[0] == 'n';
      WsNone("null" + tail);
    } else {
      WsAll(w, tail);
    }
  }

  lemma LiteralRead(m: string, s: string, tail: string)
    requires s == Ws(m) != "" && SkipValue(m).Some?
    requires Minify(m) == SkipValue(m).value.min != "" && !IsSpace(Minify(m)[0])
    ensures var r := ParseValue(Ws(ValueText(m, false) + tail));
            r.Some? && r.value.1 ==> s[0] == '"' && StringBody(s[1..]).Some? && r.value.0 == StringBody(s[1..]).value.0
  {
    hide SkipValue, Minify, StringBody, Ws;
    var min := Minify(m);
    var x := min + tail;
    assert x[0] == min[0];
    WsNone(x);
    WsTwice(m);
    WsStarts(m);
    ValueKind(s);
    FirstKept(s);
    if s[0] == '"' {
      StringAppend(s, tail);
      var c := BodyAppend(s[1..], tail);
      assert x == "\"" + (c + tail);
    }
  }

  lemma BrokenLiteral(m: string, s: string, tail: string)
    requires s == Ws(m) != "" && SkipValue(m).None? && Minify(m) == m
    ensures var r := ParseValue(Ws(ValueText(m, false) + tail));
            r.Some? && r.value.1 ==>
              s[0] == '"' && StringBody(s[1..]).None? && StringBody(s[1..] + tail).Some? &&
                r.value.0 == StringBody(s[1..] + tail).value.0
  {
    hide SkipValue, Minify, StringBody, Ws;
    WsAppend(m, tail);
    WsTwice(m);
    WsStarts(m);
    ValueKind(s);
    NotEmptied(m);
    var x := s + tail;
    assert x[0] == s[0] && x[1..] == s[1..] + tail;
    WsNone(x);
  }

  lemma NotEmptied(m: string)
    requires Ws(m) != ""
    ensures m != ""
  {
  }

  // ----- JSON text that holds a closing tag -----

  /** What squeezing leaves of one character, and the state behind it. */
  function Kept(c: char, inString: bool): string {
    if inString || c == '"' || !IsSpace(c) then [c] else ""
  }

  function Then(c: char, inString: bool, escape: bool): (bool, bool) {
    if inString then (escape || c != '"', !escape && c == '\\') else (c == '"', false)
  }

  lemma SqueezeStep(s: string, i: bool, e: bool)
    requires s != ""
    ensures Squeeze(s, i, e) == Kept(s[0], i) + Squeeze(s[1..], Then(s[0], i, e).0, Then(s[0], i, e).1)
  {
  }

  /** Text squeezed from its start: what comes behind does not change it. */
  lemma {:induction false} SqueezeSplit(p: string, z: string, inString: bool, escape: bool) returns (i: bool, e: bool)
    ensures Squeeze(p + z, inString, escape) == Squeeze(p, inString, escape) + Squeeze(z, i, e)
    ensures |Squeeze(p, inString, escape)| <= |p|
    decreases |p|
  {
    hide Squeeze, Kept, Then;
    if p == "" {
      assert p + z == z;
      SqueezeEmpty(inString, escape);
      i, e := inString, escape;
    } else {
      assert (p + z)[1..] == p[1..] + z && (p + z)[0] == p[0];
      SqueezeStep(p, inString, escape);
      SqueezeStep(p + z, inString, escape);
      i, e := SqueezeSplit(p[1..], z, Then(p[0], inString, escape).0, Then(p[0], inString, escape).1);
      KeptShort(p[0], inString);
      var t := Then(p[0], inString, escape);
      Triple(Kept(p[0], inString), Squeeze(p[1..], t.0, t.1), Squeeze(z, i, e));
    }
  }

  lemma SqueezeEmpty(i: bool, e: bool)
    ensures Squeeze("", i, e) == ""
  {
  }

  lemma KeptShort(c: char, i: bool)
    ensures |Kept(c, i)| <= 1
  {
  }

  lemma Triple(a: string, b: string, c: string)
    ensures a + (b + c) == (a + b) + c
  {
  }

  lemma SqueezeFirst(z: string, i: bool, e: bool)
    requires z != "" && !IsSpace(z[0])
    ensures Squeeze(z, i, e) != "" && Squeeze(z, i, e)[0] == z[0]
  {
  }

  /** A text that squeezing keeps is not what squeezing makes of a text that differs
      from it before its end. */
  lemma SqueezedOther(v: string, t: nat, h: string, m: string)
    requires Squeeze(v, false, false) == v && t < |v| && v[t] == '<'
    requires t < |m| && m[..t] == v[..t] && m[t] == '\\' && h <= m
    ensures Squeeze(h, false, false) != v
  {
    hide Squeeze;
    var p := v[..t];
    var i, e := SqueezeSplit(p, v[t..], false, false);
    assert p + v[t..] == v;
    SqueezeShort(v[t..], i, e);
    KeptPrefix(v, t, Squeeze(p, false, false), Squeeze(v[t..], i, e));
    if |h| > t {
      PartsAt(v, t, h, m);
      var k, g := SqueezeSplit(p, h[t..], false, false);
      SqueezeFirst(h[t..], k, g);
    } else {
      SqueezeShort(h, false, false);
    }
  }

  /** A text made of two parts that are no longer than its own. */
  lemma KeptPrefix(v: string, t: nat, a: string, b: string)
    requires t <= |v| && v == a + b && |a| <= t && |b| <= |v| - t
    ensures a == v[..t]
  {
  }

  lemma PartsAt(v: string, t: nat, h: string, m: string)
    requires t < |v| && t < |m| && m[..t] == v[..t] && m[t] == '\\' && h <= m && |h| > t
    ensures v[..t] + h[t..] == h && h[t..] != "" && h[t..][0] == '\\'
  {
    assert h[..t] == m[..t];
  }

  lemma {:induction false} SqueezeShort(z: string, i: bool, e: bool)
    ensures |Squeeze(z, i, e)| <= |z|
  {
    hide Squeeze;
    var a, b := SqueezeSplit(z, "", i, e);
  }

  /** JSON text in which a closing tag was taken apart is not read back as it was. */
  lemma NotThatJson(a: JsonArg, tail: string)
    requires Stored(a) && !a.isString && !Nowhere(a.value, PARAM_END)
    requires tail != "" && (tail[0] == ',' || tail[0] == '}')
    ensures var v := a.value;
            var r := ParseValue(Ws(ValueText(Shield(v, PARAM_END, JSON_REP), false) + tail));
            r.Some? && !r.value.1 ==> r.value.0 != v
  {
    hide SkipValue, Minify, Squeeze, Shield, StringBody, Ws, Nowhere, Head;
    var v, m := a.value, Shield(a.value, PARAM_END, JSON_REP);
    CompactBack(v, "");
    RealTags();
    var t := FirstTag(v, PARAM_END, JSON_REP);
    SqueezedSame(v);
    assert m != "" && !IsSpace(m[0]) by { if t > 0 { assert m[0] == m[..t][0] == v[..t][0]; } }
    WsNone(m);
    MinifyMin(m);
    if SkipValue(m).Some? {
      StoredIsCompact(m);
      CompactBack(Minify(m), tail);
      ValueSqueezed(m, "");
      var h := Head(m, SkipValue(m).value.rest);
      SqueezeNone();
      assert h + "" == h && Minify(m) + "" == Minify(m);
      HeadIsPrefix(m, SkipValue(m).value.rest);
      SqueezedOther(v, t, h, m);
      var x := Minify(m) + tail;
      assert x[0] == Minify(m)[0];
      WsNone(x);
      ReadBackMin(x);
    } else {
      var x := m + tail;
      assert x[0] == m[0];
      WsNone(x);
      ReadBackMin(x);
      if SkipValue(x).Some? {
        ValueSqueezed(x, "");
        var h := Head(x, SkipValue(x).value.rest);
        SqueezeNone();
        assert h + "" == h && SkipValue(x).value.min + "" == SkipValue(x).value.min;
        HeadIsPrefix(x, SkipValue(x).value.rest);
        assert x[..t] == m[..t] && x[t] == m[t];
        SqueezedOther(v, t, h, x);
      }
    }
  }

  lemma HeadIsPrefix(s: string, rest: string)
    requires Ends(s, rest)
    ensures Head(s, rest) <= s
  {
  }

  lemma SqueezedSame(v: string)
    requires Compact(v)
    ensures Squeeze(v, false, false) == v
  {
    hide SkipValue, Squeeze;
    ValueSqueezed(v, "");
    SqueezeNone();
    assert Head(v, "") == v && v + "" == v;
  }

  /** A value that is no string is read as its text without white space. */
  lemma ReadBackMin(x: string)
    requires Ws(x) == x
    ensures var r := ParseValue(x);
            r.Some? && !r.value.1 ==> SkipValue(x).Some? && r.value.0 == SkipValue(x).value.min
  {
    hide SkipValue, Minify, JsonString;
    if SkipValue(x).Some? { StoredIsCompact(x); }
  }

  // ----- one member -----

  /** The first member that is read is the first that was written. */
  lemma PairFirst(a: JsonArg, tail: string)
    ensures var r, p := ParseMembers(Pair(a) + tail), ParseValue(Ws(ValueText(a.value, a.isString) + tail));
            r.Some? ==> p.Some? && r.value != [] && r.value[0] == JsonArg(a.key, p.value.0, p.value.1)
  {
    hide ValueText, ParseValue, Quoted;
    PairText(a, tail);
    var x := ValueText(a.value, a.isString) + tail;
    QuotedBack(a.key, ": " + x);
    WsNone(": " + x);
    assert (": " + x)[1..] == " " + x;
    assert (" " + x)[1..] == x;
  }

  /** A parameter that does not survive is not read back as it was. */
  lemma LostMember(a: JsonArg, tail: string)
    requires Stored(a) && !Survives(a) && tail != "" && (tail[0] == ',' || tail[0] == '}')
    ensures var r := ParseMembers(Pair(Reread(a)) + tail); r.Some? ==> r.value != [] && r.value[0] != a
  {
    hide ParseMembers, ParseValue, Pair, Stored, Nowhere, EntityFree, Shield, Unescape, EndsWith, Ws, Compact,
      SkipValue;
    var b := Reread(a);
    PairFirst(b, tail);
    if !a.isString {
      NotThatJson(a, tail);
    } else if EndsWith(a.key, STRING_IS) {
      NotAString(a.value, tail);
    } else {
      ParamTextBack(a.value);
      StringRead(b, tail);
    }
  }

  lemma StringRead(b: JsonArg, tail: string)
    requires b.isString && tail != "" && (tail[0] == ',' || tail[0] == '}')
    ensures ParseValue(Ws(ValueText(b.value, true) + tail)) == Some((b.value, true, tail))
  {
    hide ParseValue, Ws;
    StringStored(b);
    ValueBack(b, tail);
    var x := ValueText(b.value, true) + tail;
    assert x[0] == ValueText(b.value, true)[0];
    WsNone(x);
  }

  lemma StringStored(b: JsonArg)
    requires b.isString
    ensures Stored(b)
  {
  }

  // ----- all members, all calls -----

  /** Arguments of which one does not survive are not read back. */
  lemma {:induction false} LostArgs(args: seq<JsonArg>)
    requires forall i :: 0 <= i < |args| ==> Stored(args[i])
    requires exists i :: 0 <= i < |args| && !Survives(args[i])
    ensures ParseMembers(Pairs(RereadAll(args)) + "}") != Some(args)
    decreases |args|
  {
    hide Pair, ParseMembers, Stored, Survives, Reread, Ws;
    var all := RereadAll(args);
    assert all[1..] == RereadAll(args[1..]) && |all| > 0 && all[0] == Reread(args[0]);
    RereadLength(args[1..]);
    var rest := Pairs(all[1..]) + "}";
    var tail := if |args| == 1 then "}" else ", " + rest;
    PairsText(all, "}");
    if !Survives(args[0]) {
      LostMember(args[0], tail);
    } else {
      assert args[1..] != [];
      LostArgs(args[1..]);
      RereadExactly(args[0]);
      AfterComma(all[1..], rest);
      PairBack(args[0], tail, rest);
      assert args == [args[0]] + args[1..];
    }
  }

  lemma {:induction false} RereadLength(args: seq<JsonArg>)
    ensures |RereadAll(args)| == |args|
  {
    if args != [] { RereadLength(args[1..]); }
  }

  lemma AfterComma(list: seq<JsonArg>, rest: string)
    requires list != [] && rest == Pairs(list) + "}"
    ensures Ws((", " + rest)[1..]) == rest
  {
    hide Pair, Pairs;
    PairsText(list, "}");
    PairText(list[0], if |list| == 1 then "}" else ", " + (Pairs(list[1..]) + "}"));
    SpaceSkipped(rest);
  }

  lemma SpaceSkipped(rest: string)
    requires rest != "" && !IsSpace(rest[0])
    ensures Ws((", " + rest)[1..]) == rest
  {
    assert (", " + rest)[1..] == " " + rest;
    WsAll(" ", rest);
  }

  /** The arguments of a call are read back as they were exactly when each survives. */
  lemma ArgsExactly(args: seq<JsonArg>)
    requires forall i :: 0 <= i < |args| ==> Stored(args[i])
    ensures ParseArgs(ObjectText(RereadAll(args))) == Some(args) <==> forall i :: 0 <= i < |args| ==> Survives(args[i])
  {
    hide ParseArgs, ObjectText, RereadAll, Survives, Stored;
    if forall i :: 0 <= i < |args| ==> Survives(args[i]) {
      SurvivorsBack(args);
      ObjectBack(args);
    } else {
      LostArgs(args);
      ObjectRead(RereadAll(args));
    }
  }

  lemma ObjectRead(list: seq<JsonArg>)
    ensures ParseArgs(ObjectText(list)) == ParseMembers(Ws(Pairs(list) + "}"))
  {
    hide ParseMembers, AddArgs, Pairs;
    AddedPairs("", list);
    NoPairs();
    var inside := Pairs(list) + "}";
    assert ObjectText(list) == "{" + inside;
    WsNone("{" + inside);
    assert ("{" + inside)[1..] == inside;
  }

  ghost predicate SameCall(m: Made, c: Call) {
    m.name == c.name && ParseArgs(m.arguments) == Some(c.args)
  }

  /** A message rendered and parsed has the same calls, with the same names and the
      same ordered arguments, exactly when every parameter of every call survives. */
  lemma RoundTripExactly(content: string, calls: seq<Call>)
    requires calls != [] && Nowhere(content, LONG.callsStart)
    requires forall i, j :: 0 <= i < |calls| && 0 <= j < |calls[i].args| ==> Stored(calls[i].args[j])
    ensures var m := Parse(content + Render(calls));
            && m.Message? && |m.calls| == |calls|
            && ((forall i :: 0 <= i < |calls| ==> SameCall(m.calls[i], calls[i]))
                <==> forall i, j :: 0 <= i < |calls| && 0 <= j < |calls[i].args| ==> Survives(calls[i].args[j]))
  {
    hide ParseArgs, ObjectText, RereadAll, Parse, Render, Stored, Survives, MadeAll, Nowhere;
    RenderedParsed(content, calls);
    MadeAt(calls, 0);
    forall i | 0 <= i < |calls|
      ensures |MadeAll(calls)| == |calls|
      ensures SameCall(MadeAll(calls)[i], calls[i]) <==>
        forall j :: 0 <= j < |calls[i].args| ==> Survives(calls[i].args[j])
    {
      MadeAt(calls, i);
      ArgsExactly(calls[i].args);
    }
  }

  /** The same for a call whose arguments were read from JSON text: any object that the
      reader accepts. */
  lemma ParsedExactly(content: string, name: string, json: string)
    requires Nowhere(content, LONG.callsStart) && ParseArgs(json).Some?
    ensures var c := Call(name, ParseArgs(json).value);
            var m := Parse(content + Render([c]));
            && m.Message? && |m.calls| == 1
            && (SameCall(m.calls[0], c) <==> forall j :: 0 <= j < |c.args| ==> Survives(c.args[j]))
  {
    hide *;
    ParsedIsStored(json);
    var calls := [Call(name, ParseArgs(json).value)];
    RoundTripExactly(content, calls);
    assert (forall i :: 0 <= i < |calls| ==> SameCall(Parse(content + Render(calls)).calls[i], calls[i]))
      <==> SameCall(Parse(content + Render(calls)).calls[0], calls[0]);
    assert (forall i, j :: 0 <= i < |calls| && 0 <= j < |calls[i].args| ==> Survives(calls[i].args[j]))
      <==> forall j :: 0 <= j < |calls[0].args| ==> Survives(calls[0].args[j]);
  }

  /** A string whose key ends in `string=` is lost: the message comes back with
      another value. */
  lemma KeyConfuses()
    ensures var calls := [Call("f", [JsonArg("string=", "x", true)])];
            var m := Parse(Render(calls));
            m.Message? && |m.calls| == 1 && !SameCall(m.calls[0], calls[0])
  {
    hide *;
    var calls := [Call("f", [JsonArg("string=", "x", true)])];
    StringStored(calls[0].args[0]);
    LongTags();
    EmptyNowhere(LONG.callsStart);
    LostKey();
    RoundTripExactly("", calls);
    assert "" + Render(calls) == Render(calls);
    assert !Survives(calls[0].args[0]);
  }

  lemma LongTags()
    ensures LONG.callsStart != "" && KnownLits(LONG)
  {
    StartChars(LONG);
  }

  lemma LostKey()
    ensures !Survives(JsonArg("string=", "x", true))
  {
    assert "string="[0..] == STRING_IS;
  }

  lemma EmptyNowhere(lit: string)
    requires lit != ""
    ensures Nowhere("", lit)
  {
  }
}
