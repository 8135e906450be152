/** A value without its white space is read as the same value, and is what the
    server's second pass over the text makes of it. */
module JsonMinify {
  import opened Common
  import opened StreamText
  import opened JsonNumber
  import opened Json
  import opened JsonFacts
  import opened JsonStable

  predicate ValueChar(c: char) {
    !IsSpace(c) && c != ']' && c != '}' && c != ','
  }

  lemma {:induction false} MinStart(s: string)
    requires SkipValue(s).Some?
    ensures SkipValue(s).value.min != "" && ValueChar(SkipValue(s).value.min[0])
  {
    hide Members, Elements, Word;
    var t := Ws(s);
    if t[0] == '"' {
      StringAppend(t, "");
    } else if t[0] != '{' && t[0] != '[' {
      WordStart(t);
      WordChar(t);
    }
  }

  lemma WordChar(t: string)
    requires Word(t) > 0
    ensures t != "" && ValueChar(t[0])
  {
    hide Number;
    if StartsWith(t, "true") || StartsWith(t, "null") || StartsWith(t, "false") {
      assert |t| >= 5 ==> t[..5][0] == t[0];
      assert t[..4][0] == t[0];
    } else {
      NumberFits(t);
      NumberChars(t, 0);
    }
  }

  lemma NumberFits(t: string)
    ensures Number(t) <= |t|
  {
  }

  lemma {:induction false} ValueMin(s: string, y: string)
    requires SkipValue(s).Some? && Stop(y)
    ensures SkipValue(SkipValue(s).value.min + y) == Some(Skipped(y, SkipValue(s).value.min))
    decreases |s|, 1
  {
    hide SkipString, SkipObject, SkipArray, SkipWord, ValueChar;
    MinStart(s);
    var t, m := Ws(s), SkipValue(s).value.min;
    assert (m + y)[0] == m[0];
    NoSpace(m[0]);
    ValueKind(m + y);
    if t[0] == '"' {
      StringAppend(t, y);
    } else if t[0] == '{' {
      ObjectMin(t, y);
    } else if t[0] == '[' {
      ArrayMin(t, y);
    } else {
      WordStart(t);
      SkipWordAppend(t, y);
    }
  }

  lemma NoSpace(c: char)
    requires ValueChar(c)
    ensures !IsSpace(c) && c != ']' && c != '}' && c != ','
  {
  }

  lemma {:induction false} ObjectMin(s: string, y: string)
    requires s != "" && s[0] == '{' && SkipObject(s).Some?
    ensures SkipObject(s).value.min != "" && SkipObject(s).value.min[0] == '{'
    ensures SkipObject(SkipObject(s).value.min + y) == Some(Skipped(y, SkipObject(s).value.min))
    decreases |s|, 0
  {
    hide Members;
    var v, m := Ws(s[1..]), SkipObject(s).value.min;
    if v != "" && v[0] == '}' {
      assert ("{}" + y)[1..] == "}" + y;
      WsNone("}" + y);
      assert ("}" + y)[1..] == y;
    } else {
      MembersMin(v, y);
      var m' := Members(v).value.min;
      assert (m + y)[1..] == m' + y;
      assert (m' + y)[0] == '"';
      WsNone(m' + y);
    }
  }

  lemma {:induction false} ArrayMin(s: string, y: string)
    requires s != "" && s[0] == '[' && SkipArray(s).Some?
    ensures SkipArray(s).value.min != "" && SkipArray(s).value.min[0] == '['
    ensures SkipArray(SkipArray(s).value.min + y) == Some(Skipped(y, SkipArray(s).value.min))
    decreases |s|, 0
  {
    hide Elements;
    var v, m := Ws(s[1..]), SkipArray(s).value.min;
    if v != "" && v[0] == ']' {
      assert ("[]" + y)[1..] == "]" + y;
      WsNone("]" + y);
      assert ("]" + y)[1..] == y;
    } else {
      ElementsMin(v, y);
      var m' := Elements(v).value.min;
      assert (m + y)[1..] == m' + y;
      assert (m' + y)[0] == m'[0];
      WsNone(m' + y);
    }
  }

  /** The parts of elements that could be read. */
  lemma ElementsFirst(s: string)
    requires Elements(s).Some?
    ensures SkipValue(s).Some? && Ws(SkipValue(s).value.rest) != ""
    ensures var v := SkipValue(s).value;
            var t := Ws(v.rest);
            && (t[0] == ']' || t[0] == ',')
            && (t[0] == ']' ==> Elements(s).value.min == v.min + "]")
            && (t[0] == ',' ==>
                  Elements(t[1..]).Some? && Elements(s).value.min == v.min + "," + Elements(t[1..]).value.min)
  {
    hide SkipValue;
  }

  /** One element, read from a text that has no white space before its parts. */
  lemma ElementRead(v: string, tail: string)
    requires tail != "" && (tail[0] == ']' || tail[0] == ',') && Ws(tail) == tail
    requires SkipValue(v + tail) == Some(Skipped(tail, v))
    ensures Elements(v + tail) == if tail[0] == ']' then Some(Skipped(tail[1..], v + "]"))
        else Prefix(v + ",", Elements(tail[1..]))
  {
    hide SkipValue;
  }

  lemma {:induction false} ElementsMin(s: string, y: string)
    requires Elements(s).Some?
    ensures Elements(s).value.min != "" && ValueChar(Elements(s).value.min[0])
    ensures Elements(Elements(s).value.min + y) == Some(Skipped(y, Elements(s).value.min))
    decreases |s|, 2
  {
    hide SkipValue, ValueChar, Elements, Ws;
    ElementsFirst(s);
    MinStart(s);
    ValueEnds(s);
    EndsShorter(s, SkipValue(s).value.rest);
    var v := SkipValue(s).value;
    var t := Ws(v.rest);
    WsShort(v.rest);
    if t[0] == ']' {
      SeparatorAfter(']', y);
      ValueMin(s, "]" + y);
      ElementRead(v.min, "]" + y);
      assert (v.min + "]") + y == v.min + ("]" + y);
    } else {
      ElementsMin(t[1..], y);
      var m := Elements(t[1..]).value.min;
      SeparatorAfter(',', m + y);
      ValueMin(s, "," + (m + y));
      ElementRead(v.min, "," + (m + y));
      assert (v.min + "," + m) + y == v.min + ("," + (m + y));
    }
  }

  lemma WsShort(s: string)
    ensures |Ws(s)| <= |s|
  {
  }

  lemma EndsShorter(s: string, rest: string)
    requires Ends(s, rest)
    ensures |rest| <= |s|
  {
  }

  lemma SeparatorAfter(c: char, y: string)
    requires c == ',' || c == ']' || c == '}' || c == ':'
    ensures Stop([c] + y) && Ws([c] + y) == [c] + y && ([c] + y)[1..] == y
  {
    WsNone([c] + y);
  }

  /** One member, read from a text that has no white space before its parts. */
  lemma MemberRead(key: string, v: string, tail: string)
    requires key != "" && key[0] == '"' && tail != "" && (tail[0] == '}' || tail[0] == ',')
    requires SkipString(key + (":" + (v + tail))) == Some(Skipped(":" + (v + tail), key))
    requires SkipValue(v + tail) == Some(Skipped(tail, v))
    ensures Members(key + (":" + (v + tail))) ==
            if tail[0] == '}' then Some(Skipped(tail[1..], key + ":" + v + "}"))
            else Prefix(key + ":" + v + ",", Members(tail[1..]))
  {
    hide SkipValue, SkipString;
    var all := key + (":" + (v + tail));
    assert all[0] == '"';
    WsNone(all);
    SeparatorAfter(':', v + tail);
    WsNone(tail);
  }

  lemma MemberParts(key: string, v: string, m: string, y: string)
    ensures (key + ":" + v + "}") + y == key + (":" + (v + ("}" + y)))
    ensures (key + ":" + v + "," + m) + y == key + (":" + (v + ("," + (m + y))))
  {
  }

  /** The parts of members that could be read. */
  lemma MembersFirst(s0: string)
    requires Members(s0).Some?
    ensures Ws(s0) != "" && Ws(s0)[0] == '"' && SkipString(Ws(s0)).Some?
    ensures var key := SkipString(Ws(s0)).value;
            var t := Ws(key.rest);
            && t != "" && t[0] == ':' && SkipValue(t[1..]).Some?
            && var v := SkipValue(t[1..]).value;
               var u := Ws(v.rest);
               && u != "" && (u[0] == '}' || u[0] == ',')
               && (u[0] == '}' ==> Members(s0).value.min == key.min + ":" + v.min + "}")
               && (u[0] == ',' ==>
                     && Members(u[1..]).Some?
                     && Members(s0).value.min == key.min + ":" + v.min + "," + Members(u[1..]).value.min)
  {
    hide SkipValue, SkipString, Ws;
  }

  lemma {:induction false} MembersMin(s0: string, y: string)
    requires Members(s0).Some?
    ensures Members(s0).value.min != "" && Members(s0).value.min[0] == '"'
    ensures Members(Members(s0).value.min + y) == Some(Skipped(y, Members(s0).value.min))
    decreases |s0|, 2
  {
    hide SkipValue, SkipString, Members, Ws;
    MembersFirst(s0);
    var s, all := Ws(s0), Members(s0).value.min;
    var key := SkipString(s).value;
    var t := Ws(key.rest);
    var v := SkipValue(t[1..]).value;
    var u := Ws(v.rest);
    WsShort(s0);
    WsShort(key.rest);
    WsShort(v.rest);
    ValueEnds(t[1..]);
    EndsShorter(t[1..], v.rest);
    StringEnds(s);
    EndsShorter(s, key.rest);
    if u[0] == '}' {
      SeparatorAfter('}', y);
      ValueMin(t[1..], "}" + y);
      StringAppend(s, ":" + (v.min + ("}" + y)));
      MemberRead(key.min, v.min, "}" + y);
      MemberParts(key.min, v.min, "", y);
    } else {
      MembersMin(u[1..], y);
      var m := Members(u[1..]).value.min;
      SeparatorAfter(',', m + y);
      ValueMin(t[1..], "," + (m + y));
      StringAppend(s, ":" + (v.min + ("," + (m + y))));
      MemberRead(key.min, v.min, "," + (m + y));
      MemberParts(key.min, v.min, m, y);
    }
  }

  // ----- the second pass -----

  lemma {:induction false} WsSqueezed(w: string, x: string)
    requires forall k :: 0 <= k < |w| ==> IsSpace(w[k])
    ensures Squeeze(w + x, false, false) == Squeeze(x, false, false)
  {
    if w == "" {
      assert w + x == x;
    } else {
      WsSqueezed(w[1..], x);
      assert (w + x)[1..] == w[1..] + x;
    }
  }

  lemma {:induction false} PlainPassed(p: string, x: string)
    requires forall k :: 0 <= k < |p| ==> p[k] != '"' && !IsSpace(p[k])
    ensures Squeeze(p + x, false, false) == p + Squeeze(x, false, false)
  {
    if p == "" {
      assert p + x == x;
    } else {
      PlainPassed(p[1..], x);
      assert (p + x)[1..] == p[1..] + x && p == [p[0]] + p[1..];
    }
  }

  /** White space, then what starts there. */
  lemma WsPassed(s: string, rest: string, x: string)
    requires Ends(Ws(s), rest)
    ensures Ends(s, rest)
    ensures Squeeze(Head(s, rest) + x, false, false) == Squeeze(Head(Ws(s), rest) + x, false, false)
  {
    WsEnds(s);
    HeadSplit(s, Ws(s), rest, x);
    WsSqueezed(Head(s, Ws(s)), Head(Ws(s), rest) + x);
  }

  /** One separator, then the rest. */
  lemma OnePassed(s: string, rest: string, x: string)
    requires s != "" && Ends(s[1..], rest) && s[0] != '"' && !IsSpace(s[0])
    ensures Ends(s, rest)
    ensures Squeeze(Head(s, rest) + x, false, false) == [s[0]] + Squeeze(Head(s[1..], rest) + x, false, false)
  {
    HeadStep(s, rest, x);
  }

  lemma StringSqueezed(s: string, x: string)
    requires s != "" && s[0] == '"' && SkipString(s).Some?
    ensures Squeeze(SkipString(s).value.min + x, false, false) == SkipString(s).value.min + Squeeze(x, false, false)
  {
    hide StringBody, Squeeze;
    var c := BodyAppend(s[1..], x);
    var m := SkipString(s).value.min;
    assert s == "\"" + (c + SkipString(s).value.rest) == ("\"" + c) + SkipString(s).value.rest;
    assert m == "\"" + c;
    BodySqueezed(s[1..], c, x);
    OpeningSqueezed(c, x, Squeeze(x, false, false));
  }

  lemma OpeningSqueezed(c: string, x: string, rest: string)
    requires Squeeze(c + x, true, false) == c + rest
    ensures Squeeze(("\"" + c) + x, false, false) == ("\"" + c) + rest
  {
    assert (("\"" + c) + x)[1..] == c + x;
  }

  lemma WordSqueezed(s: string, x: string)
    requires SkipWord(s).Some?
    ensures Squeeze(SkipWord(s).value.min + x, false, false) == SkipWord(s).value.min + Squeeze(x, false, false)
  {
    hide Number;
    var p := SkipWord(s).value.min;
    if StartsWith(s, "true") || StartsWith(s, "null") || StartsWith(s, "false") {
      assert p == "true" || p == "null" || p == "false";
    } else {
      forall k | 0 <= k < |p|
        ensures p[k] != '"' && !IsSpace(p[k])
      {
        NumberChars(s, k);
      }
    }
    PlainPassed(p, x);
  }

  lemma {:induction false} ObjectSqueezed(s: string, x: string)
    requires s != "" && s[0] == '{' && SkipObject(s).Some?
    ensures Ends(s, SkipObject(s).value.rest)
    ensures Squeeze(Head(s, SkipObject(s).value.rest) + x, false, false) ==
        SkipObject(s).value.min + Squeeze(x, false, false)
    decreases |s|, 0
  {
    hide Ends, Members, Head, Squeeze;
    var rest := SkipObject(s).value.rest;
    var v := Ws(s[1..]);
    if v != "" && v[0] == '}' {
      OneEnds(v);
      HeadNone(rest, x);
      OnePassed(v, rest, x);
    } else {
      MembersEnds(v);
      MembersSqueezed(v, x);
    }
    WsPassed(s[1..], rest, x);
    OnePassed(s, rest, x);
  }

  lemma {:induction false} ArraySqueezed(s: string, x: string)
    requires s != "" && s[0] == '[' && SkipArray(s).Some?
    ensures Ends(s, SkipArray(s).value.rest)
    ensures Squeeze(Head(s, SkipArray(s).value.rest) + x, false, false) ==
        SkipArray(s).value.min + Squeeze(x, false, false)
    decreases |s|, 0
  {
    hide Ends, Elements, Head, Squeeze;
    var rest := SkipArray(s).value.rest;
    var v := Ws(s[1..]);
    if v != "" && v[0] == ']' {
      OneEnds(v);
      HeadNone(rest, x);
      OnePassed(v, rest, x);
    } else {
      ElementsEnds(v);
      ElementsSqueezed(v, x);
    }
    WsPassed(s[1..], rest, x);
    OnePassed(s, rest, x);
  }

  /** The second pass makes of what was consumed the value without white space. */
  lemma {:induction false} ValueSqueezed(s0: string, x: string)
    requires SkipValue(s0).Some?
    ensures Ends(s0, SkipValue(s0).value.rest) && Ends(Ws(s0), SkipValue(s0).value.rest)
    ensures Squeeze(Head(s0, SkipValue(s0).value.rest) + x, false, false) ==
        SkipValue(s0).value.min + Squeeze(x, false, false)
    ensures Squeeze(Head(Ws(s0), SkipValue(s0).value.rest) + x, false, false) ==
        SkipValue(s0).value.min + Squeeze(x, false, false)
    decreases |s0|, 1
  {
    hide Ends, SkipString, SkipObject, SkipArray, SkipWord, Head, Squeeze;
    ValueEnds(s0);
    var s, rest := Ws(s0), SkipValue(s0).value.rest;
    WsPassed(s0, rest, x);
    if s[0] == '"' {
      StringAppend(s, x);
      StringSqueezed(s, x);
    } else if s[0] == '{' {
      ObjectSqueezed(s, x);
    } else if s[0] == '[' {
      ArraySqueezed(s, x);
    } else {
      WordEnds(s);
      WordSqueezed(s, x);
    }
  }

  lemma {:induction false} ElementsSqueezed(s: string, x: string)
    requires Elements(s).Some?
    ensures Ends(s, Elements(s).value.rest)
    ensures Squeeze(Head(s, Elements(s).value.rest) + x, false, false) ==
        Elements(s).value.min + Squeeze(x, false, false)
    decreases |s|, 2
  {
    hide Ends, SkipValue, Head, Squeeze;
    var rest := Elements(s).value.rest;
    ValueEnds(s);
    var v := SkipValue(s).value;
    var t := Ws(v.rest);
    WsEnds(v.rest);
    OneEnds(t);
    if t[0] == ',' { ElementsEnds(t[1..]); ElementsSqueezed(t[1..], x); } else { HeadNone(rest, x); }
    OnePassed(t, rest, x);
    WsPassed(v.rest, rest, x);
    HeadSplit(s, v.rest, rest, x);
    ValueSqueezed(s, Head(v.rest, rest) + x);
  }

  lemma {:induction false} MembersSqueezed(s0: string, x: string)
    requires Members(s0).Some?
    ensures Ends(s0, Members(s0).value.rest)
    ensures Squeeze(Head(s0, Members(s0).value.rest) + x, false, false) ==
        Members(s0).value.min + Squeeze(x, false, false)
    decreases |s0|, 2
  {
    hide Ends, SkipValue, SkipString, Head, Squeeze;
    MembersEnds(s0);
    var s, rest := Ws(s0), Members(s0).value.rest;
    var key := SkipString(s).value;
    var r := key.rest;
    var t := Ws(r);
    var v := SkipValue(t[1..]).value;
    var u := Ws(v.rest);
    StringEnds(s);
    WsEnds(r);
    OneEnds(t);
    ValueEnds(t[1..]);
    WsEnds(v.rest);
    OneEnds(u);
    if u[0] == ',' { MembersEnds(u[1..]); MembersSqueezed(u[1..], x); } else { HeadNone(rest, x); }
    OnePassed(u, rest, x);
    MemberPassed(s, r, t, v, u, rest, x);
    WsPassed(s0, rest, x);
    MemberParts(key.min, v.min, if u[0] == ',' then Members(u[1..]).value.min else "", Squeeze(x, false, false));
  }

  /** A member up to its value, once what follows the value is known. */
  lemma {:induction false} MemberPassed(s: string, r: string, t: string, v: Skipped, u: string, rest: string, x: string)
    requires s != "" && s[0] == '"' && SkipString(s).Some? && r == SkipString(s).value.rest
    requires t == Ws(r) && t != "" && t[0] == ':' && SkipValue(t[1..]) == Some(v) && u == Ws(v.rest) && Ends(u, rest)
    ensures Ends(s, rest)
    ensures Squeeze(Head(s, rest) + x, false, false)
         == SkipString(s).value.min + (":" + (v.min + Squeeze(Head(u, rest) + x, false, false)))
    decreases |t|, 0
  {
    hide Ends, SkipValue, SkipString, Head, Squeeze;
    StringEnds(s);
    WsPassed(v.rest, rest, x);
    ValueEnds(t[1..]);
    HeadSplit(t[1..], v.rest, rest, x);
    ValueSqueezed(t[1..], Head(v.rest, rest) + x);
    OnePassed(t, rest, x);
    WsPassed(r, rest, x);
    HeadSplit(s, r, rest, x);
    StringAppend(s, x);
    StringSqueezed(s, Head(r, rest) + x);
  }

  // ----- compact values -----

  /** A value that stands alone and has no white space of its own. */
  ghost predicate Compact(v: string) {
    SkipValue(v) == Some(Skipped("", v))
  }

  /** A compact value is read back before any text that cannot go on with it, and
      minifying keeps it. */
  lemma CompactBack(v: string, y: string)
    requires Compact(v) && Stop(y)
    ensures v != "" && ValueChar(v[0])
    ensures SkipValue(v + y) == Some(Skipped(y, v))
    ensures Minify(v) == v
  {
    hide SkipValue, Squeeze;
    MinStart(v);
    ValueMin(v, y);
    ValueSqueezed(v, "");
    NoneSqueezed();
    WsNone(v);
    FullHead(v);
    assert Head(v, "") + "" == v && v + "" == v;
  }

  lemma NoneSqueezed()
    ensures Squeeze("", false, false) == ""
  {
  }

  /** What the reader stores for a value is compact: minifying the value's text a
      second time, as the reader does, gives just that. */
  lemma StoredIsCompact(s: string)
    requires SkipValue(s).Some?
    ensures Compact(SkipValue(s).value.min)
    ensures Ends(s, SkipValue(s).value.rest) && Ends(Ws(s), SkipValue(s).value.rest)
    ensures Minify(Head(Ws(s), SkipValue(s).value.rest)) == SkipValue(s).value.min
  {
    hide SkipValue, Squeeze, Head, Ends;
    ValueMin(s, "");
    var m, rest := SkipValue(s).value.min, SkipValue(s).value.rest;
    assert m + "" == m;
    ValueSqueezed(s, "");
    NoneSqueezed();
    AloneAppend(s);
    var h := Head(Ws(s), rest);
    assert h + "" == h;
    FullHead(h);
  }

  lemma FullHead(h: string)
    ensures h[..|h| - |""|] == h
  {
  }

  lemma AloneAppend(s: string)
    requires SkipValue(s).Some?
    ensures Ends(Ws(s), SkipValue(s).value.rest)
    ensures Ws(Head(Ws(s), SkipValue(s).value.rest)) == Head(Ws(s), SkipValue(s).value.rest)
    ensures SkipValue(Head(Ws(s), SkipValue(s).value.rest)) == Some(Skipped("", SkipValue(s).value.min))
  {
    hide SkipValue;
    ValueEnds(s);
    var rest := SkipValue(s).value.rest;
    RestShorter(s);
    WsHead(s, rest, "");
    ValueAppend(s, "");
    assert Head(s, rest) + "" == Head(s, rest);
    assert Head(Ws(s), rest) + "" == Head(Ws(s), rest);
    WsTwice(Head(s, rest));
  }

  lemma RestShorter(s: string)
    requires SkipValue(s).Some?
    ensures |SkipValue(s).value.rest| < |Ws(s)|
  {
  }

  lemma WsTwice(s: string)
    ensures Ws(Ws(s)) == Ws(s) && SkipValue(Ws(s)) == SkipValue(s)
  {
    if Ws(s) != "" { WsNone(Ws(s)); }
  }
}
