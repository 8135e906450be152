/** A skipped value is read again, whatever follows it, both as it stood and
    without its white space. */
module JsonStable {
  import opened Common
  import opened StreamText
  import opened JsonNumber
  import opened Json
  import opened JsonFacts

  // ----- words -----

  /** A word or a number ends where it did. */
  lemma WordAppend(s: string, y: string)
    requires Word(s) > 0 && Stop(y)
    ensures Word(s[..Word(s)] + y) == Word(s)
  {
    hide Number;
    var n := Word(s);
    var t := s[..n] + y;
    WordFits(s);
    assert t[0] == s[0];
    if StartsWith(s, "true") || StartsWith(s, "null") || StartsWith(s, "false") {
      assert t[..n] == s[..n];
      assert s[..n] == "true" || s[..n] == "null" || s[..n] == "false";
      assert s[0] == s[..n][0];
    } else {
      NumberAppend(s, y);
      NumberStart(t);
      FirstLetter(t);
    }
  }

  lemma FirstLetter(t: string)
    requires t != "" && t[0] != 't' && t[0] != 'f' && (t[0] == 'n' ==> |t| > 1 && t[1] != 'u')
    ensures !StartsWith(t, "true") && !StartsWith(t, "null") && !StartsWith(t, "false")
  {
    assert |t| >= 4 ==> t[..4][0] == t[0] && t[..4][1] == t[1];
    assert |t| >= 5 ==> t[..5][0] == t[0];
  }

  // ----- values -----

  /** White space before a rest that starts later is dropped either way. */
  lemma WsHead(s: string, rest: string, y: string)
    requires Ends(Ws(s), rest) && |rest| < |Ws(s)|
    ensures |rest| <= |s| && Head(s, rest) + y != "" && Ws(Head(s, rest) + y) == Head(Ws(s), rest) + y
    ensures (Head(Ws(s), rest) + y)[0] == Ws(s)[0]
  {
    WsEnds(s);
    EndsTrans(s, Ws(s), rest);
    WsAll(Head(s, Ws(s)), Head(Ws(s), rest) + y);
    assert Head(s, rest) + y == Head(s, Ws(s)) + (Head(Ws(s), rest) + y);
  }

  lemma {:induction false} WsAll(w: string, t: string)
    requires (forall k :: 0 <= k < |w| ==> IsSpace(w[k])) && t != "" && !IsSpace(t[0])
    ensures Ws(w + t) == t
  {
    if w == "" {
      assert w + t == t;
    } else {
      WsAll(w[1..], t);
      assert (w + t)[1..] == w[1..] + t;
    }
  }

  lemma WsNone(t: string)
    requires t != "" && !IsSpace(t[0])
    ensures Ws(t) == t
  {
  }

  lemma StringAppend(s: string, y: string)
    requires s != "" && s[0] == '"' && SkipString(s).Some?
    ensures Ends(s, SkipString(s).value.rest)
    ensures SkipString(s).value.min == Head(s, SkipString(s).value.rest) && SkipString(s).value.min != ""
    ensures SkipString(s).value.min[0] == '"'
    ensures SkipString(SkipString(s).value.min + y) == Some(Skipped(y, SkipString(s).value.min))
  {
    hide StringBody;
    StringEnds(s);
    var c := BodyAppend(s[1..], y);
    var m, rest := SkipString(s).value.min, SkipString(s).value.rest;
    assert s == "\"" + (c + rest) == ("\"" + c) + rest;
    assert m == "\"" + c;
    assert (m + y)[1..] == c + y;
    assert (m + y)[..|m + y| - |y|] == m;
  }

  lemma SkipWordAppend(s: string, y: string)
    requires SkipWord(s).Some? && Stop(y)
    ensures SkipWord(SkipWord(s).value.min + y) == Some(Skipped(y, SkipWord(s).value.min))
  {
    hide Word;
    WordFits(s);
    WordAppend(s, y);
    var m := SkipWord(s).value.min;
    assert (m + y)[|m|..] == y && (m + y)[..|m|] == m;
  }

  /** The first character of a value decides its kind. */
  lemma ValueKind(s: string)
    requires s != "" && !IsSpace(s[0])
    ensures SkipValue(s) == if s[0] == '"' then SkipString(s) else if s[0] == '{' then SkipObject(s)
                            else if s[0] == '[' then SkipArray(s) else SkipWord(s)
  {
    WsNone(s);
  }

  lemma WordStart(s: string)
    requires SkipWord(s).Some?
    ensures s != "" && SkipWord(s).value.min != "" && SkipWord(s).value.min[0] == s[0]
  {
  }

  lemma HeadStep(t: string, rest: string, y: string)
    requires t != "" && Ends(t[1..], rest)
    ensures Ends(t, rest) && Head(t, rest) + y != "" && (Head(t, rest) + y)[0] == t[0]
    ensures (Head(t, rest) + y)[1..] == Head(t[1..], rest) + y
  {
    assert Head(t, rest) == [t[0]] + Head(t[1..], rest);
    assert Head(t, rest) + y == [t[0]] + (Head(t[1..], rest) + y);
  }

  lemma HeadSplit(a: string, b: string, rest: string, y: string)
    requires Ends(a, b) && Ends(b, rest)
    ensures Ends(a, rest) && Head(a, rest) + y == Head(a, b) + (Head(b, rest) + y)
  {
    EndsTrans(a, b, rest);
  }

  /** After white space comes a separator: then no number goes on there. */
  lemma StopBefore(s: string, rest: string, y: string)
    requires Ws(s) != "" && !NumberChar(Ws(s)[0]) && Ends(Ws(s), rest) && |rest| < |Ws(s)|
    ensures |rest| <= |s| && Stop(Head(s, rest) + y)
  {
    WsEnds(s);
    WsHead(s, rest, y);
    var t := Head(s, rest) + y;
    assert t[0] == s[0];
  }

  /** As it stood: what was consumed is read the same before any other text. */
  lemma {:induction false} ObjectAppend(s: string, y: string)
    requires s != "" && s[0] == '{' && SkipObject(s).Some?
    ensures Ends(s, SkipObject(s).value.rest)
    ensures SkipObject(Head(s, SkipObject(s).value.rest) + y) == Some(Skipped(y, SkipObject(s).value.min))
    decreases |s|, 0
  {
    hide Ends, Members, Head;
    var rest := SkipObject(s).value.rest;
    var v := Ws(s[1..]);
    WsEnds(s[1..]);
    if v != "" && v[0] == '}' {
      OneEnds(v);
      HeadStep(v, rest, y);
      HeadNone(rest, y);
    } else {
      MembersEnds(v);
      MembersAppend(v, y);
      MembersStart(v);
    }
    EndsTrans(s[1..], v, rest);
    WsHead(s[1..], rest, y);
    HeadStep(s, rest, y);
  }

  lemma HeadNone(s: string, y: string)
    ensures Ends(s, s) && Head(s, s) + y == y
  {
  }

  lemma MembersStart(s: string)
    requires Members(s).Some?
    ensures Ws(s) != "" && Ws(s)[0] == '"'
  {
  }

  lemma {:induction false} ArrayAppend(s: string, y: string)
    requires s != "" && s[0] == '[' && SkipArray(s).Some?
    ensures Ends(s, SkipArray(s).value.rest)
    ensures SkipArray(Head(s, SkipArray(s).value.rest) + y) == Some(Skipped(y, SkipArray(s).value.min))
    decreases |s|, 0
  {
    hide Ends, Elements, Head;
    var rest := SkipArray(s).value.rest;
    var v := Ws(s[1..]);
    WsEnds(s[1..]);
    if v != "" && v[0] == ']' {
      OneEnds(v);
      HeadStep(v, rest, y);
      HeadNone(rest, y);
    } else {
      ElementsEnds(v);
      ElementsAppend(v, y);
    }
    EndsTrans(s[1..], v, rest);
    WsHead(s[1..], rest, y);
    HeadStep(s, rest, y);
  }

  lemma {:induction false} ValueAppend(s0: string, y: string)
    requires SkipValue(s0).Some? && Stop(y)
    ensures Ends(s0, SkipValue(s0).value.rest)
    ensures SkipValue(Head(s0, SkipValue(s0).value.rest) + y) == Some(Skipped(y, SkipValue(s0).value.min))
    decreases |s0|, 1
  {
    hide Ends, SkipString, SkipObject, SkipArray, SkipWord, Head;
    ValueEnds(s0);
    var s, rest := Ws(s0), SkipValue(s0).value.rest;
    WsHead(s0, rest, y);
    if s[0] == '"' {
      StringAppend(s, y);
    } else if s[0] == '{' {
      ObjectAppend(s, y);
    } else if s[0] == '[' {
      ArrayAppend(s, y);
    } else {
      WordEnds(s);
      SkipWordAppend(s, y);
    }
  }

  lemma {:induction false} ElementsAppend(s: string, y: string)
    requires Elements(s).Some?
    ensures Ends(s, Elements(s).value.rest)
    ensures Elements(Head(s, Elements(s).value.rest) + y) == Some(Skipped(y, Elements(s).value.min))
    decreases |s|, 2
  {
    hide Ends, SkipValue, Head;
    var rest := Elements(s).value.rest;
    ValueEnds(s);
    var v := SkipValue(s).value;
    var t := Ws(v.rest);
    WsEnds(v.rest);
    OneEnds(t);
    if t[0] == ',' { ElementsEnds(t[1..]); } else { HeadNone(rest, y); }
    EndsTrans(t, t[1..], rest);
    StopBefore(v.rest, rest, y);
    EndsTrans(v.rest, t, rest);
    HeadSplit(s, v.rest, rest, y);
    ValueAppend(s, Head(v.rest, rest) + y);
    WsHead(v.rest, rest, y);
    HeadStep(t, rest, y);
    if t[0] == ',' { ElementsAppend(t[1..], y); }
  }

  lemma {:induction false} MembersAppend(s0: string, y: string)
    requires Members(s0).Some?
    ensures Ends(s0, Members(s0).value.rest)
    ensures Members(Head(s0, Members(s0).value.rest) + y) == Some(Skipped(y, Members(s0).value.min))
    decreases |s0|, 2
  {
    hide Ends, SkipValue, SkipString, Head, Ws;
    MembersEnds(s0);
    var s, rest := Ws(s0), Members(s0).value.rest;
    var r := SkipString(s).value.rest;
    var t := Ws(r);
    var v := SkipValue(t[1..]).value;
    var u := Ws(v.rest);
    StringEnds(s);
    WsEnds(r);
    OneEnds(t);
    ValueEnds(t[1..]);
    WsEnds(v.rest);
    OneEnds(u);
    if u[0] == ',' { MembersEnds(u[1..]); } else { HeadNone(rest, y); }
    EndsTrans(u, u[1..], rest);
    EndsTrans(v.rest, u, rest);
    EndsTrans(t[1..], v.rest, rest);
    EndsTrans(t, t[1..], rest);
    EndsTrans(r, t, rest);
    WsHead(s0, rest, y);
    HeadSplit(s, r, rest, y);
    StringAppend(s, Head(r, rest) + y);
    WsHead(r, rest, y);
    HeadStep(t, rest, y);
    HeadSplit(t[1..], v.rest, rest, y);
    StopBefore(v.rest, rest, y);
    ValueAppend(t[1..], Head(v.rest, rest) + y);
    WsHead(v.rest, rest, y);
    HeadStep(u, rest, y);
    if u[0] == ',' { MembersAppend(u[1..], y); }
  }
}
