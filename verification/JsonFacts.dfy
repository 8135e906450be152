/** What is skipped does not depend on what follows it, and dropping its white
    space keeps what it is. */
module JsonFacts {
  import opened Common
  import opened StreamText
  import opened Json

  lemma {:induction false} WsAppend(c: string, x: string)
    requires Ws(c) != ""
    ensures Ws(c + x) == Ws(c) + x
  {
    assert c + x != "" && (c + x)[0] == c[0];
    if IsSpace(c[0]) {
      assert (c + x)[1..] == c[1..] + x;
      WsAppend(c[1..], x);
    }
  }

  lemma {:induction false} WsSuffix(s: string) returns (w: string)
    ensures s == w + Ws(s) && forall k :: 0 <= k < |w| ==> IsSpace(w[k])
  {
    if s != "" && IsSpace(s[0]) {
      w := WsSuffix(s[1..]);
      w := [s[0]] + w;
    } else {
      w := "";
    }
  }

  lemma QuoteNoDigit()
    ensures Hex('"') < 0
  {
  }

  /** Two texts that agree up to a closing quote agree on whether an escape has a
      second half before it. */
  lemma EscapeAhead(c: string, x: string, y: string)
    requires |c| >= 5 && c[|c| - 1] == '"' && IsHex4(c[..4])
    ensures IsHex4(c + x) && IsHex4(c + y)
    ensures UnicodeEscape(c + x).1 <= |c| ==> UnicodeEscape(c + y) == UnicodeEscape(c + x)
  {
    hide Hex, Utf8Put;
    QuoteNoDigit();
    var s, t := c + x, c + y;
    assert forall k :: 0 <= k < |c| ==> s[k] == t[k] == c[k];
    assert Hex4(s) == Hex4(t);
    if |c| < 10 && |s| >= 10 && IsHex4(s[6..]) { assert forall k :: 6 <= k < 10 ==> s[6..][k - 6] == s[k]; }
    if |c| < 10 && |t| >= 10 && IsHex4(t[6..]) { assert forall k :: 6 <= k < 10 ==> t[6..][k - 6] == t[k]; }
    if |c| >= 10 {
      assert forall k :: 0 <= k < 4 ==> s[6..][k] == t[6..][k] == c[6 + k];
    }
  }

  /** The three ways a string body goes on. */
  lemma BodyPlain(s: string)
    requires s != "" && s[0] != '"' && s[0] != '\\'
    ensures StringBody(s) == Cons([s[0]], StringBody(s[1..]))
  {
  }

  lemma BodyUnicode(s: string)
    requires |s| >= 2 && s[0] == '\\' && s[1] == 'u'
    ensures StringBody(s).Some? ==> IsHex4(s[2..])
    ensures IsHex4(s[2..]) ==>
      StringBody(s) == Cons(UnicodeEscape(s[2..]).0, StringBody(s[2..][UnicodeEscape(s[2..]).1..]))
  {
    if IsHex4(s[2..]) {
      var n := UnicodeEscape(s[2..]).1;
      assert s[2..][n..] == s[2 + n..];
    }
  }

  lemma BodySimple(s: string)
    requires |s| >= 2 && s[0] == '\\' && s[1] != 'u'
    ensures SimpleEscape(s[1]).None? ==> StringBody(s).None?
    ensures SimpleEscape(s[1]).Some? ==> StringBody(s) == Cons([SimpleEscape(s[1]).value], StringBody(s[2..]))
  {
  }

  lemma BodyFirst(s: string)
    requires StringBody(s).Some?
    ensures s != "" && (s[0] == '\\' ==> |s| >= 2)
    ensures s[0] == '"' ==> StringBody(s) == Some(("", s[1..]))
  {
  }

  lemma UnicodeFits(s: string)
    requires IsHex4(s)
    ensures 4 <= UnicodeEscape(s).1 <= |s|
  {
  }

  /** A string body is read the same whatever follows its closing quote. */
  lemma {:induction false} BodyAppend(s: string, y: string) returns (c: string)
    requires StringBody(s).Some?
    ensures s == c + StringBody(s).value.1 && c != "" && c[|c| - 1] == '"'
    ensures StringBody(c + y) == Some((StringBody(s).value.0, y))
    decreases |s|
  {
    hide StringBody, UnicodeEscape, SimpleEscape, IsHex4;
    BodyFirst(s);
    if s[0] == '"' {
      c := "\"";
      assert (c + y)[1..] == y;
      ClosingQuote(y);
    } else if s[0] != '\\' {
      BodyPlain(s);
      var d := BodyAppend(s[1..], y);
      c := [s[0]] + d;
      assert (c + y)[1..] == d + y;
      BodyPlain(c + y);
    } else if s[1] == 'u' {
      BodyUnicode(s);
      UnicodeFits(s[2..]);
      var n := UnicodeEscape(s[2..]).1;
      var d := BodyAppend(s[2..][n..], y);
      c := UnicodeAppend(s, d, StringBody(s).value.1, y);
    } else {
      BodySimple(s);
      var d := BodyAppend(s[2..], y);
      c := [s[0], s[1]] + d;
      assert (c + y)[2..] == d + y;
      BodySimple(c + y);
    }
  }

  lemma ClosingQuote(y: string)
    ensures StringBody("\"" + y) == Some(("", y))
  {
    assert ("\"" + y)[1..] == y;
  }

  lemma UnicodeAppend(s: string, d: string, rest: string, y: string) returns (c: string)
    requires |s| >= 2 && s[0] == '\\' && s[1] == 'u' && IsHex4(s[2..])
    requires s[2..][UnicodeEscape(s[2..]).1..] == d + rest && d != "" && d[|d| - 1] == '"'
    requires StringBody(d + y).Some?
    ensures s == c + rest && c != "" && c[|c| - 1] == '"'
    ensures StringBody(c + y) == Cons(UnicodeEscape(s[2..]).0, StringBody(d + y))
  {
    hide StringBody, UnicodeEscape, IsHex4;
    UnicodeFits(s[2..]);
    var n := UnicodeEscape(s[2..]).1;
    var e := s[2..][..n] + d;
    c := ['\\', 'u'] + e;
    assert s[2..] == s[2..][..n] + (d + rest) == e + rest;
    assert s == ['\\', 'u'] + s[2..];
    HexHead(s[2..], e);
    EscapeAhead(e, rest, y);
    assert (c + y)[2..] == e + y;
    assert (e + y)[n..] == d + y;
    BodyUnicode(c + y);
  }

  lemma HexHead(s: string, e: string)
    requires IsHex4(s) && |e| >= 4 && e[..4] == s[..4]
    ensures IsHex4(e[..4])
  {
    assert forall k :: 0 <= k < 4 ==> e[..4][k] == s[..4][k] == s[k];
  }

  /** Squeezing keeps a string body as it is. */
  lemma {:induction false} BodySqueezed(s: string, c: string, x: string)
    requires StringBody(s).Some? && s == c + StringBody(s).value.1
    ensures Squeeze(c + x, true, false) == c + Squeeze(x, false, false)
    decreases |s|
  {
    hide StringBody, UnicodeEscape, SimpleEscape, IsHex4, Squeeze;
    var rest := StringBody(s).value.1;
    BodyFirst(s);
    BodyLength(s);
    if s[0] == '"' {
      assert c == "\"";
      ClosingSqueezed(x);
    } else if s[0] != '\\' {
      BodyPlain(s);
      assert s[1..] == c[1..] + rest;
      BodySqueezed(s[1..], c[1..], x);
      assert c + x == [s[0]] + (c[1..] + x) && c == [s[0]] + c[1..];
      PlainSqueezed([s[0]], c[1..] + x);
    } else if s[1] == 'u' {
      BodyUnicode(s);
      UnicodeFits(s[2..]);
      var n := UnicodeEscape(s[2..]).1;
      BodyLength(s[2..][n..]);
      var d := c[2 + n..];
      assert s[2..][n..] == d + rest;
      BodySqueezed(s[2..][n..], d, x);
      UnicodeSqueezed(s, c, rest, n, x);
    } else {
      BodySimple(s);
      BodyLength(s[2..]);
      var d := c[2..];
      assert s[2..] == d + rest;
      BodySqueezed(s[2..], d, x);
      assert c == [s[0], s[1]] + d && c + x == [s[0], s[1]] + (d + x);
      TwoSqueezed(s[0], s[1], d + x);
    }
  }

  lemma ClosingSqueezed(x: string)
    ensures Squeeze("\"" + x, true, false) == "\"" + Squeeze(x, false, false)
  {
    assert ("\"" + x)[1..] == x;
  }

  lemma UnicodeSqueezed(s: string, c: string, rest: string, n: nat, x: string)
    requires s == c + rest && |c| >= 2 + n && s[0] == '\\' && IsHex4(s[2..]) && UnicodeEscape(s[2..]).1 == n
    requires s[1] == 'u'
    requires Squeeze(c[2 + n..] + x, true, false) == c[2 + n..] + Squeeze(x, false, false)
    ensures Squeeze(c + x, true, false) == c + Squeeze(x, false, false)
  {
    hide IsHex4, UnicodeEscape, Squeeze;
    UnicodeFits(s[2..]);
    var h, e, d, z := [s[0], s[1]], s[2..][..n], c[2 + n..], Squeeze(x, false, false);
    ThreeParts(s, c, rest, n);
    EscapeSqueezed(s[2..], n, d + x);
    TwoSqueezed(s[0], s[1], e + (d + x));
    Assoc(h, e, d, x);
    Assoc(h, e, d, z);
  }

  lemma ThreeParts(s: string, c: string, rest: string, n: nat)
    requires s == c + rest && |c| >= 2 + n
    ensures c == [s[0], s[1]] + (s[2..][..n] + c[2 + n..])
  {
  }

  lemma Assoc(h: string, e: string, d: string, x: string)
    ensures (h + (e + d)) + x == h + (e + (d + x))
  {
  }

  lemma BodyLength(s: string)
    requires StringBody(s).Some?
    ensures |StringBody(s).value.1| < |s|
  {
  }

  lemma TwoSqueezed(a: char, b: char, x: string)
    requires a == '\\'
    ensures Squeeze([a, b] + x, true, false) == [a, b] + Squeeze(x, true, false)
  {
    assert ([a, b] + x)[1..] == [b] + x && ([b] + x)[1..] == x;
    assert Squeeze([b] + x, true, true) == [b] + Squeeze(x, true, false);
  }

  lemma {:induction false} PlainSqueezed(p: string, x: string)
    requires forall k :: 0 <= k < |p| ==> p[k] != '"' && p[k] != '\\'
    ensures Squeeze(p + x, true, false) == p + Squeeze(x, true, false)
  {
    if p == "" {
      assert p + x == x;
    } else {
      assert (p + x)[1..] == p[1..] + x;
      PlainSqueezed(p[1..], x);
      assert p == [p[0]] + p[1..];
    }
  }

  lemma EscapeSqueezed(s: string, n: nat, x: string)
    requires IsHex4(s) && UnicodeEscape(s).1 == n
    ensures Squeeze(s[..n] + x, true, false) == s[..n] + Squeeze(x, true, false)
  {
    var p := s[..4];
    if n == 4 {
      PlainSqueezed(p, x);
    } else {
      var q := s[6..10];
      assert q == s[6..][..4];
      assert s[..n] + x == p + (['\\', 'u'] + (q + x)) && s[..n] == p + ['\\', 'u'] + q;
      PlainSqueezed(p, ['\\', 'u'] + (q + x));
      TwoSqueezed('\\', 'u', q + x);
      PlainSqueezed(q, x);
    }
  }

  // ----- what is consumed -----

  ghost predicate Ends(s: string, rest: string) {
    |rest| <= |s| && s[|s| - |rest|..] == rest
  }

  /** The part of a text before its rest. */
  function Head(s: string, rest: string): string
    requires |rest| <= |s|
  {
    s[..|s| - |rest|]
  }

  lemma HeadRest(s: string, rest: string)
    requires Ends(s, rest)
    ensures s == Head(s, rest) + rest
  {
  }

  lemma EndsTrans(a: string, b: string, c: string)
    requires Ends(a, b) && Ends(b, c)
    ensures Ends(a, c) && Head(a, c) == Head(a, b) + Head(b, c)
  {
    HeadRest(a, b);
    HeadRest(b, c);
    assert a == (Head(a, b) + Head(b, c)) + c;
  }

  lemma {:induction false} WsEnds(s: string)
    ensures Ends(s, Ws(s))
    ensures forall k :: 0 <= k < |s| - |Ws(s)| ==> IsSpace(s[k])
  {
    if s != "" && IsSpace(s[0]) {
      WsEnds(s[1..]);
      assert forall k :: 1 <= k < |s| - |Ws(s)| ==> s[k] == s[1..][k - 1];
    }
  }

  lemma BodyEnds(s: string)
    requires StringBody(s).Some?
    ensures Ends(s, StringBody(s).value.1)
  {
    var c := BodyAppend(s, "");
  }

  lemma OneEnds(s: string)
    requires s != ""
    ensures Ends(s, s[1..]) && Head(s, s[1..]) == [s[0]]
  {
  }

  lemma StringEnds(s: string)
    requires s != "" && s[0] == '"' && SkipString(s).Some?
    ensures Ends(s, SkipString(s).value.rest)
  {
    BodyEnds(s[1..]);
    OneEnds(s);
    EndsTrans(s, s[1..], SkipString(s).value.rest);
  }

  lemma {:induction false} ObjectEnds(s: string)
    requires s != "" && s[0] == '{' && SkipObject(s).Some?
    ensures Ends(s, SkipObject(s).value.rest)
    decreases |s|, 0
  {
    hide Ends, Members;
    OneEnds(s);
    WsEnds(s[1..]);
    var v := Ws(s[1..]);
    if v != "" && v[0] == '}' { OneEnds(v); } else { MembersEnds(v); }
    EndsTrans(s[1..], v, SkipObject(s).value.rest);
    EndsTrans(s, s[1..], SkipObject(s).value.rest);
  }

  lemma {:induction false} ArrayEnds(s: string)
    requires s != "" && s[0] == '[' && SkipArray(s).Some?
    ensures Ends(s, SkipArray(s).value.rest)
    decreases |s|, 0
  {
    hide Ends, Elements;
    OneEnds(s);
    WsEnds(s[1..]);
    var v := Ws(s[1..]);
    if v != "" && v[0] == ']' { OneEnds(v); } else { ElementsEnds(v); }
    EndsTrans(s[1..], v, SkipArray(s).value.rest);
    EndsTrans(s, s[1..], SkipArray(s).value.rest);
  }

  lemma WordEnds(s: string)
    requires SkipWord(s).Some?
    ensures Ends(s, SkipWord(s).value.rest) && Head(s, SkipWord(s).value.rest) == SkipWord(s).value.min
  {
    hide Word;
    WordFits(s);
    DropEnds(s, Word(s));
  }

  lemma WordFits(s: string)
    ensures Word(s) <= |s|
  {
  }

  lemma {:induction false} ValueEnds(s: string)
    requires SkipValue(s).Some?
    ensures Ends(s, SkipValue(s).value.rest) && Ends(Ws(s), SkipValue(s).value.rest)
    decreases |s|, 1
  {
    hide Ends, SkipString, SkipObject, SkipArray, SkipWord;
    WsEnds(s);
    var t := Ws(s);
    if t[0] == '"' {
      StringEnds(t);
    } else if t[0] == '{' {
      ObjectEnds(t);
    } else if t[0] == '[' {
      ArrayEnds(t);
    } else {
      WordEnds(t);
    }
    EndsTrans(s, t, SkipValue(s).value.rest);
  }

  lemma DropEnds(s: string, n: nat)
    requires n <= |s|
    ensures Ends(s, s[n..]) && Head(s, s[n..]) == s[..n]
  {
  }

  lemma {:induction false} ElementsEnds(s: string)
    requires Elements(s).Some?
    ensures Ends(s, Elements(s).value.rest)
    decreases |s|, 2
  {
    hide Ends, SkipValue;
    ValueEnds(s);
    var v := SkipValue(s).value;
    var t := Ws(v.rest);
    WsEnds(v.rest);
    EndsTrans(s, v.rest, t);
    OneEnds(t);
    EndsTrans(s, t, t[1..]);
    if t[0] == ',' {
      ElementsEnds(t[1..]);
      EndsTrans(s, t[1..], Elements(s).value.rest);
    }
  }

  lemma {:induction false} MembersEnds(s0: string)
    requires Members(s0).Some?
    ensures Ends(s0, Members(s0).value.rest) && Ends(Ws(s0), Members(s0).value.rest)
    decreases |s0|, 2
  {
    hide Ends, SkipValue, SkipString;
    WsEnds(s0);
    var s := Ws(s0);
    StringEnds(s);
    var rest := SkipString(s).value.rest;
    var t := Ws(rest);
    WsEnds(rest);
    EndsTrans(s, rest, t);
    OneEnds(t);
    EndsTrans(s, t, t[1..]);
    ValueEnds(t[1..]);
    var v := SkipValue(t[1..]).value;
    EndsTrans(s, t[1..], v.rest);
    var u := Ws(v.rest);
    WsEnds(v.rest);
    EndsTrans(s, v.rest, u);
    OneEnds(u);
    EndsTrans(s, u, u[1..]);
    if u[0] == ',' {
      MembersEnds(u[1..]);
      EndsTrans(s, u[1..], Members(s0).value.rest);
    }
    EndsTrans(s0, s, Members(s0).value.rest);
  }
}
