/** The string literals that the JSON reader accepts, and what each of them is read as. */
module JsonLiteral {
  import opened Common
  import opened Json
  import opened JsonEscapes

  // ----- every such literal is read -----

  lemma CodeAhead(d: string, rest: string)
    requires |d| == 4 && IsHex4(d)
    ensures IsHex4(d + rest) && Hex4(d + rest) == Hex4(d)
  {
    var s := d + rest;
    assert s[0] == d[0] && s[1] == d[1] && s[2] == d[2] && s[3] == d[3];
  }

  /** A code point escape that takes no second one. */
  lemma CodeRead(d: string, rest: string)
    requires |d| == 4 && IsHex4(d)
    requires 0xD800 <= Hex4(d) < 0xDC00 ==> !(|rest| >= 6 && rest[0] == '\\' && rest[1] == 'u' && IsHex4(rest[2..]))
    ensures StringBody(Escape(d) + rest) == Cons(Utf8Put(Hex4(d)), StringBody(rest))
  {
    hide Utf8Put, Hex4, IsHex4, UnicodeEscape;
    CodeAhead(d, rest);
    CodeParts(d, rest);
    OneCode(d, rest);
  }

  lemma CodeParts(d: string, rest: string)
    requires |d| == 4
    ensures var s := Escape(d) + rest; s[0] == '\\' && s[1] == 'u' && s[2..] == d + rest && s[6..] == rest
  {
  }

  lemma OneCode(d: string, rest: string)
    requires |d| == 4 && IsHex4(d + rest) && Hex4(d + rest) == Hex4(d)
    requires 0xD800 <= Hex4(d) < 0xDC00 ==> !(|rest| >= 6 && rest[0] == '\\' && rest[1] == 'u' && IsHex4(rest[2..]))
    ensures UnicodeEscape(d + rest) == (Utf8Put(Hex4(d)), 4)
  {
    hide Utf8Put, Hex4, IsHex4;
    Behind(d, rest);
  }

  lemma Behind(d: string, rest: string)
    requires |d| == 4
    ensures var t := d + rest; (|t| >= 10 <==> |rest| >= 6) && (|rest| >= 2 ==> t[4] == rest[0] && t[5] == rest[1])
    ensures |rest| >= 2 ==> (d + rest)[6..] == rest[2..]
  {
  }

  lemma PairRead(d: string, e: string, rest: string)
    requires |d| == 4 && IsHex4(d) && |e| == 4 && IsHex4(e) && 0xD800 <= Hex4(d) < 0xDC00
    ensures StringBody(Escape(d) + (Escape(e) + rest)) == Cons(PairText(Hex4(d), Hex4(e)), StringBody(rest))
  {
    hide Utf8Put, Hex4, IsHex4;
    var s, t := Escape(d) + (Escape(e) + rest), d + (Escape(e) + rest);
    assert s[2..] == t && s[12..] == rest && t[6..] == e + rest && t[4] == '\\' && t[5] == 'u' && |t| >= 10;
    CodeAhead(d, Escape(e) + rest);
    CodeAhead(e, rest);
  }

  /** What follows an escape in a literal is another escape only if the next unit is. */
  lemma NextUnit(us: seq<Unit>, rest: string)
    requires OkUnits(us)
    ensures var t := UnitsText(us) + ("\"" + rest);
      |t| >= 6 && t[0] == '\\' && t[1] == 'u' && IsHex4(t[2..]) ==> us != [] && us[0].Code?
  {
    hide IsHex4;
    if us != [] {
      var t, u := UnitsText(us) + ("\"" + rest), UnitText(us[0]);
      assert t[0] == u[0] && (|u| > 1 ==> t[1] == u[1]);
    }
  }

  lemma FirstUnit(us: seq<Unit>, tail: string)
    requires us != []
    ensures UnitsText(us) + tail == UnitText(us[0]) + (UnitsText(us[1..]) + tail)
  {
    hide UnitText;
  }

  lemma OkRest(us: seq<Unit>, n: nat)
    requires OkUnits(us) && n <= |us|
    ensures OkUnits(us[n..])
  {
  }

  /** Every literal of this form is read, whatever follows it. */
  lemma {:induction false} LiteralRead(us: seq<Unit>, rest: string)
    requires OkUnits(us)
    ensures StringBody(UnitsText(us) + ("\"" + rest)) == Some((Decoded(us), rest))
    decreases |us|
  {
    hide StringBody, UnitsText, IsHex4, Hex4, Utf8Put, PairText;
    if us == [] {
      EmptyRead(rest);
    } else if Paired(us) {
      OkRest(us, 2);
      FirstUnit(us, "\"" + rest);
      FirstUnit(us[1..], "\"" + rest);
      assert us[1..][1..] == us[2..];
      PairRead(us[0].d, us[1].d, UnitsText(us[2..]) + ("\"" + rest));
      LiteralRead(us[2..], rest);
    } else {
      OkRest(us, 1);
      FirstUnit(us, "\"" + rest);
      UnitRead(us, rest);
      LiteralRead(us[1..], rest);
    }
  }

  lemma EmptyRead(rest: string)
    ensures StringBody(UnitsText([]) + ("\"" + rest)) == Some(("", rest))
  {
    assert ("" + ("\"" + rest))[1..] == rest;
  }

  lemma UnitRead(us: seq<Unit>, rest: string)
    requires us != [] && OkUnits(us) && !Paired(us)
    ensures var more := UnitsText(us[1..]) + ("\"" + rest);
      StringBody(UnitText(us[0]) + more) == Cons(UnitValue(us[0]), StringBody(more))
  {
    hide UnitsText, IsHex4, Hex4, Utf8Put;
    var more := UnitsText(us[1..]) + ("\"" + rest);
    match us[0]
    case Plain(c) => PlainRead(c, more);
    case Letter(l) => LetterMeans(l, more);
    case Code(d) =>
      OkRest(us, 1);
      NextUnit(us[1..], rest);
      CodeRead(d, more);
  }

  lemma PlainRead(c: char, rest: string)
    requires c != '"' && c != '\\'
    ensures StringBody([c] + rest) == Cons([c], StringBody(rest))
  {
    assert ([c] + rest)[1..] == rest;
  }

  // ----- and there are no others -----

  lemma LetterIs(c: char)
    ensures SimpleEscape(c) == if c in LETTERS then Some(LETTERS[c]) else None
  {
  }

  /** Whatever is read is such a literal. */
  lemma {:induction false} LiteralIs(s: string) returns (us: seq<Unit>)
    requires StringBody(s).Some?
    ensures OkUnits(us) && s == UnitsText(us) + ("\"" + StringBody(s).value.1)
    decreases |s|
  {
    hide IsHex4, Hex4, Utf8Put, UnitsText;
    if s[0] == '"' {
      us := [];
      NoUnits();
      assert s == "" + ("\"" + s[1..]);
    } else if s[0] != '\\' {
      us := LiteralIs(s[1..]);
      us := OneMore(Plain(s[0]), us, s, s[1..], StringBody(s).value.1);
    } else if s[1] == 'u' {
      us := CodesAre(s);
    } else {
      LetterIs(s[1]);
      us := LiteralIs(s[2..]);
      us := OneMore(Letter(s[1]), us, s, s[2..], StringBody(s).value.1);
    }
  }

  lemma NoUnits()
    ensures UnitsText([]) == ""
  {
  }

  lemma OneMore(u: Unit, more: seq<Unit>, s: string, t: string, rest: string) returns (us: seq<Unit>)
    requires OkUnit(u) && OkUnits(more) && s == UnitText(u) + t && t == UnitsText(more) + ("\"" + rest)
    ensures OkUnits(us) && s == UnitsText(us) + ("\"" + rest)
  {
    hide OkUnit, UnitText;
    us := [u] + more;
    assert us[1..] == more;
  }

  lemma CodesAre(s: string) returns (us: seq<Unit>)
    requires StringBody(s).Some? && s[0] == '\\' && s[1] == 'u'
    ensures OkUnits(us) && s == UnitsText(us) + ("\"" + StringBody(s).value.1)
    decreases |s|, 0
  {
    hide Hex, Hex4, Utf8Put, UnitsText;
    var n := UnicodeEscape(s[2..]).1;
    var rest := StringBody(s).value.1;
    us := LiteralIs(s[2 + n..]);
    if n == 10 {
      FourDigits(s, 8);
      us := OneMore(Code(s[8..12]), us, s[6..], s[12..], rest) by { assert s[6..] == Escape(s[8..12]) + s[12..]; }
    }
    FourDigits(s, 2);
    us := OneMore(Code(s[2..6]), us, s, s[6..], rest) by { assert s == Escape(s[2..6]) + s[6..]; }
  }

  lemma FourDigits(s: string, i: nat)
    requires i <= |s| && IsHex4(s[i..])
    ensures |s| >= i + 4 && IsHex4(s[i..i + 4])
  {
  }

  /** A text is read as a string literal exactly when it is one, and then as what its
      units mean. */
  lemma LiteralExactly(s: string, value: string, rest: string)
    ensures StringBody(s) == Some((value, rest)) <==>
      exists us :: OkUnits(us) && s == UnitsText(us) + ("\"" + rest) && value == Decoded(us)
  {
    hide *;
    if StringBody(s) == Some((value, rest)) {
      var us := LiteralIs(s);
      LiteralRead(us, rest);
    }
    if exists us :: OkUnits(us) && s == UnitsText(us) + ("\"" + rest) && value == Decoded(us) {
      var us :| OkUnits(us) && s == UnitsText(us) + ("\"" + rest) && value == Decoded(us);
      LiteralRead(us, rest);
    }
  }
}
