/** The server's selective JSON reader: strings are decoded, other values are only
    skipped and kept as text without white space. */
module Json {
  import opened JsonNumber
  import opened Common
  import opened StreamText
  import opened StreamTool

  /** The text after leading white space. */
  function Ws(s: string): (r: string)
    ensures |r| <= |s|
    ensures r != "" ==> !IsSpace(r[0])
  {
    if s != "" && IsSpace(s[0]) then Ws(s[1..]) else s
  }

  // ----- strings -----

  function Hex(c: char): int {
    if '0' <= c <= '9' then c as int - '0' as int
    else if 'a' <= c <= 'f' then 10 + c as int - 'a' as int
    else if 'A' <= c <= 'F' then 10 + c as int - 'A' as int
    else -1
  }

  predicate IsHex4(s: string) {
    |s| >= 4 && Hex(s[0]) >= 0 && Hex(s[1]) >= 0 && Hex(s[2]) >= 0 && Hex(s[3]) >= 0
  }

  /** The value of four hexadecimal digits. */
  function Hex4(s: string): (r: nat)
    requires IsHex4(s)
    ensures r < 0x10000
  {
    ((Hex(s[0]) * 16 + Hex(s[1])) * 16 + Hex(s[2])) * 16 + Hex(s[3])
  }

  function Byte(b: nat): char
    requires b < 256
  {
    b as char
  }

  /** A code point in UTF-8. */
  function Utf8Put(cp: nat): string
    requires cp < 0x110000
  {
    if cp <= 0x7F then [Byte(cp)]
    else if cp <= 0x7FF then [Byte(0xC0 + cp / 0x40), Byte(0x80 + cp % 0x40)]
    else if cp <= 0xFFFF then [Byte(0xE0 + cp / 0x1000), Byte(0x80 + cp / 0x40 % 0x40), Byte(0x80 + cp % 0x40)]
    else [Byte(0xF0 + cp / 0x40000), Byte(0x80 + cp / 0x1000 % 0x40), Byte(0x80 + cp / 0x40 % 0x40),
      Byte(0x80 + cp % 0x40)]
  }

  /** What `\u` and the digits after it mean, with a second half if there is one:
      the bytes and how much of `s`, which starts at the digits, they take. */
  function UnicodeEscape(s: string): (r: (string, nat))
    requires IsHex4(s)
    ensures 4 <= r.1 <= |s|
  {
    var cp := Hex4(s);
    if 0xD800 <= cp <= 0xDBFF && |s| >= 10 && s[4] == '\\' && s[5] == 'u' && IsHex4(s[6..]) then
      var lo := Hex4(s[6..]);
      // A second escape that is no low surrogate is dropped all the same.
      if 0xDC00 <= lo <= 0xDFFF then (Utf8Put(0x10000 + (cp - 0xD800) * 0x400 + (lo - 0xDC00)), 10)
      else (Utf8Put(cp), 10)
    else (Utf8Put(cp), 4)
  }

  function SimpleEscape(c: char): Option<char> {
    match c
    case '"' => Some('"')
    case '\\' => Some('\\')
    case '/' => Some('/')
    case 'b' => Some(8 as char)
    case 'f' => Some(12 as char)
    case 'n' => Some('\n')
    case 'r' => Some('\r')
    case 't' => Some('\t')
    case _ => None
  }

  /** The rest of a string literal after its opening quote: what it decodes to and
      the text after its closing quote. */
  function StringBody(s: string): (r: Option<(string, string)>)
    ensures r.Some? ==> |r.value.1| < |s|
  {
    if s == "" then None
    else if s[0] == '"' then Some(("", s[1..]))
    else if s[0] != '\\' then Cons([s[0]], StringBody(s[1..]))
    else if |s| < 2 then None
    else if s[1] == 'u' then
      if !IsHex4(s[2..]) then None
      else
        var (text, n) := UnicodeEscape(s[2..]);
        Cons(text, StringBody(s[2 + n..]))
    else
      match SimpleEscape(s[1])
      case None => None
      case Some(c) => Cons([c], StringBody(s[2..]))
  }

  function Cons(c: string, r: Option<(string, string)>): Option<(string, string)> {
    match r
    case None => None
    case Some((text, rest)) => Some((c + text, rest))
  }

  /** A string literal: its value and the text after it. */
  function JsonString(s: string): (r: Option<(string, string)>)
    ensures r.Some? ==> |r.value.1| < |s|
  {
    var t := Ws(s);
    if t != "" && t[0] == '"' then StringBody(t[1..]) else None
  }

  /** One escaped character is read back as that character. */
  lemma EscapedCharacter(c: char, rest: string)
    ensures StringBody(EscapeChar(c) + rest) == Cons([c], StringBody(rest))
  {
    var e := EscapeChar(c);
    var s := e + rest;
    assert s[|e|..] == rest;
    if c < ' ' && c != '\n' && c != '\r' && c != '\t' {
      assert e == "\\u00" + [HexDigit(c as int / 16), HexDigit(c as int % 16)] && |e| == 6;
      assert s[0] == '\\' && s[1] == 'u';
      assert s[2..][0] == '0' && s[2..][1] == '0' && s[2..][2] == e[4] && s[2..][3] == e[5];
      HexBack(c as int / 16);
      HexBack(c as int % 16);
      assert Hex4(s[2..]) == c as int;
      assert s[2 + 4..] == rest;
    }
  }

  lemma HexBack(d: nat)
    requires d < 16
    ensures Hex(HexDigit(d)) == d
  {
  }

  /** Reading back an escaped string gives the string, whatever follows it. */
  lemma {:induction false} EscapedBack(s: string, rest: string)
    ensures StringBody(EscapeJson(s) + "\"" + rest) == Some((s, rest))
  {
    if s == "" {
      assert ("" + "\"" + rest)[1..] == rest;
    } else {
      EscapedBack(s[1..], rest);
      EscapedCharacter(s[0], EscapeJson(s[1..]) + "\"" + rest);
      assert EscapeJson(s) + "\"" + rest == EscapeChar(s[0]) + (EscapeJson(s[1..]) + "\"" + rest);
      assert [s[0]] + s[1..] == s;
    }
  }

  function Quoted(s: string): string {
    "\"" + EscapeJson(s) + "\""
  }

  lemma QuotedBack(s: string, rest: string)
    ensures JsonString(Quoted(s) + rest) == Some((s, rest))
  {
    EscapedBack(s, rest);
    assert (Quoted(s) + rest)[1..] == EscapeJson(s) + "\"" + rest;
    assert Ws(Quoted(s) + rest) == Quoted(s) + rest;
  }

  // ----- other values -----

  // The text after a value, and the value without white space.
  datatype Skipped = Skipped(rest: string, min: string)

  function SkipString(s: string): (r: Option<Skipped>)
    requires s != "" && s[0] == '"'
    ensures r.Some? ==> |r.value.rest| < |s|
  {
    match StringBody(s[1..])
    case None => None
    case Some((_, rest)) => Some(Skipped(rest, s[..|s| - |rest|]))
  }

  function SkipObject(s: string): (r: Option<Skipped>)
    requires s != "" && s[0] == '{'
    ensures r.Some? ==> |r.value.rest| < |s|
    decreases |s|, 0
  {
    var t := Ws(s[1..]);
    if t != "" && t[0] == '}' then Some(Skipped(t[1..], "{}")) else Prefix("{", Members(t))
  }

  function SkipArray(s: string): (r: Option<Skipped>)
    requires s != "" && s[0] == '['
    ensures r.Some? ==> |r.value.rest| < |s|
    decreases |s|, 0
  {
    var t := Ws(s[1..]);
    if t != "" && t[0] == ']' then Some(Skipped(t[1..], "[]")) else Prefix("[", Elements(t))
  }

  /** How much of a text is one of the three words or a number. */
  function Word(s: string): (r: nat)
    ensures r <= |s|
  {
    if StartsWith(s, "true") || StartsWith(s, "null") then 4
    else if StartsWith(s, "false") then 5
    else Number(s)
  }

  function SkipWord(s: string): (r: Option<Skipped>)
    ensures r.Some? ==> |r.value.rest| < |s|
  {
    if Word(s) > 0 then Some(Skipped(s[Word(s)..], s[..Word(s)])) else None
  }

  /** Skips one value. */
  function SkipValue(s0: string): (r: Option<Skipped>)
    ensures r.Some? ==> |r.value.rest| < |Ws(s0)|
    decreases |s0|, 1
  {
    var s := Ws(s0);
    if s == "" then None
    else if s[0] == '"' then SkipString(s)
    else if s[0] == '{' then SkipObject(s)
    else if s[0] == '[' then SkipArray(s)
    else SkipWord(s)
  }

  function Prefix(p: string, r: Option<Skipped>): Option<Skipped> {
    match r
    case None => None
    case Some(v) => Some(Skipped(v.rest, p + v.min))
  }

  /** The rest of an array after its bracket and, as there is one, its next element. */
  function Elements(s: string): (r: Option<Skipped>)
    ensures r.Some? ==> |r.value.rest| < |s|
    decreases |s|, 2
  {
    match SkipValue(s)
    case None => None
    case Some(v) =>
      var t := Ws(v.rest);
      if t == "" then None
      else if t[0] == ']' then Some(Skipped(t[1..], v.min + "]"))
      else if t[0] == ',' then Prefix(v.min + ",", Elements(t[1..]))
      else None
  }

  /** The rest of an object after its brace and, as there is one, its next member. */
  function Members(s0: string): (r: Option<Skipped>)
    ensures r.Some? ==> |r.value.rest| < |s0|
    decreases |s0|, 2
  {
    var s := Ws(s0);
    if s == "" || s[0] != '"' then None
    else
      match SkipString(s)
      case None => None
      case Some(key) =>
        var t := Ws(key.rest);
        if t == "" || t[0] != ':' then None
        else
          match SkipValue(t[1..])
          case None => None
          case Some(v) =>
            var u := Ws(v.rest);
            if u == "" then None
            else if u[0] == '}' then Some(Skipped(u[1..], key.min + ":" + v.min + "}"))
            else if u[0] == ',' then Prefix(key.min + ":" + v.min + ",", Members(u[1..]))
            else None
  }

  /** White space dropped outside strings. */
  function Squeeze(s: string, inString: bool, escape: bool): string {
    if s == "" then ""
    else if inString then
      [s[0]] + Squeeze(s[1..], escape || s[0] != '"', !escape && s[0] == '\\')
    else if s[0] == '"' then "\"" + Squeeze(s[1..], true, false)
    else if IsSpace(s[0]) then Squeeze(s[1..], false, false)
    else [s[0]] + Squeeze(s[1..], false, false)
  }

  /** A value's text without white space; text that is no value stays as it is. */
  function Minify(json: string): string {
    match SkipValue(json)
    case None => json
    case Some(v) =>
      var s := Ws(json);
      Squeeze(s[..|s| - |v.rest|], false, false)
  }
}
