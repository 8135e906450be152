/** What the escapes of a JSON string mean: the letters of section 7 of RFC 8259, and
    code points in UTF-8 by the table in section 3 of RFC 3629. */
module JsonEscapes {
  import opened Common
  import opened StreamText
  import opened Json

  const LETTERS: map<char, char> := map['"' := '"', '\\' := '\\', '/' := '/', 'b' := 8 as char, 'f' := 12 as char,
    'n' := 10 as char, 'r' := 13 as char, 't' := 9 as char]

  /** The letter escapes; any other letter but `u` is refused. */
  lemma LetterMeans(c: char, rest: string)
    ensures c in LETTERS ==> StringBody(['\\', c] + rest) == Cons([LETTERS[c]], StringBody(rest))
    ensures c !in LETTERS && c != 'u' ==> StringBody(['\\', c] + rest) == None
  {
    var s := ['\\', c] + rest;
    assert s[2..] == rest && s[0] == '\\' && s[1] == c;
  }

  // ----- UTF-8 -----

  predicate Surrogate(cp: nat) { 0xD800 <= cp <= 0xDFFF }

  /** The bits that a byte after the first adds. */
  function Bits(c: char): nat
    requires Cont(c)
  {
    c as nat - 0x80
  }

  /** The code point of one character, or none for what is no character: a wrong number
      of bytes, more bytes than it takes, a surrogate, or beyond the last code point. */
  function CodePoint(w: string): Option<nat> {
    if |w| == 1 && w[0] as nat < 0x80 then Some(w[0] as nat)
    else if |w| == 2 && 0xC0 <= w[0] as nat < 0xE0 && Cont(w[1]) then
      AtLeast(0x80, (w[0] as nat - 0xC0) * 64 + Bits(w[1]))
    else if |w| == 3 && 0xE0 <= w[0] as nat < 0xF0 && Cont(w[1]) && Cont(w[2]) then
      AtLeast(0x800, ((w[0] as nat - 0xE0) * 64 + Bits(w[1])) * 64 + Bits(w[2]))
    else if |w| == 4 && 0xF0 <= w[0] as nat < 0xF8 && Cont(w[1]) && Cont(w[2]) && Cont(w[3]) then
      AtLeast(0x10000, (((w[0] as nat - 0xF0) * 64 + Bits(w[1])) * 64 + Bits(w[2])) * 64 + Bits(w[3]))
    else None
  }

  function AtLeast(least: nat, cp: nat): Option<nat> {
    if least <= cp < 0x110000 && !Surrogate(cp) then Some(cp) else None
  }

  lemma Sixes(cp: nat)
    ensures cp / 0x1000 == cp / 0x40 / 0x40 && cp / 0x40000 == cp / 0x40 / 0x40 / 0x40
    ensures cp == cp / 0x40 * 64 + cp % 0x40
    ensures cp / 0x40 == cp / 0x1000 * 64 + cp / 0x40 % 0x40
    ensures cp / 0x1000 == cp / 0x40000 * 64 + cp / 0x1000 % 0x40
  {
  }

  lemma SixMore(high: nat, low: nat)
    requires low < 64
    ensures (high * 64 + low) / 0x40 == high && (high * 64 + low) % 0x40 == low
  {
  }

  lemma ContByte(v: nat)
    requires v < 0x40
    ensures Cont(Byte(0x80 + v)) && Bits(Byte(0x80 + v)) == v
  {
  }

  lemma PutThree(cp: nat)
    requires 0x800 <= cp < 0x10000
    ensures CodePoint(Utf8Put(cp)) == AtLeast(0x800, cp)
  {
    hide Cont, Bits;
    Sixes(cp);
    ContByte(cp % 0x40);
    ContByte(cp / 0x40 % 0x40);
  }

  lemma PutFour(cp: nat)
    requires 0x10000 <= cp < 0x110000
    ensures CodePoint(Utf8Put(cp)) == AtLeast(0x10000, cp)
  {
    hide Cont, Bits;
    Sixes(cp);
    ContByte(cp % 0x40);
    ContByte(cp / 0x40 % 0x40);
    ContByte(cp / 0x1000 % 0x40);
  }

  /** What is written for a code point is the character of that code point, and only a
      surrogate has none. */
  lemma PutMeans(cp: nat)
    requires cp < 0x110000
    ensures CodePoint(Utf8Put(cp)) == if Surrogate(cp) then None else Some(cp)
  {
    if cp >= 0x10000 {
      hide Utf8Put, CodePoint;
      PutFour(cp);
    } else if cp >= 0x800 {
      hide Utf8Put, CodePoint;
      PutThree(cp);
    }
  }

  lemma OnlyThree(w: string, cp: nat)
    requires |w| == 3 && CodePoint(w) == Some(cp)
    ensures w == Utf8Put(cp)
  {
    var b := w[0] as nat - 0xE0;
    SixMore(b, Bits(w[1]));
    SixMore(b * 64 + Bits(w[1]), Bits(w[2]));
    Sixes(cp);
  }

  lemma OnlyFour(w: string, cp: nat)
    requires |w| == 4 && CodePoint(w) == Some(cp)
    ensures w == Utf8Put(cp)
  {
    var b := w[0] as nat - 0xF0;
    SixMore(b, Bits(w[1]));
    SixMore(b * 64 + Bits(w[1]), Bits(w[2]));
    SixMore((b * 64 + Bits(w[1])) * 64 + Bits(w[2]), Bits(w[3]));
    Sixes(cp);
  }

  lemma OnlyTwo(w: string, cp: nat)
    requires |w| <= 2 && CodePoint(w) == Some(cp)
    ensures w == Utf8Put(cp)
  {
    if |w| == 2 { SixMore(w[0] as nat - 0xC0, Bits(w[1])); }
  }

  /** A code point has no other bytes. */
  lemma OnlyBytes(w: string, cp: nat)
    requires CodePoint(w) == Some(cp)
    ensures cp < 0x110000 && !Surrogate(cp) && w == Utf8Put(cp)
  {
    hide Utf8Put, Cont, Bits;
    if |w| <= 2 { OnlyTwo(w, cp); }
    if |w| == 3 { OnlyThree(w, cp); }
    if |w| == 4 { OnlyFour(w, cp); }
  }

  /** A code point is written as one whole character, a surrogate too. */
  lemma PutIsWhole(cp: nat)
    requires cp < 0x110000
    ensures Utf8(Utf8Put(cp)) && Need(Utf8Put(cp)[0]) == |Utf8Put(cp)|
  {
    var w := Utf8Put(cp);
    assert forall i :: 0 < i < |w| ==> Cont(w[i]);
    assert CharAt(w, 0);
  }

  // ----- code point escapes -----

  /** `c` is a hexadecimal digit of value `v`. */
  predicate HexOf(c: char, v: nat) {
    v < 16 && (c == "0123456789abcdef"[v] || c == "0123456789ABCDEF"[v])
  }

  predicate FourHex(d: string, v: nat) {
    && |d| == 4 && HexOf(d[0], v / 16 / 16 / 16)
    && HexOf(d[1], v / 16 / 16 % 16) && HexOf(d[2], v / 16 % 16) && HexOf(d[3], v % 16)
  }

  lemma DigitIs(c: char, v: nat)
    requires HexOf(c, v)
    ensures Hex(c) == v
  {
  }

  lemma DigitsAre(d: string, v: nat, rest: string)
    requires FourHex(d, v)
    ensures v < 0x10000 && IsHex4(d + rest) && Hex4(d + rest) == v
  {
    var q := v / 16;
    var p := q / 16;
    DigitIs(d[0], p / 16);
    DigitIs(d[1], p % 16);
    DigitIs(d[2], q % 16);
    DigitIs(d[3], v % 16);
    assert v == 16 * q + v % 16 && q == 16 * p + q % 16 && p == 16 * (p / 16) + p % 16;
    var s := d + rest;
    assert s[0] == d[0] && s[1] == d[1] && s[2] == d[2] && s[3] == d[3];
  }

  function Escape(d: string): string {
    "\\u" + d
  }

  /** One escape that is no surrogate: the character of that code point. */
  lemma EscapeMeans(d: string, v: nat, w: string, rest: string)
    requires FourHex(d, v) && CodePoint(w) == Some(v)
    ensures StringBody(Escape(d) + rest) == Cons(w, StringBody(rest))
  {
    hide Utf8Put, CodePoint, Hex4, IsHex4, HexOf;
    var s := Escape(d) + rest;
    assert s[2..] == d + rest && s[6..] == rest;
    DigitsAre(d, v, rest);
    OnlyBytes(w, v);
  }

  /** A second escape right behind one. */
  lemma TwoEscapes(d: string, v: nat, e: string, u: nat, rest: string)
    requires FourHex(d, v) && FourHex(e, u) && 0xD800 <= v < 0xDC00
    ensures StringBody(Escape(d) + Escape(e) + rest) ==
      Cons(Utf8Put(if 0xDC00 <= u < 0xE000 then 0x10000 + (v - 0xD800) * 0x400 + (u - 0xDC00) else v), StringBody(rest))
  {
    hide Utf8Put, IsHex4, Hex4, HexOf;
    var s := Escape(d) + Escape(e) + rest;
    var t := d + (Escape(e) + rest);
    assert s[2..] == t && s[12..] == rest && t[6..] == e + rest;
    DigitsAre(d, v, Escape(e) + rest);
    DigitsAre(e, u, rest);
    assert t[4] == '\\' && t[5] == 'u' && |t| >= 10;
    assert UnicodeEscape(t).1 == 10;
  }

  /** A high and a low surrogate: the character of the code point they make. */
  lemma PairMeans(d: string, high: nat, e: string, low: nat, w: string, rest: string)
    requires FourHex(d, high) && 0xD800 <= high < 0xDC00
    requires FourHex(e, low) && 0xDC00 <= low < 0xE000
    requires CodePoint(w) == Some(0x10000 + (high - 0xD800) * 0x400 + (low - 0xDC00))
    ensures StringBody(Escape(d) + Escape(e) + rest) == Cons(w, StringBody(rest))
  {
    hide FourHex, CodePoint, StringBody, Utf8Put;
    TwoEscapes(d, high, e, low, rest);
    OnlyBytes(w, 0x10000 + (high - 0xD800) * 0x400 + (low - 0xDC00));
  }

  /** Every code point can be written so: by one escape, or by two beyond 0xFFFF. */
  lemma EscapesReach(cp: nat)
    requires cp < 0x110000
    ensures cp < 0x10000 ==> FourHex(Spelled(cp), cp)
    ensures cp >= 0x10000 ==> exists high: nat, low: nat ::
      && 0xD800 <= high < 0xDC00 <= low < 0xE000 && cp == 0x10000 + (high - 0xD800) * 0x400 + (low - 0xDC00)
      && FourHex(Spelled(high), high) && FourHex(Spelled(low), low)
  {
    if cp >= 0x10000 {
      var q, r := (cp - 0x10000) / 0x400, (cp - 0x10000) % 0x400;
      assert cp == 0x10000 + q * 0x400 + r && q < 0x400;
      var high, low := 0xD800 + q, 0xDC00 + r;
      assert FourHex(Spelled(high), high) && FourHex(Spelled(low), low);
    }
  }

  function Spelled(v: nat): (d: string)
    requires v < 0x10000
    ensures FourHex(d, v)
  {
    var h := "0123456789abcdef";
    [h[v / 16 / 16 / 16], h[v / 16 / 16 % 16], h[v / 16 % 16], h[v % 16]]
  }

  /** What the code makes of a high surrogate before an escape that is no low one: that
      escape is lost, and the bytes written are no character. */
  lemma LoneHigh(d: string, high: nat, e: string, v: nat, rest: string)
    requires FourHex(d, high) && 0xD800 <= high < 0xDC00
    requires FourHex(e, v) && !(0xDC00 <= v < 0xE000)
    ensures StringBody(Escape(d) + Escape(e) + rest) == Cons(Utf8Put(high), StringBody(rest))
    ensures CodePoint(Utf8Put(high)) == None
  {
    hide FourHex, CodePoint, StringBody, Utf8Put;
    TwoEscapes(d, high, e, v, rest);
    PutMeans(high);
  }

  // ----- whole literals -----

  // What a string literal is made of: a character as it is, a letter escape, or a code
  // point escape with its four digits.
  datatype Unit = Plain(c: char) | Letter(l: char) | Code(d: string)

  predicate OkUnit(u: Unit) {
    match u
    case Plain(c) => c != '"' && c != '\\'
    case Letter(l) => l in LETTERS
    case Code(d) => |d| == 4 && IsHex4(d)
  }

  ghost predicate OkUnits(us: seq<Unit>) {
    forall i :: 0 <= i < |us| ==> OkUnit(us[i])
  }

  function UnitText(u: Unit): string {
    match u
    case Plain(c) => [c]
    case Letter(l) => ['\\', l]
    case Code(d) => Escape(d)
  }

  function UnitsText(us: seq<Unit>): string {
    if us == [] then "" else UnitText(us[0]) + UnitsText(us[1..])
  }

  /** A high surrogate and any code point escape right behind it. */
  predicate Paired(us: seq<Unit>) {
    && |us| > 1 && us[0].Code? && us[1].Code? && IsHex4(us[0].d) && IsHex4(us[1].d) && 0xD800 <= Hex4(us[0].d) < 0xDC00
  }

  function PairText(high: nat, low: nat): string
    requires 0xD800 <= high < 0xDC00 && low < 0x10000
  {
    Utf8Put(if 0xDC00 <= low < 0xE000 then 0x10000 + (high - 0xD800) * 0x400 + (low - 0xDC00) else high)
  }

  function UnitValue(u: Unit): string
    requires OkUnit(u)
  {
    match u
    case Plain(c) => [c]
    case Letter(l) => [LETTERS[l]]
    case Code(d) => Utf8Put(Hex4(d))
  }

  /** What a literal means. */
  function Decoded(us: seq<Unit>): string
    requires OkUnits(us)
  {
    if us == [] then ""
    else if Paired(us) then PairText(Hex4(us[0].d), Hex4(us[1].d)) + Decoded(us[2..])
    else UnitValue(us[0]) + Decoded(us[1..])
  }
}
