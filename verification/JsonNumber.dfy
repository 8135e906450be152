/** How much of a text `strtod` reads as a number: decimal, hexadecimal, infinite or not a number. */
module JsonNumber {
  predicate Digit(c: char) { '0' <= c <= '9' }

  predicate Letter(c: char) { 'a' <= c <= 'z' || 'A' <= c <= 'Z' }

  // What a run of characters is made of.
  datatype Class = Dec | Hexa | Name

  predicate In(c: char, k: Class) {
    match k
    case Dec => Digit(c)
    case Hexa => Digit(c) || 'a' <= c <= 'f' || 'A' <= c <= 'F'
    case Name => Digit(c) || Letter(c) || c == '_'
  }

  function Digits(s: string, k: Class): (r: nat)
    ensures r <= |s|
    ensures forall i :: 0 <= i < r ==> In(s[i], k)
    ensures r < |s| ==> !In(s[r], k)
  {
    if s != "" && In(s[0], k) then 1 + Digits(s[1..], k) else 0
  }

  function SignAt(s: string, i: nat): nat {
    if i < |s| && (s[i] == '+' || s[i] == '-') then 1 else 0
  }

  /** Digits with at most one point among them. */
  function Mantissa(s: string, k: Class): (r: nat)
    ensures r <= |s|
  {
    var whole := Digits(s, k);
    if whole < |s| && s[whole] == '.' then
      var frac := Digits(s[whole + 1..], k);
      if whole + frac == 0 then 0 else whole + 1 + frac
    else whole
  }

  /** The letter that starts an exponent. */
  predicate Marks(c: char, k: Class) {
    if k == Hexa then c == 'p' || c == 'P' else c == 'e' || c == 'E'
  }

  /** How much of a text is an exponent: none without a digit. */
  function Exponent(s: string, k: Class): (r: nat)
    ensures r <= |s|
  {
    if s == "" || !Marks(s[0], k) then 0
    else
      var sign := SignAt(s, 1);
      var d := Digits(s[1 + sign..], Dec);
      if d == 0 then 0 else 1 + sign + d
  }

  function Plain(s: string, k: Class): (r: nat)
    ensures r <= |s|
  {
    var m := Mantissa(s, k);
    if m == 0 then 0 else m + Exponent(s[m..], k)
  }

  predicate HexStart(s: string) {
    |s| > 2 && s[0] == '0' && (s[1] == 'x' || s[1] == 'X')
  }

  function HexNumber(s: string): (r: nat)
    ensures r <= |s|
  {
    if HexStart(s) && Plain(s[2..], Hexa) > 0 then 2 + Plain(s[2..], Hexa) else 0
  }

  function Lower(c: char): char {
    if 'A' <= c <= 'Z' then (c as int + 32) as char else c
  }

  /** The text starts with a word, in letters of either case. */
  predicate Says(s: string, word: string) {
    |word| <= |s| && forall i :: 0 <= i < |word| ==> Lower(s[i]) == word[i]
  }

  /** What may follow a not-a-number: a name in parentheses. */
  function InParens(s: string): (r: nat)
    ensures r <= |s|
  {
    if s == "" || s[0] != '(' then 0
    else
      var k := Digits(s[1..], Name);
      if 1 + k < |s| && s[1 + k] == ')' then k + 2 else 0
  }

  function Named(s: string): (r: nat)
    ensures r <= |s|
  {
    if Says(s, "infinity") then 8
    else if Says(s, "inf") then 3
    else if Says(s, "nan") then 3 + InParens(s[3..])
    else 0
  }

  function Unsigned(s: string): (r: nat)
    ensures r <= |s|
  {
    if HexNumber(s) > 0 then HexNumber(s) else if Plain(s, Dec) > 0 then Plain(s, Dec) else Named(s)
  }

  function Number(s: string): (r: nat)
    ensures r <= |s|
  {
    var sign := SignAt(s, 0);
    if sign <= |s| && Unsigned(s[sign..]) > 0 then sign + Unsigned(s[sign..]) else 0
  }

  predicate NumberChar(c: char) {
    Digit(c) || Letter(c) || c == '_' || c == '.' || c == '+' || c == '-' || c == '(' || c == ')'
  }

  /** No number goes on with this text. */
  predicate Stop(r: string) {
    r == "" || !NumberChar(r[0])
  }

  // ----- a number ends where it did -----

  lemma {:induction false} DigitsAppend(p: string, y: string, k: Class)
    requires Digits(p, k) == |p| && (y == "" || !In(y[0], k))
    ensures Digits(p + y, k) == |p|
  {
    if p == "" {
      assert p + y == y;
    } else {
      DigitsAppend(p[1..], y, k);
      assert (p + y)[1..] == p[1..] + y;
    }
  }

  lemma {:induction false} DigitsHead(s: string, n: nat, k: Class)
    requires n <= Digits(s, k)
    ensures Digits(s[..n], k) == n
  {
    if n > 0 {
      DigitsHead(s[1..], n - 1, k);
      assert s[..n][1..] == s[1..][..n - 1];
    }
  }

  /** Digits that end before `n`, or go up to it, stay as they are. */
  lemma DigitsKept(s: string, n: nat, y: string, k: Class)
    requires Digits(s, k) <= n <= |s| && Stop(y)
    ensures Digits(s[..n] + y, k) == Digits(s, k)
  {
    var d := Digits(s, k);
    DigitsHead(s, d, k);
    var z := s[d..n] + y;
    assert s[..n] + y == s[..d] + z;
    assert z != "" ==> z[0] == if d < n then s[d] else y[0];
    DigitsAppend(s[..d], z, k);
  }

  lemma TailOf(s: string, n: nat, y: string, a: nat)
    requires a <= n <= |s|
    ensures (s[..n] + y)[a..] == s[a..][..n - a] + y
  {
  }

  lemma ExponentAppend(s: string, y: string, k: Class)
    requires Stop(y)
    ensures Exponent(s[..Exponent(s, k)] + y, k) == Exponent(s, k)
  {
    hide Digits, NumberChar;
    var n := Exponent(s, k);
    var t := s[..n] + y;
    NoMark(y, k);
    if n > 0 {
      var sign := SignAt(s, 1);
      assert |t| > 1 && t[0] == s[0] && t[1] == s[1];
      assert SignAt(t, 1) == sign;
      TailOf(s, n, y, 1 + sign);
      DigitsKept(s[1 + sign..], n - 1 - sign, y, Dec);
    } else {
      assert t == y;
    }
  }

  lemma NoMark(y: string, k: Class)
    requires Stop(y)
    ensures y != "" ==> !Marks(y[0], k)
  {
  }

  lemma MantissaKept(s: string, n: nat, y: string, k: Class)
    requires 0 < Mantissa(s, k) <= n <= |s| && Stop(y)
    ensures Mantissa(s[..n] + y, k) == Mantissa(s, k)
  {
    hide Digits;
    var whole := Digits(s, k);
    var t := s[..n] + y;
    DigitsKept(s, n, y, k);
    if whole < |s| && s[whole] == '.' {
      assert t[whole] == '.';
      TailOf(s, n, y, whole + 1);
      DigitsKept(s[whole + 1..], n - whole - 1, y, k);
    } else {
      assert whole < |t| ==> t[whole] == if whole < n then s[whole] else y[0];
    }
  }

  lemma PlainAppend(s: string, y: string, k: Class)
    requires Stop(y) && Plain(s, k) > 0
    ensures Plain(s[..Plain(s, k)] + y, k) == Plain(s, k)
  {
    hide Mantissa, Exponent;
    var n, m := Plain(s, k), Mantissa(s, k);
    ExponentFits(s[m..], k);
    MantissaKept(s, n, y, k);
    ExponentAppend(s[m..], y, k);
    TailOf(s, n, y, m);
  }

  lemma ExponentFits(s: string, k: Class)
    ensures Exponent(s, k) <= |s|
  {
  }

  lemma HexAppend(s: string, y: string)
    requires Stop(y) && HexNumber(s) > 0
    ensures HexNumber(s[..HexNumber(s)] + y) == HexNumber(s)
  {
    hide Plain;
    var n := HexNumber(s);
    var t := s[..n] + y;
    PlainFits(s[2..], Hexa);
    PlainAppend(s[2..], y, Hexa);
    assert t[0] == s[0] && t[1] == s[1];
    TailOf(s, n, y, 2);
  }

  lemma PlainFits(s: string, k: Class)
    ensures Plain(s, k) <= |s|
  {
  }

  /** A decimal number does not become hexadecimal. */
  lemma NoHex(s: string, y: string)
    requires Stop(y) && HexNumber(s) == 0 && Plain(s, Dec) > 0
    ensures HexNumber(s[..Plain(s, Dec)] + y) == 0
  {
    hide Plain;
    var n := Plain(s, Dec);
    var t := s[..n] + y;
    PlainFits(s, Dec);
    assert |t| > 1 ==> t[1] == if n > 1 then s[1] else y[0];
    if n > 1 { DecimalChars(s, 1); }
  }

  /** What a decimal number is made of. */
  lemma DecimalChars(s: string, i: nat)
    requires i < Plain(s, Dec)
    ensures Digit(s[i]) || s[i] == '.' || s[i] == 'e' || s[i] == 'E' || s[i] == '+' || s[i] == '-'
  {
    PlainChars(s, i, Dec);
  }

  lemma PlainChars(s: string, i: nat, k: Class)
    requires i < Plain(s, k)
    ensures In(s[i], k) || s[i] == '.' || Marks(s[i], k) || s[i] == '+' || s[i] == '-' || Digit(s[i])
  {
    hide Mantissa, Exponent;
    var m := Mantissa(s, k);
    if i < m {
      MantissaChars(s, i, k);
    } else {
      ExponentChars(s[m..], i - m, k);
    }
  }

  lemma MantissaChars(s: string, i: nat, k: Class)
    requires i < Mantissa(s, k)
    ensures In(s[i], k) || s[i] == '.'
  {
    hide Digits;
    var whole := Digits(s, k);
    if i > whole { assert s[i] == s[whole + 1..][i - whole - 1]; }
  }

  lemma ExponentChars(s: string, i: nat, k: Class)
    requires i < Exponent(s, k)
    ensures Marks(s[i], k) || s[i] == '+' || s[i] == '-' || Digit(s[i])
  {
    var sign := SignAt(s, 1);
    if i >= 1 + sign { assert s[i] == s[1 + sign..][i - 1 - sign]; }
  }

  lemma SaysChars(s: string, word: string, i: nat)
    requires Says(s, word) && i < |word| && forall j :: 0 <= j < |word| ==> 'a' <= word[j] <= 'z'
    ensures Letter(s[i])
  {
  }

  lemma ParensChars(s: string, i: nat)
    requires i < InParens(s)
    ensures NumberChar(s[i])
  {
    if 0 < i < InParens(s) - 1 { assert s[i] == s[1..][i - 1]; }
  }

  lemma NamedChars(s: string, i: nat)
    requires i < Named(s)
    ensures NumberChar(s[i])
  {
    hide InParens, NumberChar;
    LettersCount();
    if Says(s, "infinity") {
      SaysChars(s, "infinity", i);
    } else if Says(s, "inf") {
      SaysChars(s, "inf", i);
    } else if i < 3 {
      SaysChars(s, "nan", i);
    } else {
      ParensChars(s[3..], i - 3);
    }
  }

  lemma LettersCount()
    ensures forall c :: Letter(c) ==> NumberChar(c)
  {
  }

  /** A name starts with a letter that no other number starts with. */
  lemma NamedStart(s: string)
    requires Named(s) > 0
    ensures |s| >= 3 && Named(s) >= 3 && (Lower(s[0]) == 'i' || (Lower(s[0]) == 'n' && Lower(s[1]) == 'a'))
    ensures Plain(s, Dec) == 0 && HexNumber(s) == 0
  {
  }

  lemma SaysAppend(s: string, n: nat, y: string, word: string)
    requires n <= |s| && Stop(y) && forall j :: 0 <= j < |word| ==> 'a' <= word[j] <= 'z'
    ensures Says(s[..n] + y, word) <==> Says(s, word) && |word| <= n
  {
    var t := s[..n] + y;
    assert n < |t| ==> t[n] == y[0];
    if |word| <= n {
      assert forall i :: 0 <= i < |word| ==> t[i] == s[i];
    } else if Says(t, word) {
      SaysChars(t, word, n);
    }
  }

  lemma ParensAppend(s: string, y: string)
    requires Stop(y)
    ensures InParens(s[..InParens(s)] + y) == InParens(s)
  {
    var n := InParens(s);
    var t := s[..n] + y;
    if n > 0 {
      TailOf(s, n, y, 1);
      DigitsKept(s[1..], n - 1, y, Name);
    } else {
      assert t == y;
    }
  }

  lemma NamedAppend(s: string, y: string)
    requires Stop(y) && Named(s) > 0
    ensures Named(s[..Named(s)] + y) == Named(s)
  {
    hide InParens, Says;
    var n := Named(s);
    var t := s[..n] + y;
    SaysAppend(s, n, y, "infinity");
    SaysAppend(s, n, y, "inf");
    SaysAppend(s, n, y, "nan");
    if Says(s, "nan") && !Says(s, "inf") && !Says(s, "infinity") {
      ParensAppend(s[3..], y);
      TailOf(s, n, y, 3);
    }
  }

  lemma UnsignedAppend(s: string, y: string)
    requires Stop(y) && Unsigned(s) > 0
    ensures Unsigned(s[..Unsigned(s)] + y) == Unsigned(s)
  {
    hide HexNumber, Plain, Named;
    if HexNumber(s) > 0 {
      HexAppend(s, y);
    } else if Plain(s, Dec) > 0 {
      NoHex(s, y);
      PlainAppend(s, y, Dec);
    } else {
      NamedAppend(s, y);
      NamedStart(s[..Named(s)] + y);
    }
  }

  /** A number ends where it did, whatever follows that is no part of a number. */
  lemma NumberAppend(s: string, y: string)
    requires Stop(y) && Number(s) > 0
    ensures Number(s[..Number(s)] + y) == Number(s)
  {
    hide Unsigned;
    var n, sign := Number(s), SignAt(s, 0);
    UnsignedFits(s[sign..]);
    var t := s[..n] + y;
    assert t[0] == s[0];
    UnsignedAppend(s[sign..], y);
    TailOf(s, n, y, sign);
  }

  lemma UnsignedFits(s: string)
    ensures Unsigned(s) <= |s|
  {
  }

  /** A number is made of number characters. */
  lemma NumberChars(s: string, i: nat)
    requires i < Number(s)
    ensures NumberChar(s[i])
  {
    hide Unsigned;
    var sign := SignAt(s, 0);
    if i >= sign { UnsignedChars(s[sign..], i - sign); }
  }

  lemma UnsignedChars(s: string, i: nat)
    requires i < Unsigned(s)
    ensures NumberChar(s[i])
  {
    hide Plain, Named;
    if HexNumber(s) > 0 {
      if i >= 2 { PlainChars(s[2..], i - 2, Hexa); }
    } else if Plain(s, Dec) > 0 {
      PlainChars(s, i, Dec);
    } else {
      NamedChars(s, i);
    }
  }

  /** No number starts like one of the three words. */
  lemma NumberStart(s: string)
    requires Number(s) > 0
    ensures s[0] != 't' && s[0] != 'f' && (s[0] == 'n' ==> Number(s) >= 3 && Lower(s[1]) == 'a')
  {
    hide Unsigned;
    var sign := SignAt(s, 0);
    if sign == 0 {
      assert s[0..] == s;
      UnsignedStart(s);
    }
  }

  lemma UnsignedStart(s: string)
    requires Unsigned(s) > 0
    ensures s[0] != 't' && s[0] != 'f' && (s[0] == 'n' ==> Unsigned(s) >= 3 && Lower(s[1]) == 'a')
  {
    hide Plain, Named;
    if HexNumber(s) == 0 {
      if Plain(s, Dec) > 0 { DecimalChars(s, 0); } else { NamedStart(s); }
    }
  }
}
