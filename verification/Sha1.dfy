/** The incremental SHA-1 of the server's cache names. */
module Sha1 {
  type Word = bv32
  type Byte = bv8

  // ----- one block (FIPS 180-4, sections 4.1.1, 4.2.1 and 6.1.2) -----

  function Rol(v: Word, n: nat): Word
    requires 0 < n < 32
  {
    (v << n) | (v >> (32 - n))
  }

  function BlockWord(b: seq<Byte>, i: nat): Word
    requires 4 * i + 4 <= |b|
  {
    ((b[4 * i] as Word) << 24) | ((b[4 * i + 1] as Word) << 16) | ((b[4 * i + 2] as Word) << 8) | (b[4 * i + 3] as Word)
  }

  /** The first `n` words of the message schedule. */
  function Schedule(b: seq<Byte>, n: nat): (w: seq<Word>)
    requires |b| == 64
    ensures |w| == n
  {
    if n == 0 then []
    else
      var w, i := Schedule(b, n - 1), n - 1;
      w + [if i < 16 then BlockWord(b, i) else Rol(w[i - 3] ^ w[i - 8] ^ w[i - 14] ^ w[i - 16], 1)]
  }

  datatype Vars = Vars(a: Word, b: Word, c: Word, d: Word, e: Word)

  function F(t: nat, v: Vars): Word {
    if t < 20 then (v.b & v.c) | ((!v.b) & v.d)
    else if t < 40 then v.b ^ v.c ^ v.d
    else if t < 60 then (v.b & v.c) | (v.b & v.d) | (v.c & v.d)
    else v.b ^ v.c ^ v.d
  }

  function K(t: nat): Word {
    if t < 20 then 0x5A827999 else if t < 40 then 0x6ED9EBA1 else if t < 60 then 0x8F1BBCDC else 0xCA62C1D6
  }

  function Round(v: Vars, w: Word, t: nat): Vars {
    Vars(Rol(v.a, 5) + F(t, v) + v.e + K(t) + w, v.a, Rol(v.b, 30), v.c, v.d)
  }

  function Rounds(v: Vars, w: seq<Word>, n: nat): Vars
    requires n <= |w|
  {
    if n == 0 then v else Round(Rounds(v, w, n - 1), w[n - 1], n - 1)
  }

  function Add(h: Vars, v: Vars): Vars {
    Vars(h.a + v.a, h.b + v.b, h.c + v.c, h.d + v.d, h.e + v.e)
  }

  function Compress(h: Vars, block: seq<Byte>): Vars
    requires |block| == 64
  {
    Add(h, Rounds(h, Schedule(block, 80), 80))
  }

  // ----- whole messages -----

  const INIT := Vars(0x67452301, 0xEFCDAB89, 0x98BADCFE, 0x10325476, 0xC3D2E1F0)

  /** The hash value after the first `n` blocks of a text. */
  function Absorb(h: Vars, text: seq<Byte>, n: nat): Vars
    requires 64 * n <= |text|
  {
    if n == 0 then h else Compress(Absorb(h, text, n - 1), text[64 * (n - 1)..64 * n])
  }

  lemma {:induction false} AbsorbMore(h: Vars, text: seq<Byte>, p: seq<Byte>, n: nat)
    requires 64 * n <= |text|
    ensures Absorb(h, text + p, n) == Absorb(h, text, n)
  {
    hide Compress;
    if n > 0 {
      AbsorbMore(h, text, p, n - 1);
      assert (text + p)[64 * (n - 1)..64 * n] == text[64 * (n - 1)..64 * n];
    }
  }

  /** The length of a text in bits, as eight bytes, the highest first. */
  function LengthBytes(bytes: nat, n: nat): (r: seq<Byte>)
    ensures |r| == n
  {
    if n == 0 then [] else LengthBytes(bytes / 256, n - 1) + [(bytes % 256) as Byte]
  }

  /** How many zero bytes the padding takes (section 5.1.1). */
  function Zeros(n: nat): nat {
    (119 - n % 64) % 64
  }

  function ZeroBytes(n: nat): (r: seq<Byte>)
    ensures |r| == n
  {
    if n == 0 then [] else ZeroBytes(n - 1) + [0]
  }

  lemma PaddingFills(n: nat)
    ensures Zeros(n) == (if n % 64 <= 55 then 55 - n % 64 else 119 - n % 64)
    ensures (n + 1 + Zeros(n) + 8) % 64 == 0
  {
    var q, m := n / 64, n % 64;
    assert n == 64 * q + m;
    assert n + 9 + Zeros(n) == 64 * (q + if m <= 55 then 1 else 2);
  }

  function Padding(n: nat): (r: seq<Byte>)
    ensures (n + |r|) % 64 == 0
  {
    PaddingFills(n);
    [0x80] + ZeroBytes(Zeros(n)) + LengthBytes(8 * n, 8)
  }

  /** The number that some bytes are, the highest first. */
  function Number(b: seq<Byte>): nat {
    if b == [] then 0 else 256 * Number(b[..|b| - 1]) + b[|b| - 1] as nat
  }

  function ByteValues(n: nat): nat {
    if n == 0 then 1 else 256 * ByteValues(n - 1)
  }

  lemma {:induction false} LengthNumber(v: nat, n: nat)
    requires v < ByteValues(n)
    ensures Number(LengthBytes(v, n)) == v
  {
    if n > 0 {
      LengthNumber(v / 256, n - 1);
      var b, last := LengthBytes(v / 256, n - 1), (v % 256) as Byte;
      ByteBack(v % 256);
      assert (b + [last])[..n - 1] == b;
    }
  }

  /** The byte of a value, counted up to it. */
  lemma {:induction false} ByteOf(d: nat) returns (b: Byte)
    requires d < 256
    ensures b as nat == d
  {
    if d == 0 {
      b := 0;
    } else {
      b := ByteOf(d - 1);
      b := b + 1;
    }
  }

  lemma SameByte(b: Byte, d: nat)
    requires d < 256 && b as nat == d
    ensures d as Byte == b
  {
  }

  lemma ByteBack(d: nat)
    requires d < 256
    ensures d as Byte as nat == d
  {
    var b := ByteOf(d);
    SameByte(b, d);
  }

  lemma {:induction false} ZeroNumber(n: nat)
    ensures Number(ZeroBytes(n)) == 0
  {
    if n > 0 {
      ZeroNumber(n - 1);
      assert ZeroBytes(n)[..n - 1] == ZeroBytes(n - 1);
    }
  }

  /** Section 5.1.1: a one bit and zeros up to eight bytes before the end of a block, and
      there the length in bits; with them as few blocks as there can be. */
  lemma PaddingSays(n: nat)
    requires 8 * n < 0x1_0000_0000_0000_0000
    ensures var p := Padding(n); 9 <= |p| < 73 && p[0] == 0x80
    ensures var p := Padding(n); Number(p[1..|p| - 8]) == 0 && Number(p[|p| - 8..]) == 8 * n
  {
    hide LengthBytes, ZeroBytes;
    var p := Padding(n);
    assert p[1..|p| - 8] == ZeroBytes(Zeros(n)) && p[|p| - 8..] == LengthBytes(8 * n, 8);
    ZeroNumber(Zeros(n));
    assert ByteValues(8) == 0x1_0000_0000_0000_0000 by { EightBytes(); }
    LengthNumber(8 * n, 8);
  }

  lemma EightBytes()
    ensures ByteValues(8) == 0x1_0000_0000_0000_0000
  {
    assert ByteValues(4) == 0x1_0000_0000;
  }

  /** The bytes of a word are read back as that word. */
  lemma WordBack(w: Word)
    ensures |WordBytes(w)| == 4 && BlockWord(WordBytes(w), 0) == w
  {
  }

  /** The digest holds the five words in order, so it says what the hash value is. */
  lemma VarsBack(v: Vars)
    ensures var b := VarsBytes(v);
      |b| == 20 && v == Vars(BlockWord(b, 0), BlockWord(b, 1), BlockWord(b, 2), BlockWord(b, 3), BlockWord(b, 4))
  {
    hide WordBytes;
    var ws := [WordBytes(v.a), WordBytes(v.b), WordBytes(v.c), WordBytes(v.d), WordBytes(v.e)];
    WordBack(v.a);
    WordBack(v.b);
    WordBack(v.c);
    WordBack(v.d);
    WordBack(v.e);
    WordIn([], ws[0], ws[1] + ws[2] + ws[3] + ws[4], 0);
    WordIn(ws[0], ws[1], ws[2] + ws[3] + ws[4], 1);
    WordIn(ws[0] + ws[1], ws[2], ws[3] + ws[4], 2);
    WordIn(ws[0] + ws[1] + ws[2], ws[3], ws[4], 3);
    WordIn(ws[0] + ws[1] + ws[2] + ws[3], ws[4], [], 4);
    assert forall a, b, c: seq<Byte> :: a + b + c == a + (b + c);
    assert VarsBytes(v) == ws[0] + ws[1] + ws[2] + ws[3] + ws[4];
  }

  lemma WordIn(a: seq<Byte>, w: seq<Byte>, c: seq<Byte>, i: nat)
    requires |a| == 4 * i && |w| == 4
    ensures BlockWord(a + w + c, i) == BlockWord(w, 0)
  {
  }

  function Digest(text: seq<Byte>): Vars {
    var padded := text + Padding(|text|);
    Absorb(INIT, padded, |padded| / 64)
  }

  function WordBytes(w: Word): seq<Byte> {
    [((w >> 24) & 0xFF) as Byte, ((w >> 16) & 0xFF) as Byte, ((w >> 8) & 0xFF) as Byte, (w & 0xFF) as Byte]
  }

  function VarsBytes(v: Vars): seq<Byte> {
    WordBytes(v.a) + WordBytes(v.b) + WordBytes(v.c) + WordBytes(v.d) + WordBytes(v.e)
  }

  // ----- the context -----

  class Context {
    var h: Vars
    var bytes: nat
    const block: array<Byte>
    var used: nat
    // All bytes so far, and how many whole blocks they make.
    ghost var text: seq<Byte>
    ghost var whole: nat

    /** The whole blocks are absorbed and the rest waits in the block. */
    ghost predicate Absorbed()
      reads this, block
    {
      && block.Length == 64
      && used < 64 && |text| == 64 * whole + used
      && block[..used] == text[64 * whole..]
      && h == Absorb(INIT, text, whole)
    }

    ghost predicate Valid()
      reads this, block
    {
      Absorbed() && bytes == |text|
    }

    constructor ()
      ensures Valid() && text == [] && fresh(block)
    {
      h, bytes, used, text, whole := INIT, 0, 0, [], 0;
      block := new Byte[64];
    }

    method Transform()
      requires block.Length == 64
      modifies `h
      ensures h == Compress(old(h), block[..])
    {
      hide Round, BlockWord, Rol, Add;
      ghost var b := block[..];
      var w := new Word[80];
      for i := 0 to 16
        invariant w[..i] == Schedule(b, i)
        invariant fresh(w) && h == old(h)
      {
        w[i] := BlockWord(block[..], i);
        assert w[..i + 1] == w[..i] + [w[i]];
      }
      for i := 16 to 80
        invariant w[..i] == Schedule(b, i)
        invariant fresh(w) && h == old(h)
      {
        w[i] := Rol(w[i - 3] ^ w[i - 8] ^ w[i - 14] ^ w[i - 16], 1);
        assert w[..i + 1] == w[..i] + [w[i]];
        assert forall k :: 0 <= k < i ==> w[k] == w[..i][k];
      }
      assert w[..80] == w[..];
      var v := h;
      for t := 0 to 80
        invariant v == Rounds(old(h), w[..], t)
        invariant w[..] == Schedule(b, 80) && h == old(h)
      {
        v := Round(v, w[t], t);
      }
      h := Add(h, v);
    }

    /** Takes at most what the block has room for. */
    method Take(p: seq<Byte>)
      requires Absorbed() && used + |p| <= 64
      modifies `h, `used, `text, `whole, block
      ensures Absorbed() && text == old(text) + p
    {
      hide Absorb, Compress;
      Fill(p);
      AbsorbMore(INIT, text, p, whole);
      text := text + p;
      used := used + |p|;
      assert text[64 * whole..] == block[..used];
      if used == 64 {
        Transform();
        assert block[..64] == block[..] == text[64 * whole..64 * (whole + 1)];
        AbsorbOne(text, whole + 1);
        whole := whole + 1;
        used := 0;
      }
    }

    lemma AbsorbOne(t: seq<Byte>, n: nat)
      requires 0 < n && 64 * n <= |t|
      ensures Absorb(INIT, t, n) == Compress(Absorb(INIT, t, n - 1), t[64 * (n - 1)..64 * n])
    {
    }

    /** Takes more bytes. */
    method Update(p: seq<Byte>)
      requires Valid()
      modifies this, block
      ensures Valid() && text == old(text) + p
    {
      hide Absorb;
      var rest := p;
      bytes := bytes + |p|;
      while rest != []
        invariant Absorbed() && old(text) + p == text + rest && bytes == |old(text)| + |p|
        decreases |rest|
      {
        var n := 64 - used;
        if n > |rest| { n := |rest|; }
        assert rest == rest[..n] + rest[n..];
        Take(rest[..n]);
        rest := rest[n..];
      }
    }

    /** Copies bytes behind those in the block. */
    method Fill(p: seq<Byte>)
      requires block.Length == 64 && used + |p| <= 64
      modifies block
      ensures block[..used + |p|] == old(block[..used]) + p
    {
      for i := 0 to |p|
        invariant forall k :: 0 <= k < used ==> block[k] == old(block[k])
        invariant forall k :: 0 <= k < i ==> block[used + k] == p[k]
      {
        block[used + i] := p[i];
      }
    }

    /** Zero bytes until the length fits behind them. */
    method PadZeros(ghost t: seq<Byte>)
      requires Valid() && text == Padded(t, 0)
      modifies this, block
      ensures Valid() && text == Padded(t, Zeros(|t|)) && used == 56
    {
      hide Absorb, Absorbed, Padded, Zeros;
      ghost var z := 0;
      Blocks();
      PaddedLength(t, z);
      UsedThen(|t|, z);
      while used != 56
        invariant Valid() && text == Padded(t, z) && z <= Zeros(|t|)
        invariant used == 56 <==> z == Zeros(|t|)
        decreases Zeros(|t|) - z
      {
        PaddedNext(t, z);
        Update([0]);
        z := z + 1;
        Blocks();
        PaddedLength(t, z);
        UsedThen(|t|, z);
      }
    }

    lemma PaddedLength(t: seq<Byte>, z: nat)
      ensures |Padded(t, z)| == |t| + 1 + z && Padded(t, 0) == t + [0x80] && 0 <= Zeros(|t|)
    {
    }

    /** Pads the text and gives its digest. */
    method Final() returns (out: seq<Byte>)
      requires Valid()
      modifies this, block
      ensures out == VarsBytes(Digest(old(text)))
    {
      hide Absorb, VarsBytes, Absorbed, Padded, Padding, Digest, LengthBytes, Zeros;
      ghost var t := text;
      var bits := bytes * 8;
      PaddedLength(t, 0);
      Update([0x80]);
      PadZeros(t);
      PaddedAll(t);
      Update(LengthBytes(bits, 8));
      Blocks();
      DigestIs(t);
      out := VarsBytes(h);
    }

    /** The text fills its blocks. */
    lemma Blocks()
      requires Valid()
      ensures |text| == 64 * whole + used && used < 64 && h == Absorb(INIT, text, whole)
    {
    }

    lemma DigestIs(t: seq<Byte>)
      requires |text| == 64 * whole + used && used < 64 && h == Absorb(INIT, text, whole)
      requires text == t + Padding(|t|)
      ensures h == Digest(t)
    {
      hide Absorb, Padding;
      PaddingWhole(|t|);
      assert |text| / 64 == whole;
    }

    lemma PaddingWhole(n: nat)
      ensures (n + |Padding(n)|) % 64 == 0
    {
    }

    /** How full the block is while the zeros are written. */
    lemma UsedThen(n: nat, z: nat)
      requires |text| == 64 * whole + used && used < 64 && |text| == n + 1 + z && z <= Zeros(n)
      ensures used == 56 <==> z == Zeros(n)
    {
      PaddingFills(n);
      assert |text| + (Zeros(n) - z) == 64 * (n / 64) + if n % 64 <= 55 then 56 else 120;
    }
  }

  /** A text and the start of its padding. */
  function Padded(t: seq<Byte>, z: nat): (r: seq<Byte>)
    ensures |r| == |t| + 1 + z
  {
    t + [0x80] + ZeroBytes(z)
  }

  lemma PaddedNext(t: seq<Byte>, z: nat)
    ensures Padded(t, z) + [0] == Padded(t, z + 1)
  {
  }

  lemma PaddedAll(t: seq<Byte>)
    ensures Padded(t, Zeros(|t|)) + LengthBytes(8 * |t|, 8) == t + Padding(|t|)
  {
    hide LengthBytes, Zeros, ZeroBytes;
    Regroup(t, [0x80], ZeroBytes(Zeros(|t|)), LengthBytes(8 * |t|, 8));
  }

  lemma Regroup(a: seq<Byte>, b: seq<Byte>, c: seq<Byte>, d: seq<Byte>)
    ensures (a + b + c) + d == a + (b + c + d)
  {
  }

  /** Any way of handing over a text gives the digest of the whole text. */
  method DigestOf(pieces: seq<seq<Byte>>) returns (out: seq<Byte>)
    ensures out == VarsBytes(Digest(Concat(pieces)))
  {
    hide Absorb, VarsBytes, Digest;
    var c := new Context();
    for i := 0 to |pieces|
      invariant c.Valid() && c.text == Concat(pieces[..i]) && fresh(c) && fresh(c.block)
    {
      c.Update(pieces[i]);
      assert pieces[..i + 1][..i] == pieces[..i];
    }
    assert pieces[..|pieces|] == pieces;
    out := c.Final();
  }

  function Concat(pieces: seq<seq<Byte>>): seq<Byte> {
    if pieces == [] then [] else Concat(pieces[..|pieces| - 1]) + pieces[|pieces| - 1]
  }
}
