/** Searching, holding back and escaping in a text that is still growing. A string
    stands for bytes, one character for each. */
module StreamText {
  /** `lit` stands in full at `i`. */
  predicate MatchAt(s: string, i: nat, lit: string) {
    i + |lit| <= |s| && s[i..i + |lit|] == lit
  }

  /** The text ends, from `i` on, in a proper prefix of `lit`. */
  predicate PartialAt(s: string, i: nat, lit: string) {
    i <= |s| && |s| - i < |lit| && s[i..] == lit[..|s| - i]
  }

  /** The first place of `lit` at or after `from`, or -1. */
  function Find(s: string, from: nat, lit: string): (r: int)
    requires lit != ""
    ensures r >= 0 ==> from <= r && MatchAt(s, r, lit) && forall k :: from <= k < r ==> !MatchAt(s, k, lit)
    ensures r < 0 ==> r == -1 && forall k :: from <= k ==> !MatchAt(s, k, lit)
    decreases |s| - from
  {
    if from >= |s| then -1
    else if MatchAt(s, from, lit) then from
    else Find(s, from + 1, lit)
  }

  lemma MatchInPrefix(w: string, n: nat, i: nat, lit: string)
    requires n <= |w|
    ensures MatchAt(w[..n], i, lit) <==> MatchAt(w, i, lit) && i + |lit| <= n
  {
    if i + |lit| <= n { assert w[..n][i..i + |lit|] == w[i..i + |lit|]; }
  }

  lemma PartialInPrefix(w: string, n: nat, i: nat, lit: string)
    requires i <= n <= |w| && (MatchAt(w, i, lit) || PartialAt(w, i, lit))
    ensures MatchAt(w[..n], i, lit) || PartialAt(w[..n], i, lit)
  {
    MatchInPrefix(w, n, i, lit);
    if n < i + |lit| {
      assert w[..n][i..] == w[i..n];
      if MatchAt(w, i, lit) { assert w[i..i + |lit|][..n - i] == w[i..n]; } else { assert w[i..][..n - i] == w[i..n]; }
    }
  }

  /** What is found in a prefix is found in the whole; what only the whole has
      reaches past the prefix. */
  lemma FindInPrefix(w: string, n: nat, from: nat, lit: string)
    requires n <= |w| && lit != ""
    ensures Find(w[..n], from, lit) >= 0 ==> Find(w, from, lit) == Find(w[..n], from, lit)
    ensures Find(w[..n], from, lit) < 0 && Find(w, from, lit) >= 0 ==> Find(w, from, lit) + |lit| > n
  {
    var p, q := Find(w[..n], from, lit), Find(w, from, lit);
    if p >= 0 {
      MatchInPrefix(w, n, p, lit);
      if 0 <= q < p { MatchInPrefix(w, n, q, lit); }
    } else if q >= 0 {
      MatchInPrefix(w, n, q, lit);
    }
  }

  lemma FindLater(s: string, from: nat, from': nat, lit: string)
    requires lit != "" && from <= from' && (Find(s, from, lit) >= from' || Find(s, from, lit) < 0)
    ensures Find(s, from', lit) == Find(s, from, lit)
  {
  }

  // ----- white space -----

  predicate IsSpace(c: char) {
    c == ' ' || (9 as char <= c <= 13 as char)
  }

  /** `limit` moved back over white space, not before `start`. */
  function Trim(s: string, start: nat, limit: nat): (r: nat)
    requires start <= limit <= |s|
    ensures start <= r <= limit
    ensures forall k :: r <= k < limit ==> IsSpace(s[k])
    ensures r > start ==> !IsSpace(s[r - 1])
  {
    if limit > start && IsSpace(s[limit - 1]) then Trim(s, start, limit - 1) else limit
  }

  lemma {:induction false} TrimSame(w: string, n: nat, start: nat, limit: nat)
    requires start <= limit <= n <= |w|
    ensures Trim(w[..n], start, limit) == Trim(w, start, limit)
  {
    if limit > start { TrimSame(w, n, start, limit - 1); }
  }

  lemma TrimBounds(s: string, start: nat, limit: nat)
    requires start <= limit <= |s|
    ensures start <= Trim(s, start, limit) <= limit
  {
  }

  /** `pos` moved forward over white space. */
  function SkipSpace(s: string, pos: nat): (r: nat)
    requires pos <= |s|
    ensures pos <= r <= |s|
    ensures forall k :: pos <= k < r ==> IsSpace(s[k])
    ensures r < |s| ==> !IsSpace(s[r])
    decreases |s| - pos
  {
    if pos < |s| && IsSpace(s[pos]) then SkipSpace(s, pos + 1) else pos
  }

  // ----- UTF-8 -----

  predicate Cont(c: char) { 0x80 <= c as int < 0xC0 }

  /** How many bytes a character takes that starts with `c`. */
  function Need(c: char): (r: nat)
    ensures 1 <= r <= 4
    ensures Cont(c) ==> r == 1
  {
    var b := c as int;
    if b < 0x80 then 1
    else if 0xC2 <= b <= 0xDF then 2
    else if 0xE0 <= b <= 0xEF then 3
    else if 0xF0 <= b <= 0xF4 then 4
    else 1
  }

  predicate Boundary(w: string, i: nat) {
    i <= |w| && (i < |w| ==> !Cont(w[i]))
  }

  /** A whole character starts at `i`. */
  ghost predicate CharAt(w: string, i: nat) {
    && i < |w| && !Cont(w[i])
    && i + Need(w[i]) <= |w|
    && (forall k :: i < k < i + Need(w[i]) ==> Cont(w[k]))
    && Boundary(w, i + Need(w[i]))
  }

  /** A text of whole characters. */
  ghost predicate Utf8(w: string) {
    Boundary(w, 0) && forall i {:trigger CharAt(w, i)} :: 0 <= i < |w| && !Cont(w[i]) ==> CharAt(w, i)
  }

  /** The start byte of the character that byte `i` belongs to. */
  lemma {:induction false} StartOf(w: string, i: nat) returns (p: nat)
    requires Utf8(w) && i < |w|
    ensures p <= i < p + Need(w[p]) && CharAt(w, p)
    ensures forall k :: p < k <= i ==> Cont(w[k])
  {
    if !Cont(w[i]) {
      p := i;
    } else {
      p := StartOf(w, i - 1);
    }
    assert CharAt(w, p);
  }

  /** The number of continuation bytes just before `limit`, at most four and none
      before `start`. */
  function ContRun(s: string, start: nat, limit: nat, most: nat): (r: nat)
    requires start <= limit <= |s|
    ensures r <= most && start + r <= limit
    ensures forall k :: limit - r <= k < limit ==> Cont(s[k])
    ensures r < most && limit - r > start ==> !Cont(s[limit - r - 1])
    decreases most
  {
    if most > 0 && limit > start && Cont(s[limit - 1]) then 1 + ContRun(s, start, limit - 1, most - 1) else 0
  }

  /** `limit`, or the start of an unfinished character just before it. */
  function Utf8Safe(s: string, start: nat, limit: nat): (r: nat)
    requires limit <= |s|
    ensures start <= limit ==> start <= r <= limit
    ensures limit < start ==> r == limit
    ensures r < limit && r > start ==> s[r] as int >= 0x80
  {
    if limit <= start then limit
    else
      var p := limit - ContRun(s, start, limit, 4);
      if p == limit then (if Need(s[limit - 1]) > 1 then limit - 1 else limit)
      else if p == start && Cont(s[p]) then start
      else if limit - (p - 1) < Need(s[p - 1]) then p - 1
      else limit
  }

  /** Cut at the safe length, a text of whole characters leaves whole characters;
      at the end of a character nothing is held back. */
  lemma Utf8SafeBoundary(w: string, n: nat, start: nat, limit: nat)
    requires Utf8(w) && start <= limit <= n <= |w| && Boundary(w, start)
    ensures Boundary(w, Utf8Safe(w[..n], start, limit))
    ensures Boundary(w, limit) ==> Utf8Safe(w[..n], start, limit) == limit
  {
    if start < limit {
      var p := StartOf(w, limit - 1);
      var s := w[..n];
      var r := ContRun(s, start, limit, 4);
      assert p >= start && forall k :: p <= k < limit ==> s[k] == w[k];
      assert limit - r - 1 == p;
      assert s[p] == w[p] && s[limit - 1] == w[limit - 1];
    }
  }

  /** A stretch between two boundaries is itself a text of whole characters. */
  lemma Utf8Slice(w: string, i: nat, j: nat)
    requires Utf8(w) && i <= j && Boundary(w, i) && Boundary(w, j)
    ensures Utf8(w[i..j])
  {
    var s := w[i..j];
    assert i < j ==> s[0] == w[i];
    forall k | 0 <= k < |s| && !Cont(s[k])
      ensures CharAt(s, k)
    {
      assert s[k] == w[i + k] && CharAt(w, i + k);
      assert i + k + Need(w[i + k]) <= j;
      forall m | k < m < k + Need(s[k])
        ensures Cont(s[m])
      {
        assert Cont(w[i + m]) && s[m] == w[i + m];
      }
      if k + Need(s[k]) < |s| { assert s[k + Need(s[k])] == w[i + k + Need(s[k])]; }
    }
  }

  // ----- holding back what may be the start of a literal -----

  /** The last place of `c` in `s[lo..hi]`, or -1. */
  function LastOf(s: string, c: char, lo: nat, hi: nat): (r: int)
    requires lo <= hi <= |s|
    ensures r >= 0 ==> lo <= r < hi && s[r] == c
    ensures forall k :: lo <= k < hi && k > r ==> s[k] != c
    ensures r < 0 ==> r == -1
  {
    if lo == hi then -1 else if s[hi - 1] == c then hi - 1 else LastOf(s, c, lo, hi - 1)
  }

  /** Some literal may have begun at `i` and be cut off at `limit`. */
  predicate Cut(s: string, i: nat, limit: nat, lits: set<string>) {
    i < limit <= |s| && exists lit :: lit in lits && PartialAt(s[..limit], i, lit)
  }

  /** Literals that start with `c`, have it nowhere else and fit the window. */
  ghost predicate Tagged(c: char, lits: set<string>, window: nat) {
    forall lit :: lit in lits ==>
      0 < |lit| <= window && lit[0] == c && forall k :: 0 < k < |lit| ==> lit[k] != c
  }

  /** `limit`, moved back to a literal that may be cut off there: only the last
      `c` of the window is looked at. */
  function Hold(s: string, start: nat, limit: nat, c: char, lits: set<string>, window: nat): (r: nat)
    requires start <= limit <= |s|
    ensures start <= r <= limit
    ensures r < limit ==> s[r] == c && Cut(s, r, limit, lits)
  {
    var scan := if limit > start + window then limit - window else start;
    var i := LastOf(s, c, scan, limit);
    if i >= 0 && Cut(s, i, limit, lits) then i else limit
  }

  /** Looking at the last `c` is enough: any literal cut off is found. */
  lemma HoldFinds(s: string, start: nat, limit: nat, c: char, lits: set<string>, window: nat, i: nat)
    requires start <= i < limit <= |s| && Tagged(c, lits, window) && Cut(s, i, limit, lits)
    ensures Hold(s, start, limit, c, lits, window) == i
  {
    var lit :| lit in lits && PartialAt(s[..limit], i, lit);
    assert s[..limit][i..] == s[i..limit];
    assert forall k :: i <= k < limit ==> s[k] == s[i..limit][k - i] == lit[k - i];
  }

  lemma HoldLater(s: string, start: nat, later: nat, limit: nat, c: char, lits: set<string>, window: nat)
    requires start <= later <= limit <= |s| && Tagged(c, lits, window)
    requires Hold(s, start, limit, c, lits, window) >= later
    ensures Hold(s, later, limit, c, lits, window) == Hold(s, start, limit, c, lits, window)
  {
    var r, r' := Hold(s, start, limit, c, lits, window), Hold(s, later, limit, c, lits, window);
    if r < limit { HoldFinds(s, later, limit, c, lits, window, r); }
    if r' < limit { HoldFinds(s, start, limit, c, lits, window, r'); }
  }

  // ----- entities -----

  const ENTITIES: set<string> := {"&amp;", "&lt;", "&gt;", "&quot;", "&apos;"}
  const MAX_ENTITY: nat := 6

  /** The length and the meaning of what stands first in a text. */
  function Token(s: string): (r: (nat, char))
    requires s != ""
    ensures 1 <= r.0 <= |s|
    ensures r.0 > 1 ==> exists ent :: ent in ENTITIES && MatchAt(s, 0, ent) && |ent| == r.0
    ensures r.0 == 1 ==> forall ent :: ent in ENTITIES ==> !MatchAt(s, 0, ent)
  {
    if MatchAt(s, 0, "&amp;") then (5, '&')
    else if MatchAt(s, 0, "&lt;") then (4, '<')
    else if MatchAt(s, 0, "&gt;") then (4, '>')
    else if MatchAt(s, 0, "&quot;") then (6, '"')
    else if MatchAt(s, 0, "&apos;") then (6, '\'')
    else (1, s[0])
  }

  function Unescape(s: string): string {
    if s == "" then "" else [Token(s).1] + Unescape(s[Token(s).0..])
  }

  /** The character that an entity names. */
  function Meaning(ent: string): char
    requires ent in ENTITIES
  {
    if ent == "&amp;" then '&'
    else if ent == "&lt;" then '<'
    else if ent == "&gt;" then '>'
    else if ent == "&quot;" then '"'
    else '\''
  }

  lemma EntityAlone(s: string, a: string, b: string)
    requires a in ENTITIES && b in ENTITIES && a <= s && b <= s
    ensures a == b
  {
    assert |s| >= 3 && a[1] == s[1] == b[1] && a[2] == s[2] == b[2];
  }

  lemma TokenMeans(s: string)
    requires s != "" && Token(s).0 > 1
    ensures var t := Token(s); s[..t.0] in ENTITIES && t.1 == Meaning(s[..t.0])
  {
  }

  /** Each of the five entities is the character it names, and what begins with none of
      them keeps its first character. */
  lemma EntityMeans(ent: string, rest: string)
    requires ent in ENTITIES
    ensures Unescape(ent + rest) == [Meaning(ent)] + Unescape(rest)
  {
    hide Meaning, Token, ENTITIES;
    var s := ent + rest;
    assert s[0..0 + |ent|] == ent && s[|ent|..] == rest;
    assert MatchAt(s, 0, ent);
    assert ent != "" by { EntitySize(ent); }
    assert Token(s).0 > 1;
    TokenMeans(s);
    EntityAlone(s, ent, s[..Token(s).0]);
  }

  lemma EntitySize(ent: string)
    requires ent in ENTITIES
    ensures |ent| > 1
  {
  }

  lemma PlainMeans(s: string)
    requires s != "" && forall ent :: ent in ENTITIES ==> !(ent <= s)
    ensures Unescape(s) == [s[0]] + Unescape(s[1..])
  {
    hide ENTITIES;
    PlainToken(s);
    assert Token(s).0 == 1;
  }

  lemma PlainToken(s: string)
    requires s != "" && Token(s).0 == 1
    ensures Token(s).1 == s[0]
  {
    hide ENTITIES;
  }

  /** No entity stands across `l`. */
  ghost predicate Clear(s: string, l: nat) {
    forall i, ent :: 0 <= i < l && ent in ENTITIES && MatchAt(s, i, ent) ==> i + |ent| <= l
  }

  lemma TokenCut(s: string, l: nat)
    requires 0 < l <= |s| && Clear(s, l)
    ensures Token(s).0 <= l && Token(s[..l]) == Token(s)
  {
    forall ent | ent in ENTITIES
      ensures MatchAt(s[..l], 0, ent) <==> MatchAt(s, 0, ent)
    {
      MatchInPrefix(s, l, 0, ent);
    }
    assert {"&amp;", "&lt;", "&gt;", "&quot;", "&apos;"} == ENTITIES;
    assert s[..l][0] == s[0];
  }

  lemma ClearRest(s: string, l: nat, k: nat)
    requires k <= l <= |s| && Clear(s, l)
    ensures Clear(s[k..], l - k)
  {
    forall i, ent | 0 <= i < l - k && ent in ENTITIES && MatchAt(s[k..], i, ent)
      ensures i + |ent| <= l - k
    {
      assert s[k..][i..i + |ent|] == s[k + i..k + i + |ent|];
      assert MatchAt(s, k + i, ent);
    }
  }

  /** Cut where no entity stands, a text is unescaped piece by piece. */
  lemma {:induction false} UnescapeSplit(s: string, l: nat)
    requires l <= |s| && Clear(s, l)
    ensures Unescape(s) == Unescape(s[..l]) + Unescape(s[l..])
  {
    if l > 0 {
      TokenCut(s, l);
      var k := Token(s).0;
      ClearRest(s, l, k);
      UnescapeSplit(s[k..], l - k);
      SliceRest(s, k, l);
      calc {
        Unescape(s);
        [Token(s).1] + Unescape(s[k..]);
        [Token(s).1] + (Unescape(s[..l][k..]) + Unescape(s[l..]));
        ([Token(s).1] + Unescape(s[..l][k..])) + Unescape(s[l..]);
        Unescape(s[..l]) + Unescape(s[l..]);
      }
    } else {
      assert s[0..] == s;
    }
  }

  lemma SliceRest(s: string, k: nat, l: nat)
    requires k <= l <= |s|
    ensures s[k..][..l - k] == s[..l][k..] && s[k..][l - k..] == s[l..]
  {
  }
}
