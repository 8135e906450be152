/** What the JSON reader skips is exactly the values of the JSON grammar, with white space where
    it may stand, and what it keeps of them is the same without that white space. Words are what the
    reader takes for words: the three of section 3 of RFC 8259 and the numbers of `strtod`. */
module JsonTree {
  import opened Common
  import opened StreamText
  import opened JsonNumber
  import opened Json
  import opened JsonFacts
  import opened JsonStable
  import opened JsonMinify
  import opened JsonEscapes
  import opened JsonLiteral

  // The strings before and after are white space.
  datatype Tree =
    | Bare(word: string)
    | Text(units: seq<Unit>)
    | NoItems(space: string)
    | Array(items: Items)
    | NoPairs(space: string)
    | Object(pairs: Pairs)
  datatype Items = Item(before: string, v: Tree, after: string, more: Option<Items>)
  datatype Pairs = Pair(ahead: string, key: seq<Unit>, beforeColon: string, before: string, v: Tree, after: string,
    more: Option<Pairs>)

  predicate White(w: string) {
    forall k :: 0 <= k < |w| ==> IsSpace(w[k])
  }

  function Literal(us: seq<Unit>): string {
    "\"" + (UnitsText(us) + "\"")
  }

  // ----- the text of a value -----

  function TreeText(t: Tree): string {
    match t
    case Bare(w) => w
    case Text(us) => Literal(us)
    case NoItems(w) => "[" + w + "]"
    case Array(items) => "[" + ItemsText(items)
    case NoPairs(w) => "{" + w + "}"
    case Object(ps) => "{" + PairsText(ps)
  }

  function ItemsText(items: Items): string {
    items.before + TreeText(items.v) + items.after
    + if items.more.Some? then "," + ItemsText(items.more.value) else "]"
  }

  function PairsText(ps: Pairs): string {
    ps.ahead + Literal(ps.key) + ps.beforeColon + ":" + ps.before + TreeText(ps.v) + ps.after
    + if ps.more.Some? then "," + PairsText(ps.more.value) else "}"
  }

  /** The same without white space. */
  function Packed(t: Tree): Tree {
    match t
    case Bare(_) => t
    case Text(_) => t
    case NoItems(_) => NoItems("")
    case Array(items) => Array(PackedItems(items))
    case NoPairs(_) => NoPairs("")
    case Object(ps) => Object(PackedPairs(ps))
  }

  function PackedItems(items: Items): Items {
    Item("", Packed(items.v), "", if items.more.Some? then Some(PackedItems(items.more.value)) else None)
  }

  function PackedPairs(ps: Pairs): Pairs {
    Pair("", ps.key, "", "", Packed(ps.v), "",
         if ps.more.Some? then Some(PackedPairs(ps.more.value)) else None)
  }

  ghost predicate Ok(t: Tree) {
    match t
    case Bare(w) => w != "" && Word(w) == |w|
    case Text(us) => OkUnits(us)
    case NoItems(w) => White(w)
    case Array(items) => OkItems(items)
    case NoPairs(w) => White(w)
    case Object(ps) => OkPairs(ps)
  }

  ghost predicate OkItems(items: Items) {
    White(items.before) && Ok(items.v) && White(items.after) && (items.more.Some? ==> OkItems(items.more.value))
  }

  ghost predicate OkPairs(ps: Pairs) {
    && White(ps.ahead) && OkUnits(ps.key) && White(ps.beforeColon) && White(ps.before) && Ok(ps.v) && White(ps.after)
    && (ps.more.Some? ==> OkPairs(ps.more.value))
  }

  /** Without white space a value is one too, and has none left. */
  lemma {:induction false} PackedOk(t: Tree)
    requires Ok(t)
    ensures Ok(Packed(t)) && Packed(Packed(t)) == Packed(t)
  {
    hide Word, OkUnits;
    match t
    case Array(items) => PackedItemsOk(items);
    case Object(pairs) => PackedPairsOk(pairs);
    case _ =>
  }

  lemma {:induction false} PackedItemsOk(items: Items)
    requires OkItems(items)
    ensures OkItems(PackedItems(items)) && PackedItems(PackedItems(items)) == PackedItems(items)
  {
    hide Ok, Packed;
    PackedOk(items.v);
    if items.more.Some? { PackedItemsOk(items.more.value); }
  }

  lemma {:induction false} PackedPairsOk(pairs: Pairs)
    requires OkPairs(pairs)
    ensures OkPairs(PackedPairs(pairs)) && PackedPairs(PackedPairs(pairs)) == PackedPairs(pairs)
  {
    hide Ok, Packed, OkUnits;
    PackedOk(pairs.v);
    if pairs.more.Some? { PackedPairsOk(pairs.more.value); }
  }

  // ----- every value is skipped -----

  lemma LiteralSkipped(us: seq<Unit>, rest: string)
    requires OkUnits(us)
    ensures Literal(us) + rest != "" && (Literal(us) + rest)[0] == '"'
    ensures SkipString(Literal(us) + rest) == Some(Skipped(rest, Literal(us)))
  {
    hide UnitsText, StringBody;
    LiteralRead(us, rest);
    var s := Literal(us) + rest;
    assert s[1..] == UnitsText(us) + ("\"" + rest);
    assert s[..|s| - |rest|] == Literal(us);
  }

  /** White space in front of a value, or of a member, is passed over. */
  lemma {:induction false} SpacePassed(w: string, s: string)
    requires White(w)
    ensures Ws(w + s) == Ws(s)
  {
    if w == "" {
      assert w + s == s;
    } else {
      SpacePassed(w[1..], s);
      assert (w + s)[1..] == w[1..] + s;
    }
  }

  lemma SameValue(s: string, t: string)
    requires Ws(s) == Ws(t)
    ensures SkipValue(s) == SkipValue(t) && Elements(s) == Elements(t) && Members(s) == Members(t)
  {
    hide SkipString, SkipObject, SkipArray, SkipWord;
  }

  /** A value starts with neither white space nor a closing bracket. */
  lemma TreeStart(t: Tree)
    requires Ok(t)
    ensures TreeText(t) != "" && !IsSpace(TreeText(t)[0]) && TreeText(t)[0] != ']' && TreeText(t)[0] != '}'
  {
    hide Word, UnitsText;
    if t.Bare? { BareStart(t.word); }
  }

  lemma BareStart(w: string)
    requires Word(w) > 0
    ensures w != "" && NumberChar(w[0])
  {
    hide Number;
    if StartsWith(w, "true") || StartsWith(w, "null") || StartsWith(w, "false") {
      assert |w| >= 5 ==> w[..5][0] == w[0];
      assert w[..4][0] == w[0];
    } else {
      NumberFits(w);
      NumberChars(w, 0);
    }
  }

  lemma BareSkipped(w: string, rest: string)
    requires w != "" && Word(w) == |w| && Stop(rest)
    ensures SkipValue(w + rest) == Some(Skipped(rest, w))
  {
    hide SkipString, SkipObject, SkipArray, Word;
    BareStart(w);
    assert w[..|w|] == w;
    WordAppend(w, rest);
    var s := w + rest;
    assert s[0] == w[0] && s[|w|..] == rest && s[..|w|] == w;
    ValueKind(s);
  }

  lemma EmptySkipped(open: char, w: string, close: char, rest: string)
    requires White(w) && !IsSpace(close)
    ensures var s := [open] + w + [close] + rest; s[0] == open && Ws(s[1..]) == [close] + rest
    ensures ([close] + rest)[1..] == rest
  {
    var s := [open] + w + [close] + rest;
    assert s[1..] == w + ([close] + rest);
    SpacePassed(w, [close] + rest);
    WsNone([close] + rest);
  }

  /** Every value of the grammar is skipped, whatever follows that is no part of a number. */
  lemma {:induction false} TreeSkipped(t: Tree, rest: string)
    requires Ok(t) && Stop(rest)
    ensures SkipValue(TreeText(t) + rest) == Some(Skipped(rest, TreeText(Packed(t))))
    decreases t
  {
    hide SkipString, SkipWord, Members, Elements, Word, Ws, StringBody, UnitsText, OkUnits;
    var s := TreeText(t) + rest;
    match t
    case Bare(w) => BareSkipped(w, rest);
    case Text(us) =>
      LiteralSkipped(us, rest);
      ValueKind(s);
    case NoItems(w) =>
      EmptySkipped('[', w, ']', rest);
      ValueKind(s);
      assert "[" + "" + "]" == "[]";
    case NoPairs(w) =>
      EmptySkipped('{', w, '}', rest);
      ValueKind(s);
      assert "{" + "" + "}" == "{}";
    case Array(items) =>
      ItemsSkipped(items, rest);
      ArrayRead(s, ItemsText(items), rest, ItemsText(PackedItems(items)));
    case Object(pairs) =>
      PairsSkipped(pairs, rest);
      ObjectRead(s, PairsText(pairs), rest, PairsText(PackedPairs(pairs)));
  }

  lemma ArrayRead(s: string, inside: string, rest: string, min: string)
    requires s == "[" + inside + rest && Elements(inside + rest) == Some(Skipped(rest, min))
    requires Ws(inside + rest) != "" && Ws(inside + rest)[0] != ']'
    ensures SkipValue(s) == Some(Skipped(rest, "[" + min))
  {
    hide SkipString, SkipObject, SkipWord, Elements, Ws;
    ValueKind(s);
    assert s[1..] == inside + rest;
    WsTwice(inside + rest);
    SameValue(inside + rest, Ws(inside + rest));
  }

  lemma ObjectRead(s: string, inside: string, rest: string, min: string)
    requires s == "{" + inside + rest && Members(inside + rest) == Some(Skipped(rest, min))
    requires Ws(inside + rest) != "" && Ws(inside + rest)[0] != '}'
    ensures SkipValue(s) == Some(Skipped(rest, "{" + min))
  {
    hide SkipString, SkipArray, SkipWord, Members, Ws;
    ValueKind(s);
    assert s[1..] == inside + rest;
    WsTwice(inside + rest);
    SameValue(inside + rest, Ws(inside + rest));
  }

  /** What stands behind a value in a list. */
  function After(close: string, more: Option<string>): string {
    match more case None => close case Some(x) => "," + x
  }

  lemma ItemParts(items: Items, tail: string, rest: string)
    requires tail == After("]", if items.more.Some? then Some(ItemsText(items.more.value)) else None)
    ensures ItemsText(items) + rest == items.before + (TreeText(items.v) + (items.after + (tail + rest)))
  {
    hide TreeText;
    assert ItemsText(items) == items.before + TreeText(items.v) + items.after + tail;
    Regroup(items.before, TreeText(items.v), items.after, tail, rest);
  }

  lemma Regroup(a: string, b: string, c: string, d: string, e: string)
    ensures a + b + c + d + e == a + (b + (c + (d + e)))
  {
  }

  /** White space, or a separator: no number goes on there. */
  lemma SpaceStops(w: string, tail: string)
    requires White(w) && tail != "" && tail[0] in {',', ']', '}'}
    ensures Stop(w + tail) && Ws(w + tail) == tail
  {
    SpacePassed(w, tail);
    WsNone(tail);
    if w != "" { assert (w + tail)[0] == w[0]; }
  }

  lemma {:induction false} ItemsSkipped(items: Items, rest: string)
    requires OkItems(items)
    ensures Elements(ItemsText(items) + rest) == Some(Skipped(rest, ItemsText(PackedItems(items))))
    ensures Ws(ItemsText(items) + rest) != "" && Ws(ItemsText(items) + rest)[0] != ']'
    decreases items
  {
    hide SkipValue, Ws, Stop, Elements, TreeText, Packed;
    var v, min := TreeText(items.v), TreeText(Packed(items.v));
    if items.more.Some? {
      var more := items.more.value;
      var tail := "," + ItemsText(more);
      ItemParts(items, tail, rest);
      assert tail + rest == "," + (ItemsText(more) + rest);
      OneSkipped(items, tail + rest);
      ItemsSkipped(more, rest);
      NextElement(items, ItemsText(more) + rest, min, rest, ItemsText(PackedItems(more)));
      assert ItemsText(PackedItems(items)) == "" + min + "" + ("," + ItemsText(PackedItems(more)));
      Joins(min, ItemsText(PackedItems(more)));
    } else {
      ItemParts(items, "]", rest);
      OneSkipped(items, "]" + rest);
      LastElement(items, min, rest);
      assert ItemsText(PackedItems(items)) == "" + min + "" + "]";
      Lasts(min, "]");
    }
  }

  lemma Joins(a: string, b: string)
    ensures "" + a + "" + ("," + b) == a + "," + b
  {
  }

  lemma Lasts(a: string, b: string)
    ensures "" + a + "" + b == a + b
  {
  }

  /** The value of an item, skipped, and the white space around it. */
  lemma OneSkipped(items: Items, tail: string)
    requires OkItems(items) && tail != "" && tail[0] in {',', ']', '}'}
    ensures var s := items.before + (TreeText(items.v) + (items.after + tail));
      && SkipValue(s) == Some(Skipped(items.after + tail, TreeText(Packed(items.v))))
      && Ws(items.after + tail) == tail && Ws(s) != "" && Ws(s)[0] != ']'
    decreases items, 0
  {
    hide SkipValue, Ws, Stop, Packed, TreeText;
    var x := TreeText(items.v) + (items.after + tail);
    SpaceStops(items.after, tail);
    TreeSkipped(items.v, items.after + tail);
    SpacePassed(items.before, x);
    SameValue(items.before + x, x);
    TreeStart(items.v);
    assert x[0] == TreeText(items.v)[0];
    WsNone(x);
  }

  lemma NextElement(items: Items, next: string, min: string, rest: string, more: string)
    requires var s := items.before + (TreeText(items.v) + (items.after + ("," + next)));
      SkipValue(s) == Some(Skipped(items.after + ("," + next), min))
    requires Ws(items.after + ("," + next)) == "," + next && Elements(next) == Some(Skipped(rest, more))
    ensures var s := items.before + (TreeText(items.v) + (items.after + ("," + next)));
      Elements(s) == Some(Skipped(rest, min + "," + more))
  {
    hide SkipValue, Ws, TreeText;
    assert ("," + next)[1..] == next;
  }

  lemma LastElement(items: Items, min: string, rest: string)
    requires var s := items.before + (TreeText(items.v) + (items.after + ("]" + rest)));
      SkipValue(s) == Some(Skipped(items.after + ("]" + rest), min))
    requires Ws(items.after + ("]" + rest)) == "]" + rest
    ensures var s := items.before + (TreeText(items.v) + (items.after + ("]" + rest)));
      Elements(s) == Some(Skipped(rest, min + "]"))
  {
    hide SkipValue, Ws, TreeText;
    assert ("]" + rest)[1..] == rest;
  }

  lemma {:induction false} PairsSkipped(pairs: Pairs, rest: string)
    requires OkPairs(pairs)
    ensures Members(PairsText(pairs) + rest) == Some(Skipped(rest, PairsText(PackedPairs(pairs))))
    ensures Ws(PairsText(pairs) + rest) != "" && Ws(PairsText(pairs) + rest)[0] != '}'
    decreases pairs
  {
    hide SkipValue, Ws, Stop, Members, TreeText, Packed, Literal, SkipString;
    var k, min := Literal(pairs.key), TreeText(Packed(pairs.v));
    if pairs.more.Some? {
      var more := pairs.more.value;
      var tail := "," + PairsText(more);
      assert tail + rest == "," + (PairsText(more) + rest);
      PairParts(pairs, tail, rest);
      PairSkipped(pairs, tail + rest);
      PairsSkipped(more, rest);
      NextMember(PairsText(pairs) + rest, pairs, PairsText(more) + rest, min, rest, PairsText(PackedPairs(more)));
      PackedPair(k, min, "," + PairsText(PackedPairs(more)));
      assert k + ":" + min + ("," + PairsText(PackedPairs(more))) == k + ":" + min + "," + PairsText(PackedPairs(more));
    } else {
      PairParts(pairs, "}", rest);
      PairSkipped(pairs, "}" + rest);
      LastMember(PairsText(pairs) + rest, pairs, min, rest);
      PackedPair(k, min, "}");
    }
  }

  lemma PackedPair(k: string, v: string, tail: string)
    ensures "" + k + "" + ":" + "" + v + "" + tail == k + ":" + v + tail
  {
  }

  /** The text of a member from its value on. */
  function FromValue(pairs: Pairs, tail: string): string {
    pairs.before + (TreeText(pairs.v) + (pairs.after + tail))
  }

  function FromColon(pairs: Pairs, tail: string): string {
    pairs.beforeColon + (":" + FromValue(pairs, tail))
  }

  lemma PairParts(pairs: Pairs, tail: string, rest: string)
    requires tail == After("}", if pairs.more.Some? then Some(PairsText(pairs.more.value)) else None)
    ensures PairsText(pairs) + rest == pairs.ahead + (Literal(pairs.key) + FromColon(pairs, tail + rest))
  {
    hide TreeText, Literal;
    var a, k, b := pairs.ahead, Literal(pairs.key), pairs.beforeColon;
    var c, v, d := pairs.before, TreeText(pairs.v), pairs.after;
    assert PairsText(pairs) == a + k + b + ":" + c + v + d + tail;
    Regroup(c, v, d, tail, rest);
    Regroup(a, k, b, ":", c + v + d + tail + rest);
    Associate(a + k + b + ":", c, v, d, tail, rest);
  }

  lemma Associate(h: string, c: string, v: string, d: string, tail: string, rest: string)
    ensures h + c + v + d + tail + rest == h + (c + v + d + tail + rest)
  {
  }

  /** The key and the value of a member, skipped, and the white space around them. */
  lemma PairSkipped(pairs: Pairs, tail: string)
    requires OkPairs(pairs) && tail != "" && tail[0] in {',', ']', '}'}
    ensures var k, u := Literal(pairs.key), FromColon(pairs, tail);
      && Ws(pairs.ahead + (k + u)) == k + u && k + u != "" && (k + u)[0] == '"'
      && SkipString(k + u) == Some(Skipped(u, k))
      && Ws(u) == ":" + FromValue(pairs, tail)
    ensures SkipValue(FromValue(pairs, tail)) == Some(Skipped(pairs.after + tail, TreeText(Packed(pairs.v))))
    ensures Ws(pairs.after + tail) == tail
    decreases pairs, 0
  {
    hide SkipValue, Ws, Stop, Packed, TreeText, Literal, SkipString, OkUnits;
    var k, u, x := Literal(pairs.key), FromColon(pairs, tail), TreeText(pairs.v) + (pairs.after + tail);
    LiteralSkipped(pairs.key, u);
    SpacePassed(pairs.ahead, k + u);
    WsNone(k + u);
    SpacePassed(pairs.beforeColon, ":" + FromValue(pairs, tail));
    WsNone(":" + FromValue(pairs, tail));
    SpaceStops(pairs.after, tail);
    TreeSkipped(pairs.v, pairs.after + tail);
    SpacePassed(pairs.before, x);
    SameValue(pairs.before + x, x);
  }

  lemma NextMember(s: string, pairs: Pairs, next: string, min: string, rest: string, more: string)
    requires var k, u := Literal(pairs.key), FromColon(pairs, "," + next);
      && Ws(s) == k + u && k + u != "" && (k + u)[0] == '"' && SkipString(k + u) == Some(Skipped(u, k))
      && Ws(u) == ":" + FromValue(pairs, "," + next)
    requires SkipValue(FromValue(pairs, "," + next)) == Some(Skipped(pairs.after + ("," + next), min))
    requires Ws(pairs.after + ("," + next)) == "," + next && Members(next) == Some(Skipped(rest, more))
    ensures Members(s) == Some(Skipped(rest, Literal(pairs.key) + ":" + min + "," + more))
  {
    hide SkipValue, Ws, TreeText, SkipString, Literal, FromValue, FromColon;
    assert ("," + next)[1..] == next;
    assert (":" + FromValue(pairs, "," + next))[1..] == FromValue(pairs, "," + next);
  }

  lemma LastMember(s: string, pairs: Pairs, min: string, rest: string)
    requires var k, u := Literal(pairs.key), FromColon(pairs, "}" + rest);
      && Ws(s) == k + u && k + u != "" && (k + u)[0] == '"' && SkipString(k + u) == Some(Skipped(u, k))
      && Ws(u) == ":" + FromValue(pairs, "}" + rest)
    requires SkipValue(FromValue(pairs, "}" + rest)) == Some(Skipped(pairs.after + ("}" + rest), min))
    requires Ws(pairs.after + ("}" + rest)) == "}" + rest
    ensures Members(s) == Some(Skipped(rest, Literal(pairs.key) + ":" + min + "}"))
  {
    hide SkipValue, Ws, TreeText, SkipString, Literal, FromValue, FromColon;
    assert ("}" + rest)[1..] == rest;
    assert (":" + FromValue(pairs, "}" + rest))[1..] == FromValue(pairs, "}" + rest);
  }

  // ----- and nothing else is -----

  /** Whatever is skipped is a value of the grammar. */
  lemma {:induction false} TreeIs(s0: string) returns (t: Tree)
    requires SkipValue(s0).Some?
    ensures Ok(t) && Ws(s0) == TreeText(t) + SkipValue(s0).value.rest && SkipValue(s0).value.min == TreeText(Packed(t))
    decreases |s0|, 1
  {
    hide SkipString, SkipObject, SkipArray, SkipWord, StringBody, UnitsText, OkUnits, Word;
    var s := Ws(s0);
    ShorterWs(s0);
    if s[0] == '"' {
      var us := LiteralWas(s);
      t := Text(us);
    } else if s[0] == '{' {
      t := ObjectIs(s);
    } else if s[0] == '[' {
      t := ArrayIs(s);
    } else {
      t := BareIs(s);
    }
  }

  lemma ShorterWs(s: string)
    ensures |Ws(s)| <= |s|
  {
  }

  lemma BareIs(s: string) returns (t: Tree)
    requires SkipWord(s).Some?
    ensures Ok(t) && s == TreeText(t) + SkipWord(s).value.rest && SkipWord(s).value.min == TreeText(Packed(t))
  {
    hide Word;
    var n := Word(s);
    WordAppend(s, "");
    assert s[..n] + "" == s[..n] && s == s[..n] + s[n..];
    t := Bare(s[..n]);
  }

  lemma LiteralWas(s: string) returns (us: seq<Unit>)
    requires s != "" && s[0] == '"' && SkipString(s).Some?
    ensures OkUnits(us) && s == Literal(us) + SkipString(s).value.rest && SkipString(s).value.min == Literal(us)
  {
    hide StringBody, UnitsText, OkUnits;
    us := LiteralIs(s[1..]);
    var rest := SkipString(s).value.rest;
    assert s == "\"" + s[1..] && s == Literal(us) + rest;
    assert s[..|s| - |rest|] == Literal(us);
  }

  lemma {:induction false} ArrayIs(s: string) returns (t: Tree)
    requires s != "" && s[0] == '[' && SkipArray(s).Some?
    ensures Ok(t) && s == TreeText(t) + SkipArray(s).value.rest && SkipArray(s).value.min == TreeText(Packed(t))
    decreases |s|, 0
  {
    hide Elements, Ws;
    var w := SpaceOf(s[1..]);
    var u := Ws(s[1..]);
    if u != "" && u[0] == ']' {
      t := NoItems(w);
      assert s == "[" + w + "]" + u[1..] by { Opened(s, "[", w, u); }
      assert "[" + "" + "]" == "[]";
    } else {
      var items := ItemsAre(u);
      var items' := items.(before := w + items.before);
      WhiteJoin(w, items.before);
      t := Array(items');
      AssociateItems(items, w);
      Opened(s, "[", w, u);
      var rest := Elements(u).value.rest;
      assert "[" + (w + (ItemsText(items) + rest)) == "[" + (w + ItemsText(items)) + rest;
    }
  }

  lemma SpaceOf(s: string) returns (w: string)
    ensures White(w) && s == w + Ws(s)
  {
    w := WsSuffix(s);
  }

  lemma Opened(s: string, open: string, w: string, u: string)
    requires s != "" && open == [s[0]] && s[1..] == w + u
    ensures s == open + (w + u) && (u != "" ==> s == open + w + [u[0]] + u[1..])
  {
  }

  lemma WhiteJoin(a: string, b: string)
    requires White(a) && White(b)
    ensures White(a + b)
  {
  }

  lemma AssociateItems(items: Items, w: string)
    ensures ItemsText(items.(before := w + items.before)) == w + ItemsText(items)
    ensures PackedItems(items.(before := w + items.before)) == PackedItems(items)
    ensures White(w + items.before) && OkItems(items) ==> OkItems(items.(before := w + items.before))
  {
    hide TreeText, Packed, Ok;
    var x := if items.more.Some? then "," + ItemsText(items.more.value) else "]";
    assert w + items.before + TreeText(items.v) + items.after + x ==
      w + (items.before + TreeText(items.v) + items.after + x);
  }

  lemma {:induction false} ItemsAre(s: string) returns (items: Items)
    requires Elements(s).Some?
    ensures OkItems(items) && s == ItemsText(items) + Elements(s).value.rest
    ensures Elements(s).value.min == ItemsText(PackedItems(items))
    decreases |s|, 2
  {
    hide SkipValue, Ws, TreeText, Packed, Ok;
    var before := SpaceOf(s);
    var v := TreeIs(s);
    var read := SkipValue(s).value;
    var after := SpaceOf(read.rest);
    var u := Ws(read.rest);
    ShorterRest(s);
    var tail: string;
    if u[0] == ']' {
      items := Item(before, v, after, None);
      tail := "]";
      Lasts(read.min, "]");
    } else {
      var more := ItemsAre(u[1..]);
      items := Item(before, v, after, Some(more));
      tail := "," + ItemsText(more);
      Joins(read.min, ItemsText(PackedItems(more)));
      assert u == "," + (ItemsText(more) + Elements(u[1..]).value.rest) == tail + Elements(u[1..]).value.rest;
    }
    assert u == tail + Elements(s).value.rest;
    ItemParts(items, tail, Elements(s).value.rest);
  }

  lemma ShorterRest(s: string)
    requires SkipValue(s).Some?
    ensures |Ws(SkipValue(s).value.rest)| <= |SkipValue(s).value.rest| < |Ws(s)| <= |s|
  {
    hide SkipString, SkipObject, SkipArray, SkipWord;
    ShorterWs(s);
    ShorterWs(SkipValue(s).value.rest);
  }

  lemma {:induction false} ObjectIs(s: string) returns (t: Tree)
    requires s != "" && s[0] == '{' && SkipObject(s).Some?
    ensures Ok(t) && s == TreeText(t) + SkipObject(s).value.rest && SkipObject(s).value.min == TreeText(Packed(t))
    decreases |s|, 0
  {
    hide Members, Ws;
    var w := SpaceOf(s[1..]);
    var u := Ws(s[1..]);
    if u != "" && u[0] == '}' {
      t := NoPairs(w);
      assert s == "{" + w + "}" + u[1..] by { Opened(s, "{", w, u); }
      assert "{" + "" + "}" == "{}";
    } else {
      var pairs := PairsAre(u);
      var pairs' := pairs.(ahead := w + pairs.ahead);
      WhiteJoin(w, pairs.ahead);
      t := Object(pairs');
      AssociatePairs(pairs, w);
      Opened(s, "{", w, u);
      var rest := Members(u).value.rest;
      assert "{" + (w + (PairsText(pairs) + rest)) == "{" + (w + PairsText(pairs)) + rest;
    }
  }

  lemma AssociatePairs(pairs: Pairs, w: string)
    ensures PairsText(pairs.(ahead := w + pairs.ahead)) == w + PairsText(pairs)
    ensures PackedPairs(pairs.(ahead := w + pairs.ahead)) == PackedPairs(pairs)
    ensures White(w + pairs.ahead) && OkPairs(pairs) ==> OkPairs(pairs.(ahead := w + pairs.ahead))
  {
    hide TreeText, Packed, Ok, Literal, OkUnits;
    var tail := if pairs.more.Some? then "," + PairsText(pairs.more.value) else "}";
    PairParts(pairs, tail, "");
    PairParts(pairs.(ahead := w + pairs.ahead), tail, "");
    NothingAdded(PairsText(pairs), PairsText(pairs.(ahead := w + pairs.ahead)));
    assert (w + pairs.ahead) + (Literal(pairs.key) + FromColon(pairs, tail + ""))
      == w + (pairs.ahead + (Literal(pairs.key) + FromColon(pairs, tail + "")));
  }

  lemma NothingAdded(a: string, b: string)
    ensures a + "" == a && b + "" == b
  {
  }

  lemma {:induction false} PairsAre(s: string) returns (pairs: Pairs)
    requires Members(s).Some?
    ensures OkPairs(pairs) && s == PairsText(pairs) + Members(s).value.rest
    ensures Members(s).value.min == PairsText(PackedPairs(pairs))
    decreases |s|, 2
  {
    hide SkipValue, Ws, TreeText, Packed, Ok, Literal, SkipString, OkUnits;
    var ahead := SpaceOf(s);
    var k := LiteralWas(Ws(s));
    var key := SkipString(Ws(s)).value;
    var beforeColon := SpaceOf(key.rest);
    var x := Ws(key.rest)[1..];
    ShorterWs(s);
    ShorterWs(key.rest);
    var before := SpaceOf(x);
    var v := TreeIs(x);
    var read := SkipValue(x).value;
    var after := SpaceOf(read.rest);
    var u := Ws(read.rest);
    ShorterRest(x);
    var tail: string;
    if u[0] == '}' {
      pairs := Pair(ahead, k, beforeColon, before, v, after, None);
      tail := "}";
      PackedPair(Literal(k), read.min, "}");
    } else {
      var more := PairsAre(u[1..]);
      pairs := Pair(ahead, k, beforeColon, before, v, after, Some(more));
      tail := "," + PairsText(more);
      PackedPair(Literal(k), read.min, "," + PairsText(PackedPairs(more)));
      assert u == "," + (PairsText(more) + Members(u[1..]).value.rest) == tail + Members(u[1..]).value.rest;
    }
    assert u == tail + Members(s).value.rest;
    PairParts(pairs, tail, Members(s).value.rest);
  }

  /** A text, with white space around it, is skipped as one value exactly when it is one, and
      what is kept of it is the same value without white space. */
  lemma SkippedExactly(s: string, min: string)
    ensures
      (SkipValue(s).Some? && White(SkipValue(s).value.rest) && SkipValue(s).value.min == min) <==>
      exists w, t, e :: White(w) && Ok(t) && White(e) && s == w + (TreeText(t) + e) && min == TreeText(Packed(t))
  {
    hide *;
    if SkipValue(s).Some? && White(SkipValue(s).value.rest) && SkipValue(s).value.min == min {
      var w := SpaceOf(s);
      var t := TreeIs(s);
    }
    if exists w, t, e :: White(w) && Ok(t) && White(e) && s == w + (TreeText(t) + e) && min == TreeText(Packed(t)) {
      var w, t, e :| White(w) && Ok(t) && White(e) && s == w + (TreeText(t) + e) && min == TreeText(Packed(t));
      WhiteStops(e);
      TreeSkipped(t, e);
      SpacePassed(w, TreeText(t) + e);
      SameValue(s, TreeText(t) + e);
    }
  }

  lemma WhiteStops(e: string)
    requires White(e)
    ensures Stop(e)
  {
  }

  // ----- the words of RFC 8259 -----

  predicate AllDigits(s: string) {
    s != "" && forall k :: 0 <= k < |s| ==> Digit(s[k])
  }

  /** A fraction, an exponent, or none. */
  predicate Fraction(f: string) {
    f == "" || (f[0] == '.' && AllDigits(f[1..]))
  }

  predicate Exponential(e: string) {
    e == "" || ((e[0] == 'e' || e[0] == 'E') && AllDigits(e[1 + SignAt(e, 1)..]))
  }

  lemma {:induction false} DigitsRead(d: string, y: string)
    requires (forall k :: 0 <= k < |d| ==> Digit(d[k])) && (y == "" || !Digit(y[0]))
    ensures Digits(d + y, Dec) == |d|
  {
    if d == "" {
      assert d + y == y;
    } else {
      DigitsRead(d[1..], y);
      assert (d + y)[1..] == d[1..] + y;
    }
  }

  lemma MantissaRead(d: string, f: string, e: string)
    requires AllDigits(d) && Fraction(f) && Exponential(e)
    ensures Mantissa(d + (f + e), Dec) == |d| + |f| && (d + (f + e))[|d| + |f|..] == e
  {
    hide Digits;
    var s := d + (f + e);
    DigitsRead(d, f + e);
    if f != "" {
      assert s[|d| + 1..] == f[1..] + e;
      DigitsRead(f[1..], e);
    }
  }

  lemma ExponentRead(e: string)
    requires Exponential(e)
    ensures Exponent(e, Dec) == |e|
  {
    hide Digits;
    if e != "" {
      var d := e[1 + SignAt(e, 1)..];
      DigitsRead(d, "");
      assert d + "" == d;
    }
  }

  /** Every number of section 6 is a word of its whole length. */
  lemma NumberIsWord(minus: bool, d: string, f: string, e: string)
    requires AllDigits(d) && Fraction(f) && Exponential(e)
    ensures var s := (if minus then "-" else "") + (d + (f + e)); Word(s) == |s| > 0 && Ok(Bare(s))
  {
    hide Digits, Mantissa, Exponent, Fraction, Exponential;
    var u := d + (f + e);
    var s := (if minus then "-" else "") + u;
    MantissaRead(d, f, e);
    ExponentRead(e);
    NoHexStart(d, f, e);
    assert u[0] == d[0];
    assert Unsigned(u) == |u|;
    assert s[SignAt(s, 0)..] == u;
    FirstLetter(s);
  }

  lemma NoHexStart(d: string, f: string, e: string)
    requires AllDigits(d) && Fraction(f) && Exponential(e)
    ensures !HexStart(d + (f + e))
  {
    var s := d + (f + e);
    if |s| > 1 {
      assert |d| > 1 ==> s[1] == d[1];
      assert |d| == 1 ==> s[1] == (f + e)[0];
    }
  }

  lemma WordsAreWords()
    ensures Ok(Bare("true")) && Ok(Bare("false")) && Ok(Bare("null"))
  {
    hide Number;
    assert "true"[..4] == "true" && "null"[..4] == "null" && "false"[..5] == "false";
    assert "false"[..4][0] == 'f';
  }
}
