/** Arguments in pieces whose values are any JSON texts, with white space of their own: together they
    are one JSON object with those members. */
module JsonTight {
  import opened Common
  import opened StreamTool
  import opened Json
  import opened JsonFacts
  import JsonStable
  import opened JsonMinify
  import opened JsonArgs
  import opened JsonObject
  import opened JsonEscapes
  import opened JsonLiteral
  import Tree = JsonTree
  import opened JsonMembers

  /** A text that is one JSON value, with white space around it. */
  ghost predicate JsonText(s: string) {
    SkipValue(s).Some? && Tree.White(SkipValue(s).value.rest)
  }

  /** The value of every member that is no string is JSON. */
  ghost predicate AllJson(list: seq<JsonArg>) {
    forall i :: 0 <= i < |list| && !list[i].isString ==> JsonText(list[i].value)
  }

  /** A member as the reader keeps it: what it makes of the value alone. */
  function Kept(a: JsonArg): JsonArg
    requires a.isString || ParseValue(Ws(a.value)).Some?
  {
    if a.isString then a
    else
      var (value, isString, _) := ParseValue(Ws(a.value)).value;
      JsonArg(a.key, value, isString)
  }

  lemma JsonRead(s: string)
    requires JsonText(s)
    ensures ParseValue(Ws(s)).Some?
  {
    var w, t, e := JsonTree(s);
  }

  function AllKept(list: seq<JsonArg>): seq<JsonArg>
    requires AllJson(list)
  {
    if list == [] then []
    else
      assert !list[0].isString ==> ParseValue(Ws(list[0].value)).Some? by {
        if !list[0].isString { JsonRead(list[0].value); }
      }
      [Kept(list[0])] + AllKept(list[1..])
  }

  lemma UnitsOf(s: string) returns (us: seq<Unit>)
    ensures OkUnits(us) && Tree.Literal(us) == Quoted(s) && Decoded(us) == s
  {
    hide StringBody, UnitsText, EscapeJson, OkUnits, Decoded;
    var t := EscapeJson(s) + "\"" + "";
    EscapedBack(s, "");
    us := LiteralIs(t);
    LiteralRead(us, "");
    assert UnitsText(us) + "\"" == UnitsText(us) + ("\"" + "") && EscapeJson(s) + "\"" == t;
    assert "\"" + (EscapeJson(s) + "\"") == Quoted(s);
  }

  lemma JsonTree(s: string) returns (w: string, t: Tree.Tree, e: string)
    requires JsonText(s)
    ensures Tree.White(w) && Tree.White(e) && Tree.Ok(t) && s == w + Tree.TreeText(t) + e
    ensures ParseValue(Ws(s)) == Some((ValueOf(t), t.Text?, e)) && Minify(s) == Tree.TreeText(Tree.Packed(t))
  {
    hide SkipValue, ParseValue, Tree.TreeText, Tree.Ok, ValueOf, Squeeze, Ws;
    w := Tree.SpaceOf(s);
    t := Tree.TreeIs(s);
    e := SkipValue(s).value.rest;
    Tree.WhiteStops(e);
    ValueRead(t, e);
    ValueSqueezed(s, "");
    NoneSqueezed();
    assert Head(Ws(s), e) + "" == Head(Ws(s), e);
    assert w + (Tree.TreeText(t) + e) == w + Tree.TreeText(t) + e;
  }

  /** The value of one member as a tree, and the white space around it. */
  lemma MemberTree(a: JsonArg) returns (w: string, t: Tree.Tree, e: string)
    requires a.isString || JsonText(a.value)
    ensures Tree.White(w) && Tree.White(e) && Tree.Ok(t) && TightValue(a) == w + Tree.TreeText(t) + e
    ensures a.isString || ParseValue(Ws(a.value)).Some?
    ensures Kept(a) == JsonArg(a.key, ValueOf(t), t.Text?)
  {
    hide Quoted, OkUnits, Decoded, Tree.Literal, ParseValue, Ws;
    if a.isString {
      var us := UnitsOf(a.value);
      w, t, e := "", Tree.Text(us), "";
      assert "" + Quoted(a.value) + "" == Quoted(a.value);
    } else {
      w, t, e := JsonTree(a.value);
    }
  }

  lemma PairText(k: string, w: string, v: string, e: string, tail: string)
    ensures "" + k + "" + ":" + w + v + e + tail == k + ":" + (w + v + e) + tail
  {
  }

  /** The members as an object of the grammar. */
  lemma {:induction false} ObjectTree(list: seq<JsonArg>) returns (ps: Tree.Pairs)
    requires AllJson(list) && list != []
    ensures Tree.OkPairs(ps) && Tree.PairsText(ps) == TightPairs(list, true) + "}" && MembersOf(ps) == AllKept(list)
    decreases |list|
  {
    hide TightValue, TightPairs, Kept, JsonText, Tree.TreeText, Tree.Literal, Quoted, OkUnits, Decoded, ValueOf,
      Tree.Ok, Tree.White, ParseValue;
    var a := list[0];
    var us := UnitsOf(a.key);
    var w, t, e := MemberTree(a);
    TightFirst(list);
    NoSpaceWhite();
    if |list| == 1 {
      ps := Tree.Pair("", us, "", w, t, e, None);
      PairText(Quoted(a.key), w, Tree.TreeText(t), e, "}");
      assert AllKept(list[1..]) == [];
    } else {
      var more := ObjectTree(list[1..]);
      ps := Tree.Pair("", us, "", w, t, e, Some(more));
      PairText(Quoted(a.key), w, Tree.TreeText(t), e, "," + Tree.PairsText(more));
      TailText(TightPair(a), TightPairs(list[1..], true));
    }
  }

  lemma NoSpaceWhite()
    ensures Tree.White("") && Tree.White(" ")
  {
  }

  lemma TailText(p: string, more: string)
    ensures p + ("," + (more + "}")) == (p + ("," + more)) + "}"
  {
  }

  /** The pieces together are one JSON value, read as those members. */
  lemma TightRead(list: seq<JsonArg>)
    requires AllJson(list)
    ensures IsJson(TightObject(list)) && ParseArgs(TightObject(list)) == Some(AllKept(list))
  {
    hide *;
    if list == [] {
      NoneRead();
      NoneKept();
    } else {
      var ps := ObjectTree(list);
      ObjectIs(ps, TightPairs(list, true));
      TightIs(list);
      assert AllKept(list) == MembersOf(ps);
    }
  }

  lemma TightIs(list: seq<JsonArg>)
    ensures TightObject(list) == "{" + (TightPairs(list, true) + "}")
  {
    hide TightPairs;
  }

  lemma NoneKept()
    ensures AllKept([]) == []
  {
  }

  lemma NoneRead()
    ensures IsJson(TightObject([])) && ParseArgs(TightObject([])) == Some([])
  {
    var t := Tree.NoPairs("");
    assert TightObject([]) == "{}" && Tree.TreeText(t) == "{" + "" + "}" == "{}";
    hide Tree.TreeText, SkipValue, ParseArgs;
    Tree.TreeSkipped(t, "");
    ObjectMeans("", t, "");
    assert "" + (Tree.TreeText(t) + "") == Tree.TreeText(t) + "" == "{}";
  }

  lemma ObjectIs(ps: Tree.Pairs, inside: string)
    requires Tree.OkPairs(ps) && Tree.PairsText(ps) == inside + "}"
    ensures IsJson("{" + (inside + "}")) && ParseArgs("{" + (inside + "}")) == Some(MembersOf(ps))
  {
    hide SkipValue, ParseArgs, Tree.PairsText, MembersOf, Tree.OkPairs;
    var t := Tree.Object(ps);
    NoSpaceWhite();
    Tree.TreeSkipped(t, "");
    ObjectMeans("", t, "");
    assert "" + (Tree.TreeText(t) + "") == Tree.TreeText(t) + "" == "{" + (inside + "}");
  }

  // ----- the arguments as one text -----

  /** The value of one member as it is written in that text. */
  lemma WrittenTree(a: JsonArg) returns (t: Tree.Tree)
    requires a.isString || JsonText(a.value)
    ensures Tree.Ok(t) && ValueText(a.value, a.isString) == Tree.TreeText(t)
    ensures a.isString || ParseValue(Ws(a.value)).Some?
    ensures Kept(a) == JsonArg(a.key, ValueOf(t), t.Text?)
  {
    hide Quoted, OkUnits, Decoded, Tree.Literal, Tree.TreeText, Tree.Ok, Tree.White, ParseValue, Ws, Minify;
    var w, u, e := MemberTree(a);
    if a.isString {
      var us := UnitsOf(a.value);
      t := Tree.Text(us);
      TextTree(us);
    } else {
      w, u, e := JsonTree(a.value);
      t := Tree.Packed(u);
      Tree.PackedOk(u);
      Tree.TreeStart(t);
    }
  }

  lemma TextTree(us: seq<Unit>)
    requires OkUnits(us)
    ensures var t := Tree.Text(us); Tree.TreeText(t) == Tree.Literal(us) && Tree.Ok(t) && ValueOf(t) == Decoded(us)
  {
  }

  lemma WrittenText(space: string, k: string, v: string, tail: string)
    ensures space + k + "" + ":" + " " + v + "" + tail == space + ((k + ": " + v) + tail)
  {
  }

  lemma {:induction false} WrittenPairs(list: seq<JsonArg>, space: string) returns (ps: Tree.Pairs)
    requires AllJson(list) && list != [] && Tree.White(space)
    ensures Tree.OkPairs(ps) && Tree.PairsText(ps) == space + (Pairs(list) + "}") && MembersOf(ps) == AllKept(list)
    decreases |list|
  {
    hide ValueText, Kept, JsonText, Tree.TreeText, Tree.Literal, Quoted, OkUnits, Decoded, ValueOf, Tree.Ok, Tree.White,
      ParseValue;
    var a := list[0];
    var us := UnitsOf(a.key);
    var t := WrittenTree(a);
    NoSpaceWhite();
    if |list| == 1 {
      ps := Tree.Pair(space, us, "", " ", t, "", None);
      WrittenText(space, Quoted(a.key), Tree.TreeText(t), "}");
      assert AllKept(list[1..]) == [] && Pairs(list[1..]) == "";
      OnePair(Pair(a));
    } else {
      var more := WrittenPairs(list[1..], " ");
      ps := Tree.Pair(space, us, "", " ", t, "", Some(more));
      WrittenText(space, Quoted(a.key), Tree.TreeText(t), "," + Tree.PairsText(more));
      MorePairs(Pair(a), Pairs(list[1..]));
    }
  }

  lemma OnePair(p: string)
    ensures (p + "" + "") + "}" == p + "}"
  {
  }

  lemma MorePairs(p: string, more: string)
    ensures (p + ", " + more) + "}" == p + ("," + (" " + (more + "}")))
  {
  }

  /** That text too is one JSON value, read as those members. */
  lemma ObjectTextRead(list: seq<JsonArg>)
    requires AllJson(list)
    ensures IsJson(ObjectText(list)) && ParseArgs(ObjectText(list)) == Some(AllKept(list))
  {
    hide *;
    AddedPairs("", list);
    ObjectTextIs(list);
    if list == [] {
      NoneRead();
      NoneKept();
      NoTightPairs();
      TightIs(list);
      assert "{" + ("" + "}") == "{" + "" + "}";
    } else {
      NoSpaceWhite();
      var ps := WrittenPairs(list, "");
      assert "" + (Pairs(list) + "}") == Pairs(list) + "}" && "{" + Pairs(list) + "}" == "{" + (Pairs(list) + "}");
      ObjectIs(ps, Pairs(list));
      assert AllKept(list) == MembersOf(ps);
    }
  }

  lemma ObjectTextIs(list: seq<JsonArg>)
    ensures ObjectText(list) == "{" + AddArgs("", list) + "}"
  {
  }

  /** Compact values are kept as they are. */
  lemma StoredKept(a: JsonArg)
    requires Stored(a)
    ensures a.isString || JsonText(a.value)
    ensures a.isString || ParseValue(Ws(a.value)).Some?
    ensures Kept(a) == a
  {
    hide SkipValue, Minify, Ws;
    if !a.isString {
      var v := a.value;
      CompactBack(v, "");
      NoSpace(v[0]);
      JsonStable.WsNone(v);
      assert v + "" == v && Head(v, "") == v;
    }
  }

  lemma {:induction false} AllStoredKept(list: seq<JsonArg>)
    requires AllStored(list)
    ensures AllJson(list) && AllKept(list) == list
  {
    hide Stored, Kept, JsonText, ParseValue;
    if list != [] {
      StoredKept(list[0]);
      AllStoredKept(list[1..]);
      assert list == [list[0]] + list[1..];
    }
  }
}
