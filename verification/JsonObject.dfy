/** The two ways in which a call's arguments are sent: as one text at the end, and in pieces without
    white space. Both are JSON objects with the same members. */
module JsonObject {
  import opened Common
  import opened StreamText
  import opened StreamTool
  import opened JsonNumber
  import opened Json
  import opened JsonFacts
  import opened JsonStable
  import opened JsonMinify
  import opened JsonArgs

  /** A text that is one JSON value and nothing else. */
  predicate IsJson(s: string) {
    SkipValue(s).Some? && SkipValue(s).value.rest == ""
  }

  // ----- without white space -----

  function TightValue(a: JsonArg): string {
    if a.isString then Quoted(a.value) else a.value
  }

  function TightPair(a: JsonArg): string {
    Quoted(a.key) + ":" + TightValue(a)
  }

  /** The members, each after a comma unless it is the first. */
  function TightPairs(list: seq<JsonArg>, first: bool): string {
    if list == [] then "" else (if first then "" else ",") + TightPair(list[0]) + TightPairs(list[1..], false)
  }

  function TightObject(list: seq<JsonArg>): string {
    "{" + TightPairs(list, true) + "}"
  }

  ghost predicate AllStored(list: seq<JsonArg>) {
    forall i :: 0 <= i < |list| ==> Stored(list[i])
  }

  // ----- one member -----

  lemma QuotedSkipped(s: string, rest: string)
    ensures Quoted(s) + rest != "" && (Quoted(s) + rest)[0] == '"'
    ensures SkipString(Quoted(s) + rest) == Some(Skipped(rest, Quoted(s)))
  {
    EscapedBack(s, rest);
    var all := Quoted(s) + rest;
    assert all[1..] == EscapeJson(s) + "\"" + rest;
    assert all[..|all| - |rest|] == Quoted(s);
  }

  lemma StoredSkipped(a: JsonArg, tail: string)
    requires Stored(a) && Stop(tail)
    ensures TightValue(a) != "" && !IsSpace(TightValue(a)[0])
    ensures ValueText(a.value, a.isString) == TightValue(a)
    ensures SkipValue(TightValue(a) + tail) == Some(Skipped(tail, TightValue(a)))
  {
    hide SkipString, Quoted, Minify, SkipObject, SkipArray, SkipWord;
    if a.isString {
      QuotedSkipped(a.value, tail);
      QuotedNonEmpty(a.value);
      WsNone(Quoted(a.value) + tail);
    } else {
      hide SkipValue;
      CompactBack(a.value, tail);
      NoSpace(a.value[0]);
    }
  }

  lemma SpacedValue(x: string)
    ensures SkipValue(" " + x) == SkipValue(x) && Members(" " + x) == Members(x)
  {
    hide SkipString, SkipObject, SkipArray, SkipWord, SkipValue;
    assert (" " + x)[1..] == x;
    assert Ws(" " + x) == Ws(x);
    WsTwice(" " + x);
    WsTwice(x);
  }

  /** One member as it is written with white space, skipped. */
  lemma SpacedMember(key: string, v: string, tail: string)
    requires key != "" && key[0] == '"' && tail != "" && (tail[0] == '}' || tail[0] == ',')
    requires SkipString(key + (": " + (v + tail))) == Some(Skipped(": " + (v + tail), key))
    requires SkipValue(v + tail) == Some(Skipped(tail, v))
    ensures Members(key + (": " + (v + tail))) ==
            if tail[0] == '}' then Some(Skipped(tail[1..], key + ":" + v + "}"))
            else Prefix(key + ":" + v + ",", Members(tail[1..]))
  {
    hide SkipValue, SkipString;
    var all := key + (": " + (v + tail));
    assert all[0] == '"';
    WsNone(all);
    WsNone(": " + (v + tail));
    assert (": " + (v + tail))[1..] == " " + (v + tail);
    SpacedValue(v + tail);
    WsNone(tail);
  }

  lemma PairSkipped(a: JsonArg, tail: string)
    requires Stored(a) && tail != "" && (tail[0] == '}' || tail[0] == ',')
    ensures Members(Pair(a) + tail) ==
            if tail[0] == '}' then Some(Skipped(tail[1..], TightPair(a) + "}"))
            else Prefix(TightPair(a) + ",", Members(tail[1..]))
  {
    hide Members, SkipValue, SkipString, Quoted, TightValue, ValueText, Stored, Pair;
    var v := TightValue(a);
    StoredSkipped(a, tail);
    PairText(a, tail);
    QuotedSkipped(a.key, ": " + (v + tail));
    QuotedNonEmpty(a.key);
    SpacedMember(Quoted(a.key), v, tail);
  }

  // ----- all members -----

  lemma PrefixText(p: string, rest: string, q: string)
    ensures Prefix(p, Some(Skipped(rest, q))) == Some(Skipped(rest, p + q))
  {
  }

  /** The members of the final text are skipped to its end, and without their white space they are
      those sent in pieces. */
  lemma {:induction false} PairsSkipped(list: seq<JsonArg>, y: string)
    requires AllStored(list) && list != []
    ensures Members(Pairs(list) + ("}" + y)) == Some(Skipped(y, TightPairs(list, true) + "}"))
    decreases |list|
  {
    hide Members, Pair, Pairs, TightPair, TightPairs, Stored, Prefix;
    var end, a, more := "}" + y, list[0], list[1..];
    PairsText(list, end);
    TightFirst(list);
    if |list| == 1 {
      PairSkipped(a, end);
      assert end[1..] == y;
    } else {
      var inner := Pairs(more) + end;
      PairSkipped(a, ", " + inner);
      assert (", " + inner)[1..] == " " + inner;
      SpacedValue(inner);
      PairsSkipped(more, y);
      PrefixText(TightPair(a) + ",", y, TightPairs(more, true) + "}");
      FourParts(TightPair(a), ",", TightPairs(more, true), "}");
    }
  }

  lemma TightFirst(list: seq<JsonArg>)
    requires list != []
    ensures TightPairs(list, true)
         == if |list| == 1 then TightPair(list[0]) else TightPair(list[0]) + ("," + TightPairs(list[1..], true))
  {
    hide TightPair;
    if |list| > 1 { FirstOrNot(list[1..]); }
  }

  lemma FirstOrNot(list: seq<JsonArg>)
    requires list != []
    ensures TightPairs(list, false) == "," + TightPairs(list, true)
  {
    hide TightPair;
  }

  lemma FourParts(a: string, b: string, c: string, d: string)
    ensures (a + b) + (c + d) == (a + (b + c)) + d
  {
  }

  /** The final text of the arguments is one JSON object, and without white space it is the text sent
      in pieces. */
  lemma ObjectSkipped(list: seq<JsonArg>)
    requires AllStored(list)
    ensures SkipValue(ObjectText(list)) == Some(Skipped("", TightObject(list)))
  {
    hide Members, AddArgs, Pairs, TightPairs, SkipString, SkipArray, SkipWord, Pair, Stored;
    AddedPairs("", list);
    NoPairs();
    var inside := Pairs(list) + ("}" + "");
    assert ObjectText(list) == "{" + inside;
    WsNone("{" + inside);
    assert ("{" + inside)[1..] == inside;
    if list == [] {
      NoTightPairs();
      assert inside == "}";
      WsNone(inside);
      assert TightObject(list) == "{}";
    } else {
      PairsSkipped(list, "");
      PairsText(list, "}" + "");
      PairText(list[0], if |list| == 1 then "}" + "" else ", " + (Pairs(list[1..]) + ("}" + "")));
      WsNone(inside);
      PrefixText("{", "", TightPairs(list, true) + "}");
      assert "{" + (TightPairs(list, true) + "}") == TightObject(list);
    }
  }

  lemma NoTightPairs()
    ensures TightPairs([], true) == ""
  {
  }

  /** Both are JSON, and minifying the one gives the other. */
  lemma ObjectsAreJson(list: seq<JsonArg>)
    requires AllStored(list)
    ensures IsJson(ObjectText(list)) && IsJson(TightObject(list)) && Compact(TightObject(list))
    ensures Minify(ObjectText(list)) == TightObject(list)
  {
    hide SkipValue, TightObject, ObjectText, Minify, Head;
    ObjectSkipped(list);
    StoredIsCompact(ObjectText(list));
    ObjectStarts(list);
    WsNone(ObjectText(list));
    WholeHead(ObjectText(list));
  }

  lemma ObjectStarts(list: seq<JsonArg>)
    ensures ObjectText(list) != "" && ObjectText(list)[0] == '{'
  {
    hide AddArgs;
  }

  lemma WholeHead(s: string)
    ensures Ends(s, "") ==> Head(s, "") == s
  {
  }
}
