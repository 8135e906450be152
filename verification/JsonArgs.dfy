/** The arguments of a tool call: a JSON object as the list of its members, each
    with its decoded or compact text. */
module JsonArgs {
  import opened Common
  import opened StreamText
  import opened JsonNumber
  import opened Json
  import opened JsonFacts
  import opened JsonStable
  import opened JsonMinify

  datatype JsonArg = JsonArg(key: string, value: string, isString: bool)

  /** The members of a JSON object, with missing or trailing commas forgiven. */
  function ParseArgs(json: string): Option<seq<JsonArg>> {
    var s := Ws(json);
    if s == "" || s[0] != '{' then None else ParseMembers(Ws(s[1..]))
  }

  function ParseMembers(s: string): Option<seq<JsonArg>>
    decreases |s|
  {
    if s == "" then None
    else if s[0] == '}' then Some([])
    else
      match JsonString(s)
      case None => None
      case Some((key, r)) =>
        var t := Ws(r);
        if t == "" || t[0] != ':' then None
        else
          match ParseValue(Ws(t[1..]))
          case None => None
          case Some((value, isString, rest)) =>
            var u := Ws(rest);
            var next := Ws(if u != "" && u[0] == ',' then u[1..] else u);
            match ParseMembers(next)
            case None => None
            case Some(args) => Some([JsonArg(key, value, isString)] + args)
  }

  /** A value: a string decoded, anything else as its text without white space. */
  function ParseValue(s: string): (r: Option<(string, bool, string)>)
    ensures r.Some? ==> |r.value.2| < |s|
  {
    if s != "" && s[0] == '"' then
      match JsonString(s)
      case None => None
      case Some((value, rest)) => Some((value, true, rest))
    else
      match SkipValue(s)
      case None => None
      case Some(v) => Some((Minify(Head(Ws(s), v.rest)), false, v.rest))
  }

  /** What the reader stores: a value that is no string is compact. */
  ghost predicate Stored(a: JsonArg) {
    a.isString || (Compact(a.value) && a.value != "" && a.value[0] != '"')
  }

  lemma FirstKept(s: string)
    requires s != "" && !IsSpace(s[0]) && SkipValue(s).Some?
    ensures SkipValue(s).value.min != "" && SkipValue(s).value.min[0] == s[0]
  {
    hide Members, Elements, Word;
    ValueKind(s);
    if s[0] == '"' { StringAppend(s, ""); } else if s[0] != '{' && s[0] != '[' { WordStart(s); }
  }

  lemma {:induction false} MembersStored(s: string)
    requires ParseMembers(s).Some?
    ensures forall i :: 0 <= i < |ParseMembers(s).value| ==> Stored(ParseMembers(s).value[i])
    decreases |s|
  {
    hide JsonString, Compact, SkipValue, Minify;
    if s[0] != '}' {
      var t := Ws(JsonString(s).value.1);
      var x := Ws(t[1..]);
      var (value, isString, rest) := ParseValue(x).value;
      var u := Ws(rest);
      MembersStored(Ws(if u != "" && u[0] == ',' then u[1..] else u));
      if !isString {
        StoredIsCompact(x);
        RestShorter(x);
        WsTwice(t[1..]);
        FirstKept(x);
      }
    }
  }

  /** Every argument list read from a JSON text is one the reader stores. */
  lemma ParsedIsStored(json: string)
    requires ParseArgs(json).Some?
    ensures forall i :: 0 <= i < |ParseArgs(json).value| ==> Stored(ParseArgs(json).value[i])
  {
    MembersStored(Ws(Ws(json)[1..]));
  }

  // ----- writing -----

  function ValueText(value: string, isString: bool): string {
    if isString then Quoted(value)
    else
      var min := Minify(value);
      if min == "" then "null" else min
  }

  /** One more member on the text of an object's members. */
  function AddArg(args: string, key: string, value: string, isString: bool): string {
    (if args == "" then "" else args + ", ") + Quoted(key) + ": " + ValueText(value, isString)
  }

  function AddArgs(args: string, list: seq<JsonArg>): string
    decreases |list|
  {
    if list == [] then args else AddArgs(AddArg(args, list[0].key, list[0].value, list[0].isString), list[1..])
  }

  function ObjectText(list: seq<JsonArg>): string {
    "{" + AddArgs("", list) + "}"
  }

  function Pair(a: JsonArg): string {
    Quoted(a.key) + ": " + ValueText(a.value, a.isString)
  }

  function Pairs(list: seq<JsonArg>): string {
    if list == [] then "" else Pair(list[0]) + (if |list| == 1 then "" else ", ") + Pairs(list[1..])
  }

  lemma {:induction false} AddedPairs(args: string, list: seq<JsonArg>)
    ensures AddArgs(args, list)
         == if list == [] then args else if args == "" then Pairs(list) else args + ", " + Pairs(list)
    decreases |list|
  {
    hide ValueText, Quoted;
    if list != [] {
      var a := list[0];
      var one := AddArg(args, a.key, a.value, a.isString);
      assert one == (if args == "" then "" else args + ", ") + Pair(a);
      assert one != "" by { QuotedNonEmpty(a.key); }
      AddedPairs(one, list[1..]);
      assert Pairs(list) == Pair(a) + (if |list| == 1 then "" else ", ") + Pairs(list[1..]);
    }
  }

  lemma QuotedNonEmpty(s: string)
    ensures Quoted(s) != "" && Quoted(s)[0] == '"'
  {
  }

  lemma ValueBack(a: JsonArg, y: string)
    requires Stored(a) && Stop(y)
    ensures ValueText(a.value, a.isString) != "" && !IsSpace(ValueText(a.value, a.isString)[0])
    ensures ParseValue(ValueText(a.value, a.isString) + y) == Some((a.value, a.isString, y))
  {
    hide SkipValue, Minify, JsonString, Quoted;
    if a.isString {
      QuotedBack(a.value, y);
      QuotedNonEmpty(a.value);
      assert (Quoted(a.value) + y)[0] == '"';
    } else {
      var v := a.value;
      CompactBack(v, y);
      NoSpace(v[0]);
      assert (v + y)[0] == v[0];
      WsNone(v + y);
      assert Head(v + y, y) == v;
    }
  }

  /** One member, read from a text whose parts are as they are written. */
  lemma PairRead(q: string, key: string, v: string, value: string, isString: bool, tail: string, rest: string)
    requires q != "" && q[0] == '"' && v != "" && !IsSpace(v[0]) && tail != "" && !IsSpace(tail[0])
    requires JsonString(q + (": " + (v + tail))) == Some((key, ": " + (v + tail)))
    requires ParseValue(v + tail) == Some((value, isString, tail))
    requires rest == Ws(if tail[0] == ',' then tail[1..] else tail)
    ensures ParseMembers(q + (": " + (v + tail))) ==
            match ParseMembers(rest) case None => None case Some(args) => Some([JsonArg(key, value, isString)] + args)
  {
    hide ParseValue, JsonString;
    var all := q + (": " + (v + tail));
    assert all[0] == '"';
    WsNone(": " + (v + tail));
    assert (": " + (v + tail))[1..] == " " + (v + tail);
    assert (v + tail)[0] == v[0];
    WsAll(" ", v + tail);
    WsNone(tail);
  }

  lemma PairText(a: JsonArg, tail: string)
    ensures Pair(a) + tail == Quoted(a.key) + (": " + (ValueText(a.value, a.isString) + tail))
    ensures Pair(a) + tail != "" && (Pair(a) + tail)[0] == '"'
  {
    hide ValueText;
  }

  lemma PairBack(a: JsonArg, tail: string, rest: string)
    requires Stored(a) && tail != "" && (tail[0] == ',' || tail[0] == '}')
    requires rest == Ws(if tail[0] == ',' then tail[1..] else tail)
    ensures ParseMembers(Pair(a) + tail) ==
            match ParseMembers(rest) case None => None case Some(args) => Some([a] + args)
  {
    hide ValueText, ParseValue, JsonString, Quoted, ParseMembers, Pair;
    var v := ValueText(a.value, a.isString);
    ValueBack(a, tail);
    PairText(a, tail);
    QuotedBack(a.key, ": " + (v + tail));
    QuotedNonEmpty(a.key);
    PairRead(Quoted(a.key), a.key, v, a.value, a.isString, tail, rest);
  }

  /** Reading what was written, with any text after the object. */
  lemma {:induction false} PairsBack(list: seq<JsonArg>, y: string)
    requires forall i :: 0 <= i < |list| ==> Stored(list[i])
    ensures Pairs(list) + ("}" + y) != "" && !IsSpace((Pairs(list) + ("}" + y))[0])
    ensures ParseMembers(Pairs(list) + ("}" + y)) == Some(list)
    decreases |list|
  {
    hide Pair, ParseMembers, Stored;
    var end := "}" + y;
    if list == [] {
      assert "" + end == end;
      NoMembers(y);
    } else {
      var rest := Pairs(list[1..]) + end;
      PairsBack(list[1..], y);
      var tail := if |list| == 1 then end else ", " + rest;
      WsNone(rest);
      if |list| > 1 {
        assert tail[1..] == " " + rest;
        WsAll(" ", rest);
      } else {
        assert rest == end;
      }
      PairsText(list, end);
      PairBack(list[0], tail, rest);
      PairText(list[0], tail);
      assert [list[0]] + list[1..] == list;
    }
  }

  lemma NoMembers(y: string)
    ensures ParseMembers("}" + y) == Some([])
  {
  }

  lemma PairsText(list: seq<JsonArg>, end: string)
    requires list != []
    ensures Pairs(list) + end == Pair(list[0]) + (if |list| == 1 then end else ", " + (Pairs(list[1..]) + end))
  {
    hide Pair;
  }

  /** The arguments written for a call are read back as the same list. */
  lemma ObjectBack(list: seq<JsonArg>)
    requires forall i :: 0 <= i < |list| ==> Stored(list[i])
    ensures ParseArgs(ObjectText(list)) == Some(list)
  {
    hide ParseMembers, AddArgs, Pairs;
    AddedPairs("", list);
    PairsBack(list, "");
    NoPairs();
    var inside := Pairs(list) + ("}" + "");
    assert ObjectText(list) == "{" + inside;
    WsNone("{" + inside);
    assert ("{" + inside)[1..] == inside;
  }

  lemma NoPairs()
    ensures Pairs([]) == "" && AddArgs("", []) == ""
  {
  }
}
