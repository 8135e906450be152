/** Every JSON object is read as its members, in order, with decoded strings and compact values. */
module JsonMembers {
  import opened Common
  import opened JsonNumber
  import opened Json
  import opened JsonStable
  import opened JsonMinify
  import opened JsonEscapes
  import opened JsonLiteral
  import opened JsonTree
  import Args = JsonArgs

  function ValueOf(v: Tree): string
    requires Ok(v)
  {
    if v.Text? then Decoded(v.units) else TreeText(Packed(v))
  }

  /** The members that an object means. */
  function MembersOf(pairs: Pairs): seq<Args.JsonArg>
    requires OkPairs(pairs)
  {
    [Args.JsonArg(Decoded(pairs.key), ValueOf(pairs.v), pairs.v.Text?)]
    + if pairs.more.Some? then MembersOf(pairs.more.value) else []
  }

  lemma LiteralString(us: seq<Unit>, rest: string)
    requires OkUnits(us)
    ensures JsonString(Literal(us) + rest) == Some((Decoded(us), rest))
    ensures Literal(us) + rest != "" && (Literal(us) + rest)[0] == '"'
  {
    hide UnitsText, StringBody, OkUnits, Decoded;
    LiteralRead(us, rest);
    var s := Literal(us) + rest;
    assert s[1..] == UnitsText(us) + ("\"" + rest);
    WsNone(s);
  }

  lemma ValueRead(v: Tree, rest: string)
    requires Ok(v) && Stop(rest)
    ensures Args.ParseValue(TreeText(v) + rest) == Some((ValueOf(v), v.Text?, rest))
  {
    hide JsonString, Decoded, Literal, SkipValue, Minify, OkUnits, Word;
    var s := TreeText(v) + rest;
    TreeStart(v);
    assert s[0] == TreeText(v)[0];
    if v.Text? {
      LiteralString(v.units, rest);
    } else {
      if v.Bare? { BareStart(v.word); }
      TreeSkipped(v, rest);
      StoredIsCompact(s);
    }
  }

  /** One member, read; `tail` is what stands behind its value. */
  lemma MemberIs(s: string, pairs: Pairs, tail: string, more: Option<seq<Args.JsonArg>>)
    requires OkPairs(pairs) && tail != "" && (tail[0] == ',' || tail[0] == '}')
    requires s == pairs.ahead + (Literal(pairs.key) + FromColon(pairs, tail))
    requires Args.ParseMembers(Ws(if tail[0] == ',' then tail[1..] else tail)) == more
    ensures Args.ParseMembers(Ws(s)) == match more
      case None => None
      case Some(args) => Some([Args.JsonArg(Decoded(pairs.key), ValueOf(pairs.v), pairs.v.Text?)] + args)
  {
    hide Ws, JsonString, SkipValue, SkipString, TreeText, Decoded, Literal, ValueOf, FromColon, OkUnits,
      Args.ParseValue, Ok, White, Stop;
    var k, u := Literal(pairs.key), FromColon(pairs, tail);
    PairSkipped(pairs, tail);
    LiteralString(pairs.key, u);
    ValueAhead(pairs, tail);
    ValueRead(pairs.v, pairs.after + tail);
    assert (":" + FromValue(pairs, tail))[1..] == FromValue(pairs, tail);
  }

  lemma ValueAhead(pairs: Pairs, tail: string)
    requires OkPairs(pairs) && tail != "" && (tail[0] == ',' || tail[0] == '}')
    ensures Ws(FromValue(pairs, tail)) == TreeText(pairs.v) + (pairs.after + tail) && Stop(pairs.after + tail)
  {
    hide Ws, TreeText, Ok, Stop, OkUnits;
    var x := TreeText(pairs.v) + (pairs.after + tail);
    TreeStart(pairs.v);
    assert x[0] == TreeText(pairs.v)[0];
    SpaceStops(pairs.after, tail);
    SpacePassed(pairs.before, x);
    WsNone(x);
  }

  lemma {:induction false} PairsRead(pairs: Pairs, rest: string)
    requires OkPairs(pairs)
    ensures Args.ParseMembers(Ws(PairsText(pairs) + rest)) == Some(MembersOf(pairs))
    decreases pairs
  {
    hide Ws, TreeText, Ok, Decoded, Literal, ValueOf, FromColon, OkUnits, Args.ParseMembers, White;
    if pairs.more.Some? {
      var more := pairs.more.value;
      var tail := "," + PairsText(more);
      PairsRead(more, rest);
      PairParts(pairs, tail, rest);
      assert (tail + rest)[1..] == PairsText(more) + rest;
      MemberIs(PairsText(pairs) + rest, pairs, tail + rest, Some(MembersOf(more)));
    } else {
      PairParts(pairs, "}", rest);
      ClosingRead("}" + rest);
      MemberIs(PairsText(pairs) + rest, pairs, "}" + rest, Some([]));
    }
  }

  lemma ClosingRead(s: string)
    requires s != "" && s[0] == '}'
    ensures Args.ParseMembers(Ws(s)) == Some([])
  {
  }

  /** A text that is a JSON object, with white space wherever it may stand, is read as its
      members; what stands behind it is not looked at. */
  lemma ObjectMeans(w: string, t: Tree, rest: string)
    requires White(w) && Ok(t)
    ensures t.Object? ==> Args.ParseArgs(w + (TreeText(t) + rest)) == Some(MembersOf(t.pairs))
    ensures t.NoPairs? ==> Args.ParseArgs(w + (TreeText(t) + rest)) == Some([])
    ensures !t.Object? && !t.NoPairs? ==> Args.ParseArgs(w + (TreeText(t) + rest)) == None
  {
    hide Ws, OkUnits, Word, Args.ParseMembers, White, ItemsText, PairsText, UnitsText;
    var s := TreeText(t) + rest;
    TreeStart(t);
    assert s[0] == TreeText(t)[0];
    SpacePassed(w, s);
    WsNone(s);
    match t
    case Object(pairs) =>
      PairsRead(pairs, rest);
      assert s[1..] == PairsText(pairs) + rest;
    case NoPairs(x) =>
      EmptySkipped('{', x, '}', rest);
      ClosingRead("}" + rest);
      assert s == ['{'] + x + ['}'] + rest && ['}'] + rest == "}" + rest;
      WsNone("}" + rest);
    case Bare(x) => BareStart(x);
    case _ =>
  }
}
