/**
 * What the two reports say about a parsed document, stated in terms of the
 * tokens alone: the statistics do not depend on how the headings nest.
 */
module Report {
  import opened Wrappers
  import opened Tokens
  import opened LineIndexing
  import opened Tree
  import opened Parsing
  import opened Text
  import opened Walkers

  /** The counter one token bumps: its heading level if 1 to 5, a code block, a list, or none. */
  function TokenCount(tok: Token): Counts {
    match tok
    case HeadingToken(level, _) =>
      var l := level.GetOr(1);
      Counts(if l == 1 then 1 else 0, if l == 2 then 1 else 0, if l == 3 then 1 else 0,
             if l == 4 then 1 else 0, if l == 5 then 1 else 0, 0, 0)
    case BlockCodeToken(_) => Zero().(codeBlocks := 1)
    case ListToken(_, _) => Zero().(lists := 1)
    case OtherToken => Zero()
  }

  /** The counters summed over a token sequence. */
  function TokenTally(tokens: seq<Token>): Counts {
    if tokens == [] then Zero()
    else TokenTally(tokens[..|tokens| - 1]).Plus(TokenCount(tokens[|tokens| - 1]))
  }

  /** The node a token produces is counted exactly as the token is. */
  lemma NodeCountOfToken(idx: LineIndex, tok: Token, lastHeadingLine: nat)
    ensures TallyFlat(OptionToSeq(NodeOf(idx, tok, lastHeadingLine))) == TokenCount(tok)
  {
    var o := NodeOf(idx, tok, lastHeadingLine);
    if o.Some? {
      var n := o.value;
      assert OptionToSeq(o) == [n];
      TallyFlatSingle(n);
      assert tok.HeadingToken? ==> n.level == LevelOf(tok.level);
      SameKindSameCount(n, tok);
    }
  }

  /** A node of the same kind and level as a token bumps the same counter. */
  lemma SameKindSameCount(n: Node, tok: Token)
    requires !tok.OtherToken?
    requires n.Heading? <==> tok.HeadingToken?
    requires tok.HeadingToken? ==> n.level == LevelOf(tok.level)
    requires tok.BlockCodeToken? ==> n.Code?
    requires tok.ListToken? ==> n.ListBlock?
    ensures NodeCount(n) == TokenCount(tok)
  {
  }

  /** Counting the created nodes flat gives the token sum. */
  lemma {:induction false} FlatCountIsTokenCount(idx: LineIndex, tokens: seq<Token>)
    ensures TallyFlat(Nodes(idx, tokens)) == TokenTally(tokens)
    decreases |tokens|
  {
    if tokens != [] {
      var n := |tokens|;
      var init := tokens[..n - 1];
      var made := OptionToSeq(NodeOf(idx, tokens[n - 1], Cursor(idx, init)));
      FlatCountIsTokenCount(idx, init);
      TallyFlatAppend(Nodes(idx, init), made);
      NodeCountOfToken(idx, tokens[n - 1], Cursor(idx, init));
    }
  }

  /**
   * `print_stat` on the parsed structure: the counters equal the number of
   * heading tokens of each level 1 to 5, of code block tokens and of list
   * tokens, however the headings nest.
   */
  lemma StatsOfStructure(text: string, tokens: seq<Token>)
    ensures Tally(Structure(text, tokens)) == TokenTally(tokens)
  {
    var items := Nodes(IndexOf(SplitLines(text)), tokens);
    NodesLeafy(IndexOf(SplitLines(text)), tokens);
    TallyFlatten(Nest(items));
    FlattenNest(items);
    FlatCountIsTokenCount(IndexOf(SplitLines(text)), tokens);
  }

  /** The whole pipeline for the statistics report: parse, then count. */
  method ParseAndCount(text: string, tokens: seq<Token>) returns (c: Counts)
    ensures c == TokenTally(tokens)
  {
    var root := ParseMarkdownStructure(text, tokens);
    c := PrintStat(root);
    StatsOfStructure(text, tokens);
  }
}
