/**
 * `parse_markdown_structure`: the line index of the raw text, then one
 * forward pass over the block tokens that turns headings, code blocks and
 * lists into nodes, gives each a line number, and nests them under a stack of
 * open headings.
 *
 * `Nodes` is the flat sequence of nodes the pass creates, in order, and
 * `Nest` (module Tree) the tree they form; the method is proved to build
 * exactly `Nest(Nodes(...))`.
 */
module Parsing {
  import opened Wrappers
  import opened Text
  import opened Ordering
  import opened Tokens
  import opened LineIndexing
  import opened Tree

  /** The level of a heading token: its "level" attribute, 1 when absent. */
  function LevelOf(level: Option<int>): int {
    level.GetOr(1)
  }

  /** The tag of a code block: its "info" attribute, or "text" when that is absent or empty. */
  function CodeTag(info: Option<string>): (r: string)
    ensures r != ""
    ensures info.Some? && info.value != "" ==> r == info.value
  {
    if info.GetOr("") == "" then "text" else info.value
  }

  /** The style of a list: ordered exactly when the token's "ordered" flag is true. */
  function StyleOf(ordered: Option<bool>): (r: Style)
    ensures r == Ordered <==> ordered == Some(true)
  {
    if ordered == Some(true) then Ordered else Unordered
  }

  /** The line of a heading: the recorded line of its key, or 1 when the key was not recorded. */
  function HeadingLine(idx: LineIndex, level: int, text: string): (r: nat)
    ensures r == 1 || r in idx.headingLines.Values
  {
    var key := HeadingKey(level, text);
    if key in idx.headingLines then idx.headingLines[key] else 1
  }

  /**
   * The node one token produces, given the line of the last heading seen so
   * far; tokens of other types produce nothing. A new node has no children.
   */
  function NodeOf(idx: LineIndex, tok: Token, lastHeadingLine: nat): (r: Option<Node>)
    ensures r.None? <==> tok.OtherToken?
    ensures r.Some? ==> Leafy(r.value)
    ensures r.Some? ==> (r.value.Heading? <==> tok.HeadingToken?)
    ensures r.Some? ==> (r.value.Code? <==> tok.BlockCodeToken?)
  {
    match tok
    case HeadingToken(level, children) =>
      var l := LevelOf(level);
      var text := ExtractText(children);
      Some(Heading(l, text, HeadingLine(idx, l, text), []))
    case BlockCodeToken(info) =>
      Some(Code(CodeTag(info), FirstAfter(idx.codeLines, lastHeadingLine)))
    case ListToken(ordered, itemCount) =>
      Some(ListBlock(StyleOf(ordered), itemCount, FirstAfter(idx.listStartLines, lastHeadingLine)))
    case OtherToken => None
  }

  /** The line of the last heading after one more token: a heading moves it, anything else keeps it. */
  function NextHeadingLine(idx: LineIndex, tok: Token, lastHeadingLine: nat): nat {
    if tok.HeadingToken? then HeadingLine(idx, LevelOf(tok.level), ExtractText(tok.children))
    else lastHeadingLine
  }

  /** The line of the last heading after a sequence of tokens, 0 before any. */
  function Cursor(idx: LineIndex, tokens: seq<Token>): nat {
    if tokens == [] then 0
    else
      var n := |tokens|;
      NextHeadingLine(idx, tokens[n - 1], Cursor(idx, tokens[..n - 1]))
  }

  function OptionToSeq(o: Option<Node>): seq<Node> {
    if o.Some? then [o.value] else []
  }

  /** The nodes a sequence of tokens produces, in token order. */
  function Nodes(idx: LineIndex, tokens: seq<Token>): seq<Node> {
    if tokens == [] then []
    else
      var n := |tokens|;
      Nodes(idx, tokens[..n - 1]) + OptionToSeq(NodeOf(idx, tokens[n - 1], Cursor(idx, tokens[..n - 1])))
  }

  /** The structure extracted from a text and its tokens. */
  function Structure(text: string, tokens: seq<Token>): seq<Node> {
    Nest(Nodes(IndexOf(SplitLines(text)), tokens))
  }

  // ---------------------------------------------------------------------------
  // What the pass computes
  // ---------------------------------------------------------------------------

  /** One more token extends the nodes and the heading cursor by that token's contribution. */
  lemma NodesStep(idx: LineIndex, tokens: seq<Token>, i: nat)
    requires i < |tokens|
    ensures Nodes(idx, tokens[..i + 1])
            == Nodes(idx, tokens[..i]) + OptionToSeq(NodeOf(idx, tokens[i], Cursor(idx, tokens[..i])))
    ensures Cursor(idx, tokens[..i + 1]) == NextHeadingLine(idx, tokens[i], Cursor(idx, tokens[..i]))
  {
    assert tokens[..i + 1][..i] == tokens[..i];
  }

  /** No node is created with children. */
  lemma {:induction false} NodesLeafy(idx: LineIndex, tokens: seq<Token>)
    ensures forall j :: 0 <= j < |Nodes(idx, tokens)| ==> Leafy(Nodes(idx, tokens)[j])
  {
    if tokens != [] {
      NodesLeafy(idx, tokens[..|tokens| - 1]);
    }
  }

  /** `tokens[j]` is the last heading token of `tokens`. */
  predicate LastHeadingAt(tokens: seq<Token>, j: int) {
    0 <= j < |tokens| && tokens[j].HeadingToken?
    && forall m :: j < m < |tokens| ==> !tokens[m].HeadingToken?
  }

  /**
   * The heading cursor is the line of the last heading token, or 0 when
   * there is none: code blocks, lists and other tokens never move it.
   */
  lemma {:induction false} CursorIsLastHeading(idx: LineIndex, tokens: seq<Token>)
    ensures (forall j :: 0 <= j < |tokens| ==> !tokens[j].HeadingToken?) ==> Cursor(idx, tokens) == 0
    ensures forall j :: LastHeadingAt(tokens, j)
                        ==> Cursor(idx, tokens) == HeadingLine(idx, LevelOf(tokens[j].level), ExtractText(tokens[j].children))
  {
    if tokens != [] {
      var n := |tokens|;
      var pre := tokens[..n - 1];
      assert (forall j :: 0 <= j < n ==> !tokens[j].HeadingToken?) ==> Cursor(idx, tokens) == 0 by {
        if forall j :: 0 <= j < n ==> !tokens[j].HeadingToken? {
          CursorIsLastHeading(idx, pre);
          assert forall j :: 0 <= j < n - 1 ==> pre[j] == tokens[j];
        }
      }
      assert forall j :: LastHeadingAt(tokens, j)
                         ==> Cursor(idx, tokens) == HeadingLine(idx, LevelOf(tokens[j].level), ExtractText(tokens[j].children)) by {
        CursorIsLastHeading(idx, pre);
        assert Cursor(idx, tokens) == NextHeadingLine(idx, tokens[n - 1], Cursor(idx, pre));
        forall j | LastHeadingAt(tokens, j)
          ensures Cursor(idx, tokens) == HeadingLine(idx, LevelOf(tokens[j].level), ExtractText(tokens[j].children))
        {
          if j < n - 1 {
            assert LastHeadingAt(pre, j) && pre[j] == tokens[j];
          }
        }
      }
    }
  }

  /** A heading key names a recorded heading line exactly when its level is 1 to 6. */
  lemma HeadingKeyShape(level: int, text: string)
    ensures HasHeadingPrefix(HeadingKey(level, text)) <==> 1 <= level <= 6
  {
    var key := HeadingKey(level, text);
    if 1 <= level <= 6 {
      assert StartsWith(key, Hashes(level) + " ") by {
        assert key[..level + 1] == Hashes(level) + " ";
      }
    } else {
      forall l | 1 <= l <= 6
        ensures !StartsWith(key, Hashes(l) + " ")
      {
        var prefix := Hashes(l) + " ";
        if level <= 0 {
          assert key[0] == ' ' && prefix[0] == '#';
        } else {
          assert key[l] == '#' && prefix[l] == ' ';
        }
      }
    }
  }

  /**
   * A heading's line is the last line of the text whose stripped content is
   * its key, when such a line exists and the key is a heading line; it is 1
   * otherwise.
   */
  lemma HeadingLineSpec(lines: seq<string>, level: int, text: string)
    ensures var ss := StrippedLines(lines);
            var key := HeadingKey(level, text);
            var r := HeadingLine(IndexOf(lines), level, text);
            if HasHeadingPrefix(key) && exists k :: 1 <= k <= |ss| && LineAt(ss, k) == key then
              1 <= r <= |ss| && LineAt(ss, r) == key && forall k :: r < k <= |ss| ==> LineAt(ss, k) != key
            else r == 1
  {
    var ss := StrippedLines(lines);
    LastLineByTextExact(ss, HasHeadingPrefix);
  }

  /**
   * The contents of each node: a heading carries the token's level (1 by
   * default), its extracted text and its heading line; a code block carries
   * its info or "text" and the first fence line after the last heading; a
   * list carries its style, its number of items and the first list-item line
   * after the last heading; the fallback line is 1.
   */
  lemma NodeContents(lines: seq<string>, tok: Token, lastHeadingLine: nat)
    ensures var ss := StrippedLines(lines);
            var r := NodeOf(IndexOf(lines), tok, lastHeadingLine);
            match tok
            case HeadingToken(level, children) =>
              r == Some(Heading(LevelOf(level), ExtractText(children),
                                HeadingLine(IndexOf(lines), LevelOf(level), ExtractText(children)), []))
            case BlockCodeToken(info) =>
              r.Some? && r.value.Code?
              && (r.value.tag == "text" <==> info.None? || info.value == "" || info.value == "text")
              && (info.Some? && info.value != "" ==> r.value.tag == info.value)
              && IsFirstLineAfter(ss, IsFenceLine, lastHeadingLine, r.value.line)
            case ListToken(ordered, itemCount) =>
              r.Some? && r.value.ListBlock?
              && (r.value.style == Ordered <==> ordered == Some(true))
              && r.value.count == itemCount
              && IsFirstLineAfter(ss, IsListItemLine, lastHeadingLine, r.value.line)
            case OtherToken => r.None?
  {
    var ss := StrippedLines(lines);
    FirstRecordedAfter(ss, IsFenceLine, lastHeadingLine);
    FirstRecordedAfter(ss, IsListItemLine, lastHeadingLine);
  }

  /** Every line number the pass assigns is a line of the text (line 1 is the fallback, and always exists). */
  lemma {:induction false} NodeLinesInText(lines: seq<string>, tokens: seq<Token>)
    requires |lines| >= 1
    ensures forall j :: 0 <= j < |Nodes(IndexOf(lines), tokens)| ==> 1 <= Nodes(IndexOf(lines), tokens)[j].line <= |lines|
  {
    if tokens != [] {
      var n := |tokens|;
      var idx := IndexOf(lines);
      NodeLinesInText(lines, tokens[..n - 1]);
      var tok := tokens[n - 1];
      NodeContents(lines, tok, Cursor(idx, tokens[..n - 1]));
      if tok.HeadingToken? {
        HeadingLineSpec(lines, LevelOf(tok.level), ExtractText(tok.children));
      }
    }
  }

  // ---------------------------------------------------------------------------
  // The pass
  // ---------------------------------------------------------------------------

  /**
   * A heading token: pop the open levels that are not below the heading's
   * level, append the heading under the new top (or to the root list) and
   * push its level. The open headings are kept as a stack of levels: the
   * heading an entry refers to is the one at that depth on the right spine
   * of `root`, and appending to its children is AppendAt at that depth.
   */
  method OpenHeading(root: seq<Node>, stack: seq<int>, node: Node) returns (root': seq<Node>, stack': seq<int>)
    requires node.Heading? && Leafy(node)
    requires stack == SpineLevels(root) && StrictlyIncreasing(stack)
    ensures root' == Attach(root, node)
    ensures stack' == SpineLevels(root') && StrictlyIncreasing(stack')
    ensures |stack'| > 0 && stack'[|stack'| - 1] == node.level
  {
    stack' := stack;
    while |stack'| > 0 && stack'[|stack'| - 1] >= node.level
      invariant |stack'| <= |stack| && stack' == stack[..|stack'|]
      invariant forall j :: |stack'| <= j < |stack| ==> stack[j] >= node.level
    {
      stack' := stack'[..|stack'| - 1];
    }
    var d := |stack'|;
    HeadingStep(root, d, node);
    if d == 0 {
      root' := root + [node];
    } else {
      root' := AppendAt(root, d, node);
    }
    stack' := stack' + [node.level];
  }

  /** A code block or list token: append the node under the top of the stack, or to the root list. */
  method AttachLeaf(root: seq<Node>, stack: seq<int>, node: Node) returns (root': seq<Node>)
    requires !node.Heading?
    requires stack == SpineLevels(root)
    ensures root' == Attach(root, node)
    ensures SpineLevels(root') == stack
  {
    LeafStep(root, node);
    if |stack| > 0 {
      root' := AppendAt(root, |stack|, node);
    } else {
      root' := root + [node];
    }
  }

  /**
   * One iteration of the token loop: a heading opens a new scope, a code
   * block or list is attached to the innermost open heading, and any other
   * token changes nothing.
   */
  method AddToken(idx: LineIndex, root: seq<Node>, stack: seq<int>, lastHeadingLine: nat, tok: Token)
    returns (root': seq<Node>, stack': seq<int>, lastHeadingLine': nat)
    requires stack == SpineLevels(root) && StrictlyIncreasing(stack)
    ensures lastHeadingLine' == NextHeadingLine(idx, tok, lastHeadingLine)
    ensures root' == if tok.OtherToken? then root else Attach(root, NodeOf(idx, tok, lastHeadingLine).value)
    ensures stack' == SpineLevels(root') && StrictlyIncreasing(stack')
    ensures tok.HeadingToken? ==> |stack'| > 0 && stack'[|stack'| - 1] == LevelOf(tok.level)
    ensures !tok.HeadingToken? ==> stack' == stack
  {
    root', stack', lastHeadingLine' := root, stack, lastHeadingLine;
    match tok
    case HeadingToken(lv, children) =>
      var level := LevelOf(lv);
      var text := ExtractText(children);
      var lineNum := HeadingLine(idx, level, text);
      lastHeadingLine' := lineNum;
      var node := Heading(level, text, lineNum, []);
      root', stack' := OpenHeading(root, stack, node);
    case BlockCodeToken(info) =>
      var lineNum := FindFirstAfter(idx.codeLines, lastHeadingLine);
      var node := Code(CodeTag(info), lineNum);
      root' := AttachLeaf(root, stack, node);
    case ListToken(ordered, itemCount) =>
      var lineNum := FindFirstAfter(idx.listStartLines, lastHeadingLine);
      var node := ListBlock(StyleOf(ordered), itemCount, lineNum);
      root' := AttachLeaf(root, stack, node);
    case OtherToken =>
  }

  lemma WholePrefix(tokens: seq<Token>)
    ensures tokens[..|tokens|] == tokens
  {
  }

  /** `parse_markdown_structure` over a given token sequence. */
  method ParseMarkdownStructure(text: string, tokens: seq<Token>) returns (root: seq<Node>)
    ensures root == Structure(text, tokens)
    ensures Flatten(root) == Nodes(IndexOf(SplitLines(text)), tokens)
    ensures WellFormed(root)
  {
    var idx := IndexLines(text);
    root := [];
    var stack: seq<int> := [];
    var lastHeadingLine: nat := 0;
    var i := 0;
    while i < |tokens|
      invariant 0 <= i <= |tokens|
      invariant root == Nest(Nodes(idx, tokens[..i]))
      invariant lastHeadingLine == Cursor(idx, tokens[..i])
      invariant stack == SpineLevels(root) && StrictlyIncreasing(stack)
    {
      ghost var before := Nodes(idx, tokens[..i]);
      ghost var after := Nodes(idx, tokens[..i + 1]);
      NodesStep(idx, tokens, i);
      NodesLeafy(idx, tokens[..i]);
      var tok := tokens[i];
      ghost var node := NodeOf(idx, tok, lastHeadingLine);
      root, stack, lastHeadingLine := AddToken(idx, root, stack, lastHeadingLine, tok);
      if node.Some? {
        assert after == before + [node.value];
        NestSnoc(before, node.value);
      } else {
        assert after == before;
      }
      assert root == Nest(after);
      i := i + 1;
    }
    WholePrefix(tokens);
    NodesLeafy(idx, tokens);
    FlattenNest(Nodes(idx, tokens));
    NestWellFormed(Nodes(idx, tokens));
  }
}
