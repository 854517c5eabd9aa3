/**
 * One small document taken through `parse_markdown_structure`: the line
 * index of its text, the nodes its tokens produce, and the tree they form.
 *
 *   line 1  # A
 *   line 2
 *   line 3  ## B
 *   line 4  - x
 *   line 5  - y
 */
module Walkthrough {
  import opened Wrappers
  import opened Text
  import opened Tokens
  import opened LineIndexing
  import opened Tree
  import opened Parsing

  /** A line with no whitespace at either end is its own strip. */
  lemma StripKeeps(s: string)
    requires s == [] || (!IsSpace(s[0]) && !IsSpace(s[|s| - 1]))
    ensures Strip(s) == s
  {
    assert TrimStart(s) == s;
    assert TrimEnd(s) == s;
  }

  /** The last three lines joined. */
  lemma SampleTailJoin(lines: seq<string>)
    requires lines == ["# A", "", "## B", "- x", "- y"]
    ensures JoinLines(lines[2..]) == "## B\n- x\n- y"
  {
    assert JoinLines(lines[4..]) == "- y";
    assert JoinLines(lines[3..]) == "- x\n- y";
  }

  /** All five lines joined give the text back. */
  lemma SampleJoin(lines: seq<string>, text: string)
    requires lines == ["# A", "", "## B", "- x", "- y"]
    requires text == "# A\n\n## B\n- x\n- y"
    ensures JoinLines(lines) == text
  {
    SampleTailJoin(lines);
    assert JoinLines(lines[1..]) == "\n## B\n- x\n- y";
  }

  /** None of the five lines holds a newline. */
  lemma SampleNewlineFree(lines: seq<string>)
    requires lines == ["# A", "", "## B", "- x", "- y"]
    ensures |lines| >= 1 && forall i :: 0 <= i < |lines| ==> '\n' !in lines[i]
  {
  }

  /** The text splits into its five lines. */
  lemma DocumentLines(text: string)
    requires text == "# A\n\n## B\n- x\n- y"
    ensures SplitLines(text) == ["# A", "", "## B", "- x", "- y"]
  {
    var lines := ["# A", "", "## B", "- x", "- y"];
    SampleJoin(lines, text);
    SampleNewlineFree(lines);
    SplitJoinLines(lines);
  }

  /** The two heading lines, and only they, carry a heading prefix. */
  lemma HeadingKinds()
    ensures HasHeadingPrefix("# A") && HasHeadingPrefix("## B")
    ensures !HasHeadingPrefix("") && !HasHeadingPrefix("- x") && !HasHeadingPrefix("- y")
  {
    assert Hashes(1) == "#";
    assert Hashes(2) == "##";
    assert StartsWith("# A", Hashes(1) + " ");
    assert StartsWith("## B", Hashes(2) + " ");
    HeadingPrefixStartsWithHash("");
    HeadingPrefixStartsWithHash("- x");
    HeadingPrefixStartsWithHash("- y");
    assert "- x"[0] == '-' && "- y"[0] == '-';
  }

  /** No line is a fence line. */
  lemma FenceKinds()
    ensures !IsFenceLine("# A") && !IsFenceLine("") && !IsFenceLine("## B")
    ensures !IsFenceLine("- x") && !IsFenceLine("- y")
  {
    assert "# A"[0] == '#' && "## B"[0] == '#' && "- x"[0] == '-' && "- y"[0] == '-';
  }

  /** The two "- " lines, and only they, are list-item lines. */
  lemma ListKinds()
    ensures !IsListItemLine("# A") && !IsListItemLine("") && !IsListItemLine("## B")
    ensures IsListItemLine("- x") && IsListItemLine("- y")
  {
    assert "- x"[..2] == "- " && "- y"[..2] == "- ";
    assert "# A"[0] == '#' && "## B"[0] == '#';
    assert "# A"[..2] != "- " && "# A"[..2] != "* ";
    assert "## B"[..2] != "- " && "## B"[..2] != "* ";
  }

  /** Stripping changes none of the five lines. */
  lemma DocumentStripped(lines: seq<string>)
    requires lines == ["# A", "", "## B", "- x", "- y"]
    ensures StrippedLines(lines) == lines
  {
    StripKeeps("# A");
    StripKeeps("");
    StripKeeps("## B");
    StripKeeps("- x");
    StripKeeps("- y");
  }

  /** The prefixes of the five lines the scan has seen after each step, each one line longer than the last. */
  lemma DocumentPrefixes(lines: seq<string>)
    requires lines == ["# A", "", "## B", "- x", "- y"]
    ensures lines[..1] == ["# A"] && lines[..1][..0] == []
    ensures lines[..2] == ["# A", ""] && lines[..2][..1] == lines[..1]
    ensures lines[..3] == ["# A", "", "## B"] && lines[..3][..2] == lines[..2]
    ensures lines[..4] == ["# A", "", "## B", "- x"] && lines[..4][..3] == lines[..3]
    ensures lines[..5 - 1] == lines[..4]
  {
  }

  /** The heading lookup: "# A" on line 1 and "## B" on line 3. */
  lemma DocumentHeadings(lines: seq<string>)
    requires lines == ["# A", "", "## B", "- x", "- y"]
    ensures LastLineByText(lines, HasHeadingPrefix) == map["# A" := 1, "## B" := 3]
  {
    HeadingKinds();
    DocumentPrefixes(lines);
    var p := HasHeadingPrefix;
    assert LineAt(lines[..1], 1) == "# A" && LineAt(lines[..2], 2) == "";
    assert LineAt(lines[..3], 3) == "## B" && LineAt(lines[..4], 4) == "- x" && LineAt(lines, 5) == "- y";
    assert LastLineByText(lines[..1], p) == map["# A" := 1];
    assert LastLineByText(lines[..2], p) == map["# A" := 1];
    assert LastLineByText(lines[..3], p) == map["# A" := 1, "## B" := 3];
    assert LastLineByText(lines[..4], p) == map["# A" := 1, "## B" := 3];
  }

  /** No fence lines, and list items on lines 4 and 5. */
  lemma DocumentBlocks(lines: seq<string>)
    requires lines == ["# A", "", "## B", "- x", "- y"]
    ensures LinesWhere(lines, IsFenceLine) == []
    ensures LinesWhere(lines, IsListItemLine) == [4, 5]
  {
    FenceKinds();
    ListKinds();
    DocumentPrefixes(lines);
    assert LineAt(lines[..1], 1) == "# A" && LineAt(lines[..2], 2) == "";
    assert LineAt(lines[..3], 3) == "## B" && LineAt(lines[..4], 4) == "- x" && LineAt(lines, 5) == "- y";
    assert LinesWhere(lines[..1], IsFenceLine) == [] && LinesWhere(lines[..1], IsListItemLine) == [];
    assert LinesWhere(lines[..2], IsFenceLine) == [] && LinesWhere(lines[..2], IsListItemLine) == [];
    assert LinesWhere(lines[..3], IsFenceLine) == [] && LinesWhere(lines[..3], IsListItemLine) == [];
    assert LinesWhere(lines[..4], IsFenceLine) == [] && LinesWhere(lines[..4], IsListItemLine) == [4];
  }

  /** The line index of the document: two heading keys, no fence, list items on lines 4 and 5. */
  lemma DocumentIndex(lines: seq<string>)
    requires lines == ["# A", "", "## B", "- x", "- y"]
    ensures IndexOf(lines) == LineIndex(map["# A" := 1, "## B" := 3], [], [4, 5])
  {
    DocumentStripped(lines);
    DocumentHeadings(lines);
    DocumentBlocks(lines);
  }

  /** The three tokens make an h1 on line 1, an h2 on line 3 and a list on line 4, in that order. */
  lemma DocumentNodes(idx: LineIndex, tokens: seq<Token>)
    requires idx == LineIndex(map["# A" := 1, "## B" := 3], [], [4, 5])
    requires tokens == [HeadingToken(Some(1), Plain("A")), HeadingToken(Some(2), Plain("B")), ListToken(None, 2)]
    ensures Nodes(idx, tokens) == [Heading(1, "A", 1, []), Heading(2, "B", 3, []), ListBlock(Unordered, 2, 4)]
  {
    assert HeadingKey(1, "A") == "# A" by { assert Hashes(1) == "#"; }
    assert HeadingKey(2, "B") == "## B" by { assert Hashes(2) == "##"; }
    assert tokens[..2][..1] == tokens[..1] && tokens[..1][..0] == [];
    assert NodeOf(idx, tokens[0], 0) == Some(Heading(1, "A", 1, []));
    assert Nodes(idx, tokens[..1]) == [Heading(1, "A", 1, [])];
    assert Cursor(idx, tokens[..1]) == 1;
    assert NodeOf(idx, tokens[1], 1) == Some(Heading(2, "B", 3, []));
    assert Nodes(idx, tokens[..2]) == [Heading(1, "A", 1, []), Heading(2, "B", 3, [])];
    assert Cursor(idx, tokens[..2]) == 3;
    assert FirstAfter([4, 5], 3) == 4;
    assert NodeOf(idx, tokens[2], 3) == Some(ListBlock(Unordered, 2, 4));
  }

  /** The h2 and the list nest under the h1, and the list under the h2. */
  lemma DocumentTree(h1: Node, h2: Node, list: Node)
    requires h1 == Heading(1, "A", 1, []) && h2 == Heading(2, "B", 3, []) && list == ListBlock(Unordered, 2, 4)
    ensures Nest([h1, h2, list]) == [h1.(children := [h2.(children := [list])])]
  {
    assert Nest([list]) == [list];
    assert [h2, list][1..] == [list] && [h2, list][1..2] == [list] && [h2, list][2..] == [];
    assert Scope([list], 2) == 1;
    assert Nest([h2, list]) == [h2.(children := [list])];
    assert [h1, h2, list][1..] == [h2, list] && [h1, h2, list][1..3] == [h2, list] && [h1, h2, list][3..] == [];
    assert Scope([list], 1) == 1;
    assert Scope([h2, list], 1) == 2;
  }

  /**
   * The whole pass on the document: the h1 takes its line 1, the h2 its
   * line 3, and the list the first list-item line after the h2, line 4.
   */
  lemma DocumentStructure(text: string, tokens: seq<Token>)
    requires text == "# A\n\n## B\n- x\n- y"
    requires tokens == [HeadingToken(Some(1), Plain("A")), HeadingToken(Some(2), Plain("B")), ListToken(None, 2)]
    ensures Structure(text, tokens) == [Heading(1, "A", 1, [Heading(2, "B", 3, [ListBlock(Unordered, 2, 4)])])]
  {
    DocumentLines(text);
    var lines := ["# A", "", "## B", "- x", "- y"];
    DocumentIndex(lines);
    var idx := LineIndex(map["# A" := 1, "## B" := 3], [], [4, 5]);
    DocumentNodes(idx, tokens);
    DocumentTree(Heading(1, "A", 1, []), Heading(2, "B", 3, []), ListBlock(Unordered, 2, 4));
  }
}
