/**
 * Worked examples of the two reports on small trees.
 */
module Examples {
  import opened Text
  import opened Tree
  import opened Walkers

  /** The lead of a line: its indentation, a dash and a space. */
  lemma Leads()
    ensures Indent(0) + "- " == "- "
    ensures Indent(1) + "- " == "  - "
    ensures Indent(2) + "- " == "    - "
  {
    assert Indent(0) == "";
    assert Indent(1) == "  ";
    assert Indent(2) == "    ";
  }

  /** A printable node's line is its lead followed by its entry. */
  lemma LineOf(n: Node, indent: nat, lead: string, entry: string)
    requires Printable(n) && Indent(indent) + "- " == lead && Entry(n) == entry
    ensures NodeLine(n, indent) == [lead + entry]
  {
  }

  lemma DeepCodeLineExample(code: Node)
    requires code == Code("py", 4)
    ensures NodeLine(code, 2) == ["    - code: py @ 4"]
  {
    assert Entry(code) == "code: py @ 4" by {
      assert NatToString(4) == "4";
    }
    Leads();
    LineOf(code, 2, "    - ", "code: py @ 4");
    assert "    - " + "code: py @ 4" == "    - code: py @ 4";
  }

  lemma SubLineExample(sub: Node)
    requires sub.Heading? && sub.level == 2 && sub.text == "B" && sub.line == 3 && sub.children != []
    ensures NodeLine(sub, 1) == ["  - h2: B @ 3"]
  {
    assert Entry(sub) == "h2: B @ 3" by {
      assert NatToString(2) == "2" && NatToString(3) == "3";
    }
    Leads();
    LineOf(sub, 1, "  - ", "h2: B @ 3");
    assert "  - " + "h2: B @ 3" == "  - h2: B @ 3";
  }

  lemma TopLineExample(top: Node)
    requires top.Heading? && top.level == 1 && top.text == "A" && top.line == 1 && top.children != []
    ensures NodeLine(top, 0) == ["- h1: A @ 1"]
  {
    assert Entry(top) == "h1: A @ 1" by {
      assert NatToString(1) == "1";
    }
    Leads();
    LineOf(top, 0, "- ", "h1: A @ 1");
    assert "- " + "h1: A @ 1" == "- h1: A @ 1";
  }

  lemma CodeLineExample(code: Node)
    requires code == Code("py", 8)
    ensures NodeLine(code, 1) == ["  - code: py @ 8"]
  {
    assert Entry(code) == "code: py @ 8" by {
      assert NatToString(8) == "8";
    }
    Leads();
    LineOf(code, 1, "  - ", "code: py @ 8");
    assert "  - " + "code: py @ 8" == "  - code: py @ 8";
  }

  /** A two-level document renders one line per entry, each child two spaces deeper. */
  lemma RenderExample(code: Node, sub: Node, top: Node)
    requires code == Code("py", 4)
    requires sub == Heading(2, "B", 3, [code])
    requires top == Heading(1, "A", 1, [sub])
    ensures FormatForest([top], 0) == ["- h1: A @ 1", "  - h2: B @ 3", "    - code: py @ 4"]
  {
    DeepCodeLineExample(code);
    SubLineExample(sub);
    TopLineExample(top);
    FormatSingle(code, 2);
    FormatSingle(sub, 1);
    FormatSingle(top, 0);
  }

  /** A document with a list under two headings is counted once per node: one h1, one h2 and one list. */
  lemma CountExample(list: Node, sub: Node, top: Node)
    requires list == ListBlock(Unordered, 2, 4)
    requires sub == Heading(2, "B", 3, [list])
    requires top == Heading(1, "A", 1, [sub])
    ensures Tally([top]) == Counts(1, 1, 0, 0, 0, 0, 1)
  {
    assert Tally(sub.children) == Counts(0, 0, 0, 0, 0, 0, 1) by {
      TallySingle(list);
    }
    assert Tally(top.children) == Counts(0, 1, 0, 0, 0, 0, 1) by {
      TallySingle(sub);
    }
    TallySingle(top);
  }

  /**
   * A listed heading without children prints nothing, and a level 6 heading
   * prints only its child; the first is still counted, the second is not,
   * and its child is.
   */
  lemma SilentExample(empty: Node, deep: Node, code: Node)
    requires empty == Heading(2, "Empty", 5, [])
    requires code == Code("py", 8)
    requires deep == Heading(6, "Deep", 7, [code])
    ensures FormatForest([empty, deep], 0) == ["  - code: py @ 8"]
    ensures Tally([empty, deep]) == Counts(0, 1, 0, 0, 0, 1, 0)
  {
    CodeLineExample(code);
    FormatSingle(code, 1);
    FormatSingle(deep, 0);
    assert [empty, deep][1..] == [deep];
    assert Tally(deep.children) == Counts(0, 0, 0, 0, 0, 1, 0) by {
      TallySingle(code);
    }
    assert Tally(empty.children) == Zero();
    assert [empty, deep] == [empty] + [deep];
    TallySingle(deep);
    TallyCons(empty, [deep]);
  }
}
