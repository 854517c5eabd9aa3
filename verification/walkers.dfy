/**
 * The two walkers over the extracted tree: `format_node` inside `print_yaml`,
 * which renders the tree as indented YAML-like lines, and `count` inside
 * `print_stat`, which tallies headings of levels 1 to 5, code blocks and
 * lists at every depth.
 */
module Walkers {
  import opened Text
  import opened Tree

  // ---------------------------------------------------------------------------
  // print_yaml.format_node
  // ---------------------------------------------------------------------------

  /** `"  " * indent`. */
  function Indent(indent: nat): string {
    Repeat(' ', 2 * indent)
  }

  /** The heading levels that have a key among "h1" to "h5", which both walkers look for. */
  predicate Listed(level: int) {
    1 <= level <= 5
  }

  function StyleName(s: Style): string {
    if s == Ordered then "ordered" else "unordered"
  }

  /**
   * The line a node renders for itself. A heading renders one only when it
   * has a "children" key (it has children) and a key among "h1" to "h5";
   * a code block and a list always render one.
   */
  function NodeLine(n: Node, indent: nat): seq<string> {
    if Printable(n) then [Indent(indent) + "- " + Entry(n)] else []
  }

  /** What follows the dash of a node's own line. */
  function Entry(n: Node): string
    requires Printable(n)
  {
    match n
    case Heading(level, text, line, _) => "h" + NatToString(level) + ": " + text + " @ " + NatToString(line)
    case Code(tag, line) => "code: " + tag + " @ " + NatToString(line)
    case ListBlock(style, count, line) =>
      "list: " + StyleName(style) + " (" + NatToString(count) + " items) @ " + NatToString(line)
  }

  /**
   * `format_node`: the node's own line, then its children one level deeper;
   * one line for the node when it is printable, plus one per printable node below it.
   */
  function FormatNode(n: Node, indent: nat): (r: seq<string>)
    ensures |r| == (if Printable(n) then 1 else 0) + (if n.Heading? then PrintableCount(n.children) else 0)
  {
    NodeLine(n, indent) + (if n.Heading? then FormatForest(n.children, indent + 1) else [])
  }

  /**
   * The lines of a list of nodes, in order: the loop of `print_yaml` and the
   * children loop of `format_node`. There is one line per printable node at
   * any depth, and no other line.
   */
  function FormatForest(forest: seq<Node>, indent: nat): (r: seq<string>)
    ensures |r| == PrintableCount(forest)
  {
    if forest == [] then [] else FormatNode(forest[0], indent) + FormatForest(forest[1..], indent)
  }

  /** A node that renders a line of its own. */
  predicate Printable(n: Node) {
    n.Code? || n.ListBlock? || (n.Heading? && n.children != [] && Listed(n.level))
  }

  /** The number of printable nodes at any depth of `forest`. */
  function PrintableCount(forest: seq<Node>): nat {
    if forest == [] then 0
    else
      var first := forest[0];
      (if Printable(first) then 1 else 0)
      + (if first.Heading? then PrintableCount(first.children) else 0)
      + PrintableCount(forest[1..])
  }

  /** A listed heading that renders no line of its own because it has no children. */
  predicate SilentHeading(n: Node) {
    n.Heading? && n.children == [] && Listed(n.level)
  }

  /** The number of silent headings at any depth of `forest`. */
  function SilentCount(forest: seq<Node>): nat {
    if forest == [] then 0
    else
      var first := forest[0];
      (if SilentHeading(first) then 1 else 0)
      + (if first.Heading? then SilentCount(first.children) else 0)
      + SilentCount(forest[1..])
  }

  /** A node renders one line exactly when it is printable. */
  lemma NodeLineCount(n: Node, indent: nat)
    ensures |NodeLine(n, indent)| == if Printable(n) then 1 else 0
  {
  }

  /** The number of leading two-space indentation steps of `line`. */
  function Depth(line: string): nat
    decreases |line|
  {
    if |line| >= 2 && line[0] == ' ' && line[1] == ' ' then 1 + Depth(line[2..]) else 0
  }

  /** `line` is an entry at its own depth: its indentation is followed by "- ". */
  predicate IsEntry(line: string) {
    StartsWith(line, Indent(Depth(line)) + "- ")
  }

  /** Every line is an entry nested `indent` steps deep or deeper. */
  predicate EntriesFrom(lines: seq<string>, indent: nat) {
    forall i :: 0 <= i < |lines| ==> indent <= Depth(lines[i]) && IsEntry(lines[i])
  }

  /** Indentation of `k` steps in front of a dash is read back as depth `k`. */
  lemma {:induction false} DepthOfIndented(k: nat, rest: string)
    requires |rest| > 0 && rest[0] == '-'
    ensures Depth(Indent(k) + rest) == k
  {
    if k > 0 {
      assert Indent(k) == "  " + Indent(k - 1);
      assert Indent(k) + rest == "  " + (Indent(k - 1) + rest);
      assert (Indent(k) + rest)[2..] == Indent(k - 1) + rest;
      DepthOfIndented(k - 1, rest);
    } else {
      assert Indent(k) + rest == rest;
    }
  }

  /** A line built as `k` indentation steps, a dash and a space is an entry at depth `k`. */
  lemma EntryLine(k: nat, tail: string)
    ensures Depth(Indent(k) + "- " + tail) == k
    ensures IsEntry(Indent(k) + "- " + tail)
  {
    var line := Indent(k) + "- " + tail;
    var p := Indent(k) + "- ";
    assert line == Indent(k) + ("- " + tail);
    DepthOfIndented(k, "- " + tail);
    assert line[..|p|] == p;
  }

  lemma EntriesConcat(a: seq<string>, b: seq<string>, indent: nat)
    requires EntriesFrom(a, indent) && EntriesFrom(b, indent)
    ensures EntriesFrom(a + b, indent)
  {
    forall i | 0 <= i < |a + b|
      ensures indent <= Depth((a + b)[i]) && IsEntry((a + b)[i])
    {
      if i < |a| {
        assert (a + b)[i] == a[i];
      } else {
        assert (a + b)[i] == b[i - |a|];
      }
    }
  }

  /** A node's own line, when it has one, is an entry at exactly the depth it is rendered at. */
  lemma NodeLineAt(n: Node, indent: nat)
    ensures EntriesFrom(NodeLine(n, indent), indent)
    ensures forall i :: 0 <= i < |NodeLine(n, indent)| ==> Depth(NodeLine(n, indent)[i]) == indent
  {
    if Printable(n) {
      EntryLine(indent, Entry(n));
    }
  }

  /** Every rendered line is an entry at the starting depth or deeper. */
  lemma {:induction false} FormatIndented(forest: seq<Node>, indent: nat)
    ensures EntriesFrom(FormatForest(forest, indent), indent)
    decreases forest
  {
    if forest != [] {
      var first := forest[0];
      var own := NodeLine(first, indent);
      var kids := if first.Heading? then FormatForest(first.children, indent + 1) else [];
      var rest := FormatForest(forest[1..], indent);
      NodeLineAt(first, indent);
      if first.Heading? {
        FormatIndented(first.children, indent + 1);
      }
      assert EntriesFrom(kids, indent);
      FormatIndented(forest[1..], indent);
      EntriesConcat(own, kids, indent);
      EntriesConcat(own + kids, rest, indent);
      assert FormatForest(forest, indent) == own + kids + rest;
    }
  }

  /** A heading without children renders nothing of its own, and a heading of level 6 or more renders only its children. */
  lemma SilentHeadings(n: Node, indent: nat)
    requires n.Heading?
    ensures n.children == [] ==> FormatNode(n, indent) == []
    ensures !Listed(n.level) ==> FormatNode(n, indent) == FormatForest(n.children, indent + 1)
  {
  }

  // ---------------------------------------------------------------------------
  // print_stat.count
  // ---------------------------------------------------------------------------

  /** The seven counters of `print_stat`. */
  datatype Counts = Counts(h1: nat, h2: nat, h3: nat, h4: nat, h5: nat, codeBlocks: nat, lists: nat)
  {
    function Plus(o: Counts): Counts {
      Counts(h1 + o.h1, h2 + o.h2, h3 + o.h3, h4 + o.h4, h5 + o.h5, codeBlocks + o.codeBlocks, lists + o.lists)
    }

    function Total(): nat {
      h1 + h2 + h3 + h4 + h5 + codeBlocks + lists
    }
  }

  /** All seven counters at 0. */
  function Zero(): Counts {
    Counts(0, 0, 0, 0, 0, 0, 0)
  }

  lemma PlusAssoc(a: Counts, b: Counts, c: Counts)
    ensures a.Plus(b).Plus(c) == a.Plus(b.Plus(c))
  {
  }

  lemma PlusZero(a: Counts)
    ensures a.Plus(Zero()) == a && Zero().Plus(a) == a
  {
  }

  /** What one node adds, leaving its children aside: its heading level if 1 to 5, a code block, or a list. */
  function NodeCount(n: Node): Counts {
    match n
    case Heading(level, _, _, _) =>
      if level == 1 then Zero().(h1 := 1)
      else if level == 2 then Zero().(h2 := 1)
      else if level == 3 then Zero().(h3 := 1)
      else if level == 4 then Zero().(h4 := 1)
      else if level == 5 then Zero().(h5 := 1)
      else Zero()
    case Code(_, _) => Zero().(codeBlocks := 1)
    case ListBlock(_, _, _) => Zero().(lists := 1)
  }

  /** The counters after counting `forest` from zero: each node, then everything below it. */
  function Tally(forest: seq<Node>): Counts {
    if forest == [] then Zero()
    else
      var last := forest[|forest| - 1];
      Tally(forest[..|forest| - 1]).Plus(NodeCount(last)).Plus(if last.Heading? then Tally(last.children) else Zero())
  }

  /** The counters over a flat sequence of nodes, children ignored. */
  function TallyFlat(items: seq<Node>): Counts {
    if items == [] then Zero()
    else NodeCount(items[0]).Plus(TallyFlat(items[1..]))
  }

  /** Each node bumps at most one counter, and bumps none exactly when it is a heading of level 6 or another unlisted level. */
  lemma NodeCountAtMostOne(n: Node)
    ensures NodeCount(n).Total() <= 1
    ensures NodeCount(n).Total() == 0 <==> n.Heading? && !Listed(n.level)
  {
  }

  /** A heading of level 6 or more is not counted itself, but everything below it still is. */
  lemma UnlistedNotCounted(forest: seq<Node>, n: Node)
    requires n.Heading? && !Listed(n.level)
    ensures Tally(forest + [n]) == Tally(forest).Plus(Tally(n.children))
  {
    var all := forest + [n];
    assert all[..|all| - 1] == forest && all[|all| - 1] == n;
    assert NodeCount(n) == Zero();
    PlusZero(Tally(forest));
  }

  lemma {:induction false} TallyFlatAppend(a: seq<Node>, b: seq<Node>)
    ensures TallyFlat(a + b) == TallyFlat(a).Plus(TallyFlat(b))
  {
    if a != [] {
      assert (a + b)[0] == a[0] && (a + b)[1..] == a[1..] + b;
      TallyFlatAppend(a[1..], b);
      PlusAssoc(NodeCount(a[0]), TallyFlat(a[1..]), TallyFlat(b));
    } else {
      assert a + b == b;
      PlusZero(TallyFlat(b));
    }
  }

  /** What a node contributes with everything below it. */
  function NodeTally(n: Node): Counts {
    NodeCount(n).Plus(if n.Heading? then Tally(n.children) else Zero())
  }

  lemma {:induction false} TallyCons(n: Node, rest: seq<Node>)
    ensures Tally([n] + rest) == NodeTally(n).Plus(Tally(rest))
    decreases |rest|
  {
    if rest == [] {
      assert [n] + rest == [n];
      TallySingle(n);
      PlusZero(NodeTally(n));
    } else {
      var init, last := rest[..|rest| - 1], rest[|rest| - 1];
      ConsSnoc(n, rest);
      TallyCons(n, init);
      TallyConsStep(n, init, last);
    }
  }

  /** A non-empty sequence after a first node, split at its last node. */
  lemma ConsSnoc(n: Node, rest: seq<Node>)
    requires rest != []
    ensures rest == rest[..|rest| - 1] + [rest[|rest| - 1]]
    ensures [n] + rest == [n] + rest[..|rest| - 1] + [rest[|rest| - 1]]
  {
    assert rest == rest[..|rest| - 1] + [rest[|rest| - 1]];
  }

  /** The step of TallyCons: one more node at the end, given the decomposition without it. */
  lemma TallyConsStep(n: Node, init: seq<Node>, last: Node)
    requires Tally([n] + init) == NodeTally(n).Plus(Tally(init))
    ensures Tally([n] + init + [last]) == NodeTally(n).Plus(Tally(init + [last]))
  {
    var below := if last.Heading? then Tally(last.children) else Zero();
    TallySnoc([n] + init, last);
    TallySnoc(init, last);
    SnocAlgebra(NodeTally(n), Tally(init), NodeCount(last), below,
                Tally([n] + init + [last]), Tally(init + [last]));
  }

  /** The counter arithmetic of TallyConsStep. */
  lemma SnocAlgebra(a: Counts, t: Counts, c: Counts, b: Counts, whole: Counts, rest: Counts)
    requires whole == a.Plus(t).Plus(c).Plus(b)
    requires rest == t.Plus(c).Plus(b)
    ensures whole == a.Plus(rest)
  {
  }

  /** Counting a sequence with one more node at its end. */
  lemma TallySnoc(s: seq<Node>, x: Node)
    ensures Tally(s + [x]) == Tally(s).Plus(NodeCount(x)).Plus(if x.Heading? then Tally(x.children) else Zero())
  {
    assert (s + [x])[..|s|] == s;
  }

  /**
   * The counters do not depend on the nesting: counting the tree gives the
   * same totals as counting its nodes in pre-order, children ignored.
   */
  lemma {:induction false} TallyFlatten(forest: seq<Node>)
    ensures Tally(forest) == TallyFlat(Flatten(forest))
    decreases forest
  {
    if forest != [] {
      var first := forest[0];
      if first.Heading? {
        TallyFlatten(first.children);
      }
      TallyFlatten(forest[1..]);
      TallyOfCons(forest);
      FlatTallyOfCons(forest);
    }
  }

  /** The tree count of a non-empty forest, given the flat counts of the first node's children and of the rest. */
  lemma TallyOfCons(forest: seq<Node>)
    requires forest != []
    requires Tally(Kids(forest[0])) == TallyFlat(Flatten(Kids(forest[0])))
    requires Tally(forest[1..]) == TallyFlat(Flatten(forest[1..]))
    ensures Tally(forest) == NodeCount(forest[0]).Plus(TallyFlat(Flatten(Kids(forest[0])))).Plus(TallyFlat(Flatten(forest[1..])))
  {
    var first := forest[0];
    assert NodeTally(first) == NodeCount(first).Plus(TallyFlat(Flatten(Kids(first))));
    TallyFront(forest);
  }

  /** The flat count of the pre-order listing of a non-empty forest: the first node, its descendants, then the rest. */
  lemma FlatTallyOfCons(forest: seq<Node>)
    requires forest != []
    ensures TallyFlat(Flatten(forest)) == NodeCount(forest[0]).Plus(TallyFlat(Flatten(Kids(forest[0])))).Plus(TallyFlat(Flatten(forest[1..])))
  {
    var first := forest[0];
    var kidsFlat := Flatten(Kids(first));
    assert Flatten(forest) == [Bare(first)] + kidsFlat + Flatten(forest[1..]);
    TallyFlatAppend([Bare(first)] + kidsFlat, Flatten(forest[1..]));
    TallyFlatAppend([Bare(first)], kidsFlat);
    TallyFlatSingle(Bare(first));
    BareCount(first);
  }

  /** Dropping a node's children leaves what it adds by itself unchanged. */
  lemma BareCount(n: Node)
    ensures NodeCount(Bare(n)) == NodeCount(n)
  {
  }

  lemma TallyFront(forest: seq<Node>)
    requires forest != []
    ensures Tally(forest) == NodeTally(forest[0]).Plus(Tally(forest[1..]))
  {
    assert forest == [forest[0]] + forest[1..];
    TallyCons(forest[0], forest[1..]);
  }

  lemma TallyFlatSingle(n: Node)
    ensures TallyFlat([n]) == NodeCount(n)
  {
    assert [n][1..] == [];
    PlusZero(NodeCount(n));
  }

  /** Counting one more node of a list adds that node, then everything below it. */
  lemma TallyStep(nodes: seq<Node>, i: int)
    requires 0 <= i < |nodes|
    ensures Tally(nodes[..i + 1])
            == Tally(nodes[..i]).Plus(NodeCount(nodes[i])).Plus(if nodes[i].Heading? then Tally(nodes[i].children) else Zero())
  {
    assert nodes[..i + 1][..i] == nodes[..i];
  }

  lemma TotalPlus(a: Counts, b: Counts)
    ensures a.Plus(b).Total() == a.Total() + b.Total()
  {
  }

  /** A node is counted exactly when it renders a line of its own or is a listed heading without children. */
  lemma NodeCountSplit(n: Node)
    ensures NodeCount(n).Total() == (if Printable(n) then 1 else 0) + (if SilentHeading(n) then 1 else 0)
  {
    NodeCountAtMostOne(n);
  }

  /** A node that bumps a counter: a code block, a list, or a heading of level 1 to 5. */
  predicate Counted(n: Node) {
    !n.Heading? || Listed(n.level)
  }

  /** The number of counted nodes at any depth of `forest`. */
  function CountedNodes(forest: seq<Node>): nat {
    if forest == [] then 0
    else
      var first := forest[0];
      (if Counted(first) then 1 else 0)
      + (if first.Heading? then CountedNodes(first.children) else 0)
      + CountedNodes(forest[1..])
  }

  /** The counters add up to the number of counted nodes. */
  lemma {:induction false} TallyTotal(forest: seq<Node>)
    ensures Tally(forest).Total() == CountedNodes(forest)
    decreases forest
  {
    if forest != [] {
      var first, rest := forest[0], forest[1..];
      if first.Heading? {
        TallyTotal(first.children);
      }
      TallyTotal(rest);
      TallyTotalAt(forest);
    }
  }

  lemma TallyTotalAt(forest: seq<Node>)
    requires forest != []
    requires forest[0].Heading? ==> Tally(forest[0].children).Total() == CountedNodes(forest[0].children)
    requires Tally(forest[1..]).Total() == CountedNodes(forest[1..])
    ensures Tally(forest).Total() == CountedNodes(forest)
  {
    var n, rest := forest[0], forest[1..];
    assert Tally(forest) == NodeTally(n).Plus(Tally(rest)) by {
      TallyFront(forest);
    }
    NodeTallyTotal(n);
    TotalPlus(NodeTally(n), Tally(rest));
  }

  lemma NodeTallyTotal(n: Node)
    requires n.Heading? ==> Tally(n.children).Total() == CountedNodes(n.children)
    ensures NodeTally(n).Total() == (if Counted(n) then 1 else 0) + (if n.Heading? then CountedNodes(n.children) else 0)
  {
    NodeCountAtMostOne(n);
    TotalPlus(NodeCount(n), if n.Heading? then Tally(n.children) else Zero());
  }

  /** Every counted node, at any depth, is either printable or a silent heading. */
  lemma {:induction false} CountedSplit(forest: seq<Node>)
    ensures PrintableCount(forest) + SilentCount(forest) == CountedNodes(forest)
    decreases forest
  {
    if forest != [] {
      var first := forest[0];
      if first.Heading? {
        CountedSplit(first.children);
      }
      CountedSplit(forest[1..]);
    }
  }

  /** Printing and counting agree: every counted node renders one line, except listed headings without children. */
  lemma PrintedVersusCounted(forest: seq<Node>, indent: nat)
    ensures |FormatForest(forest, indent)| + SilentCount(forest) == Tally(forest).Total()
  {
    CountedSplit(forest);
    TallyTotal(forest);
  }

  /** A single node renders its own line, then its children one step deeper. */
  lemma FormatSingle(n: Node, indent: nat)
    ensures FormatForest([n], indent) == NodeLine(n, indent) + (if n.Heading? then FormatForest(n.children, indent + 1) else [])
  {
    assert [n][1..] == [];
  }

  /** A single node is counted with everything below it. */
  lemma TallySingle(n: Node)
    ensures Tally([n]) == NodeTally(n)
  {
    assert [n][..0] == [];
    PlusZero(NodeCount(n));
  }

  /** The counters of `print_stat`, updated in place while the walk recurses. */
  class Stats {
    var totalH1: nat
    var totalH2: nat
    var totalH3: nat
    var totalH4: nat
    var totalH5: nat
    var totalCodeBlocks: nat
    var totalLists: nat

    function Value(): Counts
      reads this
    {
      Counts(totalH1, totalH2, totalH3, totalH4, totalH5, totalCodeBlocks, totalLists)
    }

    /** All seven counters start at 0. */
    constructor ()
      ensures Value() == Zero()
    {
      totalH1, totalH2, totalH3, totalH4, totalH5 := 0, 0, 0, 0, 0;
      totalCodeBlocks, totalLists := 0, 0;
    }

    /**
     * The bumps `count` makes for one node, its children aside: the first of
     * "h1" to "h5" that names its level, then the code block and list counters.
     */
    method Bump(node: Node)
      modifies this
      ensures Value() == old(Value()).Plus(NodeCount(node))
    {
      if node.Heading? {
        if node.level == 1 {
          totalH1 := totalH1 + 1;
        } else if node.level == 2 {
          totalH2 := totalH2 + 1;
        } else if node.level == 3 {
          totalH3 := totalH3 + 1;
        } else if node.level == 4 {
          totalH4 := totalH4 + 1;
        } else if node.level == 5 {
          totalH5 := totalH5 + 1;
        }
      }
      if node.Code? {
        totalCodeBlocks := totalCodeBlocks + 1;
      }
      if node.ListBlock? {
        totalLists := totalLists + 1;
      }
    }

    /** `count`: adds the tally of `nodes`, at every depth, to the counters. */
    method Count(nodes: seq<Node>)
      modifies this
      ensures Value() == old(Value()).Plus(Tally(nodes))
      decreases nodes
    {
      for i := 0 to |nodes|
        invariant Value() == old(Value()).Plus(Tally(nodes[..i]))
      {
        var node := nodes[i];
        Bump(node);
        ghost var bumped := Value();
        if node.Heading? && node.children != [] {
          Count(node.children);
        } else {
          PlusZero(bumped);
        }
        ghost var below := if node.Heading? then Tally(node.children) else Zero();
        assert Value() == bumped.Plus(below);
        TallyStep(nodes, i);
        PlusAssoc(old(Value()), Tally(nodes[..i]), NodeCount(node));
        PlusAssoc(old(Value()), Tally(nodes[..i]).Plus(NodeCount(node)), below);
      }
      assert nodes[..|nodes|] == nodes;
    }
  }

  /** `print_stat` without the printing: the final counter values for a tree. */
  method PrintStat(root: seq<Node>) returns (c: Counts)
    ensures c == Tally(root)
  {
    var stats := new Stats();
    stats.Count(root);
    c := stats.Value();
  }
}
