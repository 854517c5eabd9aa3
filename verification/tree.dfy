/**
 * The extracted tree and how it grows. The extractor keeps a stack of open
 * headings and appends each new node to the children of the stack top (or to
 * the root list); because every node is appended at the end, the open
 * headings are always the chain of last children running down from the root
 * (the right spine), so appending "under the stack top" is appending at a
 * depth along that spine. `Attach` is that step; `Nest` is an independent,
 * recursive-descent definition of the same tree, and NestSnoc ties them.
 */
module Tree {
  import opened Ordering

  datatype Style = Ordered | Unordered

  /**
   * A node of the tree. The source adds a heading's "children" key just
   * before appending its first child, so the key is present exactly when
   * `children` is not empty.
   */
  datatype Node =
    | Heading(level: int, text: string, line: nat, children: seq<Node>)
    | Code(tag: string, line: nat)
    | ListBlock(style: Style, count: nat, line: nat)

  /** The children of a node, empty when it has none. */
  function Kids(n: Node): seq<Node> {
    if n.Heading? then n.children else []
  }

  /** A node as the token pass produces it, before anything is nested under it. */
  predicate Leafy(n: Node) {
    !n.Heading? || n.children == []
  }

  /** The node with its children dropped. */
  function Bare(n: Node): Node {
    if n.Heading? then n.(children := []) else n
  }

  /** `n` may sit under an open heading of level `level`: it is not a heading, or a deeper one. */
  predicate Above(n: Node, level: int) {
    !n.Heading? || n.level > level
  }

  /** The open heading `h` takes `x` as a descendant rather than being closed by it. */
  predicate Opens(h: Node, x: Node) {
    h.Heading? && Above(x, h.level)
  }

  /** The levels of the open headings: the right spine of headings, outermost first. */
  function SpineLevels(forest: seq<Node>): seq<int>
    decreases forest
  {
    if forest != [] && forest[|forest| - 1].Heading? then
      [forest[|forest| - 1].level] + SpineLevels(Kids(forest[|forest| - 1]))
    else []
  }

  /**
   * One step of assembly: `x` goes down the right spine while the last node
   * is a heading that opens for it, and is appended to the children list
   * where that stops (the root list when no heading opens for it).
   */
  function Attach(forest: seq<Node>, x: Node): seq<Node>
    decreases forest
  {
    if forest != [] && Opens(forest[|forest| - 1], x) then
      var last := forest[|forest| - 1];
      forest[..|forest| - 1] + [last.(children := Attach(Kids(last), x))]
    else forest + [x]
  }

  /**
   * Appending under the open heading at `depth` on the right spine (depth 0
   * is the root list); its children list is created if absent.
   */
  function AppendAt(forest: seq<Node>, depth: nat, x: Node): seq<Node>
    requires depth <= |SpineLevels(forest)|
    decreases forest
  {
    if depth == 0 then forest + [x]
    else
      var last := forest[|forest| - 1];
      forest[..|forest| - 1] + [last.(children := AppendAt(Kids(last), depth - 1, x))]
  }

  /** The levels of `levels` below `level`, up to the first that is not. */
  function Below(levels: seq<int>, level: int): seq<int> {
    if levels != [] && levels[0] < level then [levels[0]] + Below(levels[1..], level) else []
  }

  /** Pre-order listing of every node, children dropped: the order in which the tokens produced them. */
  function Flatten(forest: seq<Node>): seq<Node>
    decreases forest
  {
    if forest == [] then []
    else
      var first := forest[0];
      [Bare(first)] + (if first.Heading? then Flatten(first.children) else []) + Flatten(forest[1..])
  }

  /** The length of the longest prefix of `rest` that a heading of `level` takes as descendants. */
  function Scope(rest: seq<Node>, level: int): (k: nat)
    ensures k <= |rest|
  {
    if rest == [] || !Above(rest[0], level) then 0 else 1 + Scope(rest[1..], level)
  }

  /** The scope is the longest prefix of nodes deeper than `level`. */
  lemma {:induction false} ScopeSpec(rest: seq<Node>, level: int)
    ensures forall i :: 0 <= i < Scope(rest, level) ==> Above(rest[i], level)
    ensures Scope(rest, level) < |rest| ==> !Above(rest[Scope(rest, level)], level)
  {
    if rest != [] && Above(rest[0], level) {
      ScopeSpec(rest[1..], level);
    }
  }

  /**
   * The reference tree of a flat node sequence: a heading takes as
   * descendants every following node up to the next heading of the same or
   * a smaller level; other nodes stand alone.
   */
  function Nest(items: seq<Node>): seq<Node>
    decreases |items|
  {
    if items == [] then []
    else if items[0].Heading? then
      var k := Scope(items[1..], items[0].level);
      [items[0].(children := Nest(items[1..k + 1]))] + Nest(items[k + 1..])
    else [items[0]] + Nest(items[1..])
  }

  /**
   * The shape every assembled tree has: every heading among a heading's
   * children is deeper than that heading.
   */
  predicate WellFormed(forest: seq<Node>)
    decreases forest
  {
    forest == [] ||
    (var first := forest[0];
     (first.Heading? ==>
        (forall i :: 0 <= i < |first.children| ==> Above(first.children[i], first.level))
        && WellFormed(first.children))
     && WellFormed(forest[1..]))
  }

  // ---------------------------------------------------------------------------
  // The step and the stack
  // ---------------------------------------------------------------------------

  /**
   * Parent selection: when every open heading down to `depth` opens for `x`
   * and the next one (if any) does not, `x` is appended under the open
   * heading at `depth`.
   */
  lemma {:induction false} AttachIsAppendAt(forest: seq<Node>, depth: nat, x: Node)
    requires depth <= |SpineLevels(forest)|
    requires forall j :: 0 <= j < depth ==> Above(x, SpineLevels(forest)[j])
    requires depth < |SpineLevels(forest)| ==> !Above(x, SpineLevels(forest)[depth])
    ensures Attach(forest, x) == AppendAt(forest, depth, x)
    decreases forest
  {
    if depth > 0 {
      var last := forest[|forest| - 1];
      assert SpineLevels(forest) == [last.level] + SpineLevels(Kids(last));
      var inner := SpineLevels(Kids(last));
      assert Above(x, SpineLevels(forest)[0]);
      assert forall j :: 0 <= j < |inner| ==> inner[j] == SpineLevels(forest)[j + 1];
      AttachIsAppendAt(Kids(last), depth - 1, x);
    }
  }

  /** A node appended at the top level ends the spine: only its own spine remains. */
  lemma SpineSnoc(forest: seq<Node>, x: Node)
    ensures SpineLevels(forest + [x]) == SpineLevels([x])
  {
    assert (forest + [x])[|forest + [x]| - 1] == x;
  }

  /** Appending at `depth` keeps the open headings above it and opens `x` and its own spine below them. */
  lemma {:induction false} SpineAppendAt(forest: seq<Node>, depth: nat, x: Node)
    requires depth <= |SpineLevels(forest)|
    ensures SpineLevels(AppendAt(forest, depth, x))
            == SpineLevels(forest)[..depth] + SpineLevels([x])
    decreases forest
  {
    if depth == 0 {
      SpineSnoc(forest, x);
      assert SpineLevels(forest)[..0] == [];
    } else {
      var last := forest[|forest| - 1];
      assert SpineLevels(forest) == [last.level] + SpineLevels(last.children);
      SpineAppendAt(last.children, depth - 1, x);
      SpineAppendAtStep(forest, depth, x);
    }
  }

  /** SpineAppendAt one level down, given that it holds for the children of the last heading. */
  lemma SpineAppendAtStep(forest: seq<Node>, depth: nat, x: Node)
    requires 0 < depth <= |SpineLevels(forest)|
    requires forest != [] && forest[|forest| - 1].Heading?
    requires var kids := forest[|forest| - 1].children;
      depth - 1 <= |SpineLevels(kids)| &&
      SpineLevels(AppendAt(kids, depth - 1, x)) == SpineLevels(kids)[..depth - 1] + SpineLevels([x])
    ensures SpineLevels(AppendAt(forest, depth, x))
            == SpineLevels(forest)[..depth] + SpineLevels([x])
  {
    var Heading(level, text, line, kids) := forest[|forest| - 1];
    var inner := AppendAt(kids, depth - 1, x);
    var appended := AppendAt(forest, depth, x);
    assert SpineLevels(appended) == [level] + SpineLevels(inner) by {
      SpineSnoc(forest[..|forest| - 1], Heading(level, text, line, inner));
    }
    ConsTake(SpineLevels(forest), SpineLevels(appended), level, SpineLevels(kids), SpineLevels(inner), SpineLevels([x]), depth);
  }

  /** The level arithmetic of one step down the spine. */
  lemma ConsTake(full: seq<int>, appended: seq<int>, v: int, levels: seq<int>, inner: seq<int>, tail: seq<int>, d: nat)
    requires 0 < d <= |levels| + 1
    requires full == [v] + levels && appended == [v] + inner && inner == levels[..d - 1] + tail
    ensures appended == full[..d] + tail
  {
    assert full[..d] == [v] + levels[..d - 1];
  }


  /**
   * The stack after a step: attaching a heading keeps the open levels below
   * its own and then opens it; a code block or list leaves them unchanged.
   */
  lemma {:induction false} AttachSpine(forest: seq<Node>, x: Node)
    requires Leafy(x)
    ensures x.Heading? ==> SpineLevels(Attach(forest, x)) == Below(SpineLevels(forest), x.level) + [x.level]
    ensures !x.Heading? ==> SpineLevels(Attach(forest, x)) == SpineLevels(forest)
    decreases forest
  {
    var r := Attach(forest, x);
    if forest != [] && Opens(forest[|forest| - 1], x) {
      var last := forest[|forest| - 1];
      AttachSpine(Kids(last), x);
      assert r[|r| - 1] == last.(children := Attach(Kids(last), x));
      assert SpineLevels(r) == [last.level] + SpineLevels(Attach(Kids(last), x));
      assert SpineLevels(forest) == [last.level] + SpineLevels(Kids(last));
    } else {
      assert r[|r| - 1] == x;
      if x.Heading? {
        assert SpineLevels(r) == [x.level];
      }
    }
  }

  /** The open levels stay strictly increasing, outermost first. */
  lemma AttachKeepsIncreasing(forest: seq<Node>, x: Node)
    requires Leafy(x)
    requires StrictlyIncreasing(SpineLevels(forest))
    ensures StrictlyIncreasing(SpineLevels(Attach(forest, x)))
  {
    AttachSpine(forest, x);
    if x.Heading? {
      BelowIsPrefix(SpineLevels(forest), x.level);
    }
  }

  lemma {:induction false} BelowIsPrefix(levels: seq<int>, level: int)
    ensures |Below(levels, level)| <= |levels|
    ensures Below(levels, level) == levels[..|Below(levels, level)|]
    ensures forall j :: 0 <= j < |Below(levels, level)| ==> levels[j] < level
  {
    if levels != [] && levels[0] < level {
      BelowIsPrefix(levels[1..], level);
    }
  }

  /**
   * Popping the top of a strictly increasing stack while it is at least
   * `level` leaves exactly the entries below `level`.
   */
  lemma {:induction false} PoppedIsBelow(levels: seq<int>, d: nat, level: int)
    requires StrictlyIncreasing(levels)
    requires d <= |levels|
    requires d > 0 ==> levels[d - 1] < level
    requires d < |levels| ==> levels[d] >= level
    ensures Below(levels, level) == levels[..d]
  {
    if d > 0 {
      assert levels[0] < level;
      PoppedIsBelow(levels[1..], d - 1, level);
      assert levels[..d] == [levels[0]] + levels[1..][..d - 1];
    } else if levels != [] {
      assert levels[0] >= level;
    }
  }

  /**
   * A heading step as the extractor performs it: after popping the open
   * levels that are not below the new level, `d` remain; appending under the
   * one on top (or to the root list) is the assembly step, and the stack then
   * holds those `d` levels followed by the new heading's, strictly increasing.
   */
  lemma HeadingStep(forest: seq<Node>, d: nat, x: Node)
    requires x.Heading? && Leafy(x)
    requires StrictlyIncreasing(SpineLevels(forest))
    requires d <= |SpineLevels(forest)|
    requires d > 0 ==> SpineLevels(forest)[d - 1] < x.level
    requires d < |SpineLevels(forest)| ==> SpineLevels(forest)[d] >= x.level
    ensures Attach(forest, x) == AppendAt(forest, d, x)
    ensures SpineLevels(Attach(forest, x)) == SpineLevels(forest)[..d] + [x.level]
    ensures StrictlyIncreasing(SpineLevels(Attach(forest, x)))
  {
    var spine := SpineLevels(forest);
    forall j | 0 <= j < d
      ensures Above(x, spine[j])
    {
      assert j < d - 1 ==> spine[j] < spine[d - 1];
    }
    AttachIsAppendAt(forest, d, x);
    AttachSpine(forest, x);
    PoppedIsBelow(spine, d, x.level);
    AttachKeepsIncreasing(forest, x);
  }

  /**
   * A code-block or list step: the node goes under the innermost open
   * heading (or to the root list), and the open headings stay as they were.
   */
  lemma LeafStep(forest: seq<Node>, x: Node)
    requires !x.Heading?
    ensures Attach(forest, x) == AppendAt(forest, |SpineLevels(forest)|, x)
    ensures SpineLevels(Attach(forest, x)) == SpineLevels(forest)
  {
    AttachIsAppendAt(forest, |SpineLevels(forest)|, x);
    AttachSpine(forest, x);
  }

  // ---------------------------------------------------------------------------
  // The reference tree
  // ---------------------------------------------------------------------------

  lemma AttachAfterPrefix(a: seq<Node>, f: seq<Node>, x: Node)
    requires f != []
    ensures Attach(a + f, x) == a + Attach(f, x)
  {
    var af := a + f;
    assert af[|af| - 1] == f[|f| - 1];
    assert af[..|af| - 1] == a + f[..|f| - 1];
    assert af + [x] == a + (f + [x]);
  }

  /** Appending after the descendants of a heading: the scope grows by one exactly when the new node is deeper. */
  lemma {:induction false} ScopeSnoc(rest: seq<Node>, level: int, x: Node)
    ensures Scope(rest + [x], level)
            == if Scope(rest, level) < |rest| then Scope(rest, level)
               else if Above(x, level) then |rest| + 1 else |rest|
  {
    if rest != [] {
      assert (rest + [x])[0] == rest[0] && (rest + [x])[1..] == rest[1..] + [x];
      if Above(rest[0], level) {
        ScopeSnoc(rest[1..], level, x);
      }
    }
  }

  /** A single leafy node nests as itself. */
  lemma NestSingle(x: Node)
    requires Leafy(x)
    ensures Nest([x]) == [x]
  {
    assert [x][1..] == [];
  }

  /**
   * The assembly step agrees with the reference: nesting a sequence with one
   * more node is attaching that node to the nested sequence.
   */
  lemma {:induction false} NestSnoc(items: seq<Node>, x: Node)
    requires Leafy(x)
    ensures Nest(items + [x]) == Attach(Nest(items), x)
    decreases |items|, 1
  {
    var all := items + [x];
    if items == [] {
      assert all == [x];
      NestSingle(x);
    } else if items[0].Heading? {
      NestSnocHeading(items, x);
    } else {
      assert all[0] == items[0] && all[1..] == items[1..] + [x];
      NestSnoc(items[1..], x);
      assert Nest(all) == [items[0]] + Attach(Nest(items[1..]), x);
      if items[1..] == [] {
        NestSingle(x);
        assert Nest(items) == [items[0]];
      } else {
        AttachAfterPrefix([items[0]], Nest(items[1..]), x);
      }
    }
  }

  /** NestSnoc when the sequence starts with a heading: `x` lands in its scope or after it. */
  lemma {:induction false} NestSnocHeading(items: seq<Node>, x: Node)
    requires Leafy(x)
    requires items != [] && items[0].Heading?
    ensures Nest(items + [x]) == Attach(Nest(items), x)
    decreases |items|, 0
  {
    var h := items[0];
    var k := Scope(items[1..], h.level);
    ScopeSnoc(items[1..], h.level, x);
    if k < |items| - 1 {
      NestSnoc(items[k + 1..], x);
      SnocAfterScope(items, k, x);
    } else if Above(x, h.level) {
      NestSnoc(items[1..], x);
      SnocIntoScope(items, x);
    } else {
      NestSingle(x);
      SnocClosingScope(items, x);
    }
  }

  /** Nest on a sequence led by a heading whose scope is `k` nodes long. */
  lemma NestSplitAt(items: seq<Node>, k: nat)
    requires items != [] && items[0].Heading?
    requires Scope(items[1..], items[0].level) == k
    ensures Nest(items) == [items[0].(children := Nest(items[1..k + 1]))] + Nest(items[k + 1..])
  {
  }

  /** Nest on a sequence led by a heading whose scope runs to the end. */
  lemma NestWhole(items: seq<Node>)
    requires items != [] && items[0].Heading?
    requires Scope(items[1..], items[0].level) == |items| - 1
    ensures Nest(items) == [items[0].(children := Nest(items[1..]))]
  {
    WholeSlices(items);
    NestSplitAt(items, |items| - 1);
  }

  /** The slices NestSplitAt takes when the scope runs to the end. */
  lemma WholeSlices(items: seq<Node>)
    requires items != []
    ensures items[1..|items|] == items[1..] && items[|items|..] == []
    ensures Nest(items[|items|..]) == []
  {
  }

  /** Nest on a sequence led by a heading, plus one node that falls outside that heading's scope. */
  lemma NestSnocSplit(items: seq<Node>, k: nat, x: Node)
    requires items != [] && items[0].Heading?
    requires Scope(items[1..] + [x], items[0].level) == k < |items|
    ensures Nest(items + [x]) == [items[0].(children := Nest(items[1..k + 1]))] + Nest(items[k + 1..] + [x])
  {
    SnocSlices(items, x, k);
    NestSplitAt(items + [x], k);
  }

  /** How the slices of `s + [x]` that the nesting takes relate to those of `s`. */
  lemma SnocSlices(s: seq<Node>, x: Node, k: nat)
    requires k < |s|
    ensures (s + [x])[0] == s[0] && (s + [x])[1..] == s[1..] + [x]
    ensures (s + [x])[1..k + 1] == s[1..k + 1]
    ensures (s + [x])[k + 1..] == s[k + 1..] + [x]
  {
    var all := s + [x];
    assert all[1..] == s[1..] + [x];
    assert all[1..k + 1] == s[1..k + 1];
    assert all[k + 1..] == s[k + 1..] + [x];
  }

  /** Nest on a sequence led by a heading, plus one node that falls inside that heading's scope. */
  lemma NestSnocWhole(items: seq<Node>, x: Node)
    requires items != [] && items[0].Heading?
    requires Scope(items[1..] + [x], items[0].level) == |items|
    ensures Nest(items + [x]) == [items[0].(children := Nest(items[1..] + [x]))]
  {
    var all := items + [x];
    assert all[0] == items[0] && all[1..] == items[1..] + [x] by {
      SnocSlices(items, x, 0);
    }
    NestWhole(all);
  }

  /** The new node comes after the leading heading's scope, which is already closed. */
  lemma SnocAfterScope(items: seq<Node>, k: nat, x: Node)
    requires items != [] && items[0].Heading?
    requires k == Scope(items[1..], items[0].level) && k < |items| - 1
    requires Scope(items[1..] + [x], items[0].level) == k
    requires Nest(items[k + 1..] + [x]) == Attach(Nest(items[k + 1..]), x)
    ensures Nest(items + [x]) == Attach(Nest(items), x)
  {
    var head := items[0].(children := Nest(items[1..k + 1]));
    var rest := items[k + 1..];
    NestSnocSplit(items, k, x);
    NestSplitAt(items, k);
    assert Nest(rest) != [] by {
      assert rest != [];
    }
    AttachAfterPrefix([head], Nest(rest), x);
  }

  /** The new node is deeper than the leading heading, whose scope runs to the end: it joins that scope. */
  lemma SnocIntoScope(items: seq<Node>, x: Node)
    requires items != [] && items[0].Heading?
    requires Scope(items[1..], items[0].level) == |items| - 1
    requires Scope(items[1..] + [x], items[0].level) == |items|
    requires Above(x, items[0].level)
    requires Nest(items[1..] + [x]) == Attach(Nest(items[1..]), x)
    ensures Nest(items + [x]) == Attach(Nest(items), x)
  {
    NestSnocWhole(items, x);
    NestWhole(items);
    var h := items[0].(children := Nest(items[1..]));
    assert Attach([h], x) == [h.(children := Attach(Nest(items[1..]), x))];
  }

  /** The new node is a heading no deeper than the leading one, whose scope runs to the end: it closes it. */
  lemma SnocClosingScope(items: seq<Node>, x: Node)
    requires items != [] && items[0].Heading?
    requires Scope(items[1..], items[0].level) == |items| - 1
    requires Scope(items[1..] + [x], items[0].level) == |items| - 1
    requires !Above(x, items[0].level)
    requires Nest([x]) == [x]
    ensures Nest(items + [x]) == Attach(Nest(items), x)
  {
    var n := |items|;
    NestSnocSplit(items, n - 1, x);
    assert items[n..] + [x] == [x] && items[1..n] == items[1..];
    NestWhole(items);
  }

  /** Flatten of a sequence with a known first node. */
  lemma FlattenCons(n: Node, rest: seq<Node>)
    ensures Flatten([n] + rest) == [Bare(n)] + Flatten(Kids(n)) + Flatten(rest)
  {
    assert ([n] + rest)[0] == n && ([n] + rest)[1..] == rest;
  }

  /** Every node appears exactly once, in the order the tokens produced it: no node has two parents. */
  lemma {:induction false} FlattenNest(items: seq<Node>)
    requires forall i :: 0 <= i < |items| ==> Leafy(items[i])
    ensures Flatten(Nest(items)) == items
    decreases |items|
  {
    if items != [] {
      var first := items[0];
      if first.Heading? {
        var k := Scope(items[1..], first.level);
        var sub := items[1..k + 1];
        var rest := items[k + 1..];
        FlattenNest(sub);
        FlattenNest(rest);
        NestSplitAt(items, k);
        FlattenCons(first.(children := Nest(sub)), Nest(rest));
        assert Bare(first) == first;
        assert items == [first] + sub + rest;
      } else {
        FlattenNest(items[1..]);
        assert Nest(items) == [first] + Nest(items[1..]);
        FlattenCons(first, Nest(items[1..]));
        assert items == [first] + items[1..];
      }
    }
  }

  /** Nesting keeps the kind and level of the top-level nodes, so it keeps them deeper than `level`. */
  lemma {:induction false} NestKeepsAbove(items: seq<Node>, level: int)
    requires forall i :: 0 <= i < |items| ==> Above(items[i], level)
    ensures forall j :: 0 <= j < |Nest(items)| ==> Above(Nest(items)[j], level)
    decreases |items|
  {
    if items != [] {
      var n := Nest(items);
      if items[0].Heading? {
        var k := Scope(items[1..], items[0].level);
        NestKeepsAbove(items[k + 1..], level);
        assert n[1..] == Nest(items[k + 1..]);
      } else {
        NestKeepsAbove(items[1..], level);
        assert n[1..] == Nest(items[1..]);
      }
      assert Above(n[0], level);
    }
  }

  /** The reference tree is well formed: child headings are deeper than their parent. */
  lemma {:induction false} NestWellFormed(items: seq<Node>)
    ensures WellFormed(Nest(items))
    decreases |items|
  {
    if items != [] {
      var n := Nest(items);
      if items[0].Heading? {
        var level := items[0].level;
        var k := Scope(items[1..], level);
        var sub := items[1..k + 1];
        NestWellFormed(sub);
        NestWellFormed(items[k + 1..]);
        ScopeSpec(items[1..], level);
        assert forall i :: 0 <= i < |sub| ==> sub[i] == items[1..][i];
        NestKeepsAbove(sub, level);
        NestSplitAt(items, k);
        assert n[1..] == Nest(items[k + 1..]);
      } else {
        NestWellFormed(items[1..]);
        assert n[1..] == Nest(items[1..]);
      }
    }
  }

  /** The heading sequence of levels 1, 2, 3, 2: the 3 nests under the first 2, the second 2 is its sibling. */
  lemma NestLevelsExample()
    ensures var h1, h2, h3, h2b :=
              Heading(1, "a", 1, []), Heading(2, "b", 2, []), Heading(3, "c", 3, []), Heading(2, "d", 4, []);
            Nest([h1, h2, h3, h2b])
            == [h1.(children := [h2.(children := [h3]), h2b])]
  {
    var h1, h2, h3, h2b :=
      Heading(1, "a", 1, []), Heading(2, "b", 2, []), Heading(3, "c", 3, []), Heading(2, "d", 4, []);
    assert Nest([h2b]) == [h2b];
    assert Nest([h3]) == [h3];
    assert Scope([h3, h2b], 2) == 1;
    assert [h2, h3, h2b][1..2] == [h3] && [h2, h3, h2b][2..] == [h2b];
    assert Nest([h2, h3, h2b]) == [h2.(children := [h3]), h2b];
    assert [h2b][1..] == [] && [h3, h2b][1..] == [h2b] && [h2, h3, h2b][1..] == [h3, h2b];
    assert Scope([h2b], 1) == 1;
    assert Scope([h3, h2b], 1) == 2;
    assert Scope([h2, h3, h2b], 1) == 3;
    assert [h1, h2, h3, h2b][1..4] == [h2, h3, h2b];
  }
}
