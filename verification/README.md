# markdown-structure-to-yaml, modelled in Dafny

This project models the structure extractor of
`skills/general/markdown-structure-to-yaml/markdown-structure-to-yaml.py` and its
two consumers, and proves properties of the model.

- **`parse_markdown_structure`** has two passes.
  - *Line index* (module `LineIndexing`). It splits the raw text on `"\n"` and strips every line. It records three lookups:
    - heading lines, keyed by their stripped text;
    - fence lines;
    - list-item lines.
  - *Token pass* (module `Parsing`). It turns heading, code block and list tokens into nodes. Each node gets a line number from the index. The nodes are nested under a stack of open headings.
  - The source keeps the stack as references to the parent dictionaries. The model holds the tree as a value, plus the stack of open heading levels. The open headings are always the chain of last children running down from the root (the right spine), so "append under the stack top" is `AppendAt` at a depth along that spine (module `Tree`).
  - `ParseMarkdownStructure` is proved to build `Nest(Nodes(...))`. `Nodes` is the flat sequence of nodes the tokens produce. `Nest` is an independent recursive-descent definition of the tree: a heading takes every following node up to the next heading of the same or a smaller level. The result is well formed, and flattening it gives back the token-order nodes.
- **`extract_text`** (module `Tokens`). It flattens a heading's inline children into its text.
- **`print_yaml.format_node`** (module `Walkers`). It renders the tree as indented lines.
- **`print_stat.count`** (module `Walkers`). It is the recursive counter, modelled as the class `Stats` whose seven fields are bumped in place. Its result is proved to depend only on the tokens (module `Report`).
- Module `Examples` works through small trees.
- Module `Walkthrough` takes one five-line document and its tokens through the whole pass: split, line index, nodes with their line numbers, and the nested tree.

Behaviour of the source worth knowing, modelled as the code has it:
- A heading node has a `"children"` key only once something was appended under it. `format_node` prints a heading's own line only when that key exists and the level is 1 to 5. A heading without children therefore prints nothing, and a level 6 heading prints only its children.
- The list style is read from the token's own top-level `"ordered"` key (line 119). The tokenizer is not modelled, so which key carries the flag is an input here.
- A list-item line is one whose stripped text starts with `"- "` or `"* "`. It is also one that is longer than one character, starts with a digit and contains `". "` anywhere, not only right after the digits (line 46).
- Headings with the same text all get the line of the last one, because the heading lookup keeps the last line per text (line 36). Two code blocks (or lists) after the same heading both get the first fence (or item) line after that heading (lines 101-106 and 122-127). The fallback line is 1.

## Model

| member | source | states |
|---|---|---|
| Text.SplitLines | skills/general/markdown-structure-to-yaml/markdown-structure-to-yaml.py:21 | `split("\n")` yields at least one piece, and no piece holds a newline |
| Text.JoinSplitLines | skills/general/markdown-structure-to-yaml/markdown-structure-to-yaml.py:21 | joining the pieces with `"\n"` gives back the text |
| Text.SplitJoinLines | skills/general/markdown-structure-to-yaml/markdown-structure-to-yaml.py:21 | splitting a join of newline-free lines gives back those lines |
| Text.Strip | skills/general/markdown-structure-to-yaml/markdown-structure-to-yaml.py:29 | `str.strip()`: never longer than the line; what it removes is stated by StripRemovesOnlyWhitespace |
| Text.StripRemovesOnlyWhitespace | skills/general/markdown-structure-to-yaml/markdown-structure-to-yaml.py:29 | `strip` yields a slice of the line, with only whitespace removed around it and no whitespace left at either end |
| Text.ContainsSpec | skills/general/markdown-structure-to-yaml/markdown-structure-to-yaml.py:46 | `". " in stripped` holds exactly when the substring occurs at some index |
| Text.Repeat | skills/general/markdown-structure-to-yaml/markdown-structure-to-yaml.py:34 | `"#" * level` has `level` characters (none for `level <= 0`), all of them `#` |
| Text.NatToString | skills/general/markdown-structure-to-yaml/markdown-structure-to-yaml.py:168 | a formatted number is ASCII digits, has no leading zero unless it is the single digit `0`, and reads back as the number |
| LineIndexing.HeadingPrefixStartsWithHash | skills/general/markdown-structure-to-yaml/markdown-structure-to-yaml.py:32-35 | a line with a heading prefix starts with `#`, so the outer `#` test decides nothing alone |
| LineIndexing.MatchHeadingPrefix | skills/general/markdown-structure-to-yaml/markdown-structure-to-yaml.py:33-37 | the level loop finds a prefix exactly when the line starts with 1 to 6 `#` and a space |
| LineIndexing.LinesWhereExact | skills/general/markdown-structure-to-yaml/markdown-structure-to-yaml.py:39-48 | the fence and list-item lookups are strictly ascending and hold exactly the lines whose stripped text qualifies |
| LineIndexing.LastLineByTextExact | skills/general/markdown-structure-to-yaml/markdown-structure-to-yaml.py:31-37 | every heading key maps to a line holding exactly that text, no later line holds it, and every heading line is recorded |
| LineIndexing.LookupsStep | skills/general/markdown-structure-to-yaml/markdown-structure-to-yaml.py:28-48 | one more line extends each lookup by that line alone, when it qualifies |
| LineIndexing.IndexLines | skills/general/markdown-structure-to-yaml/markdown-structure-to-yaml.py:21-48 | the scanning loop builds exactly the three lookups of the split and stripped lines |
| LineIndexing.FirstAfter | skills/general/markdown-structure-to-yaml/markdown-structure-to-yaml.py:102-106 | the result is the first recorded line above the bound, or 1 when every recorded line is at or below it |
| LineIndexing.FirstAfterIsLeast | skills/general/markdown-structure-to-yaml/markdown-structure-to-yaml.py:102-106 | on an ascending lookup the result is the smallest recorded line above the bound, or 1 |
| LineIndexing.FindFirstAfter | skills/general/markdown-structure-to-yaml/markdown-structure-to-yaml.py:123-127 | the search loop with `break` returns FirstAfter |
| LineIndexing.FirstRecordedAfter | skills/general/markdown-structure-to-yaml/markdown-structure-to-yaml.py:101-106 | the lookup gives the first qualifying line of the text after the last heading line, or 1 when there is none |
| Tokens.ExtractText | skills/general/markdown-structure-to-yaml/markdown-structure-to-yaml.py:142-154 | an empty value gives ""; a string is returned unstripped; a list gives the stripped join of what each child contributes (a string itself, a mapping its "raw", else its "text", else "", anything else nothing) |
| Tree.ScopeSpec | skills/general/markdown-structure-to-yaml/markdown-structure-to-yaml.py:85-86 | a heading's scope is the longest run of following nodes deeper than it |
| Tree.Attach | skills/general/markdown-structure-to-yaml/markdown-structure-to-yaml.py:84-94 | the step that appends a node through the stack: it descends while the last node is a heading the new node does not close; its properties are stated by AttachIsAppendAt, AttachSpine and AttachKeepsIncreasing |
| Tree.AppendAt | skills/general/markdown-structure-to-yaml/markdown-structure-to-yaml.py:88-94 | appending under the open heading at a depth of the right spine (depth 0 is `root`), creating its children list when absent; stated by SpineAppendAt and AttachIsAppendAt |
| Tree.Nest | skills/general/markdown-structure-to-yaml/markdown-structure-to-yaml.py:62-139 | the reference tree of the created nodes: a heading takes every following node up to the next heading of the same or a smaller level; stated by ScopeSpec, NestSnoc, FlattenNest and NestWellFormed |
| Tree.AttachIsAppendAt | skills/general/markdown-structure-to-yaml/markdown-structure-to-yaml.py:84-94 | appending under the open heading at a depth is the descend-while-deeper step, when the headings above that depth open for the node and the next one does not |
| Tree.SpineAppendAt | skills/general/markdown-structure-to-yaml/markdown-structure-to-yaml.py:88-96 | appending at a depth keeps the open levels above it, and the appended node's own levels follow |
| Tree.AttachSpine | skills/general/markdown-structure-to-yaml/markdown-structure-to-yaml.py:84-96 | after a heading the open levels are the popped stack plus its level; after a code block or list they are unchanged |
| Tree.AttachKeepsIncreasing | skills/general/markdown-structure-to-yaml/markdown-structure-to-yaml.py:84-96 | the open levels stay strictly increasing from the outermost heading |
| Tree.BelowIsPrefix | skills/general/markdown-structure-to-yaml/markdown-structure-to-yaml.py:85-86 | popping keeps a prefix of the stack, all of it below the new level |
| Tree.PoppedIsBelow | skills/general/markdown-structure-to-yaml/markdown-structure-to-yaml.py:85-86 | on an increasing stack, the pop loop stops exactly where the levels below the new heading end |
| Tree.HeadingStep | skills/general/markdown-structure-to-yaml/markdown-structure-to-yaml.py:84-96 | a heading is appended under the top left after popping (or to the root) and becomes the new top, and the stack stays increasing |
| Tree.LeafStep | skills/general/markdown-structure-to-yaml/markdown-structure-to-yaml.py:110-116 | a code block or list is appended under the innermost open heading (or to the root) and the open levels are unchanged |
| Tree.NestSnoc | skills/general/markdown-structure-to-yaml/markdown-structure-to-yaml.py:66-137 | one token step on the tree built so far gives the reference tree of the nodes so far plus the new one |
| Tree.FlattenNest | skills/general/markdown-structure-to-yaml/markdown-structure-to-yaml.py:62-139 | every created node appears once in the tree, in token order: no node has two parents and none is lost |
| Tree.NestKeepsAbove | skills/general/markdown-structure-to-yaml/markdown-structure-to-yaml.py:85-94 | nesting keeps every top-level node deeper than a given level when all the nodes were |
| Tree.NestWellFormed | skills/general/markdown-structure-to-yaml/markdown-structure-to-yaml.py:84-96 | every heading among a heading's children is deeper than it, at every depth |
| Tree.NestLevelsExample | skills/general/markdown-structure-to-yaml/markdown-structure-to-yaml.py:84-96 | headings of levels 1, 2, 3, 2 nest as 1 ⊃ (2 ⊃ 3), 2 |
| Parsing.LevelOf | skills/general/markdown-structure-to-yaml/markdown-structure-to-yaml.py:73 | a heading level is its `level` attribute, 1 when absent; used in NodeContents |
| Parsing.HeadingLine | skills/general/markdown-structure-to-yaml/markdown-structure-to-yaml.py:77-78 | a heading's line is 1 or a line recorded in the heading lookup; HeadingLineSpec states which one |
| Parsing.CodeTag | skills/general/markdown-structure-to-yaml/markdown-structure-to-yaml.py:99-108 | a code block's tag is never empty: its `info` when that is non-empty, else `text` |
| Parsing.StyleOf | skills/general/markdown-structure-to-yaml/markdown-structure-to-yaml.py:119 | a list is `ordered` exactly when its `ordered` flag is true, otherwise `unordered` |
| Parsing.NodeOf | skills/general/markdown-structure-to-yaml/markdown-structure-to-yaml.py:66-137 | exactly the heading, code block and list tokens make a node; a heading token makes a heading and a code block token a code node (so a list token a list node), each with no children |
| Parsing.NodesLeafy | skills/general/markdown-structure-to-yaml/markdown-structure-to-yaml.py:82 | every node is created without children |
| Parsing.CursorIsLastHeading | skills/general/markdown-structure-to-yaml/markdown-structure-to-yaml.py:64-79 | `last_heading_line` is the line of the last heading token so far, or 0 before any |
| Parsing.HeadingKeyShape | skills/general/markdown-structure-to-yaml/markdown-structure-to-yaml.py:77 | a heading's lookup key can name a recorded heading line exactly when the level is 1 to 6 |
| Parsing.HeadingLineSpec | skills/general/markdown-structure-to-yaml/markdown-structure-to-yaml.py:76-78 | a heading's line is the last line whose stripped text is its key, else 1 |
| Parsing.NodeContents | skills/general/markdown-structure-to-yaml/markdown-structure-to-yaml.py:72-129 | each node's level, text, tag (info, or "text"), style, item count and line, as the token and the index give them |
| Parsing.NodeLinesInText | skills/general/markdown-structure-to-yaml/markdown-structure-to-yaml.py:78-127 | every line number assigned is a line of the text |
| Parsing.OpenHeading | skills/general/markdown-structure-to-yaml/markdown-structure-to-yaml.py:84-96 | the pop loop plus the append and push perform one tree step; the stack stays the increasing open levels, topped by the new level |
| Parsing.AttachLeaf | skills/general/markdown-structure-to-yaml/markdown-structure-to-yaml.py:110-116 | appending a code block or list under the stack top (or to the root) performs one tree step, and the stack is unchanged |
| Parsing.AddToken | skills/general/markdown-structure-to-yaml/markdown-structure-to-yaml.py:66-137 | one token iteration: the tree step for the token's node, the stack kept as the open levels, and the heading cursor moved only by headings |
| Parsing.ParseMarkdownStructure | skills/general/markdown-structure-to-yaml/markdown-structure-to-yaml.py:17-139 | the result is the reference tree of the token nodes; it is well formed, and flattening it gives back the nodes in token order |
| Walkers.NodeLineCount | skills/general/markdown-structure-to-yaml/markdown-structure-to-yaml.py:163-185 | a node renders one line of its own exactly when it is a code block, a list, or a heading with children and level 1 to 5 |
| Walkers.FormatNode | skills/general/markdown-structure-to-yaml/markdown-structure-to-yaml.py:160-185 | `format_node`: one line for the node when it renders its own line, plus one per rendering node below it; FormatIndented and SilentHeadings state the layout |
| Walkers.FormatForest | skills/general/markdown-structure-to-yaml/markdown-structure-to-yaml.py:160-189 | the lines of `print_yaml`: one line per node that renders its own line, at any depth, and no other lines |
| Walkers.EntryLine | skills/general/markdown-structure-to-yaml/markdown-structure-to-yaml.py:161-182 | a line built from `indent` two-space steps and `"- "` is read back as an entry at depth `indent` |
| Walkers.NodeLineAt | skills/general/markdown-structure-to-yaml/markdown-structure-to-yaml.py:161-183 | a node's own line is an entry at exactly the depth it is rendered at |
| Walkers.FormatIndented | skills/general/markdown-structure-to-yaml/markdown-structure-to-yaml.py:160-175 | every output line is an entry at the starting depth or deeper |
| Walkers.SilentHeadings | skills/general/markdown-structure-to-yaml/markdown-structure-to-yaml.py:163-185 | a heading without children renders nothing; a heading of an unlisted level renders only its children |
| Walkers.FormatSingle | skills/general/markdown-structure-to-yaml/markdown-structure-to-yaml.py:173-175 | a node renders its own line, then its children one step deeper |
| Walkers.NodeCountAtMostOne | skills/general/markdown-structure-to-yaml/markdown-structure-to-yaml.py:206-221 | a node bumps at most one counter, and none exactly when it is a heading of a level outside 1 to 5 |
| Walkers.Tally | skills/general/markdown-structure-to-yaml/markdown-structure-to-yaml.py:204-223 | the counters `count` adds for a list of nodes at every depth; stated by TallyCons, TallyFlatten, TallyTotal and Stats.Count |
| Walkers.UnlistedNotCounted | skills/general/markdown-structure-to-yaml/markdown-structure-to-yaml.py:207-223 | a heading of level 6 or more is not counted, but its descendants are |
| Walkers.TallyCons | skills/general/markdown-structure-to-yaml/markdown-structure-to-yaml.py:204-223 | the first node with everything below it, then the rest |
| Walkers.TallyFlatten | skills/general/markdown-structure-to-yaml/markdown-structure-to-yaml.py:204-223 | counting the tree gives the same counters as counting its nodes flat in pre-order |
| Walkers.TallyTotal | skills/general/markdown-structure-to-yaml/markdown-structure-to-yaml.py:204-223 | the counters sum to the number of nodes at any depth that are code blocks, lists or headings of levels 1 to 5 |
| Walkers.CountedSplit | skills/general/markdown-structure-to-yaml/markdown-structure-to-yaml.py:163-171 | each counted node either renders its own line or is a listed heading without children |
| Walkers.PrintedVersusCounted | skills/general/markdown-structure-to-yaml/markdown-structure-to-yaml.py:160-223 | rendered lines plus silent listed headings equal the sum of the counters |
| Walkers.Stats.constructor | skills/general/markdown-structure-to-yaml/markdown-structure-to-yaml.py:194-202 | the seven counters start at 0 |
| Walkers.Stats.Bump | skills/general/markdown-structure-to-yaml/markdown-structure-to-yaml.py:207-221 | the `elif` chain and the code and list tests add exactly the node's own count to the counters |
| Walkers.Stats.Count | skills/general/markdown-structure-to-yaml/markdown-structure-to-yaml.py:204-223 | the recursive walk adds the tally of the nodes, at every depth, to the counters |
| Walkers.PrintStat | skills/general/markdown-structure-to-yaml/markdown-structure-to-yaml.py:192-225 | the final counters are the tally of the tree |
| Report.NodeCountOfToken | skills/general/markdown-structure-to-yaml/markdown-structure-to-yaml.py:72-221 | the node a token makes bumps the counter the token's kind and level name |
| Report.FlatCountIsTokenCount | skills/general/markdown-structure-to-yaml/markdown-structure-to-yaml.py:66-137 | counting the created nodes gives the per-kind token counts |
| Report.StatsOfStructure | skills/general/markdown-structure-to-yaml/markdown-structure-to-yaml.py:192-225 | the counters of the extracted tree are the numbers of heading tokens of levels 1 to 5, code block tokens and list tokens, however they nest |
| Report.ParseAndCount | skills/general/markdown-structure-to-yaml/markdown-structure-to-yaml.py:245-248 | the `--stat` path: parse, then count, gives the per-kind token counts |
| Examples.RenderExample | skills/general/markdown-structure-to-yaml/markdown-structure-to-yaml.py:160-189 | a three-level document renders `- h1: A @ 1`, `  - h2: B @ 3`, `    - code: py @ 4` |
| Examples.CountExample | skills/general/markdown-structure-to-yaml/markdown-structure-to-yaml.py:204-223 | a list under an h2 under an h1 counts one h1, one h2 and one list |
| Examples.SilentExample | skills/general/markdown-structure-to-yaml/markdown-structure-to-yaml.py:163-223 | a childless h2 prints nothing but is counted; an h6 prints only its code child and is not counted |
| Walkthrough.DocumentLines | skills/general/markdown-structure-to-yaml/markdown-structure-to-yaml.py:21 | the five-line sample text splits into its five lines |
| Walkthrough.DocumentIndex | skills/general/markdown-structure-to-yaml/markdown-structure-to-yaml.py:21-48 | the sample's index: heading keys `# A` on line 1 and `## B` on line 3, no fence line, list items on lines 4 and 5 |
| Walkthrough.DocumentNodes | skills/general/markdown-structure-to-yaml/markdown-structure-to-yaml.py:66-137 | the sample's tokens make an h1 on line 1, an h2 on line 3, and a list on line 4, the first item line after the h2 |
| Walkthrough.DocumentTree | skills/general/markdown-structure-to-yaml/markdown-structure-to-yaml.py:84-137 | the list nests under the h2 and the h2 under the h1 |
| Walkthrough.DocumentStructure | skills/general/markdown-structure-to-yaml/markdown-structure-to-yaml.py:17-139 | the whole pass on the sample text and tokens gives h1 `A` @ 1 containing h2 `B` @ 3 containing the two-item list @ 4 |

## Left out

- The markdown tokenizer (lines 51–59) is not part of this model. A token sequence is an input.
  - A tokenizer result that is neither a tuple nor a list gives no tokens.
  - A token that is not a mapping, or has another `"type"`, is `OtherToken`.
- `main` (lines 230–250) is not modelled: argument handling, the file check, reading the file and the exit status are I/O. `Report.ParseAndCount` covers its `--stat` branch up to the printing.
- Printing is left out.
  - `print_yaml` prints the lines of `FormatForest` (lines 187–189).
  - `print_stat` prints the seven counters as `name: value` lines (lines 226–227). The model returns the `Counts` value instead.
- The `yaml` import (line 13) is unused by the source.
- The values carried by a token are typed.
  - A heading level is an `int` or absent.
  - The `info` is a string or absent/`None`.
  - The `ordered` flag is a boolean or absent.
  - A heading's `"children"` is a string or a list.
  - Other Python values in those places, and their truthiness, are not modelled.
- `str.isdigit` is modelled on the ASCII digits only. Python also accepts other Unicode digits.
- `str.strip` removes the characters for which Python's `str.isspace` holds, listed explicitly. No Unicode database is consulted.
- Dictionary identity and aliasing through the stack of `(level, node)` references are modelled by value. The stack is the sequence of open heading levels. Appending through a reference is `AppendAt` at that depth of the right spine. The method is proved to keep the stack equal to the levels along that spine.
- The `"children"` key of a heading is modelled as "the children list is not empty". The source creates the key just before the first append and never removes it.
- `Walkers.Stats.Count`: Python's recursion limit on deeply nested trees is not modelled.
