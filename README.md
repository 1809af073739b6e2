# triedir converter core, in Dafny

`main.py` of triedir converts between two notations for a directory hierarchy:
- an indented outline (called "markdown" in the source), where the number of leading spaces gives the depth;
- a box-glyph tree diagram (called "tree").

Both notations go through one node model:
- a parser turns a text into flat `(name, level)` records;
- `build_tree` links the records into a tree of `Node` objects with a stack;
- a renderer writes the tree in one notation.

This project models that core and proves what it does.

Each part of the source takes the form it has there:
- **The stack builder is imperative.** `Builder.BuildTree` allocates `Node` objects (a class with a mutable `children` sequence). It keeps a stack of them and links them with `AddChild`. It is proved to build exactly the tree that `BuildSpec.Build` defines without a stack: every record hangs below the latest earlier record whose level is strictly smaller.
- **The parsers are imperative.** They are methods with the source's loops and counters. Each is proved equal to a specification function on the text.
- **The renderers, `detect_input_type` and the `construct_*` helpers are pure.** They are functions or thin methods.

The renderers read the finished tree as the `Tree` value its node graph realizes (`TreeModel.Realizes`).

Modelling conventions:
- `splitlines` splits on the line feed only.
- `strip` and `rstrip` remove exactly the characters Python's `str.isspace` accepts; `Text.IsSpace` lists them.
- `lower` folds ASCII letters only.
- `s[:-1]` and `s * n` follow Python: `""` for `""`, and `""` for `n <= 0`.
- The `construct_*` functions return the falsy `""` when no records are produced. The model returns `null` there, and `Option` for the renderers' "no root".

What the code does and the obvious expectation differ in four places. The model follows the code in each:
- **Records not deeper than the root are lost.** A record after the first whose level is at most the root's level never appears in the returned tree (`BuildSpec.BuildDropsShallow`).
  - If no earlier record is shallower, the record has no parent (`BuildSpec.DetachedWhenNoneShallower`).
  - Otherwise it is attached to an earlier node that is itself unreachable.
  - So "attached to no parent" holds only in the first case. "Not in the tree" always holds.
- **The diagram drops the last character of every name.** Files included (`DiagramRenderer.LabelShape`).
- **The outline renderer indents by four spaces per unit of the stored level.** The outline parser reads back four times the level it wrote (`OutlineRenderer.ReadBackScales`). No round-trip is claimed.
- **An empty indentation string is accepted.** `parse_tree_text` then adds nothing for spaces, because its counter never equals 0 (`DiagramParser.DiagramLevelNoUnit`). The model accepts it too rather than requiring a non-empty unit.

## Model

| member | source | states |
|---|---|---|
| Text.RStrip | main.py:19 | the result is a prefix of the line, does not end in whitespace, and only whitespace was removed |
| Text.Strip | main.py:30 | the result is the contiguous piece of the input left once only leading and trailing whitespace is cut; it has no whitespace at either end, and it is empty exactly when the input is all whitespace |
| Text.SplitLines | main.py:18 | no piece holds a line feed; with `SplitLinesRejoin` this determines the pieces |
| Text.SplitLinesRejoin | main.py:18 | the pieces, each followed by a line feed, give back the text, plus a final line feed when it lacks one |
| Text.NonBlankAt | main.py:18-21 | the kept lines are the right-stripped lines at the kept positions, one for one |
| Text.NonBlankIndicesIncrease | main.py:18-21 | the kept lines keep their source order |
| Text.NonBlankIndicesExact | main.py:18-21 | a line is kept exactly when it is non-empty after `rstrip` |
| Text.NonBlankFlat | main.py:18-21 | no kept line holds a line feed |
| Text.SplitJoinLines | main.py:69 | text written as lines each ending in a line feed splits back into exactly those lines |
| Text.DropLast | main.py:69 | `s[:-1]` is `s` without its last character, and `""` for `""` |
| Text.Repeat | main.py:129 | `s * n` is `""` for `n <= 0` |
| Text.Lower | main.py:172 | `lower` keeps the length and folds each character |
| TreeModel.Node.constructor | main.py:5-9 | a new node has the given name, directory flag and level and no children |
| TreeModel.Node.AddChild | main.py:11-12 | `add_child` appends the child as the last child |
| OutlineParser.LeadingSpaces | main.py:23-28 | the level is the length of the run of spaces that starts the line |
| OutlineParser.OutlineEntry | main.py:23-31 | the level of a kept line's record lies within the line |
| OutlineParser.OutlineEntryShape | main.py:23-31 | a kept line's record has the line's leading-space count as its level and the stripped rest as its name, which is non-empty and has no whitespace at either end |
| OutlineParser.OutlineRecordsAre | main.py:18-31 | one record per non-blank line, in order, each read off its line as above |
| OutlineParser.OutlineNamesFlat | main.py:18-30 | no record name holds a line feed |
| OutlineParser.ParseOutlineLine | main.py:23-31 | the counting loop and the strip compute the line's record |
| OutlineParser.ParseOutlineStep | main.py:19-31 | one iteration appends the record of line `i` exactly when it is non-blank |
| OutlineParser.ParseOutlineLines | main.py:18-32 | the loop returns the records of all the lines |
| OutlineParser.ParseMarkdown | main.py:15-32 | `parse_markdown` returns the records of the text |
| DiagramParser.NameStart | main.py:103-105 | the name starts one past the last space or drawing character, and none follows it |
| DiagramParser.SpaceDivision | main.py:106-110 | the units counted and the spaces left over are the quotient and remainder of the division by the unit |
| DiagramParser.SpaceStep | main.py:106-110 | one more space completes a unit and resets the counter, or adds one to the counter |
| DiagramParser.DiagramNameClean | main.py:103-117 | a record's name holds no space and no drawing character |
| DiagramParser.CountSpacesIsCount | main.py:106-107 | the space counter ends at the number of space characters on the line |
| DiagramParser.DiagramLevel | main.py:103-115 | with a non-empty unit, the level is the number of spaces on the line divided by the unit and rounded down, plus one exactly when the line holds a branch glyph |
| DiagramParser.DiagramName | main.py:103-117 | the name is the stripped part of the line after its last space or drawing character, or the whole line stripped when it has none |
| DiagramParser.DiagramLevelNoUnit | main.py:106-115 | with an empty unit, the level is one exactly when the line holds a branch glyph, and zero otherwise |
| DiagramParser.DiagramRecordsAre | main.py:94-118 | one record per non-blank line, in order; no name holds a space, a drawing character or a line feed |
| DiagramParser.ScanLine | main.py:103-110 | the first loop's counters give the unit count of the line's spaces and the start of the name |
| DiagramParser.FindGlyph | main.py:112-115 | the second loop finds a glyph exactly when the line holds one |
| DiagramParser.ParseDiagramLine | main.py:99-118 | the two loops and the strip compute the line's record |
| DiagramParser.ParseDiagramStep | main.py:95-118 | one iteration appends the record of line `i` exactly when it is non-blank |
| DiagramParser.ParseDiagramLines | main.py:94-119 | the loop returns the records of all the lines |
| DiagramParser.ParseTreeText | main.py:81-119 | `parse_tree_text` returns the records of the text under the indentation unit's length |
| BuildSpec.Build | main.py:35-54 | `build_tree` as a value: no tree exactly for no records, otherwise a directory root with the first record's name and level; `BuildPreorder`, `BuildKeepsAll`, `BuildDropsShallow` and `BuildShape` give its pre-order and shape, and `Builder.BuildTree` realizes it |
| BuildSpec.Subtree | main.py:43-52 | the tree of a record carries its name and level; `SubtreeSpan` shows its pre-order is exactly the record's run, and `SubtreeShape` that children are deeper |
| BuildSpec.ParentOf | main.py:47-51 | a record's parent is earlier and strictly shallower, and every record in between is at least as deep |
| BuildSpec.End | main.py:43-52 | a record's run is the records after it that are deeper, up to the next that is not |
| BuildSpec.KidsParents | main.py:50-51 | every listed child has the node as its parent |
| BuildSpec.KidsSorted | main.py:50-51 | children are listed in record order |
| BuildSpec.KidsComplete | main.py:50-51 | every record whose parent is the node is listed among its children |
| BuildSpec.SubtreeSpan | main.py:43-52 | the pre-order of a record's subtree lists exactly the records of its run, in order |
| BuildSpec.BuildPreorder | main.py:35-54 | the built tree lists, in pre-order, exactly the records before the first later record not deeper than the first |
| BuildSpec.BuildKeepsAll | main.py:43-52 | when every later record is deeper than the first, the pre-order of the tree is the records, in input order |
| BuildSpec.BuildDropsShallow | main.py:47-52 | a later record not deeper than the first, and everything after it, is missing from the tree |
| BuildSpec.DetachedWhenNoneShallower | main.py:47-51 | a record has no parent exactly when no earlier record is shallower |
| BuildSpec.SubtreeShape | main.py:44-51 | children are strictly deeper than their parents, and below the root a node is a directory exactly when its name ends in "/" |
| BuildSpec.BuildShape | main.py:37-45 | no records give no tree; otherwise the root carries the first record's name and level and is a directory, and the shape rules above hold |
| BuildSpec.Pop | main.py:47-48 | popping leaves a prefix of the stack whose top, if any, is shallower than the new level |
| BuildSpec.OpenStack | main.py:41-52 | after `m` records the stack is non-empty and has record `m - 1` on top |
| BuildSpec.OpenStackIncreasing | main.py:41-52 | the stack rises strictly in record order and in level from bottom to top |
| BuildSpec.IncreasingAdjacent | main.py:47-52 | an increasing stack rises entry by entry in record order and in level |
| BuildSpec.StackLevelsIncrease | main.py:41-52 | in every state of the loop, the levels of the stacked nodes rise strictly from bottom to top |
| BuildSpec.PopFindsShallower | main.py:47-51 | popping to a level leaves on top the latest record shallower than it, and empties the stack exactly when there is none |
| BuildSpec.OpenStackPush | main.py:47-52 | each record is pushed after the pop, file records included |
| BuildSpec.TopIsParent | main.py:47-51 | after the pop, the top node is the parent's node, and the stack is empty exactly when there is no parent |
| BuildSpec.LinkStep | main.py:50-51 | attaching a record's node below its parent keeps every children list equal to the nodes of that record's children |
| BuildSpec.ArenaRealizes | main.py:35-54 | in the finished arena, each record's node realizes its subtree |
| BuildSpec.OpenOne | main.py:40-41 | the loop starts with the root's node alone, open on the stack |
| BuildSpec.Step | main.py:43-52 | one iteration keeps the loop invariant |
| BuildSpec.Finish | main.py:54 | when the loop ends, the root realizes the reference tree |
| Builder.PopOpen | main.py:47-48 | the pop loop leaves the nodes of the popped index stack, with a top strictly shallower than the new level |
| Builder.NewNode | main.py:45 | the node is fresh, childless and labeled with the record |
| Builder.AddToParent | main.py:50-51 | the parent gains the node as its last child and no other node's children change |
| Builder.Grow | main.py:43-52 | the loop body keeps the invariant: labeled, linked, distinct nodes with the node stack tracking the open stack |
| Builder.BuildTree | main.py:35-54 | `build_tree` returns no node exactly for no records; otherwise a fresh root whose node graph realizes the reference tree, with one distinct node per record |
| DiagramRenderer.Render | main.py:61-74 | `_generate_tree_text_recursive` writes a non-empty text ending in a line feed; `RenderIsRows` shows it is the lines of the node's rows |
| DiagramRenderer.RenderFrom | main.py:71-73 | the loop over the children from one position on writes nothing exactly when no child is left, and otherwise ends in a line feed; `RenderFromIsRows` shows it is the lines of their rows |
| DiagramRenderer.GenerateTreeText | main.py:57-78 | `generate_tree_text` is empty exactly when there is no root, and otherwise ends in a line feed; `TreeTextLines` gives its lines |
| DiagramRenderer.RenderIsRows | main.py:61-74 | the renderer writes the rows' lines, each followed by a line feed |
| DiagramRenderer.RenderFromIsRows | main.py:71-73 | the loop over the children writes their rows' lines |
| DiagramRenderer.RowsArePreorder | main.py:61-74 | the rows visit the nodes in pre-order, one row per node |
| DiagramRenderer.ChildRowsAt | main.py:71-73 | the rows of child `i` start right after the node's row and the rows of the earlier children, with a row whose prefix extends the node's by the indent (below a last node) or by a bar and the indent, drawn as last exactly when `i` is the final child |
| DiagramRenderer.SiblingRowsAt | main.py:71-73 | among the rows of the children from one position on, those of a later child start after the rows of the children between, with that child's own row |
| DiagramRenderer.TreeTextLines | main.py:57-78 | when neither the drawing strings nor the names hold a line feed, the diagram has one line per node, in pre-order; each line is its row's prefix, connector and label; the root row has the empty prefix and is drawn as last |
| DiagramRenderer.LabelShape | main.py:69 | a file's label is its name without the last character; a directory's ends in "/" instead of the last character |
| OutlineRenderer.MdRender | main.py:124-132 | `_generate_markdown_recursive` writes a text that is empty or ends in a line feed, and non-empty unless the level is -1; `MdRenderShows` gives its lines |
| OutlineRenderer.MdKids | main.py:130-131 | the loop over the children writes a text that is empty or ends in a line feed; `MdKidsShow` gives its lines |
| OutlineRenderer.GenerateMarkdown | main.py:121-136 | `generate_markdown` is empty exactly when there is no root, and otherwise ends in a line feed; `MarkdownLines` gives its lines |
| OutlineRenderer.MdRenderShows | main.py:124-132 | the renderer writes the node's own line unless its level is -1, then each descendant's line in pre-order at its stored level |
| OutlineRenderer.MdKidsShow | main.py:130-131 | the loop over the children writes their descendants' lines in pre-order |
| OutlineRenderer.ShownAll | main.py:125-129 | with no level -1, every node has its line |
| OutlineRenderer.RepeatUnit | main.py:129 | the indentation is four spaces per level, and none for a level at most 0 |
| OutlineRenderer.MarkdownLines | main.py:121-136 | with no descendant at level -1 and no line feed in a name, the outline has one line per node, in pre-order: the root's name alone, then each descendant after four spaces per unit of its stored level |
| OutlineRenderer.ReadBackScales | main.py:129 | the outline parser reads a written line with four times that line's level |
| Convert.DetectInputType | main.py:167-176 | no notation for the empty extension; the outline notation only for a three-character extension and the diagram notation only for a four- or five-character one; `DetectCases` gives every case and `DetectIgnoresTextAndCase` the independence from text and letter case |
| Convert.LowerIdempotent | main.py:172 | lower-casing twice is lower-casing once |
| Convert.DetectIgnoresTextAndCase | main.py:167-176 | the notation depends only on the extension, and only up to letter case |
| Convert.DetectCases | main.py:167-176 | ".md" in any case gives the outline notation; ".txt" or ".tree" in any case gives the diagram notation; any other extension, including the empty one, gives none |
| Convert.ConstructMarkdownStructure | main.py:139-145 | no node exactly when the text has no non-blank line; otherwise a fresh root realizing the built tree |
| Convert.ConstructTreeStructure | main.py:148-154 | no node exactly when the text has no non-blank line; otherwise a fresh root realizing the built tree |
| Convert.DiagramOfRecords | main.py:35-78 | records after a strictly shallower first one give a diagram with one line per record, line `k` drawing record `k`'s node |
| Convert.OutlineOfRecords | main.py:35-54 | records after a strictly shallower first one give an outline with one line per record: the first name alone, then each name after four spaces per level |
| Convert.MarkdownToDiagram | main.py:139-145 | an outline whose first non-blank line is strictly less indented than every later non-blank line converts to a diagram with one line per non-blank line, line `k` drawing record `k` |
| Convert.DiagramToMarkdown | main.py:148-154 | a diagram whose first record is strictly shallower than every later one converts to an outline with one line per non-blank line |

## Left out

- `create_files_and_dirs` (main.py:156-165): filesystem side effects (`os.makedirs`, `os.path.exists`, `open`); not modelled.
- `main` (main.py:178-204): argument parsing, file reading, console output and exit flow; not modelled.
- The `print` in `generate_markdown` (main.py:128) and the commented-out one (main.py:67-68): console output only; they do not change the returned string.
- Text.SplitLines: models `splitlines` for the line feed only; Python also splits on carriage returns and several Unicode separators.
- Text.Lower: folds the ASCII letters only, not Unicode case.
- The four-space string in the separator tuple of main.py:104 can never equal a single character; the model's separator set omits it.
- Convert.DetectInputType: takes the extension as a string; Python also accepts `None`, which behaves like the empty extension.
- The renderers read the `Tree` value that the node graph realizes, not the heap. Aliasing between nodes is excluded by the builder's distinctness invariant.
- The `construct_*` helpers return the string `""` in the source when there are no records; the model returns `null`.
- Convert.DiagramOfRecords, Convert.OutlineOfRecords, Convert.MarkdownToDiagram, Convert.DiagramToMarkdown: state line counts only when every record after the first is deeper than the first. Otherwise the builder drops records (see `BuildSpec.BuildDropsShallow`), and fewer lines come out.
