/**
 * The diagram renderer, `generate_tree_text` (main.py:57-78): one line per node, in
 * pre-order, each made of the prefix inherited from the ancestors, a connector and the
 * node's label. It reads the tree as the `Tree` value its node graph realizes.
 */
module DiagramRenderer {
  import opened Text
  import opened TreeModel

  /** The three strings `generate_tree_text` draws with. */
  datatype Style = Style(indent: string, branch: string, lastBranch: string)

  /** The default drawing strings: four spaces, a tee connector and a corner connector. */
  const DefaultStyle: Style :=
    Style("    ", [Tee, Stroke, Stroke, ' '], [Corner, Stroke, Stroke, ' '])

  /** What a node's line shows after the connector: its name without the last
      character, then "/" for a directory. */
  function Label(t: Tree): string {
    DropLast(t.name) + (if t.isDir then "/" else "")
  }

  /** The connector of a node: the last-branch string for a last sibling (and the root),
      the branch string otherwise. */
  function Connector(st: Style, isLast: bool): string {
    if isLast then st.lastBranch else st.branch
  }

  /** The prefix the children of a node inherit. */
  function ChildPrefix(st: Style, prefix: string, isLast: bool): string {
    prefix + (if isLast then st.indent else [Bar] + st.indent)
  }

  /** `_generate_tree_text_recursive(node, prefix, is_last)`. */
  function Render(st: Style, t: Tree, prefix: string, isLast: bool): (r: string)
    ensures r != [] && r[|r| - 1] == '\n'
    decreases t
  {
    prefix + Connector(st, isLast) + Label(t) + "\n" +
    RenderFrom(st, t.children, 0, ChildPrefix(st, prefix, isLast))
  }

  /** The loop over the children from position `i` on; the last child is drawn as last. */
  function RenderFrom(st: Style, kids: seq<Tree>, i: nat, prefix: string): (r: string)
    ensures r == [] <==> i >= |kids|
    ensures r == [] || r[|r| - 1] == '\n'
    decreases kids, |kids| - i
  {
    if i >= |kids| then ""
    else Render(st, kids[i], prefix, i == |kids| - 1) + RenderFrom(st, kids, i + 1, prefix)
  }

  /** `generate_tree_text`: nothing without a root; the root has an empty prefix and is
      drawn as a last sibling. */
  function GenerateTreeText(st: Style, root: Option<Tree>): (r: string)
    ensures r == [] <==> root.None?
    ensures r == [] || r[|r| - 1] == '\n'
  {
    match root
    case None => ""
    case Some(t) => Render(st, t, "", true)
  }

  /** One line of a diagram: the prefix, whether the node is drawn as last, and the node. */
  datatype Row = Row(prefix: string, last: bool, node: Tree)

  /** The rows of the diagram of `t`, as the drawing rules lay them out: `t`'s own row,
      then the rows of each child, whose prefix grows by the indent (below a last node)
      or by a bar and the indent (below any other), and of which only the final one is
      drawn as last. */
  function Rows(st: Style, t: Tree, prefix: string, isLast: bool): seq<Row>
    decreases t
  {
    [Row(prefix, isLast, t)] + RowsFrom(st, t.children, 0, ChildPrefix(st, prefix, isLast))
  }

  /** The rows of the children of a node from position `i` on. */
  function RowsFrom(st: Style, kids: seq<Tree>, i: nat, prefix: string): seq<Row>
    decreases kids, |kids| - i
  {
    if i >= |kids| then []
    else Rows(st, kids[i], prefix, i == |kids| - 1) + RowsFrom(st, kids, i + 1, prefix)
  }

  /** The text of one row, without its line feed. */
  function RowLine(st: Style, r: Row): string {
    r.prefix + Connector(st, r.last) + Label(r.node)
  }

  /** The text of each row. */
  function RowLines(st: Style, rs: seq<Row>): (ls: seq<string>)
    ensures |ls| == |rs|
  {
    seq(|rs|, k requires 0 <= k < |rs| => RowLine(st, rs[k]))
  }

  /** The node of each row. */
  function RowNodes(rs: seq<Row>): (ns: seq<Tree>)
    ensures |ns| == |rs|
  {
    seq(|rs|, k requires 0 <= k < |rs| => rs[k].node)
  }

  lemma RowLinesAppend(st: Style, a: seq<Row>, b: seq<Row>)
    ensures RowLines(st, a + b) == RowLines(st, a) + RowLines(st, b)
  {
    assert forall k :: 0 <= k < |a + b| ==>
      RowLines(st, a + b)[k] == (RowLines(st, a) + RowLines(st, b))[k];
  }

  lemma RowNodesAppend(a: seq<Row>, b: seq<Row>)
    ensures RowNodes(a + b) == RowNodes(a) + RowNodes(b)
  {
    assert forall k :: 0 <= k < |a + b| ==> RowNodes(a + b)[k] == (RowNodes(a) + RowNodes(b))[k];
  }

  /** The renderer writes exactly the lines of the rows, each followed by a line feed. */
  lemma {:induction false} RenderIsRows(st: Style, t: Tree, prefix: string, isLast: bool)
    ensures Render(st, t, prefix, isLast) == JoinLines(RowLines(st, Rows(st, t, prefix, isLast)))
    decreases t, 1
  {
    var p := ChildPrefix(st, prefix, isLast);
    var head := [Row(prefix, isLast, t)];
    var rest := RowsFrom(st, t.children, 0, p);
    RenderFromIsRows(st, t.children, 0, p);
    RowLinesAppend(st, head, rest);
    JoinLinesAppend(RowLines(st, head), RowLines(st, rest));
    assert RowLines(st, head) == [RowLine(st, Row(prefix, isLast, t))];
  }

  lemma {:induction false} RenderFromIsRows(st: Style, kids: seq<Tree>, i: nat, prefix: string)
    ensures RenderFrom(st, kids, i, prefix) == JoinLines(RowLines(st, RowsFrom(st, kids, i, prefix)))
    decreases kids, |kids| - i
  {
    if i < |kids| {
      var a := Rows(st, kids[i], prefix, i == |kids| - 1);
      var b := RowsFrom(st, kids, i + 1, prefix);
      RenderIsRows(st, kids[i], prefix, i == |kids| - 1);
      RenderFromIsRows(st, kids, i + 1, prefix);
      RowLinesAppend(st, a, b);
      JoinLinesAppend(RowLines(st, a), RowLines(st, b));
    }
  }

  /** The rows visit the nodes of the tree in pre-order, one row per node. */
  lemma {:induction false} RowsArePreorder(st: Style, t: Tree, prefix: string, isLast: bool)
    ensures RowNodes(Rows(st, t, prefix, isLast)) == Preorder(t)
    decreases t, 1
  {
    var p := ChildPrefix(st, prefix, isLast);
    RowsFromArePreorder(st, t.children, 0, p);
    RowNodesAppend([Row(prefix, isLast, t)], RowsFrom(st, t.children, 0, p));
    assert t.children[0..] == t.children;
  }

  lemma {:induction false} RowsFromArePreorder(st: Style, kids: seq<Tree>, i: nat, prefix: string)
    requires i <= |kids|
    ensures RowNodes(RowsFrom(st, kids, i, prefix)) == PreorderAll(kids[i..])
    decreases kids, |kids| - i
  {
    if i < |kids| {
      var a := Rows(st, kids[i], prefix, i == |kids| - 1);
      var b := RowsFrom(st, kids, i + 1, prefix);
      RowsArePreorder(st, kids[i], prefix, i == |kids| - 1);
      RowsFromArePreorder(st, kids, i + 1, prefix);
      RowNodesAppend(a, b);
      assert kids[i..][0] == kids[i] && kids[i..][1..] == kids[i + 1..];
    }
  }

  /** No line feed inside any drawing string. */
  predicate FlatStyle(st: Style) {
    '\n' !in st.indent && '\n' !in st.branch && '\n' !in st.lastBranch
  }

  /** No line feed inside the name of any node of `t`. */
  predicate FlatNames(t: Tree) {
    forall k :: 0 <= k < |Preorder(t)| ==> '\n' !in Preorder(t)[k].name
  }

  /** Every row below a prefix without line feeds has a line without line feeds. */
  lemma {:induction false} RowLinesFlat(st: Style, t: Tree, prefix: string, isLast: bool)
    requires FlatStyle(st) && FlatNames(t) && '\n' !in prefix
    ensures forall k :: 0 <= k < |Rows(st, t, prefix, isLast)| ==>
      '\n' !in RowLine(st, Rows(st, t, prefix, isLast)[k])
    decreases t, 1
  {
    var rs := Rows(st, t, prefix, isLast);
    RowsArePreorder(st, t, prefix, isLast);
    PrefixesFlat(st, t, prefix, isLast);
    forall k | 0 <= k < |rs| ensures '\n' !in RowLine(st, rs[k]) {
      assert RowNodes(rs)[k] == rs[k].node;
      var n := rs[k].node.name;
      assert '\n' !in n;
      assert forall j :: 0 <= j < |DropLast(n)| ==> DropLast(n)[j] == n[j];
    }
  }

  /** No row prefix gets a line feed from a style without one. */
  lemma {:induction false} PrefixesFlat(st: Style, t: Tree, prefix: string, isLast: bool)
    requires FlatStyle(st) && '\n' !in prefix
    ensures forall k :: 0 <= k < |Rows(st, t, prefix, isLast)| ==>
      '\n' !in Rows(st, t, prefix, isLast)[k].prefix
    decreases t, 1
  {
    var p := ChildPrefix(st, prefix, isLast);
    assert '\n' !in p;
    PrefixesFromFlat(st, t.children, 0, p);
  }

  lemma {:induction false} PrefixesFromFlat(st: Style, kids: seq<Tree>, i: nat, prefix: string)
    requires FlatStyle(st) && '\n' !in prefix
    ensures forall k :: 0 <= k < |RowsFrom(st, kids, i, prefix)| ==>
      '\n' !in RowsFrom(st, kids, i, prefix)[k].prefix
    decreases kids, |kids| - i
  {
    if i < |kids| {
      PrefixesFlat(st, kids[i], prefix, i == |kids| - 1);
      PrefixesFromFlat(st, kids, i + 1, prefix);
    }
  }

  /** The diagram of a tree has exactly one line per node, in pre-order: line `k` is the
      `k`-th row's prefix, connector and label. The root's row has the empty prefix and
      is drawn as last. */
  lemma TreeTextLines(st: Style, t: Tree)
    requires FlatStyle(st) && FlatNames(t)
    ensures var rs, ls := Rows(st, t, "", true), SplitLines(GenerateTreeText(st, Some(t)));
      |ls| == |Preorder(t)| == |rs| &&
      rs[0] == Row("", true, t) &&
      forall k :: 0 <= k < |ls| ==>
        rs[k].node == Preorder(t)[k] && ls[k] == rs[k].prefix + Connector(st, rs[k].last) + Label(rs[k].node)
  {
    var rs := Rows(st, t, "", true);
    RenderIsRows(st, t, "", true);
    RowsArePreorder(st, t, "", true);
    RowLinesFlat(st, t, "", true);
    SplitJoinLines(RowLines(st, rs));
    forall k | 0 <= k < |rs| ensures rs[k].node == Preorder(t)[k] {
      assert RowNodes(rs)[k] == rs[k].node;
    }
  }

  /** Below a node come the rows of each of its children in turn: the rows of child `i`
      start after the node's own row and the rows of the children before it, with the
      child's own row. That row's prefix extends the node's by the indent (below a last
      node) or by a bar and the indent, and only the final child is drawn as last. */
  lemma ChildRowsAt(st: Style, t: Tree, prefix: string, isLast: bool, i: nat)
    requires i < |t.children|
    ensures var rs, at := Rows(st, t, prefix, isLast), 1 + |PreorderAll(t.children[..i])|;
      at < |rs| &&
      rs[at] == Row(ChildPrefix(st, prefix, isLast), i == |t.children| - 1, t.children[i])
  {
    var p := ChildPrefix(st, prefix, isLast);
    SiblingRowsAt(st, t.children, 0, i, p);
    assert t.children[0..i] == t.children[..i];
  }

  /** Among the rows of the children from position `j` on, those of child `i` start after
      the rows of the children between, with the child's own row. */
  lemma {:induction false} SiblingRowsAt(st: Style, kids: seq<Tree>, j: nat, i: nat, prefix: string)
    requires j <= i < |kids|
    ensures var rs, at := RowsFrom(st, kids, j, prefix), |PreorderAll(kids[j..i])|;
      at < |rs| && rs[at] == Row(prefix, i == |kids| - 1, kids[i])
    decreases i - j
  {
    var a := Rows(st, kids[j], prefix, j == |kids| - 1);
    assert RowsFrom(st, kids, j, prefix) == a + RowsFrom(st, kids, j + 1, prefix);
    if j == i {
      assert kids[j..i] == [];
    } else {
      RowsArePreorder(st, kids[j], prefix, j == |kids| - 1);
      assert |a| == |RowNodes(a)| == |Preorder(kids[j])|;
      SiblingRowsAt(st, kids, j + 1, i, prefix);
      assert kids[j..i][0] == kids[j] && kids[j..i][1..] == kids[j + 1..i];
    }
  }

  /** A file's label is its name without the last character; a directory's replaces the
      last character with "/". Hence names ending in "/" keep their full text. */
  lemma LabelShape(t: Tree)
    requires t.name != []
    ensures !t.isDir ==> Label(t) == t.name[..|t.name| - 1]
    ensures t.isDir ==> Label(t) == t.name[..|t.name| - 1] + "/"
    ensures t.isDir && EndsWithSlash(t.name) ==> Label(t) == t.name
  {
    var n := t.name;
    assert DropLast(n) == n[..|n| - 1];
    if t.isDir {
      assert Label(t) == n[..|n| - 1] + "/";
      if EndsWithSlash(n) {
        assert n == n[..|n| - 1] + [n[|n| - 1]];
      }
    } else {
      assert Label(t) == n[..|n| - 1] + "";
    }
  }
}
