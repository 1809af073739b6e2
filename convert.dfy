/**
 * The glue of the converter: `detect_input_type` (main.py:167-176), which picks a
 * notation from a file extension, and `construct_markdown_structure` /
 * `construct_tree_structre` (main.py:139-154), which run a parser and then the tree
 * builder. Two theorems follow a text through a parser, the builder and the other
 * notation's renderer.
 */
module Convert {
  import opened Text
  import opened TreeModel
  import OutlineParser
  import DiagramParser
  import BuildSpec
  import Builder
  import DiagramRenderer
  import OutlineRenderer

  /** The two notations: "markdown" (an indented outline) and "tree" (a diagram). */
  datatype Notation = Markdown | TreeText

  /** `detect_input_type`: only the extension is looked at, case-insensitively. */
  function DetectInputType(inputText: string, extension: string): (r: Option<Notation>)
    ensures extension == [] ==> r == None
    ensures r == Some(Markdown) ==> |extension| == 3
    ensures r == Some(TreeText) ==> |extension| == 4 || |extension| == 5
  {
    if extension == [] then None
    else
      var e := Lower(extension);
      if e == ".md" then Some(Markdown)
      else if e == ".txt" || e == ".tree" then Some(TreeText)
      else None
  }

  lemma LowerIdempotent(s: string)
    ensures Lower(Lower(s)) == Lower(s)
  {
    assert forall i :: 0 <= i < |s| ==> LowerChar(LowerChar(s[i])) == LowerChar(s[i]);
  }

  /** The notation depends on the extension alone, and on it only up to letter case:
      the text is ignored, and an extension reads like its lower-case form. */
  lemma DetectIgnoresTextAndCase(a: string, b: string, extension: string)
    ensures DetectInputType(a, extension) == DetectInputType(b, Lower(extension))
  {
    LowerIdempotent(extension);
  }

  /** The outline notation is chosen for exactly the four spellings of ".md"; the
      diagram notation for ".txt" and ".tree" in any letter case; nothing for any other
      extension, the empty one included. */
  lemma DetectCases(text: string, extension: string)
    ensures DetectInputType(text, extension) == Some(Markdown) <==>
      |extension| == 3 && extension[0] == '.' &&
      (extension[1] == 'm' || extension[1] == 'M') && (extension[2] == 'd' || extension[2] == 'D')
    ensures DetectInputType(text, extension) == Some(TreeText) <==>
      Lower(extension) == ".txt" || Lower(extension) == ".tree"
    ensures DetectInputType(text, extension) == None <==>
      Lower(extension) != ".md" && Lower(extension) != ".txt" && Lower(extension) != ".tree"
  {
    var e := Lower(extension);
    if |extension| == 3 {
      assert e == ".md" <==> e[0] == '.' && e[1] == 'm' && e[2] == 'd';
    }
  }

  /** The tree `construct_markdown_structure` builds, as a value. */
  function MarkdownTree(text: string): Option<Tree> {
    BuildSpec.Build(OutlineParser.OutlineRecords(text))
  }

  /** The tree `construct_tree_structre` builds, as a value; it parses with the default
      four-character indentation unit. */
  function DiagramTree(text: string): Option<Tree> {
    BuildSpec.Build(DiagramParser.DiagramRecords(text, "    "))
  }

  /** `construct_markdown_structure`: no node for a text with no non-blank line
      (the source returns the falsy ""), otherwise a fresh root realizing the built
      tree. */
  method ConstructMarkdownStructure(text: string) returns (root: Node?)
    ensures root == null <==> NonBlankLines(text) == []
    ensures root != null ==> fresh(root) && Realizes(root, MarkdownTree(text).value)
  {
    var entries := OutlineParser.ParseMarkdown(text);
    OutlineParser.OutlineRecordsAre(text);
    if entries == [] {
      return null;
    }
    ghost var made;
    root, made := Builder.BuildTree(entries);
  }

  /** `construct_tree_structre`: no node for a text with no non-blank line, otherwise a
      fresh root realizing the built tree. */
  method ConstructTreeStructure(text: string) returns (root: Node?)
    ensures root == null <==> NonBlankLines(text) == []
    ensures root != null ==> fresh(root) && Realizes(root, DiagramTree(text).value)
  {
    var entries := DiagramParser.ParseTreeText(text, "    ");
    DiagramParser.DiagramRecordsAre(text, "    ");
    if entries == [] {
      return null;
    }
    ghost var made;
    root, made := Builder.BuildTree(entries);
  }

  /** Nodes whose records are `es` carry the names and levels of `es`, one for one. */
  lemma RecordsAt(ts: seq<Tree>, es: seq<Entry>)
    requires Records(ts) == es
    ensures |ts| == |es|
    ensures forall k :: 0 <= k < |ts| ==> ts[k].name == es[k].name && ts[k].level == es[k].level
  {
    assert forall k :: 0 <= k < |ts| ==> Records(ts)[k] == Entry(ts[k].name, ts[k].level);
  }

  /** Records whose first is shallower than all the others, and whose names hold no
      line feed, become a diagram with one line per record: line `k` draws the node of
      record `k`, with its row's prefix and connector. */
  lemma DiagramOfRecords(es: seq<Entry>)
    requires es != [] && forall j :: 0 < j < |es| ==> es[j].level > es[0].level
    requires forall k :: 0 <= k < |es| ==> '\n' !in es[k].name
    ensures BuildSpec.Build(es).Some?
    ensures var st := DiagramRenderer.DefaultStyle;
      var rows := DiagramRenderer.Rows(st, BuildSpec.Build(es).value, "", true);
      var ls := SplitLines(DiagramRenderer.GenerateTreeText(st, BuildSpec.Build(es)));
      |ls| == |rows| == |es| &&
      forall k :: 0 <= k < |ls| ==>
        rows[k].node.name == es[k].name && ls[k] == DiagramRenderer.RowLine(st, rows[k])
  {
    BuildSpec.BuildKeepsAll(es);
    var t := BuildSpec.Build(es).value;
    RecordsAt(Preorder(t), es);
    DiagramRenderer.TreeTextLines(DiagramRenderer.DefaultStyle, t);
  }

  /** Records whose first is shallower than all the others, whose levels are never
      negative and whose names hold no line feed, become an outline with one line per
      record: the first record's name alone, then each later record's name after four
      spaces per unit of its level. */
  lemma OutlineOfRecords(es: seq<Entry>)
    requires es != [] && forall j :: 0 < j < |es| ==> es[j].level > es[0].level
    requires forall k :: 0 <= k < |es| ==> es[k].level >= 0 && '\n' !in es[k].name
    ensures var ls := SplitLines(OutlineRenderer.GenerateMarkdown(BuildSpec.Build(es)));
      |ls| == |es| && ls[0] == es[0].name &&
      forall k :: 1 <= k < |ls| ==> ls[k] == Repeat(OutlineRenderer.Unit, es[k].level) + es[k].name
  {
    BuildSpec.BuildKeepsAll(es);
    var t := BuildSpec.Build(es).value;
    var ps := Preorder(t);
    RecordsAt(ps, es);
    OutlineRenderer.MarkdownLines(t);
  }

  /** An outline whose first non-blank line is strictly less indented than every later one
      becomes a diagram with exactly one line per non-blank line: line `k` draws the
      node of the `k`-th record, with its row's prefix and connector. */
  lemma MarkdownToDiagram(text: string)
    requires var nb := NonBlankLines(text);
      nb != [] && forall j :: 0 < j < |nb| ==>
        OutlineParser.LeadingSpaces(nb[j]) > OutlineParser.LeadingSpaces(nb[0])
    ensures MarkdownTree(text).Some?
    ensures var st, rs := DiagramRenderer.DefaultStyle, OutlineParser.OutlineRecords(text);
      var rows := DiagramRenderer.Rows(st, MarkdownTree(text).value, "", true);
      var ls := SplitLines(DiagramRenderer.GenerateTreeText(st, MarkdownTree(text)));
      |ls| == |rows| == |rs| == |NonBlankLines(text)| &&
      forall k :: 0 <= k < |ls| ==>
        rows[k].node.name == rs[k].name && ls[k] == DiagramRenderer.RowLine(st, rows[k])
  {
    var rs := OutlineParser.OutlineRecords(text);
    OutlineParser.OutlineRecordsAre(text);
    OutlineParser.OutlineNamesFlat(text);
    DiagramOfRecords(rs);
  }

  /** A diagram whose first non-blank line has a lower level than every later one
      becomes an outline with exactly one line per non-blank line: the first record's
      name alone, then each later record's name after four spaces per unit of its level. */
  lemma DiagramToMarkdown(text: string)
    requires var rs := DiagramParser.DiagramRecords(text, "    ");
      rs != [] && forall j :: 0 < j < |rs| ==> rs[j].level > rs[0].level
    ensures var rs := DiagramParser.DiagramRecords(text, "    ");
      var ls := SplitLines(OutlineRenderer.GenerateMarkdown(DiagramTree(text)));
      |ls| == |rs| == |NonBlankLines(text)| && ls[0] == rs[0].name &&
      forall k :: 1 <= k < |ls| ==> ls[k] == Repeat(OutlineRenderer.Unit, rs[k].level) + rs[k].name
  {
    var rs := DiagramParser.DiagramRecords(text, "    ");
    DiagramParser.DiagramRecordsAre(text, "    ");
    OutlineOfRecords(rs);
  }
}
