/**
 * The outline renderer, `generate_markdown` (main.py:121-136): the root's name at
 * indentation 0, then every descendant in pre-order, indented by four spaces per unit
 * of its stored level (not of its depth). A node whose stored level is -1 writes no
 * line, though its children still do. It reads the tree as the `Tree` value its node
 * graph realizes.
 */
module OutlineRenderer {
  import opened Text
  import opened TreeModel
  import OutlineParser

  /** The indentation unit of the outline renderer. */
  const Unit: string := "    "

  /** One outline line without its line feed: `"    " * level + name`. */
  function OutlineLine(name: string, level: int): string {
    Repeat(Unit, level) + name
  }

  /** `_generate_markdown_recursive(node, level)`. */
  function MdRender(t: Tree, level: int): (r: string)
    ensures level != -1 ==> r != []
    ensures r == [] || r[|r| - 1] == '\n'
    decreases t
  {
    (if level == -1 then "" else OutlineLine(t.name, level) + "\n") + MdKids(t.children)
  }

  /** The loop over the children, each drawn at its own stored level. */
  function MdKids(ts: seq<Tree>): (r: string)
    ensures r == [] || r[|r| - 1] == '\n'
    decreases ts
  {
    if ts == [] then "" else MdRender(ts[0], ts[0].level) + MdKids(ts[1..])
  }

  /** `generate_markdown`: nothing without a root, and the root at level 0. */
  function GenerateMarkdown(root: Option<Tree>): (r: string)
    ensures r == [] <==> root.None?
    ensures r == [] || r[|r| - 1] == '\n'
  {
    match root
    case None => ""
    case Some(t) => MdRender(t, 0)
  }

  /** The outline lines of a run of nodes: each node's line at its stored level, except
      for the nodes stored at level -1. */
  function Shown(ps: seq<Tree>): seq<string>
    decreases ps
  {
    if ps == [] then []
    else (if ps[0].level == -1 then [] else [OutlineLine(ps[0].name, ps[0].level)]) + Shown(ps[1..])
  }

  lemma {:induction false} ShownAppend(a: seq<Tree>, b: seq<Tree>)
    ensures Shown(a + b) == Shown(a) + Shown(b)
    decreases a
  {
    if a == [] {
      assert a + b == b;
    } else {
      assert (a + b)[0] == a[0];
      assert (a + b)[1..] == a[1..] + b;
      ShownAppend(a[1..], b);
    }
  }

  /** The renderer writes the node's own line (unless `level` is -1), then the lines of
      all its descendants in pre-order, each at its stored level. */
  lemma {:induction false} MdRenderShows(t: Tree, level: int)
    ensures MdRender(t, level) ==
      (if level == -1 then "" else OutlineLine(t.name, level) + "\n") +
      JoinLines(Shown(PreorderAll(t.children)))
    decreases t, 1
  {
    MdKidsShow(t.children);
  }

  lemma {:induction false} MdKidsShow(ts: seq<Tree>)
    ensures MdKids(ts) == JoinLines(Shown(PreorderAll(ts)))
    decreases ts
  {
    if ts != [] {
      var t := ts[0];
      MdRenderShows(t, t.level);
      MdKidsShow(ts[1..]);
      var own := if t.level == -1 then [] else [OutlineLine(t.name, t.level)];
      var below := Shown(PreorderAll(t.children));
      var later := Shown(PreorderAll(ts[1..]));
      ShownAppend([t], PreorderAll(t.children));
      ShownAppend(Preorder(t), PreorderAll(ts[1..]));
      assert Shown([t]) == own;
      JoinLinesAppend(own + below, later);
      JoinLinesAppend(own, below);
    }
  }

  /** No node of `ps` is stored at level -1. */
  predicate AllShown(ps: seq<Tree>) {
    forall k :: 0 <= k < |ps| ==> ps[k].level != -1
  }

  /** When no node is stored at level -1, every node has its line. */
  lemma {:induction false} ShownAll(ps: seq<Tree>)
    requires AllShown(ps)
    ensures |Shown(ps)| == |ps|
    ensures forall k :: 0 <= k < |ps| ==> Shown(ps)[k] == OutlineLine(ps[k].name, ps[k].level)
    decreases ps
  {
    if ps != [] {
      ShownAll(ps[1..]);
      assert forall k :: 1 <= k < |ps| ==> ps[1..][k - 1] == ps[k];
    }
  }

  /** Four spaces per level, and no line feed. */
  lemma {:induction false} RepeatUnit(n: int)
    ensures |Repeat(Unit, n)| == (if n <= 0 then 0 else 4 * n)
    ensures forall i :: 0 <= i < |Repeat(Unit, n)| ==> Repeat(Unit, n)[i] == ' '
    decreases n
  {
    if n > 0 {
      RepeatUnit(n - 1);
      assert Repeat(Unit, n) == Unit + Repeat(Unit, n - 1);
    }
  }

  lemma FlatLine(name: string, level: int)
    requires '\n' !in name
    ensures '\n' !in OutlineLine(name, level)
  {
    RepeatUnit(level);
  }

  /** The outline of a tree none of whose descendants is stored at level -1, and whose
      names hold no line feed, has exactly one line per node in pre-order: the root's
      name alone, then each descendant's name after four spaces per unit of its stored
      level. */
  lemma MarkdownLines(t: Tree)
    requires forall k :: 0 < k < |Preorder(t)| ==> Preorder(t)[k].level != -1
    requires forall k :: 0 <= k < |Preorder(t)| ==> '\n' !in Preorder(t)[k].name
    ensures var ls, ps := SplitLines(GenerateMarkdown(Some(t))), Preorder(t);
      |ls| == |ps| && ls[0] == t.name &&
      forall k :: 1 <= k < |ls| ==> ls[k] == Repeat(Unit, ps[k].level) + ps[k].name
  {
    var ps := Preorder(t);
    var below := PreorderAll(t.children);
    MdRenderShows(t, 0);
    assert forall k :: 1 <= k < |ps| ==> ps[k] == below[k - 1];
    assert AllShown(below) by {
      forall k | 0 <= k < |below| ensures below[k].level != -1 {
        assert below[k] == ps[k + 1];
      }
    }
    ShownAll(below);
    var lines := [OutlineLine(t.name, 0)] + Shown(below);
    JoinLinesAppend([OutlineLine(t.name, 0)], Shown(below));
    forall k | 0 <= k < |lines| ensures '\n' !in lines[k] {
      var p := ps[k];
      var n := if k == 0 then 0 else p.level;
      assert lines[k] == OutlineLine(p.name, n);
      FlatLine(p.name, n);
    }
    SplitJoinLines(lines);
  }

  /** The outline parser reads a line of this renderer with four times the level it was
      written at: the renderer's indentation is not the parser's. */
  lemma ReadBackScales(name: string, level: int)
    requires name != [] && name[0] != ' '
    ensures OutlineParser.LeadingSpaces(OutlineLine(name, level)) ==
      (if level <= 0 then 0 else 4 * level)
  {
    var s := OutlineLine(name, level);
    RepeatUnit(level);
    var m := |Repeat(Unit, level)|;
    assert s[m] == name[0];
    assert forall i :: 0 <= i < m ==> s[i] == ' ';
    LeadingSpacesExact(s, m);
  }

  /** A run of exactly `m` leading spaces is what `LeadingSpaces` counts. */
  lemma LeadingSpacesExact(s: string, m: nat)
    requires m < |s| && s[m] != ' ' && forall i :: 0 <= i < m ==> s[i] == ' '
    ensures OutlineParser.LeadingSpaces(s) == m
  {
  }
}
