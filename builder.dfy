/** The stack algorithm of `build_tree` over mutable nodes. */
module Builder {
  import opened Text
  import opened TreeModel
  import opened BuildSpec

  /** The pop loop of `build_tree`: drops every open node at least as deep as `level`,
      which leaves the nodes of the popped index stack. */
  method PopOpen(es: seq<Entry>, ghost made: seq<Node>, stack: seq<Node>, ghost idx: seq<int>,
                 level: int) returns (rest: seq<Node>)
    requires |made| <= |es| && Labels(es, made, |made|) && Tracks(stack, made, idx)
    ensures Tracks(rest, made, Pop(es, idx, level))
    ensures rest == [] || level > rest[|rest| - 1].level
  {
    rest := stack;
    ghost var left := idx;
    while rest != [] && level <= rest[|rest| - 1].level
      invariant Tracks(rest, made, left)
      invariant Pop(es, left, level) == Pop(es, idx, level)
      decreases |rest|
    {
      PopOne(es, made, rest, left, level);
      rest := rest[..|rest| - 1];
      left := left[..|left| - 1];
    }
    PopStops(es, left, level);
  }

  method NewNode(name: string, isDir: bool, level: int, ghost made: seq<Node>)
    returns (node: Node)
    ensures fresh(node) && node.children == []
    ensures node.name == name && node.isDir == isDir && node.level == level
    ensures forall i :: 0 <= i < |made| ==> made[i] != node
  {
    node := new Node(name, isDir, level);
  }

  /** `stack[-1].add_child(node)`: `parent`, the node of record `p`, gains `node` as
      its last child, and no other node's children change. */
  method AddToParent(parent: Node, node: Node, ghost made: seq<Node>, ghost p: int,
                     ghost ch: seq<seq<Node>>)
    requires Distinct(made + [node]) && 0 <= p < |made|
    requires parent == made[p] && Holds(made, ch) && node.children == []
    modifies parent
    ensures Holds(made + [node], Attach(ch, p, node))
  {
    var grown := made + [node];
    assert grown[p] == parent;
    parent.AddChild(node);
    forall i | 0 <= i < |grown| ensures grown[i].children == Attach(ch, p, node)[i] {
      if i != p {
        assert grown[i] != grown[p];
      }
    }
  }

  /** One iteration of the loop of `build_tree`: a fresh node for record `m`, the stack
      popped to its level, the node added to its parent's children and pushed. */
  method Grow(es: seq<Entry>, m: nat, stack: seq<Node>, ghost made: seq<Node>,
              ghost ch: seq<seq<Node>>, ghost idx: seq<int>, ghost objs: set<Node>)
    returns (node: Node, stack': seq<Node>, ghost ch': seq<seq<Node>>, ghost idx': seq<int>)
    requires 0 < m < |es| && Guarded(es, made, ch, stack, idx, m, |es|) && Holds(made, ch)
    requires forall i :: 0 <= i < |made| ==> made[i] in objs
    modifies objs
    ensures fresh(node)
    ensures Holds(made + [node], ch')
    ensures Guarded(es, made + [node], ch', stack', idx', m + 1, |es|)
  {
    GuardedOpen(es, made, ch, stack, idx, m, |es|);
    var name, level := es[m].name, es[m].level;
    node := NewNode(name, EndsWithSlash(name), level, made);
    var rest := PopOpen(es, made, stack, idx, level);
    Parent(es, made, ch, stack, idx, m, node, rest);
    ghost var p := ParentOf(es, m);
    if rest != [] {
      AddToParent(rest[|rest| - 1], node, made, p, ch);
    } else {
      NoParent(made, ch, node);
    }
    Step(es, made, ch, stack, idx, m, node, rest);
    stack' := rest + [node];
    ch' := Attach(ch, p, node);
    idx' := Pop(es, idx, level) + [m];
    GuardedOpen(es, made + [node], ch', stack', idx', m + 1, |es|);
  }

  /** `build_tree`: links one fresh `Node` per record, keeping a stack of open nodes. */
  method BuildTree(entries: seq<Entry>) returns (root: Node?, ghost made: seq<Node>)
    ensures root == null <==> entries == []
    ensures root != null ==> Realizes(root, Build(entries).value)
    ensures |made| == |entries| && (root != null ==> root == made[0])
    ensures forall i :: 0 <= i < |made| ==> fresh(made[i])
    ensures Distinct(made) && Arena(entries, made, |entries|)
  {
    if entries == [] {
      return null, [];
    }
    var first := new Node(entries[0].name, true, entries[0].level);
    var stack := [first];
    ghost var idx: seq<int> := [0];
    ghost var ch: seq<seq<Node>> := [[]];
    made := [first];
    ghost var objs: set<Node> := {first};
    OpenFirst(entries, first);
    var m := 1;
    while m < |entries|
      invariant 1 <= m <= |entries| && |made| == m && made[0] == first
      invariant forall o :: o in objs ==> fresh(o)
      invariant forall i :: 0 <= i < |made| ==> made[i] in objs
      invariant Holds(made, ch)
      invariant Guarded(entries, made, ch, stack, idx, m, |entries|)
    {
      var node;
      node, stack, ch, idx := Grow(entries, m, stack, made, ch, idx, objs);
      made := made + [node];
      objs := objs + {node};
      m := m + 1;
    }
    Finish(entries, made, ch, stack, idx);
    root := first;
  }
}
