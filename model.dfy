/**
 * The shared node model of the converter (main.py:4-12): the `(name, level)` records
 * both parsers produce, the mutable `Node` objects the tree builder links together,
 * and `Tree`, the value a finished node graph denotes, which both renderers read.
 */
module TreeModel {

  datatype Option<T> = None | Some(value: T)

  /** The drawing characters of the diagram notation: the vertical bar, the tee and
      corner of a connector, and its horizontal stroke. */
  const Bar: char := '\U{2502}'
  const Tee: char := '\U{251C}'
  const Corner: char := '\U{2514}'
  const Stroke: char := '\U{2500}'

  /** One `(name, level)` record of a parser. A level comes from an indentation count,
      but the builder accepts any integer. */
  datatype Entry = Entry(name: string, level: int)

  /** A node and its subtree as a value: the node's name, directory flag, stored
      level and ordered children. */
  datatype Tree = Tree(name: string, isDir: bool, level: int, children: seq<Tree>)

  /** The nodes of a tree in pre-order: the node itself, then each child's subtree in order. */
  function Preorder(t: Tree): (ps: seq<Tree>)
    ensures |ps| >= 1 && ps[0] == t
    decreases t
  {
    [t] + PreorderAll(t.children)
  }

  /** The pre-orders of a sequence of sibling trees, concatenated. */
  function PreorderAll(ts: seq<Tree>): seq<Tree>
    decreases ts
  {
    if ts == [] then [] else Preorder(ts[0]) + PreorderAll(ts[1..])
  }

  lemma PreorderAllAppend(a: seq<Tree>, b: seq<Tree>)
    ensures PreorderAll(a + b) == PreorderAll(a) + PreorderAll(b)
  {
    if a == [] {
      assert a + b == b;
    } else {
      assert (a + b)[0] == a[0];
      assert (a + b)[1..] == a[1..] + b;
      PreorderAllAppend(a[1..], b);
    }
  }

  lemma PreorderAllCons(t: Tree, ts: seq<Tree>)
    ensures PreorderAll([t] + ts) == Preorder(t) + PreorderAll(ts)
  {
    assert ([t] + ts)[1..] == ts;
  }

  /** The `(name, level)` record each node of `ts` carries. */
  function Records(ts: seq<Tree>): (rs: seq<Entry>)
    ensures |rs| == |ts|
    ensures forall k :: 0 <= k < |ts| ==> rs[k] == Entry(ts[k].name, ts[k].level)
  {
    seq(|ts|, k requires 0 <= k < |ts| => Entry(ts[k].name, ts[k].level))
  }

  lemma RecordsAppend(a: seq<Tree>, b: seq<Tree>)
    ensures Records(a + b) == Records(a) + Records(b)
  {
  }

  /** `Node` of main.py: name, directory flag and level are fixed at construction;
      `children` grows through `AddChild`. */
  class Node {
    const name: string
    const isDir: bool
    const level: int
    var children: seq<Node>

    constructor (name: string, isDir: bool, level: int)
      ensures this.name == name && this.isDir == isDir && this.level == level
      ensures children == []
    {
      this.name := name;
      this.isDir := isDir;
      this.level := level;
      children := [];
    }

    /** `add_child`: appends `child` as the last child. */
    method AddChild(child: Node)
      modifies this
      ensures children == old(children) + [child]
    {
      children := children + [child];
    }
  }

  /** The node graph reachable from `n` through `children` has the shape, names,
      directory flags and levels of `t`, child by child in order. */
  ghost predicate Realizes(n: Node, t: Tree)
    reads *
    decreases t
  {
    n.name == t.name && n.isDir == t.isDir && n.level == t.level &&
    |n.children| == |t.children| &&
    forall k :: 0 <= k < |t.children| ==> Realizes(n.children[k], t.children[k])
  }
}
