/**
 * The tree builder, `build_tree` (main.py:35-54).
 *
 * The reference definition does not mention a stack: the parent of record `j` is the
 * latest earlier record whose level is strictly smaller (`ParentOf`), and `Build`
 * assembles the tree hanging from record 0 under that rule. `BuildTree` is the
 * source's stack algorithm over mutable `Node` objects, proved to produce exactly
 * that tree; `OpenStack` describes the stack it keeps.
 */
module BuildSpec {
  import opened Text
  import opened TreeModel

  // ---------------------------------------------------------------------------
  // Reference definition
  // ---------------------------------------------------------------------------

  /** The latest index below `hi` whose level is strictly below `lv`, or -1. */
  function Shallower(es: seq<Entry>, hi: nat, lv: int): (p: int)
    requires hi <= |es|
    ensures -1 <= p < hi
    ensures p >= 0 ==> es[p].level < lv
    ensures forall k :: p < k < hi ==> es[k].level >= lv
    decreases hi
  {
    if hi == 0 then -1
    else if es[hi - 1].level < lv then hi - 1
    else Shallower(es, hi - 1, lv)
  }

  /** The record record `j` is attached to, or -1 when it is attached to none. */
  function ParentOf(es: seq<Entry>, j: nat): (p: int)
    requires j < |es|
    ensures -1 <= p < j
    ensures p >= 0 ==> es[p].level < es[j].level
    ensures forall k :: p < k < j ==> es[k].level >= es[j].level
  {
    Shallower(es, j, es[j].level)
  }

  /** The indices in `[lo, hi)` whose parent is `i`, in increasing order. */
  function Kids(es: seq<Entry>, i: int, lo: nat, hi: nat): (ks: seq<int>)
    requires lo <= hi <= |es|
    ensures forall k :: 0 <= k < |ks| ==> lo <= ks[k] < hi
    decreases hi - lo
  {
    if hi == lo then []
    else Kids(es, i, lo, hi - 1) + (if ParentOf(es, hi - 1) == i then [hi - 1] else [])
  }

  /** The tree hanging from record `i`: record 0 is always a directory, every other
      record is one exactly when its name ends with "/". */
  function Subtree(es: seq<Entry>, i: nat): (t: Tree)
    requires i < |es|
    ensures t.name == es[i].name && t.level == es[i].level
    decreases |es| - i, 1
  {
    Tree(es[i].name, i == 0 || EndsWithSlash(es[i].name), es[i].level,
         Forest(es, i, Kids(es, i, i + 1, |es|)))
  }

  /** The subtrees of the records `ks`, all later than `i`. */
  function Forest(es: seq<Entry>, i: nat, ks: seq<int>): (ts: seq<Tree>)
    requires forall k :: 0 <= k < |ks| ==> i < ks[k] < |es|
    ensures |ts| == |ks|
    ensures forall k :: 0 <= k < |ks| ==> ts[k] == Subtree(es, ks[k])
    decreases |es| - i, 0, |ks|
  {
    if ks == [] then [] else [Subtree(es, ks[0])] + Forest(es, i, ks[1..])
  }

  /** `build_tree` as a value: no tree for no records, otherwise the tree of record 0. */
  function Build(es: seq<Entry>): (r: Option<Tree>)
    ensures r.None? <==> es == []
    ensures r.Some? ==> r.value.name == es[0].name && r.value.level == es[0].level && r.value.isDir
  {
    if es == [] then None else Some(Subtree(es, 0))
  }

  /** The first index after `k - 1` whose level is not deeper than record `i`'s, or |es|. */
  function EndFrom(es: seq<Entry>, i: nat, k: nat): (e: nat)
    requires i < k <= |es|
    ensures k <= e <= |es|
    ensures e < |es| ==> es[e].level <= es[i].level
    ensures forall j :: k <= j < e ==> es[j].level > es[i].level
    decreases |es| - k
  {
    if k == |es| || es[k].level <= es[i].level then k else EndFrom(es, i, k + 1)
  }

  /** Where the run of records deeper than record `i` that follows it ends. */
  function End(es: seq<Entry>, i: nat): (e: nat)
    requires i < |es|
    ensures i < e <= |es|
    ensures e < |es| ==> es[e].level <= es[i].level
    ensures forall j :: i < j < e ==> es[j].level > es[i].level
  {
    EndFrom(es, i, i + 1)
  }

  // ---------------------------------------------------------------------------
  // Properties of the reference definition
  // ---------------------------------------------------------------------------

  /** Every index `Kids` lists has `i` as its parent. */
  lemma {:induction false} KidsParents(es: seq<Entry>, i: int, lo: nat, hi: nat)
    requires lo <= hi <= |es|
    ensures forall k :: 0 <= k < |Kids(es, i, lo, hi)| ==> ParentOf(es, Kids(es, i, lo, hi)[k]) == i
    decreases hi - lo
  {
    if hi > lo {
      KidsParents(es, i, lo, hi - 1);
      var ks0 := Kids(es, i, lo, hi - 1);
      assert forall k :: 0 <= k < |ks0| ==> Kids(es, i, lo, hi)[k] == ks0[k];
    }
  }

  /** `Kids` lists its indices in increasing order. */
  lemma {:induction false} KidsSorted(es: seq<Entry>, i: int, lo: nat, hi: nat)
    requires lo <= hi <= |es|
    ensures forall a, b :: 0 <= a < b < |Kids(es, i, lo, hi)| ==>
      Kids(es, i, lo, hi)[a] < Kids(es, i, lo, hi)[b]
    decreases hi - lo
  {
    if hi > lo {
      KidsSorted(es, i, lo, hi - 1);
      var ks0 := Kids(es, i, lo, hi - 1);
      var ks := Kids(es, i, lo, hi);
      forall a, b | 0 <= a < b < |ks| ensures ks[a] < ks[b] {
        assert ks[a] == ks0[a];
        if b < |ks0| {
          assert ks[b] == ks0[b];
        } else {
          assert ks[b] == hi - 1;
        }
      }
    }
  }

  /** Every index in range whose parent is `i` is listed by `Kids`. */
  lemma {:induction false} KidsComplete(es: seq<Entry>, i: int, lo: nat, hi: nat, j: nat)
    requires lo <= j < hi <= |es| && ParentOf(es, j) == i
    ensures j in Kids(es, i, lo, hi)
    decreases hi - lo
  {
    var ks0 := Kids(es, i, lo, hi - 1);
    if j < hi - 1 {
      KidsComplete(es, i, lo, hi - 1, j);
      assert Kids(es, i, lo, hi) == ks0 + (if ParentOf(es, hi - 1) == i then [hi - 1] else []);
    } else {
      assert Kids(es, i, lo, hi) == ks0 + [j];
    }
  }

  /** The kids in a range are those of its two halves. */
  lemma {:induction false} KidsSplit(es: seq<Entry>, i: int, lo: nat, mid: nat, hi: nat)
    requires lo <= mid <= hi <= |es|
    ensures Kids(es, i, lo, hi) == Kids(es, i, lo, mid) + Kids(es, i, mid, hi)
    decreases hi
  {
    if hi == mid {
      assert Kids(es, i, mid, hi) == [];
    } else {
      KidsSplit(es, i, lo, mid, hi - 1);
    }
  }

  lemma {:induction false} KidsNone(es: seq<Entry>, i: int, lo: nat, hi: nat)
    requires lo <= hi <= |es|
    requires forall j :: lo <= j < hi ==> ParentOf(es, j) != i
    ensures Kids(es, i, lo, hi) == []
    decreases hi
  {
    if hi > lo {
      KidsNone(es, i, lo, hi - 1);
    }
  }

  lemma ForestAppend(es: seq<Entry>, i: nat, a: seq<int>, b: seq<int>)
    requires forall k :: 0 <= k < |a| ==> i < a[k] < |es|
    requires forall k :: 0 <= k < |b| ==> i < b[k] < |es|
    ensures Forest(es, i, a + b) == Forest(es, i, a) + Forest(es, i, b)
  {
    var ab := a + b;
    assert forall k :: 0 <= k < |ab| ==> i < ab[k] < |es|;
  }

  /** No record at or after `End(es, i)` has `i` as its parent. */
  lemma NoKidsAfterEnd(es: seq<Entry>, i: nat)
    requires i < |es|
    ensures Kids(es, i, End(es, i), |es|) == []
  {
    var e := End(es, i);
    forall j | e <= j < |es| ensures ParentOf(es, j) != i {
    }
    KidsNone(es, i, e, |es|);
  }

  /** The run of a child `f` of `i` ends no later than the run of `i`. */
  lemma KidEndsWithin(es: seq<Entry>, i: nat, f: nat)
    requires i < |es| && i < f < End(es, i) && ParentOf(es, f) == i
    ensures End(es, f) <= End(es, i)
  {
    var ei := End(es, i);
    if ei < |es| {
      assert es[ei].level <= es[i].level < es[f].level;
    }
  }

  /** No record inside the run of a child `f` of `i` is another child of `i`. */
  lemma KidRunHasNoSibling(es: seq<Entry>, i: nat, f: nat)
    requires i < |es| && i < f < End(es, i) && ParentOf(es, f) == i
    ensures forall j :: f < j < End(es, f) ==> ParentOf(es, j) != i
  {
    forall j | f < j < End(es, f) ensures ParentOf(es, j) != i {
      assert es[f].level < es[j].level;
    }
  }

  /** So the children of `i` inside that run are `f` alone. */
  lemma KidAlone(es: seq<Entry>, i: nat, f: nat)
    requires i < |es| && i < f < End(es, i) && ParentOf(es, f) == i
    requires forall j :: f < j < End(es, f) ==> ParentOf(es, j) != i
    ensures Kids(es, i, f, End(es, f)) == [f]
  {
    var e := End(es, f);
    KidsNone(es, i, f + 1, e);
    KidsSplit(es, i, f, f + 1, e);
    assert Kids(es, i, f, f) == [];
  }

  lemma KidOwnsRun(es: seq<Entry>, i: nat, f: nat)
    requires i < |es| && i < f < End(es, i) && ParentOf(es, f) == i
    ensures Kids(es, i, f, End(es, f)) == [f]
  {
    KidRunHasNoSibling(es, i, f);
    KidAlone(es, i, f);
  }

  /** Where the run of a child `f` of `i` ends inside the run of `i`, the next child
      of `i` starts. */
  lemma NextKid(es: seq<Entry>, i: nat, f: nat)
    requires i < |es| && i < f < End(es, i) && ParentOf(es, f) == i
    requires End(es, f) < End(es, i)
    ensures ParentOf(es, End(es, f)) == i
  {
    var e := End(es, f);
    assert es[i].level < es[e].level <= es[f].level;
    forall k | i < k < e ensures es[k].level >= es[e].level {
      if k < f {
        assert es[k].level >= es[f].level;
      } else if k > f {
        assert es[k].level > es[f].level;
      }
    }
  }

  /** The record of a subtree's root is the record it was built from. */
  lemma SubtreeHead(es: seq<Entry>, i: nat)
    requires i < |es|
    ensures Records([Subtree(es, i)]) == es[i..i + 1]
  {
    assert Records([Subtree(es, i)])[0] == es[i];
  }

  /** The pre-order of the subtree of record `i` lists exactly the records of the run
      that starts at `i` and ends before the next record not deeper than it. */
  lemma {:induction false} SubtreeSpan(es: seq<Entry>, i: nat)
    requires i < |es|
    ensures Records(Preorder(Subtree(es, i))) == es[i..End(es, i)]
    decreases |es| - i, 1
  {
    var t := Subtree(es, i);
    if i + 1 < End(es, i) {
      assert ParentOf(es, i + 1) == i;
    }
    ForestSpan(es, i, i + 1);
    RecordsAppend([t], PreorderAll(t.children));
    SubtreeHead(es, i);
    SliceSplit(es, i, i + 1, End(es, i));
  }

  /** The subtrees of the children of `i` from its child `f` on: `f`'s subtree, then
      those from the end of `f`'s run on. */
  lemma ForestStep(es: seq<Entry>, i: nat, f: nat)
    requires i < |es| && i < f < End(es, i) && ParentOf(es, f) == i
    ensures Forest(es, i, Kids(es, i, f, |es|)) ==
            [Subtree(es, f)] + Forest(es, i, Kids(es, i, End(es, f), |es|))
  {
    var e := End(es, f);
    KidOwnsRun(es, i, f);
    KidsSplit(es, i, f, e, |es|);
    ForestAppend(es, i, [f], Kids(es, i, e, |es|));
  }

  /** The pre-orders of the subtrees of the children of `i` from `from` on list exactly
      the records from `from` to the end of `i`'s run. */
  lemma {:induction false} ForestSpan(es: seq<Entry>, i: nat, from: nat)
    requires i < |es| && i < from <= End(es, i)
    requires from == End(es, i) || ParentOf(es, from) == i
    ensures Records(PreorderAll(Forest(es, i, Kids(es, i, from, |es|)))) == es[from..End(es, i)]
    decreases |es| - i, 0, |es| - from
  {
    var ei := End(es, i);
    if from == ei {
      NoKidsAfterEnd(es, i);
    } else {
      var e := End(es, from);
      KidEndsWithin(es, i, from);
      if e < ei {
        NextKid(es, i, from);
      }
      ForestStep(es, i, from);
      var s := Subtree(es, from);
      var fs := Forest(es, i, Kids(es, i, e, |es|));
      PreorderAllCons(s, fs);
      SubtreeSpan(es, from);
      ForestSpan(es, i, e);
      RecordsAppend(Preorder(s), PreorderAll(fs));
      SliceSplit(es, from, e, ei);
    }
  }

  /** The built tree holds exactly the records before the first later record whose
      level is not deeper than the root's, in input order (one node per record, a
      pre-order walk visiting them as listed); every record from there on is lost. */
  lemma BuildPreorder(es: seq<Entry>)
    requires es != []
    ensures Build(es).Some?
    ensures Records(Preorder(Build(es).value)) == es[..End(es, 0)]
  {
    SubtreeSpan(es, 0);
  }

  /** When every record after the first is deeper than the first, the built tree holds
      them all, and its pre-order walk reproduces the input. */
  lemma BuildKeepsAll(es: seq<Entry>)
    requires es != []
    requires forall j :: 0 < j < |es| ==> es[j].level > es[0].level
    ensures Records(Preorder(Build(es).value)) == es
  {
    BuildPreorder(es);
    assert es[..|es|] == es;
  }

  /** A record after the first whose level is at most the root's is missing from the
      built tree, and so is every record after it. */
  lemma BuildDropsShallow(es: seq<Entry>, j: nat)
    requires 0 < j < |es| && es[j].level <= es[0].level
    ensures |Preorder(Build(es).value)| <= j
  {
    BuildPreorder(es);
  }

  /** Every child is strictly deeper than its parent. */
  ghost predicate ChildrenDeeper(t: Tree)
    decreases t
  {
    forall k :: 0 <= k < |t.children| ==>
      t.children[k].level > t.level && ChildrenDeeper(t.children[k])
  }

  /** Every node below the root is a directory exactly when its name ends with "/". */
  ghost predicate SlashMarksDirs(t: Tree)
    decreases t
  {
    forall k :: 0 <= k < |t.children| ==>
      t.children[k].isDir == EndsWithSlash(t.children[k].name) && SlashMarksDirs(t.children[k])
  }

  /** Below record `i`, children are deeper than their parents and directories are the
      names ending in "/". */
  lemma {:induction false} SubtreeShape(es: seq<Entry>, i: nat)
    requires i < |es|
    ensures ChildrenDeeper(Subtree(es, i)) && SlashMarksDirs(Subtree(es, i))
    decreases |es| - i
  {
    var ks := Kids(es, i, i + 1, |es|);
    var t := Subtree(es, i);
    KidsParents(es, i, i + 1, |es|);
    forall k | 0 <= k < |ks|
      ensures t.children[k].level > t.level
      ensures ChildrenDeeper(t.children[k]) && SlashMarksDirs(t.children[k])
      ensures t.children[k].isDir == EndsWithSlash(t.children[k].name)
    {
      assert t.children[k] == Subtree(es, ks[k]);
      assert ParentOf(es, ks[k]) == i;
      SubtreeShape(es, ks[k]);
    }
  }

  /** `build_tree`'s result: none for no records; otherwise a root that carries the
      first record's name and level and is a directory, children strictly deeper than
      their parents, and every other node named verbatim and a directory exactly when
      its name ends with "/". */
  lemma BuildShape(es: seq<Entry>)
    ensures Build(es).None? <==> es == []
    ensures es != [] ==>
      var t := Build(es).value;
      t.name == es[0].name && t.level == es[0].level && t.isDir &&
      ChildrenDeeper(t) && SlashMarksDirs(t)
  {
    if es != [] {
      SubtreeShape(es, 0);
    }
  }

  /** A record is attached to no node exactly when no earlier record is shallower. */
  lemma DetachedWhenNoneShallower(es: seq<Entry>, j: nat)
    requires j < |es|
    ensures ParentOf(es, j) == -1 <==> forall k :: 0 <= k < j ==> es[k].level >= es[j].level
  {
  }

  // ---------------------------------------------------------------------------
  // The stack
  // ---------------------------------------------------------------------------

  /** The stack after popping every top entry whose level is at least `lv`. */
  function Pop(es: seq<Entry>, st: seq<int>, lv: int): (r: seq<int>)
    requires forall k :: 0 <= k < |st| ==> 0 <= st[k] < |es|
    ensures r <= st
    ensures r != [] ==> es[r[|r| - 1]].level < lv
    decreases |st|
  {
    if st != [] && es[st[|st| - 1]].level >= lv then Pop(es, st[..|st| - 1], lv) else st
  }

  /** Each stack entry is a later record than the one below it, and a deeper one. */
  ghost predicate Increasing(es: seq<Entry>, st: seq<int>)
    requires forall k :: 0 <= k < |st| ==> 0 <= st[k] < |es|
    decreases |st|
  {
    |st| <= 1 ||
    (var a, b := st[|st| - 2], st[|st| - 1];
     a < b && es[a].level < es[b].level && Increasing(es, st[..|st| - 1]))
  }

  lemma {:induction false} IncreasingPrefix(es: seq<Entry>, st: seq<int>, n: nat)
    requires forall k :: 0 <= k < |st| ==> 0 <= st[k] < |es|
    requires Increasing(es, st) && n <= |st|
    ensures Increasing(es, st[..n])
    decreases |st|
  {
    if n < |st| {
      var front := st[..|st| - 1];
      IncreasingPrefix(es, front, n);
      assert front[..n] == st[..n];
    } else {
      assert st[..n] == st;
    }
  }

  /** An increasing stack rises strictly, entry by entry, in index and in level. */
  lemma {:induction false} IncreasingAdjacent(es: seq<Entry>, st: seq<int>)
    requires forall k :: 0 <= k < |st| ==> 0 <= st[k] < |es|
    requires Increasing(es, st)
    ensures forall k :: 0 <= k < |st| - 1 ==> st[k] < st[k + 1] && es[st[k]].level < es[st[k + 1]].level
    decreases |st|
  {
    if |st| > 1 {
      var front := st[..|st| - 1];
      IncreasingAdjacent(es, front);
      assert forall k :: 0 <= k < |front| ==> front[k] == st[k];
    }
  }

  /** Pushing `j` onto a prefix of an increasing stack keeps it increasing when `j` is
      later than every entry and deeper than the prefix's top. */
  lemma PrefixPushIncreasing(es: seq<Entry>, st: seq<int>, r: seq<int>, j: nat)
    requires j < |es| && forall k :: 0 <= k < |st| ==> 0 <= st[k] < j
    requires Increasing(es, st) && r <= st
    requires r == [] || es[r[|r| - 1]].level < es[j].level
    ensures Increasing(es, r + [j])
  {
    IncreasingPrefix(es, st, |r|);
    assert st[..|r|] == r;
    assert (r + [j])[..|r|] == r;
  }

  /** The indices on `build_tree`'s stack once the first `m` records are processed,
      topped by record `m - 1`. */
  function OpenStack(es: seq<Entry>, m: nat): (st: seq<int>)
    requires m <= |es|
    ensures forall k :: 0 <= k < |st| ==> 0 <= st[k] < m
    ensures m > 0 ==> st != [] && st[|st| - 1] == m - 1
    decreases m
  {
    if m == 0 then [] else Pop(es, OpenStack(es, m - 1), es[m - 1].level) + [m - 1]
  }

  /** Processing record `m - 1` keeps the open stack increasing. */
  lemma OpenStackStep(es: seq<Entry>, m: nat)
    requires 0 < m <= |es| && Increasing(es, OpenStack(es, m - 1))
    ensures Increasing(es, OpenStack(es, m))
  {
    var st := OpenStack(es, m - 1);
    PrefixPushIncreasing(es, st, Pop(es, st, es[m - 1].level), m - 1);
  }

  /** The open stack is strictly increasing, both in index and in level. */
  lemma {:induction false} OpenStackIncreasing(es: seq<Entry>, m: nat)
    requires m <= |es|
    ensures Increasing(es, OpenStack(es, m))
    decreases m
  {
    if m > 0 {
      OpenStackIncreasing(es, m - 1);
      OpenStackStep(es, m);
    }
  }

  lemma {:induction false} PopTwice(es: seq<Entry>, st: seq<int>, hi: int, lo: int)
    requires forall k :: 0 <= k < |st| ==> 0 <= st[k] < |es|
    requires lo <= hi
    ensures Pop(es, Pop(es, st, hi), lo) == Pop(es, st, lo)
    decreases |st|
  {
    if st != [] && es[st[|st| - 1]].level >= hi {
      PopTwice(es, st[..|st| - 1], hi, lo);
    }
  }

  /** Pushing a record at least as deep as `lv` makes no difference once popped to `lv`. */
  lemma PopPushed(es: seq<Entry>, st: seq<int>, j: nat, lv: int)
    requires forall k :: 0 <= k < |st| ==> 0 <= st[k] < |es|
    requires j < |es| && es[j].level >= lv
    ensures Pop(es, st + [j], lv) == Pop(es, st, lv)
  {
    assert (st + [j])[..|st|] == st;
  }

  /** Popping stops at a top shallower than `lv`. */
  lemma PopStops(es: seq<Entry>, st: seq<int>, lv: int)
    requires forall k :: 0 <= k < |st| ==> 0 <= st[k] < |es|
    requires st == [] || es[st[|st| - 1]].level < lv
    ensures Pop(es, st, lv) == st
  {
  }

  /** Popping to `lv` below a record at least as deep as `lv` pops that record too. */
  lemma PopThrough(es: seq<Entry>, m: nat, lv: int)
    requires 0 < m <= |es| && es[m - 1].level >= lv
    ensures Pop(es, OpenStack(es, m), lv) == Pop(es, OpenStack(es, m - 1), lv)
  {
    var prev := OpenStack(es, m - 1);
    var popped := Pop(es, prev, es[m - 1].level);
    OpenStackPush(es, m - 1);
    PopPushed(es, popped, m - 1, lv);
    PopTwice(es, prev, es[m - 1].level, lv);
  }

  /** Popping to `lv` stops at the last record when it is shallower than `lv`. */
  lemma PopAtLast(es: seq<Entry>, m: nat, lv: int)
    requires 0 < m <= |es| && es[m - 1].level < lv
    ensures Pop(es, OpenStack(es, m), lv) == OpenStack(es, m)
  {
    PopStops(es, OpenStack(es, m), lv);
  }

  /** Popping the stack down to level `lv` leaves on top the latest record shallower
      than `lv`, and leaves it empty exactly when there is none. */
  lemma {:induction false} PopFindsShallower(es: seq<Entry>, m: nat, lv: int)
    requires m <= |es|
    ensures var r := Pop(es, OpenStack(es, m), lv);
      (r == [] <==> Shallower(es, m, lv) == -1) &&
      (r != [] ==> r[|r| - 1] == Shallower(es, m, lv))
    decreases m
  {
    if m > 0 {
      if es[m - 1].level >= lv {
        PopThrough(es, m, lv);
        PopFindsShallower(es, m - 1, lv);
        assert Shallower(es, m, lv) == Shallower(es, m - 1, lv);
      } else {
        PopAtLast(es, m, lv);
        assert Shallower(es, m, lv) == m - 1;
      }
    } else {
      assert OpenStack(es, m) == [];
    }
  }

  /** After processing record `m`, the stack is the popped stack with `m` on top. */
  lemma OpenStackPush(es: seq<Entry>, m: nat)
    requires m < |es|
    ensures OpenStack(es, m + 1) == Pop(es, OpenStack(es, m), es[m].level) + [m]
  {
  }

  // ---------------------------------------------------------------------------
  // The algorithm
  // ---------------------------------------------------------------------------

  /** The nodes of `made` at the indices `ks`. */
  function Gather(made: seq<Node>, ks: seq<int>): (ns: seq<Node>)
    requires forall k :: 0 <= k < |ks| ==> 0 <= ks[k] < |made|
    ensures |ns| == |ks| && forall k :: 0 <= k < |ks| ==> ns[k] == made[ks[k]]
  {
    seq(|ks|, k requires 0 <= k < |ks| => made[ks[k]])
  }

  /** The children lists of the nodes of `made`, in the current heap. */
  ghost function Children(made: seq<Node>): (ch: seq<seq<Node>>)
    reads made
    ensures |ch| == |made| && forall i :: 0 <= i < |made| ==> ch[i] == made[i].children
  {
    seq(|made|, i reads made requires 0 <= i < |made| => made[i].children)
  }

  lemma ChildrenAre(made: seq<Node>, ch: seq<seq<Node>>)
    requires |ch| == |made| && forall i :: 0 <= i < |made| ==> made[i].children == ch[i]
    ensures Children(made) == ch
  {
  }

  /** `made` holds one node per record, with that record's name and level and the
      directory rule of `Subtree`. */
  ghost predicate Labels(es: seq<Entry>, made: seq<Node>, m: nat)
    requires m <= |es|
  {
    |made| == m &&
    forall i :: 0 <= i < m ==>
      made[i].name == es[i].name && made[i].level == es[i].level &&
      made[i].isDir == (i == 0 || EndsWithSlash(es[i].name))
  }

  /** `ch[i]` lists the nodes of the records among the first `m` whose parent is `i`. */
  ghost predicate Linked(es: seq<Entry>, made: seq<Node>, ch: seq<seq<Node>>, m: nat)
    requires m <= |es|
  {
    |made| == m && |ch| == m &&
    forall i :: 0 <= i < m ==> ch[i] == Gather(made, Kids(es, i, i + 1, m))
  }

  /** The node arena after the first `m` records: labelled and linked. */
  ghost predicate Arena(es: seq<Entry>, made: seq<Node>, m: nat)
    requires m <= |es|
    reads made
  {
    Labels(es, made, m) && Linked(es, made, Children(made), m)
  }

  /** The children lists once `node` is appended to those of `p` (when `p >= 0`)
      and added as a node of its own with no children. */
  function Attach(ch: seq<seq<Node>>, p: int, node: Node): (r: seq<seq<Node>>)
    requires p < |ch|
    ensures |r| == |ch| + 1 && r[|ch|] == []
    ensures forall i :: 0 <= i < |ch| ==> r[i] == if i == p then ch[i] + [node] else ch[i]
  {
    (if p >= 0 then ch[p := ch[p] + [node]] else ch) + [[]]
  }

  lemma GatherAppend(made: seq<Node>, ks: seq<int>, node: Node)
    requires forall k :: 0 <= k < |ks| ==> 0 <= ks[k] < |made|
    ensures Gather(made + [node], ks) == Gather(made, ks)
    ensures Gather(made + [node], ks + [|made|]) == Gather(made, ks) + [node]
  {
  }

  /** Record `m`'s node, attached below its parent, keeps the arena linked. */
  lemma LinkStep(es: seq<Entry>, made: seq<Node>, ch: seq<seq<Node>>, m: nat, node: Node)
    requires m < |es| && Linked(es, made, ch, m)
    ensures Linked(es, made + [node], Attach(ch, ParentOf(es, m), node), m + 1)
  {
    var p := ParentOf(es, m);
    var r := Attach(ch, p, node);
    forall i | 0 <= i <= m ensures r[i] == Gather(made + [node], Kids(es, i, i + 1, m + 1)) {
      if i < m {
        var ks := Kids(es, i, i + 1, m);
        assert Kids(es, i, i + 1, m + 1) == ks + (if p == i then [m] else []);
        GatherAppend(made, ks, node);
      }
    }
  }

  /** In a finished arena, the node graph from record `i`'s node realizes its subtree. */
  lemma {:induction false} ArenaRealizes(es: seq<Entry>, made: seq<Node>, i: nat)
    requires i < |es| && Arena(es, made, |es|)
    ensures Realizes(made[i], Subtree(es, i))
    decreases |es| - i
  {
    var ks := Kids(es, i, i + 1, |es|);
    var t := Subtree(es, i);
    forall k | 0 <= k < |ks| ensures Realizes(made[i].children[k], t.children[k]) {
      ArenaRealizes(es, made, ks[k]);
    }
  }

  /** Distinct nodes at distinct positions. */
  ghost predicate Distinct(made: seq<Node>) {
    forall a, b :: 0 <= a < b < |made| ==> made[a] != made[b]
  }

  lemma DistinctPush(made: seq<Node>, node: Node)
    requires Distinct(made) && forall i :: 0 <= i < |made| ==> made[i] != node
    ensures Distinct(made + [node])
  {
  }

  lemma LabelsPush(es: seq<Entry>, made: seq<Node>, m: nat, node: Node)
    requires m < |es| && Labels(es, made, m)
    requires node.name == es[m].name && node.level == es[m].level
    requires node.isDir == (m == 0 || EndsWithSlash(es[m].name))
    ensures Labels(es, made + [node], m + 1)
  {
  }

  /** The node stack holds the nodes of the records on the index stack `idx`. */
  ghost predicate Tracks(stack: seq<Node>, made: seq<Node>, idx: seq<int>) {
    |stack| == |idx| &&
    forall k :: 0 <= k < |idx| ==> 0 <= idx[k] < |made| && stack[k] == made[idx[k]]
  }

  lemma TracksPush(stack: seq<Node>, made: seq<Node>, idx: seq<int>, node: Node)
    requires Tracks(stack, made, idx)
    ensures Tracks(stack + [node], made + [node], idx + [|made|])
  {
  }

  lemma TracksPop(stack: seq<Node>, made: seq<Node>, idx: seq<int>)
    requires Tracks(stack, made, idx) && stack != []
    ensures Tracks(stack[..|stack| - 1], made, idx[..|idx| - 1])
  {
  }

  /** Once the open stack is popped down to record `m`'s level, its top (if any) is
      the node of the parent of record `m`. */
  lemma TopIsParent(es: seq<Entry>, made: seq<Node>, open: seq<int>, idx: seq<int>,
                    stack: seq<Node>, m: nat)
    requires m < |es| && Labels(es, made, m) && open == OpenStack(es, m)
    requires Tracks(stack, made, idx)
    requires idx == Pop(es, open, es[m].level)
    ensures stack == [] <==> ParentOf(es, m) == -1
    ensures stack != [] ==> stack[|stack| - 1] == made[ParentOf(es, m)]
  {
    var lv := es[m].level;
    if stack != [] {
      var t := idx[|idx| - 1];
      assert stack[|stack| - 1] == made[t];
      assert made[t].level == es[t].level;
    }
    PopFindsShallower(es, m, lv);
  }

  /** Popping the top node when the new level is at or below its level. */
  lemma PopOne(es: seq<Entry>, made: seq<Node>, rest: seq<Node>, left: seq<int>, level: int)
    requires |made| <= |es| && Labels(es, made, |made|) && Tracks(rest, made, left)
    requires rest != [] && level <= rest[|rest| - 1].level
    ensures Tracks(rest[..|rest| - 1], made, left[..|left| - 1])
    ensures Pop(es, left, level) == Pop(es, left[..|left| - 1], level)
  {
    TracksPop(rest, made, left);
    assert rest[|rest| - 1] == made[left[|left| - 1]];
  }

  /** The current children lists of the nodes of `made` are `ch`. */
  ghost predicate Holds(made: seq<Node>, ch: seq<seq<Node>>)
    reads made
  {
    |ch| == |made| && forall i :: 0 <= i < |made| ==> made[i].children == ch[i]
  }

  /** In every state of `build_tree`'s loop the nodes on the stack have strictly
      increasing levels from bottom to top, and each was made for a later record
      than the one below it. */
  lemma StackLevelsIncrease(es: seq<Entry>, made: seq<Node>, ch: seq<seq<Node>>,
                            stack: seq<Node>, idx: seq<int>, m: nat)
    requires m <= |es| && Open(es, made, ch, stack, idx, m)
    ensures forall k :: 0 <= k < |stack| - 1 ==> stack[k].level < stack[k + 1].level
    ensures forall k :: 0 <= k < |idx| - 1 ==> idx[k] < idx[k + 1]
  {
    OpenStackIncreasing(es, m);
    IncreasingAdjacent(es, idx);
    forall k | 0 <= k < |stack| - 1 ensures stack[k].level < stack[k + 1].level {
      assert stack[k] == made[idx[k]] && stack[k + 1] == made[idx[k + 1]];
    }
  }

  /** With no open node left, `node` becomes nobody's child. */
  lemma NoParent(made: seq<Node>, ch: seq<seq<Node>>, node: Node)
    requires Holds(made, ch) && node.children == []
    ensures Holds(made + [node], Attach(ch, -1, node))
  {
  }

  /** What `build_tree` keeps true after the first `m` records: the arena is labelled,
      `ch` links it, its nodes are distinct, and the node stack tracks the open stack. */
  ghost predicate Open(es: seq<Entry>, made: seq<Node>, ch: seq<seq<Node>>, stack: seq<Node>,
                       idx: seq<int>, m: nat)
    requires m <= |es|
  {
    Labels(es, made, m) && Linked(es, made, ch, m) && Distinct(made) &&
    idx == OpenStack(es, m) && Tracks(stack, made, idx)
  }

  /** After popping to record `m`'s level, the top of `rest` is the node of the parent
      of record `m`, and `rest` is empty exactly when record `m` has none. */
  lemma Parent(es: seq<Entry>, made: seq<Node>, ch: seq<seq<Node>>, stack: seq<Node>,
               idx: seq<int>, m: nat, node: Node, rest: seq<Node>)
    requires m < |es| && Open(es, made, ch, stack, idx, m)
    requires forall i :: 0 <= i < |made| ==> made[i] != node
    requires Tracks(rest, made, Pop(es, idx, es[m].level))
    ensures rest == [] <==> ParentOf(es, m) == -1
    ensures rest != [] ==> ParentOf(es, m) < |made| && rest[|rest| - 1] == made[ParentOf(es, m)]
    ensures Distinct(made + [node])
  {
    TopIsParent(es, made, idx, Pop(es, idx, es[m].level), rest, m);
    DistinctPush(made, node);
  }

  /** One iteration of `build_tree` on values: after popping to record `m`'s level, the
      top of `rest` is the parent's node, and pushing `node` re-establishes `Open`. */
  lemma Step(es: seq<Entry>, made: seq<Node>, ch: seq<seq<Node>>, stack: seq<Node>,
             idx: seq<int>, m: nat, node: Node, rest: seq<Node>)
    requires m < |es| && Open(es, made, ch, stack, idx, m)
    requires node.name == es[m].name && node.level == es[m].level
    requires node.isDir == EndsWithSlash(es[m].name) && 0 < m
    requires forall i :: 0 <= i < |made| ==> made[i] != node
    requires Tracks(rest, made, Pop(es, idx, es[m].level))
    ensures rest == [] <==> ParentOf(es, m) == -1
    ensures rest != [] ==> rest[|rest| - 1] == made[ParentOf(es, m)]
    ensures Distinct(made + [node])
    ensures Open(es, made + [node], Attach(ch, ParentOf(es, m), node), rest + [node],
                 Pop(es, idx, es[m].level) + [m], m + 1)
  {
    var lv := es[m].level;
    TopIsParent(es, made, idx, Pop(es, idx, lv), rest, m);
    LinkStep(es, made, ch, m, node);
    DistinctPush(made, node);
    LabelsPush(es, made, m, node);
    TracksPush(rest, made, Pop(es, idx, lv), node);
    OpenStackPush(es, m);
  }

  /** `Open`, guarded behind `k` unfoldings. The loop of `build_tree` carries `Guarded`
      with `k = |es|`: the verifier unfolds a predicate only a bounded number of times, so
      the large invariant stays out of the loop's proof obligations, and `GuardedOpen`
      turns it back into `Open` where a step lemma needs it. */
  ghost predicate Guarded(es: seq<Entry>, made: seq<Node>, ch: seq<seq<Node>>, stack: seq<Node>,
                       idx: seq<int>, m: nat, k: nat)
    requires m <= |es|
    decreases k
  {
    if k == 0 then Open(es, made, ch, stack, idx, m) else Guarded(es, made, ch, stack, idx, m, k - 1)
  }

  lemma {:induction false} GuardedOpen(es: seq<Entry>, made: seq<Node>, ch: seq<seq<Node>>, stack: seq<Node>,
                       idx: seq<int>, m: nat, k: nat)
    requires m <= |es|
    ensures Guarded(es, made, ch, stack, idx, m, k) <==> Open(es, made, ch, stack, idx, m)
    decreases k
  {
    if k > 0 { GuardedOpen(es, made, ch, stack, idx, m, k - 1); }
  }

  /** The state `build_tree` starts its loop in: only the root's node exists and is open. */
  lemma OpenOne(es: seq<Entry>, first: Node)
    requires es != [] && first.name == es[0].name && first.level == es[0].level && first.isDir
    ensures Open(es, [first], [[]], [first], [0], 1)
  {
    assert Kids(es, 0, 1, 1) == [];
    assert OpenStack(es, 1) == [0];
  }

  /** `OpenOne`, in the form the loop of `build_tree` carries. */
  lemma OpenFirst(es: seq<Entry>, first: Node)
    requires es != [] && first.name == es[0].name && first.level == es[0].level && first.isDir
    ensures Guarded(es, [first], [[]], [first], [0], 1, |es|)
  {
    OpenOne(es, first);
    GuardedOpen(es, [first], [[]], [first], [0], 1, |es|);
  }

  /** The state `build_tree` ends its loop in: the arena realizes the reference tree. */
  lemma Finish(es: seq<Entry>, made: seq<Node>, ch: seq<seq<Node>>, stack: seq<Node>,
               idx: seq<int>)
    requires es != [] && Guarded(es, made, ch, stack, idx, |es|, |es|) && Holds(made, ch)
    ensures Distinct(made) && Arena(es, made, |es|) && Realizes(made[0], Build(es).value)
  {
    GuardedOpen(es, made, ch, stack, idx, |es|, |es|);
    ChildrenAre(made, ch);
    ArenaRealizes(es, made, 0);
  }

}

