/**
 * The commit walk: `commitWork` visits fibers child before sibling and
 * appends each fiber's node to the node of its nearest ancestor that owns
 * one, so function-component fibers, which own none, are stepped over.
 */
module Commit {
  import opened Wrappers
  import opened Host
  import opened Fibers
  import opened Traversal

  /**
   * The loop at the top of `commitWork`: start at the parent and climb while
   * the fiber has no node. It always stops below the root's parent, because
   * the root owns the container.
   */
  function HostParent(a: seq<Fiber>, i: nat): (r: Option<nat>)
    requires WellLinked(a) && i < |a|
    ensures i > 0 <==> r.Some?
    ensures r.Some? ==> r.value in Ancestors(a, i) && a[r.value].dom.Some?
    ensures r.Some? ==> forall x :: x in Ancestors(a, i) && x > r.value ==> a[x].dom.None?
    decreases i
  {
    if a[i].parent.None? then None
    else
      var p := a[i].parent.value;
      if a[p].dom.Some? then Some(p) else HostParent(a, p)
  }

  /** The append, if any, that `commitWork` makes for fiber `x` itself. */
  function AppendOf(a: seq<Fiber>, x: nat): seq<HostOp>
    requires WellLinked(a) && 0 < x < |a|
  {
    if a[x].dom.Some? then [Append(a[HostParent(a, x).value].dom.value, a[x].dom.value)] else []
  }

  /** The appends for a list of fibers, one fiber after the other. */
  function Appends(a: seq<Fiber>, xs: seq<nat>): seq<HostOp>
    requires WellLinked(a) && forall k :: 0 <= k < |xs| ==> 0 < xs[k] < |a|
  {
    if xs == [] then [] else AppendOf(a, xs[0]) + Appends(a, xs[1..])
  }

  /** The appends for two runs of fibers one after the other: those of the first run, then those of the second. */
  lemma {:induction false} AppendsConcat(a: seq<Fiber>, xs: seq<nat>, ys: seq<nat>)
    requires WellLinked(a)
    requires forall k :: 0 <= k < |xs| ==> 0 < xs[k] < |a|
    requires forall k :: 0 <= k < |ys| ==> 0 < ys[k] < |a|
    ensures Appends(a, xs + ys) == Appends(a, xs) + Appends(a, ys)
  {
    if xs == [] {
      assert xs + ys == ys;
    } else {
      assert (xs + ys)[0] == xs[0] && (xs + ys)[1..] == xs[1..] + ys;
      AppendsConcat(a, xs[1..], ys);
      var x, y, z := AppendOf(a, xs[0]), Appends(a, xs[1..]), Appends(a, ys);
      assert x + (y + z) == (x + y) + z;
    }
  }

  /** The appends for one fiber are its own. */
  lemma AppendsSingle(a: seq<Fiber>, c: nat)
    requires WellLinked(a) && 0 < c < |a|
    ensures Appends(a, [c]) == AppendOf(a, c)
  {
    assert [c][1..] == [];
  }

  /** The appends of the forest at `c`: `c`'s own, then its children's forest, then its later siblings'. */
  lemma ForestAppends(a: seq<Fiber>, c: nat)
    requires WellLinked(a) && 0 < c < |a|
    ensures Appends(a, Forest(a, c))
      == AppendOf(a, c)
         + (if a[c].child.Some? then Appends(a, Forest(a, a[c].child.value)) else [])
         + (if a[c].sibling.Some? then Appends(a, Forest(a, a[c].sibling.value)) else [])
  {
    var kids := if a[c].child.Some? then Forest(a, a[c].child.value) else [];
    var rest := if a[c].sibling.Some? then Forest(a, a[c].sibling.value) else [];
    assert Forest(a, c) == [c] + kids + rest;
    AppendsConcat(a, [c] + kids, rest);
    AppendsConcat(a, [c], kids);
    AppendsSingle(a, c);
  }

  /**
   * `commitWork(fiber)` for a fiber that exists. It appends, in preorder over
   * the fiber, its later siblings and all their subtrees, each fiber's node to
   * the node of its nearest ancestor that owns one; fibers without a node
   * append nothing.
   */
  function CommitWork(a: seq<Fiber>, c: nat): (r: seq<HostOp>)
    requires WellLinked(a) && 0 < c < |a|
    ensures r == Appends(a, Forest(a, c))
    decreases |a| - c
  {
    var kids := if a[c].child.Some? then CommitWork(a, a[c].child.value) else [];
    var rest := if a[c].sibling.Some? then CommitWork(a, a[c].sibling.value) else [];
    ForestAppends(a, c);
    AppendOf(a, c) + kids + rest
  }

  /** Every fiber but the root, in preorder. */
  function Below(a: seq<Fiber>): (r: seq<nat>)
    requires WellLinked(a)
    ensures forall k :: 0 <= k < |r| ==> 0 < r[k] < |a|
  {
    Subtree(a, 0)[1..]
  }

  /**
   * `commitRoot()`: commit the root's children, that is, the appends of every
   * fiber below the root, in preorder.
   */
  function CommitRoot(a: seq<Fiber>): (r: seq<HostOp>)
    requires WellLinked(a)
    ensures r == Appends(a, Below(a))
  {
    if a[0].child.Some? then
      assert Below(a) == Forest(a, a[0].child.value);
      CommitWork(a, a[0].child.value)
    else
      assert Below(a) == [];
      []
  }
}
