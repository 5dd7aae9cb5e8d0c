/**
 * The unit-of-work order. `performWorkOfUnit` returns the next fiber without
 * a stack: the fiber's child if it has one, otherwise the sibling of the
 * nearest ancestor-or-self that has one. Repeating this from the root visits
 * the tree in preorder, each fiber once.
 */
module Traversal {
  import opened Wrappers
  import opened Seqs
  import opened Fibers

  /** The loop at the end of `performWorkOfUnit`, started at the fiber itself. */
  function Climb(a: seq<Fiber>, i: nat): (r: Option<nat>)
    requires WellLinked(a) && i < |a|
    ensures r.Some? ==> 0 < r.value < |a|
    decreases i
  {
    if a[i].sibling.Some? then a[i].sibling
    else if a[i].parent.None? then None
    else Climb(a, a[i].parent.value)
  }

  /** The strict ancestors of `i`, nearest first, ending at the root. */
  function Ancestors(a: seq<Fiber>, i: nat): (r: seq<nat>)
    requires WellLinked(a) && i < |a|
    ensures forall k :: 0 <= k < |r| ==> r[k] < i
    ensures i > 0 ==> |r| > 0 && r[|r| - 1] == 0
    ensures forall k :: 0 <= k < |r| - 1 ==> r[k + 1] < r[k]
    decreases i
  {
    if a[i].parent.None? then []
    else [a[i].parent.value] + Ancestors(a, a[i].parent.value)
  }

  /** `i` and then its ancestors: the fibers the loop in `performWorkOfUnit` may climb through. */
  function SelfAndAncestors(a: seq<Fiber>, i: nat): (r: seq<nat>)
    requires WellLinked(a) && i < |a|
    ensures |r| > 0 && r[0] == i
    ensures forall k :: 0 <= k < |r| ==> r[k] < |a|
  {
    [i] + Ancestors(a, i)
  }

  /**
   * Climb is the sibling of the nearest ancestor-or-self that has one, and
   * nothing exactly when no fiber from `i` up to the root has a sibling.
   */
  lemma {:induction false} ClimbNearest(a: seq<Fiber>, i: nat)
    requires WellLinked(a) && i < |a|
    ensures Climb(a, i).None? <==> forall k :: 0 <= k < |SelfAndAncestors(a, i)| ==> a[SelfAndAncestors(a, i)[k]].sibling.None?
    ensures Climb(a, i).Some? ==>
      exists k :: 0 <= k < |SelfAndAncestors(a, i)| && a[SelfAndAncestors(a, i)[k]].sibling == Climb(a, i)
        && forall m :: 0 <= m < k ==> a[SelfAndAncestors(a, i)[m]].sibling.None?
    decreases i
  {
    var up := SelfAndAncestors(a, i);
    if a[i].sibling.Some? {
      assert a[up[0]].sibling.Some?;
    } else if a[i].parent.None? {
      assert up == [i];
    } else {
      var p := a[i].parent.value;
      ClimbNearest(a, p);
      var up' := SelfAndAncestors(a, p);
      assert up == [i] + up';
      assert Climb(a, i) == Climb(a, p);
      if Climb(a, p).Some? {
        var k :| 0 <= k < |up'| && a[up'[k]].sibling == Climb(a, p)
                 && forall m :: 0 <= m < k ==> a[up'[m]].sibling.None?;
        assert up[k + 1] == up'[k];
        forall m | 0 <= m < k + 1
          ensures a[up[m]].sibling.None?
        {
          if m > 0 {
            assert up[m] == up'[m - 1];
          }
        }
      } else {
        forall k | 0 <= k < |up|
          ensures a[up[k]].sibling.None?
        {
          if k > 0 {
            assert up[k] == up'[k - 1];
          }
        }
      }
    }
  }

  /** The fiber `performWorkOfUnit(fiber)` returns once the fiber's children exist. */
  function Successor(a: seq<Fiber>, i: nat): (r: Option<nat>)
    requires WellLinked(a) && i < |a|
    ensures r.Some? ==> 0 < r.value < |a|
  {
    if a[i].child.Some? then a[i].child else Climb(a, i)
  }

  /** Preorder of the subtree rooted at `i`: `i`, then the forest of its children. */
  function Subtree(a: seq<Fiber>, i: nat): (r: seq<nat>)
    requires WellLinked(a) && i < |a|
    ensures |r| > 0 && r[0] == i
    ensures forall k :: 0 <= k < |r| ==> i <= r[k] < |a|
    decreases |a| - i, 0
  {
    [i] + (if a[i].child.Some? then Forest(a, a[i].child.value) else [])
  }

  /** Preorder of the subtrees rooted at `c` and at each later sibling of `c`. */
  function Forest(a: seq<Fiber>, c: nat): (r: seq<nat>)
    requires WellLinked(a) && c < |a|
    ensures |r| > 0 && r[0] == c
    ensures forall k :: 0 <= k < |r| ==> c <= r[k] < |a|
    decreases |a| - c, 1
  {
    Subtree(a, c) + (if a[c].sibling.Some? then Forest(a, a[c].sibling.value) else [])
  }

  /**
   * `xs` is what repeated Successor produces: each element's successor is the
   * next one, and the last one's successor is `after`.
   */
  ghost predicate Walk(a: seq<Fiber>, xs: seq<nat>, after: Option<nat>) {
    && WellLinked(a)
    && |xs| > 0
    && (forall k :: 0 <= k < |xs| ==> xs[k] < |a|)
    && (forall k :: 0 <= k < |xs| - 1 ==> Successor(a, xs[k]) == Some(xs[k + 1]))
    && Successor(a, xs[|xs| - 1]) == after
  }

  lemma WalkConcat(a: seq<Fiber>, xs: seq<nat>, ys: seq<nat>, after: Option<nat>)
    requires |ys| > 0 && Walk(a, xs, Some(ys[0])) && Walk(a, ys, after)
    ensures Walk(a, xs + ys, after)
  {
    var zs := xs + ys;
    forall k | 0 <= k < |zs| - 1
      ensures Successor(a, zs[k]) == Some(zs[k + 1])
    {
      if k < |xs| - 1 {
      } else if k == |xs| - 1 {
      } else {
        assert zs[k] == ys[k - |xs|] && zs[k + 1] == ys[k - |xs| + 1];
      }
    }
  }

  /** The walk through a subtree leaves it for whatever Climb finds above it. */
  lemma {:induction false} SubtreeWalk(a: seq<Fiber>, i: nat)
    requires WellLinked(a) && i < |a|
    ensures Walk(a, Subtree(a, i), Climb(a, i))
    decreases |a| - i, 0
  {
    if a[i].child.Some? {
      var c := a[i].child.value;
      assert ParentOfChild(a, i);
      ForestWalk(a, c, i);
      WalkConcat(a, [i], Forest(a, c), Climb(a, i));
    }
  }

  /** The walk through the forest of `p`'s children leaves it for whatever Climb finds above `p`. */
  lemma {:induction false} ForestWalk(a: seq<Fiber>, c: nat, p: nat)
    requires WellLinked(a) && c < |a| && p < |a|
    requires a[c].parent == Some(p)
    ensures Walk(a, Forest(a, c), Climb(a, p))
    decreases |a| - c, 1
  {
    SubtreeWalk(a, c);
    if a[c].sibling.Some? {
      var s := a[c].sibling.value;
      assert ParentOfSibling(a, c);
      ForestWalk(a, s, p);
      WalkConcat(a, Subtree(a, c), Forest(a, s), Climb(a, p));
    }
  }

  /** From the root, the walk is exactly the preorder of the tree and then stops. */
  lemma PreorderWalk(a: seq<Fiber>)
    requires WellLinked(a)
    ensures Walk(a, Subtree(a, 0), None)
  {
    SubtreeWalk(a, 0);
  }

  /** A walk that ends never repeats a fiber. */
  lemma WalkDistinct(a: seq<Fiber>, xs: seq<nat>)
    requires Walk(a, xs, None)
    ensures Distinct(xs)
  {
    forall i, j | 0 <= i < j < |xs|
      ensures xs[i] != xs[j]
    {
      var m := |xs| - 1 - j;
      WalkShift(a, xs, i, j, m);
      assert Successor(a, xs[i + m]) == Some(xs[i + m + 1]);
    }
  }

  /** Once a walk repeats a fiber, it repeats everything after it. */
  lemma {:induction false} WalkShift(a: seq<Fiber>, xs: seq<nat>, i: nat, j: nat, m: nat)
    requires Walk(a, xs, None)
    requires i < j && j + m < |xs|
    ensures xs[i] == xs[j] ==> xs[i + m] == xs[j + m]
  {
    if m > 0 {
      WalkShift(a, xs, i, j, m - 1);
    }
  }

  /** The successor of the k-th fiber of a walk: the next one, or what follows the walk. */
  lemma WalkStep(a: seq<Fiber>, xs: seq<nat>, after: Option<nat>, k: nat)
    requires Walk(a, xs, after) && k < |xs|
    ensures Successor(a, xs[k]) == if k + 1 < |xs| then Some(xs[k + 1]) else after
  {
  }

  /**
   * The fibers a walk from the root has produced, `done`, followed by `next`:
   * the state the scheduler is in between units.
   */
  ghost predicate FromRoot(a: seq<Fiber>, done: seq<nat>, next: Option<nat>) {
    && WellLinked(a)
    && (done == [] ==> next == Some(0))
    && (done != [] ==> done[0] == 0 && Walk(a, done, next))
  }

  /** Two walks from the same start agree for as long as the shorter one lasts. */
  lemma {:induction false} WalksAgree(a: seq<Fiber>, xs: seq<nat>, after: Option<nat>, ys: seq<nat>, k: nat)
    requires Walk(a, xs, after) && Walk(a, ys, None) && xs[0] == ys[0]
    requires k < |xs|
    ensures k < |ys| && xs[k] == ys[k]
  {
    if k > 0 {
      WalksAgree(a, xs, after, ys, k - 1);
      assert Successor(a, ys[k - 1]) == Successor(a, xs[k - 1]) == Some(xs[k]);
    }
  }

  /**
   * A walk from the root is a prefix of the preorder, the next fiber is the
   * next one in preorder and has not been visited yet, and the walk has
   * ended exactly when it has produced the whole preorder.
   */
  lemma FromRootIsPreorderPrefix(a: seq<Fiber>, done: seq<nat>, next: Option<nat>)
    requires FromRoot(a, done, next)
    ensures var p := Subtree(a, 0);
      && |done| <= |p| && done == p[..|done|]
      && (next.None? <==> done == p)
      && (next.Some? ==> |done| < |p| && p[|done|] == next.value && next.value !in done)
  {
    var p := Subtree(a, 0);
    PreorderWalk(a);
    WalkDistinct(a, p);
    if done != [] {
      forall k | 0 <= k < |done|
        ensures k < |p| && done[k] == p[k]
      {
        WalksAgree(a, done, next, p, k);
      }
      assert done == p[..|done|];
      if |done| == |p| {
        assert done == p;
      }
      if next.Some? {
        assert p[|done|] == next.value;
        assert next.value !in done by {
          forall k | 0 <= k < |done|
            ensures done[k] != next.value
          {
            assert done[k] == p[k];
          }
        }
      } else {
        assert Successor(a, p[|done| - 1]) == None;
        WalkStep(a, p, None, |done| - 1);
      }
    }
  }
}
