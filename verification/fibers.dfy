/**
 * Fibers live in an arena: a sequence of records whose `parent`, `child` and
 * `sibling` links are indices into the same sequence. Index 0 is the root
 * fiber `render` creates; every later fiber is appended by `reconcileChildren`.
 */
module Fibers {
  import opened Wrappers
  import opened Seqs
  import opened Elements
  import opened Host

  datatype Fiber = Fiber(
    kind: ElemType,
    props: seq<Prop>,
    dom: Option<Handle>,
    parent: Option<nat>,
    child: Option<nat>,
    sibling: Option<nat>)

  /** The element a fiber was made from. */
  function ElementOf(f: Fiber): Element {
    Element(f.kind, f.props)
  }

  /**
   * The shape every arena the engine builds keeps: the root has no parent or
   * sibling and owns the container; every other fiber has an earlier parent;
   * child and sibling links point later in the arena; a child's parent is the
   * fiber that links to it, and siblings share a parent.
   */
  predicate WellLinked(a: seq<Fiber>) {
    && |a| > 0
    && a[0].parent.None? && a[0].sibling.None? && a[0].dom.Some?
    && (forall i :: 0 < i < |a| ==> a[i].parent.Some? && a[i].parent.value < i)
    && (forall i :: 0 <= i < |a| && a[i].child.Some? ==> i < a[i].child.value < |a|)
    && (forall i :: 0 <= i < |a| && a[i].sibling.Some? ==> i < a[i].sibling.value < |a|)
    && (forall i :: 0 <= i < |a| ==> ParentOfChild(a, i))
    && (forall i :: 0 <= i < |a| ==> ParentOfSibling(a, i))
  }

  /** The fiber `a[i].child` names has `i` as its parent. */
  predicate ParentOfChild(a: seq<Fiber>, i: nat)
    requires i < |a|
  {
    a[i].child.Some? && a[i].child.value < |a| ==> a[a[i].child.value].parent == Some(i)
  }

  /** The fiber `a[i].sibling` names has the same parent as `a[i]`. */
  predicate ParentOfSibling(a: seq<Fiber>, i: nat)
    requires i < |a|
  {
    a[i].sibling.Some? && a[i].sibling.value < |a| ==> a[a[i].sibling.value].parent == a[i].parent
  }

  /**
   * `reconcileChildren(fiber, children)`: one new fiber per element, appended
   * in order and chained through `sibling`; the first becomes `fiber.child`.
   * An empty list leaves the arena as it was.
   */
  function Reconcile(a: seq<Fiber>, f: nat, cs: seq<Element>): (r: seq<Fiber>)
    requires f < |a|
    ensures |r| == |a| + |cs|
    ensures forall i :: 0 <= i < |a| && i != f ==> r[i] == a[i]
    ensures r[f] == if cs == [] then a[f] else a[f].(child := Some(|a|))
  {
    var n := |a|;
    var born := seq(|cs|, i requires 0 <= i < |cs| =>
      Fiber(cs[i].kind, cs[i].props, None, Some(f), None, if i + 1 < |cs| then Some(n + i + 1) else None));
    (if cs == [] then a else a[f := a[f].(child := Some(n))]) + born
  }

  /** The fibers met by following `sibling` links from `c`. */
  function Chain(a: seq<Fiber>, c: nat): (ids: seq<nat>)
    requires WellLinked(a) && c < |a|
    ensures |ids| > 0 && ids[0] == c
    ensures forall k :: 0 <= k < |ids| ==> c <= ids[k] < |a| && a[ids[k]].parent == a[c].parent
    decreases |a| - c
  {
    assert ParentOfSibling(a, c);
    [c] + (if a[c].sibling.Some? then Chain(a, a[c].sibling.value) else [])
  }

  /** The fibers met by walking `fiber.child`, then `.sibling`, `.sibling`, ... */
  function Children(a: seq<Fiber>, f: nat): (ids: seq<nat>)
    requires WellLinked(a) && f < |a|
    ensures forall k :: 0 <= k < |ids| ==> f < ids[k] < |a| && a[ids[k]].parent == Some(f)
  {
    assert ParentOfChild(a, f);
    if a[f].child.Some? then Chain(a, a[f].child.value) else []
  }

  function ElementsAt(a: seq<Fiber>, ids: seq<nat>): (es: seq<Element>)
    requires forall k :: 0 <= k < |ids| ==> ids[k] < |a|
    ensures |es| == |ids|
  {
    seq(|ids|, k requires 0 <= k < |ids| => ElementOf(a[ids[k]]))
  }

  /** Reconciling keeps the arena well linked. */
  lemma ReconcileLinks(a: seq<Fiber>, f: nat, cs: seq<Element>)
    requires WellLinked(a) && f < |a|
    ensures WellLinked(Reconcile(a, f, cs))
  {
    var r := Reconcile(a, f, cs);
    var n := |a|;
    forall i | 0 <= i < |r|
      ensures ParentOfChild(r, i)
    {
      if i < n && (i != f || cs == []) {
        assert r[i] == a[i];
        assert ParentOfChild(a, i);
      } else if i == f {
        ReconcileNew(a, f, cs, 0);
      } else if i >= n {
        ReconcileNew(a, f, cs, i - n);
      }
    }
    forall i | 0 <= i < |r|
      ensures ParentOfSibling(r, i)
    {
      if i < n {
        assert r[i].sibling == a[i].sibling;
        assert ParentOfSibling(a, i);
        if a[i].sibling.Some? {
          var s := a[i].sibling.value;
          assert r[s].parent == a[s].parent;
        }
      }
    }
  }

  /** The k-th fiber `reconcileChildren` appends. */
  lemma ReconcileNew(a: seq<Fiber>, f: nat, cs: seq<Element>, k: nat)
    requires f < |a| && k < |cs|
    ensures Reconcile(a, f, cs)[|a| + k] == NewFiber(|a|, f, cs, k)
  {
  }

  /** A block of fibers whose siblings are consecutive forms one chain. */
  lemma {:induction false} ChainRun(r: seq<Fiber>, j: nat, hi: nat)
    requires WellLinked(r) && j < hi <= |r|
    requires forall m :: j <= m < hi ==> r[m].sibling == if m + 1 < hi then Some(m + 1) else None
    ensures Chain(r, j) == Range(j, hi)
    decreases hi - j
  {
    RangeSplit(j, hi);
    if j + 1 < hi {
      ChainRun(r, j + 1, hi);
    }
  }

  /**
   * Reading back the children of `f`: walking `f.child` then `.sibling`
   * visits exactly the |cs| fibers at n, n+1, ..., in order; the k-th carries
   * cs[k]'s type and props, has no node and no child yet, and the last has no
   * sibling. (Children already says each one has `f` as parent.)
   */
  predicate ReadsBack(r: seq<Fiber>, n: nat, f: nat, cs: seq<Element>)
    requires WellLinked(r) && f < |r|
  {
    var ids := Children(r, f);
    && ids == Range(n, n + |cs|)
    && ElementsAt(r, ids) == cs
    && (forall k :: 0 <= k < |ids| ==> r[ids[k]].dom.None? && r[ids[k]].child.None?)
    && (ids != [] ==> r[ids[|ids| - 1]].sibling.None?)
  }

  /**
   * `reconcileChildren(fiber, cs)` with a non-empty `cs` builds a chain of
   * |cs| new fibers under `fiber` that reads back as `cs`. (With an empty
   * `cs` the contract of Reconcile already says nothing changes.)
   */
  lemma ReconcileReadBack(a: seq<Fiber>, f: nat, cs: seq<Element>)
    requires WellLinked(a) && f < |a|
    ensures WellLinked(Reconcile(a, f, cs))
    ensures cs != [] ==> ReadsBack(Reconcile(a, f, cs), |a|, f, cs)
  {
    ReconcileLinks(a, f, cs);
    if cs != [] {
      ReconcileBlock(a, f, cs);
      BlockReadBack(Reconcile(a, f, cs), |a|, f, cs);
    }
  }

  lemma BlockReadBack(r: seq<Fiber>, n: nat, f: nat, cs: seq<Element>)
    requires WellLinked(r) && f < n && |r| == n + |cs| && cs != []
    requires r[f].child == Some(n)
    requires forall m :: n <= m < n + |cs| ==> r[m].sibling == if m + 1 < n + |cs| then Some(m + 1) else None
    requires forall m :: n <= m < n + |cs| ==> r[m].dom.None? && r[m].child.None?
    requires forall m :: n <= m < n + |cs| ==> ElementOf(r[m]) == cs[m - n]
    ensures ReadsBack(r, n, f, cs)
  {
    ChainRun(r, n, n + |cs|);
    var ids := Children(r, f);
    assert ids == Range(n, n + |cs|);
    assert ElementsAt(r, ids) == cs;
  }

  /** Field by field, the fibers `reconcileChildren` appends. */
  lemma ReconcileBlock(a: seq<Fiber>, f: nat, cs: seq<Element>)
    requires f < |a|
    ensures var r := Reconcile(a, f, cs); var n := |a|;
      && (forall m :: n <= m < n + |cs| ==> r[m].sibling == if m + 1 < n + |cs| then Some(m + 1) else None)
      && (forall m :: n <= m < n + |cs| ==> r[m].dom.None? && r[m].child.None?)
      && (forall m :: n <= m < n + |cs| ==> ElementOf(r[m]) == cs[m - n])
  {
    var r := Reconcile(a, f, cs);
    forall k | 0 <= k < |cs|
      ensures r[|a| + k] == NewFiber(|a|, f, cs, k)
    {
      ReconcileNew(a, f, cs, k);
    }
    BlockFields(r, |a|, f, cs);
  }

  /** The k-th fiber of a block of |cs| fibers starting at index n, made for `cs` under `f`. */
  function NewFiber(n: nat, f: nat, cs: seq<Element>, k: nat): Fiber
    requires k < |cs|
  {
    Fiber(cs[k].kind, cs[k].props, None, Some(f), None, if k + 1 < |cs| then Some(n + k + 1) else None)
  }

  /** Field by field, what a block of new fibers holds, indexed by arena position. */
  lemma BlockFields(r: seq<Fiber>, n: nat, f: nat, cs: seq<Element>)
    requires |r| == n + |cs|
    requires forall k :: 0 <= k < |cs| ==> r[n + k] == NewFiber(n, f, cs, k)
    ensures forall m :: n <= m < n + |cs| ==> r[m].sibling == if m + 1 < n + |cs| then Some(m + 1) else None
    ensures forall m :: n <= m < n + |cs| ==> r[m].dom.None? && r[m].child.None?
    ensures forall m :: n <= m < n + |cs| ==> ElementOf(r[m]) == cs[m - n]
  {
    forall m | n <= m < n + |cs|
      ensures r[m] == NewFiber(n, f, cs, m - n)
    {
      assert r[n + (m - n)] == NewFiber(n, f, cs, m - n);
    }
  }
}
