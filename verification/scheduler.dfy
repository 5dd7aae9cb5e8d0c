/**
 * The scheduler and the public entry points of core/React.js: `render`
 * installs a root fiber, each `workLoop` call performs units of work until the
 * work runs out or the idle budget does, and the call that finds the work
 * drained commits the tree once.
 */
module Scheduler {
  import opened Wrappers
  import opened Seqs
  import opened Elements
  import opened Host
  import opened Fibers
  import opened Traversal
  import opened Commit

  /**
   * The function components an application defines: calling component `id`
   * with a props object yields the element it returns.
   */
  type Components = (nat, seq<Prop>) -> Element

  /** What makes a unit of work throw: a `children` property that is not a list of elements. */
  datatype Fault = ChildrenNotElements(fiber: nat)

  /**
   * The module-level state: `nextWork` and `root` point into the fibers of the
   * current render; `host` is every DOM call made so far.
   */
  datatype Engine = Engine(fibers: seq<Fiber>, nextWork: Option<nat>, root: Option<nat>, host: HostState)

  /** The state when the module is loaded: no work, no root. */
  function Boot(): (e: Engine)
    ensures Inv(e) && e.nextWork.None? && e.root.None?
  {
    Engine([], None, None, HostState(0, []))
  }

  /**
   * What every reachable state keeps: pointers index the arena, which is well
   * linked with the root at 0, and pending work implies a pending root.
   */
  predicate Inv(e: Engine) {
    && (e.fibers == [] ==> e.nextWork.None? && e.root.None?)
    && (e.fibers != [] ==> WellLinked(e.fibers))
    && (e.nextWork.Some? ==> e.root.Some? && e.nextWork.value < |e.fibers|)
    && (e.root.Some? ==> e.root == Some(0) && e.fibers != [])
  }

  /** `render(el, container)`: a fresh root fiber becomes both `nextWork` and `root`. */
  function Render(e: Engine, el: Element, container: Handle): (r: Engine)
    ensures Inv(r)
    ensures r.nextWork == Some(0) && r.root == Some(0) && |r.fibers| == 1
    ensures r.fibers[0].dom == Some(container) && r.fibers[0].kind == Untyped
    ensures Keys(r.fibers[0].props) == [ChildrenKey]
    ensures ChildElements(r.fibers[0].props) == Some([el])
    ensures r.fibers[0].child.None?
    ensures r.host == e.host
  {
    var ps := [Prop(ChildrenKey, List([Node(el)]))];
    assert Get(ps, ChildrenKey) == Some(List([Node(el)]));
    assert ChildElements(ps).Some?;
    assert |ChildElements(ps).value| == 1;
    assert ChildElements(ps).value[0] == el;
    assert ChildElements(ps).value == [el];
    var root := Fiber(Untyped, ps, Some(container), None, None, None);
    Engine([root], Some(0), Some(0), e.host)
  }

  /**
   * `updateFunctionComponent(fiber)`: the component is called with the
   * fiber's props, and the one element it returns becomes the fiber's only
   * child, a new fiber without a node. Nothing else changes.
   */
  function UpdateFunctionComponent(a: seq<Fiber>, w: nat, comps: Components): (r: seq<Fiber>)
    requires w < |a| && a[w].kind.Component?
    ensures |r| == |a| + 1
    ensures forall i :: 0 <= i < |a| && i != w ==> r[i] == a[i]
    ensures r[w] == a[w].(child := Some(|a|))
    ensures ElementOf(r[|a|]) == comps(a[w].kind.id, a[w].props)
    ensures r[|a|].parent == Some(w) && r[|a|].sibling.None? && r[|a|].dom.None? && r[|a|].child.None?
    ensures WellLinked(a) ==> WellLinked(r)
  {
    var cs := [comps(a[w].kind.id, a[w].props)];
    ReconcileBlock(a, w, cs);
    if WellLinked(a) then
      ReconcileLinks(a, w, cs);
      Reconcile(a, w, cs)
    else Reconcile(a, w, cs)
  }

  /** The `if (!fiber.dom)` step of `updateHostComponent`. */
  function EnsureDom(a: seq<Fiber>, host: HostState, w: nat): (r: (seq<Fiber>, HostState))
    requires w < |a| && !a[w].kind.Component?
    ensures |r.0| == |a| && forall i :: 0 <= i < |a| && i != w ==> r.0[i] == a[i]
    ensures r.0[w] == a[w].(dom := r.0[w].dom) && r.0[w].dom.Some?
    ensures a[w].dom.Some? ==> r == (a, host)
    ensures a[w].dom.None? ==> (r.0[w].dom.value, r.1) == CreateDom(host, a[w].kind, a[w].props)
  {
    if a[w].dom.Some? then (a, host)
    else
      var (node, host') := CreateDom(host, a[w].kind, a[w].props);
      (a[w := a[w].(dom := Some(node))], host')
  }

  /**
   * `updateHostComponent(fiber)`: a node if there is none yet, then one new
   * child fiber per element of the `children` list, in order, each without a
   * node. It throws exactly when `children` is not a list of elements. The
   * host log only grows, and only `createDom` adds to it.
   */
  function UpdateHostComponent(a: seq<Fiber>, host: HostState, w: nat): (r: Result<(seq<Fiber>, HostState), Fault>)
    requires w < |a| && !a[w].kind.Component?
    ensures r.Err? <==> ChildElements(a[w].props).None?
    ensures r.Ok? ==>
      var b := r.value.0;
      var cs := ChildElements(a[w].props).value;
      && |b| == |a| + |cs|
      && (forall i :: 0 <= i < |a| && i != w ==> b[i] == a[i])
      && b[w] == a[w].(dom := b[w].dom, child := if cs == [] then a[w].child else Some(|a|))
      && (forall m :: |a| <= m < |b| ==> ElementOf(b[m]) == cs[m - |a|] && b[m].dom.None? && b[m].child.None?)
    ensures r.Ok? ==>
      var (b, host') := r.value;
      && b[w].dom.Some?
      && host.log <= host'.log
      && (a[w].dom.Some? ==> b[w].dom == a[w].dom && host' == host)
      && (a[w].dom.None? ==> (b[w].dom.value, host') == CreateDom(host, a[w].kind, a[w].props))
    ensures r.Ok? && WellLinked(a) ==> WellLinked(r.value.0)
  {
    var (a1, host1) := EnsureDom(a, host, w);
    match ChildElements(a[w].props)
    case None => Err(ChildrenNotElements(w))
    case Some(cs) =>
      HostChildren(a, a1, w, cs);
      Ok((Reconcile(a1, w, cs), host1))
  }

  /** The reconcile step of `updateHostComponent`, on the arena that `EnsureDom` left. */
  lemma HostChildren(a: seq<Fiber>, a1: seq<Fiber>, w: nat, cs: seq<Element>)
    requires w < |a| == |a1| && forall i :: 0 <= i < |a| && i != w ==> a1[i] == a[i]
    requires a1[w] == a[w].(dom := a1[w].dom) && a1[w].dom.Some?
    ensures var b := Reconcile(a1, w, cs);
      && |b| == |a| + |cs|
      && (forall i :: 0 <= i < |a| && i != w ==> b[i] == a[i])
      && b[w] == a[w].(dom := a1[w].dom, child := if cs == [] then a[w].child else Some(|a|))
      && (forall m :: |a| <= m < |b| ==> ElementOf(b[m]) == cs[m - |a|] && b[m].dom.None? && b[m].child.None?)
      && (WellLinked(a) ==> WellLinked(b))
  {
    ReconcileBlock(a1, w, cs);
    if WellLinked(a) {
      DomLinks(a, w, a1);
      ReconcileLinks(a1, w, cs);
    }
  }

  /** The arena and host after one unit of work, and the unit it hands on. */
  datatype Unit = Unit(fibers: seq<Fiber>, host: HostState, next: Option<nat>)

  /**
   * How a unit of work may change the arena: fiber `w` keeps its type, props,
   * parent and sibling; every other existing fiber is untouched; fibers are
   * only appended, and appended fibers have no node yet.
   */
  predicate Extends(a: seq<Fiber>, b: seq<Fiber>, w: nat) {
    && w < |a| <= |b|
    && (forall i :: 0 <= i < |a| && i != w ==> b[i] == a[i])
    && (forall i :: |a| <= i < |b| ==> b[i].dom.None?)
    && ElementOf(b[w]) == ElementOf(a[w]) && b[w].parent == a[w].parent && b[w].sibling == a[w].sibling
  }

  /**
   * `performWorkOfUnit(fiber)`. A function component never gets a node and
   * makes no host call; a host fiber gets a node only when it has none (an
   * existing node is kept and no host call is made for it). Only a host fiber
   * whose `children` is not a list of elements throws. The arena grows as
   * Extends allows and stays well linked, and the unit handed on is the
   * stack-free successor. UnitChildren states the children it creates.
   */
  function PerformUnit(a: seq<Fiber>, host: HostState, w: nat, comps: Components): (r: Result<Unit, Fault>)
    requires WellLinked(a) && w < |a|
    ensures r.Err? <==> !a[w].kind.Component? && ChildElements(a[w].props).None?
    ensures r.Ok? ==>
      && WellLinked(r.value.fibers)
      && Extends(a, r.value.fibers, w)
      && r.value.next == Successor(r.value.fibers, w)
      && host.log <= r.value.host.log
    ensures r.Ok? && a[w].kind.Component? ==>
      r.value.fibers[w].dom == a[w].dom && r.value.host == host
    ensures r.Ok? && !a[w].kind.Component? ==>
      var b := r.value.fibers;
      && b[w].dom.Some?
      && (a[w].dom.Some? ==> b[w].dom == a[w].dom && r.value.host == host)
      && (a[w].dom.None? ==> (b[w].dom.value, r.value.host) == CreateDom(host, a[w].kind, a[w].props))
  {
    if a[w].kind.Component? then
      var b := UpdateFunctionComponent(a, w, comps);
      Ok(Unit(b, host, Successor(b, w)))
    else
      match UpdateHostComponent(a, host, w)
      case Err(f) => Err(f)
      case Ok((b, host1)) => Ok(Unit(b, host1, Successor(b, w)))
  }

  /**
   * The children a unit of work gives its fiber: for a function component,
   * one child holding the element the component returns; for a host fiber,
   * one child per element of its `children` list, in order, or no change at
   * all when the list is empty.
   */
  lemma UnitChildren(a: seq<Fiber>, host: HostState, w: nat, comps: Components)
    requires WellLinked(a) && w < |a| && PerformUnit(a, host, w, comps).Ok?
    ensures var b := PerformUnit(a, host, w, comps).value.fibers;
      && (a[w].kind.Component? ==> ReadsBack(b, |a|, w, [comps(a[w].kind.id, a[w].props)]))
      && (!a[w].kind.Component? ==>
            var cs := ChildElements(a[w].props).value;
            && (cs != [] ==> ReadsBack(b, |a|, w, cs))
            && (cs == [] ==> b[w].child == a[w].child && |b| == |a|))
  {
    if a[w].kind.Component? {
      ReconcileReadBack(a, w, [comps(a[w].kind.id, a[w].props)]);
    } else {
      var (a1, host1) := EnsureDom(a, host, w);
      DomLinks(a, w, a1);
      ReconcileReadBack(a1, w, ChildElements(a[w].props).value);
    }
  }

  /** Giving a fiber a node keeps the arena well linked. */
  lemma DomLinks(a: seq<Fiber>, w: nat, b: seq<Fiber>)
    requires WellLinked(a) && w < |a| && |b| == |a|
    requires forall i :: 0 <= i < |a| && i != w ==> b[i] == a[i]
    requires b[w] == a[w].(dom := b[w].dom) && b[w].dom.Some?
    ensures WellLinked(b)
  {
    forall i | 0 <= i < |b|
      ensures ParentOfChild(b, i) && ParentOfSibling(b, i)
    {
      assert ParentOfChild(a, i) && ParentOfSibling(a, i);
    }
  }

  /** The state after a unit of work: its arena and host, with `nextWork` moved on. */
  function Advance(e: Engine, u: Unit): Engine {
    e.(fibers := u.fibers, host := u.host, nextWork := u.next)
  }

  /** What a `workLoop` call's `while` loop did: the state after it, and the fibers it worked on, in order. */
  datatype Progress = Progress(engine: Engine, units: seq<nat>)

  /**
   * The budget left after one more unit: one reading of at least 1 used up.
   * It is named only so that the verifier sees Drain's recursive call as a term, not as new arithmetic.
   */
  function Less(budget: nat): (r: nat)
    requires budget > 0
    ensures r < budget
  {
    budget - 1
  }

  /**
   * The `while` loop of `workLoop`. `budget` is how many of the
   * `deadline.timeRemaining()` readings taken after each unit come out at
   * least 1 before the first that comes out below 1. The loop works on
   * `nextWork` until there is none or the budget is spent, so it performs at
   * most `budget + 1` units and stops early only when the work has run out. A
   * unit that throws ends the call.
   */
  function Drain(e: Engine, budget: nat, comps: Components): (r: Result<Progress, Fault>)
    requires Inv(e)
    ensures r.Ok? ==> Inv(r.value.engine) && r.value.engine.root == e.root
    ensures r.Ok? ==> |e.fibers| <= |r.value.engine.fibers| && e.host.log <= r.value.engine.host.log
    ensures r.Ok? ==> |r.value.units| <= budget + 1
    ensures r.Ok? && e.nextWork.Some? ==> |r.value.units| >= 1 && r.value.units[0] == e.nextWork.value
    ensures r.Ok? && e.nextWork.None? ==> r.value == Progress(e, [])
    ensures r.Ok? && |r.value.units| <= budget ==> r.value.engine.nextWork.None?
    decreases budget
  {
    if e.nextWork.None? then Ok(Progress(e, []))
    else
      var w := e.nextWork.value;
      match PerformUnit(e.fibers, e.host, w, comps)
      case Err(f) => Err(f)
      case Ok(u) =>
        var e' := Advance(e, u);
        if budget == 0 then Ok(Progress(e', [w]))
        else
          match Drain(e', Less(budget), comps)
          case Err(f) => Err(f)
          case Ok(p) => Ok(Progress(p.engine, [w] + p.units))
  }

  /** One `workLoop` call: the loop, then the commit if it found the work drained; `committed` is the DOM calls of that commit. */
  datatype Slice = Slice(engine: Engine, units: seq<nat>, committed: Option<seq<HostOp>>)

  /**
   * `workLoop(deadline)`. It commits exactly when the loop leaves no
   * `nextWork` while a `root` is pending; committing clears `root` and appends
   * `commitRoot`'s calls to the host log as the loop left it, nothing else.
   */
  function WorkLoop(e: Engine, budget: nat, comps: Components): (r: Result<Slice, Fault>)
    requires Inv(e)
    ensures r.Ok? ==> Inv(r.value.engine) && |e.fibers| <= |r.value.engine.fibers|
    ensures r.Ok? ==> e.host.log <= r.value.engine.host.log
    ensures r.Ok? ==>
      && Drain(e, budget, comps).Ok?
      && var loop := Drain(e, budget, comps).value.engine.host;
         && (r.value.committed.Some? ==> r.value.engine.host.log == loop.log + r.value.committed.value)
         && (r.value.committed.None? ==> r.value.engine.host == loop)
    ensures r.Ok? ==> |r.value.units| <= budget + 1
    ensures r.Ok? && e.nextWork.Some? ==> |r.value.units| >= 1
    ensures r.Ok? && |r.value.units| <= budget ==> r.value.engine.nextWork.None?
    ensures r.Ok? ==> (r.value.committed.Some? <==> r.value.engine.nextWork.None? && e.root.Some?)
    ensures r.Ok? && r.value.committed.None? ==> r.value.engine.root == e.root
    ensures r.Ok? && r.value.committed.Some? ==>
      && r.value.engine.root.None?
      && r.value.engine.fibers != []
      && r.value.committed.value == CommitRoot(r.value.engine.fibers)
    ensures r.Ok? && e.nextWork.None? && e.root.None? ==> r.value == Slice(e, [], None)
  {
    match Drain(e, budget, comps)
    case Err(f) => Err(f)
    case Ok(p) =>
      var e1 := p.engine;
      if e1.nextWork.None? && e1.root.Some? then
        var ops := CommitRoot(e1.fibers);
        Ok(Slice(e1.(root := None, host := e1.host.(log := e1.host.log + ops)), p.units, Some(ops)))
      else Ok(Slice(e1, p.units, None))
  }

  /** What a run of `workLoop` calls did: the final state, every unit worked on, and every commit's DOM calls. */
  datatype Trace = Trace(engine: Engine, units: seq<nat>, commits: seq<seq<HostOp>>)

  /**
   * Successive `workLoop` calls, one per idle period, `budgets[k]` being the
   * budget of the k-th. Each call schedules the next; a throw ends the
   * sequence. However many calls there are, a pending root is committed at
   * most once and without one nothing is committed.
   */
  function Run(e: Engine, budgets: seq<nat>, comps: Components): (r: Result<Trace, Fault>)
    requires Inv(e)
    ensures r.Ok? ==> Inv(r.value.engine) && |e.fibers| <= |r.value.engine.fibers|
    ensures r.Ok? ==> e.host.log <= r.value.engine.host.log
    ensures r.Ok? ==> |r.value.commits| <= if e.root.Some? then 1 else 0
    ensures r.Ok? && (r.value.commits != [] || e.root.None?) ==> r.value.engine.root.None?
    decreases |budgets|
  {
    if budgets == [] then Ok(Trace(e, [], []))
    else
      match WorkLoop(e, budgets[0], comps)
      case Err(f) => Err(f)
      case Ok(s) =>
        match Run(s.engine, budgets[1..], comps)
        case Err(f) => Err(f)
        case Ok(t) =>
          var mine := if s.committed.Some? then [s.committed.value] else [];
          Ok(Trace(t.engine, s.units + t.units, mine + t.commits))
  }

  /** With neither work nor a root, `workLoop` calls do nothing at all. */
  lemma {:induction false} RunIdle(e: Engine, budgets: seq<nat>, comps: Components)
    requires Inv(e) && e.nextWork.None? && e.root.None?
    ensures Run(e, budgets, comps) == Ok(Trace(e, [], []))
    decreases |budgets|
  {
    if budgets != [] {
      RunIdle(e, budgets[1..], comps);
    }
  }

  /** Every fiber already worked on has a node exactly when it is not a function component. */
  ghost predicate Realized(a: seq<Fiber>, done: seq<nat>) {
    forall k :: 0 <= k < |done| ==> done[k] < |a| && (a[done[k]].dom.Some? <==> !a[done[k]].kind.Component?)
  }

  /** No fiber other than the root has a node before it is worked on. */
  ghost predicate Untouched(a: seq<Fiber>, done: seq<nat>) {
    forall i :: 0 < i < |a| && i !in done ==> a[i].dom.None?
  }

  /**
   * Between units of a render: the fibers worked on so far, `done`, are a
   * walk from the root that `next` continues, the root is not a function
   * component, and nodes exist exactly for the root and the host fibers in
   * `done`.
   */
  ghost predicate OnWalk(a: seq<Fiber>, done: seq<nat>, next: Option<nat>) {
    && FromRoot(a, done, next)
    && !a[0].kind.Component?
    && Realized(a, done)
    && Untouched(a, done)
  }

  /** A render that has not been committed yet, having worked on `done`. */
  ghost predicate Pending(e: Engine, done: seq<nat>) {
    Inv(e) && e.root.Some? && OnWalk(e.fibers, done, e.nextWork)
  }

  /** Changing nothing but fibers other than `x` and appending new ones keeps where climbing from `x` leads. */
  lemma {:induction false} ClimbFrame(a: seq<Fiber>, b: seq<Fiber>, x: nat)
    requires WellLinked(a) && WellLinked(b) && |a| <= |b| && x < |a|
    requires forall i :: 0 <= i < |a| ==> b[i].parent == a[i].parent && b[i].sibling == a[i].sibling
    ensures Climb(b, x) == Climb(a, x)
    decreases x
  {
    if a[x].sibling.None? && a[x].parent.Some? {
      ClimbFrame(a, b, a[x].parent.value);
    }
  }

  lemma SuccessorFrame(a: seq<Fiber>, b: seq<Fiber>, x: nat)
    requires WellLinked(a) && WellLinked(b) && |a| <= |b| && x < |a|
    requires forall i :: 0 <= i < |a| ==> b[i].parent == a[i].parent && b[i].sibling == a[i].sibling
    requires b[x].child == a[x].child
    ensures Successor(b, x) == Successor(a, x)
  {
    ClimbFrame(a, b, x);
  }

  /** Extends leaves every link but the worked fiber's child where it was. */
  lemma ExtendsKeepsLinks(a: seq<Fiber>, b: seq<Fiber>, w: nat)
    requires Extends(a, b, w)
    ensures forall i :: 0 <= i < |a| ==> b[i].parent == a[i].parent && b[i].sibling == a[i].sibling
  {
  }

  /**
   * Working on the fiber a walk from the root has reached extends the walk by
   * that fiber: the fibers already walked keep their successors because a
   * unit only changes its own fiber's child and appends.
   */
  lemma WalkExtends(a: seq<Fiber>, b: seq<Fiber>, done: seq<nat>, w: nat)
    requires FromRoot(a, done, Some(w)) && WellLinked(b) && Extends(a, b, w)
    ensures FromRoot(b, done + [w], Successor(b, w))
  {
    FromRootIsPreorderPrefix(a, done, Some(w));
    ExtendsKeepsLinks(a, b, w);
    var xs := done + [w];
    forall k | 0 <= k < |done|
      ensures Successor(b, xs[k]) == Successor(a, done[k])
    {
      assert done[k] != w && done[k] < |a|;
      assert b[done[k]] == a[done[k]];
      SuccessorFrame(a, b, done[k]);
    }
    assert Walk(b, xs, Successor(b, w));
  }

  /** Nodes stay in step with the walk when the fiber worked on ends up with a node exactly when it is a host fiber. */
  lemma NodesExtend(a: seq<Fiber>, b: seq<Fiber>, done: seq<nat>, w: nat)
    requires Extends(a, b, w) && w !in done
    requires Realized(a, done) && Untouched(a, done)
    requires b[w].dom.Some? <==> !b[w].kind.Component?
    ensures Realized(b, done + [w]) && Untouched(b, done + [w])
  {
    var xs := done + [w];
    forall k | 0 <= k < |xs|
      ensures xs[k] < |b| && (b[xs[k]].dom.Some? <==> !b[xs[k]].kind.Component?)
    {
      if k < |done| {
        assert xs[k] == done[k] && done[k] != w;
      }
    }
  }

  /** One unit of work keeps a pending render on its walk, with nodes in step. */
  lemma UnitFollows(a: seq<Fiber>, host: HostState, w: nat, comps: Components, done: seq<nat>)
    requires OnWalk(a, done, Some(w))
    requires w < |a| && PerformUnit(a, host, w, comps).Ok?
    ensures var u := PerformUnit(a, host, w, comps).value; OnWalk(u.fibers, done + [w], u.next)
  {
    var u := PerformUnit(a, host, w, comps).value;
    var b := u.fibers;
    WalkExtends(a, b, done, w);
    FromRootIsPreorderPrefix(a, done, Some(w));
    assert b[w].kind == a[w].kind;
    if w != 0 {
      assert a[w].dom.None?;
    }
    NodesExtend(a, b, done, w);
    assert ElementOf(b[0]) == ElementOf(a[0]);
  }

  /** One unit of work keeps a render pending on its walk. */
  lemma StepFollows(e: Engine, comps: Components, done: seq<nat>)
    requires Pending(e, done) && e.nextWork.Some?
    requires PerformUnit(e.fibers, e.host, e.nextWork.value, comps).Ok?
    ensures Pending(Advance(e, PerformUnit(e.fibers, e.host, e.nextWork.value, comps).value), done + [e.nextWork.value])
  {
    UnitFollows(e.fibers, e.host, e.nextWork.value, comps, done);
  }

  /** The loop of one `workLoop` call keeps a pending render on its walk. */
  lemma {:induction false} DrainFollows(e: Engine, budget: nat, comps: Components, done: seq<nat>, p: Progress)
    requires Pending(e, done) && Drain(e, budget, comps) == Ok(p)
    ensures Pending(p.engine, done + p.units)
    decreases budget
  {
    if e.nextWork.None? {
      assert done + [] == done;
    } else {
      var w := e.nextWork.value;
      StepFollows(e, comps, done);
      if budget > 0 {
        var e' := Advance(e, PerformUnit(e.fibers, e.host, w, comps).value);
        var q := Drain(e', Less(budget), comps).value;
        ConsShift(done, w, q.units);
        DrainFollows(e', Less(budget), comps, done + [w], q);
      }
    }
  }

  /** Moving the unit just worked on from the front of the rest to the end of what was done; a proof step DrainFollows needs spelled out. */
  lemma ConsShift(done: seq<nat>, w: nat, rest: seq<nat>)
    ensures (done + [w]) + rest == done + ([w] + rest)
  {
  }

  /** A committed render that worked on `done`: nothing is left to do and nothing is pending. */
  ghost predicate Finished(e: Engine, done: seq<nat>) {
    Inv(e) && e.root.None? && e.nextWork.None? && e.fibers != [] && OnWalk(e.fibers, done, None)
  }

  /**
   * One `workLoop` call on a pending render either leaves it pending with
   * work left, committing nothing, or drains it and commits the arena.
   */
  ghost predicate SliceOutcome(s: Slice, done: seq<nat>) {
    && (s.committed.None? ==> s.engine.nextWork.Some? && Pending(s.engine, done + s.units))
    && (s.committed.Some? ==>
          && Finished(s.engine, done + s.units)
          && s.committed.value == CommitRoot(s.engine.fibers))
  }

  lemma SliceFollows(e: Engine, budget: nat, comps: Components, done: seq<nat>)
    requires Pending(e, done) && WorkLoop(e, budget, comps).Ok?
    ensures SliceOutcome(WorkLoop(e, budget, comps).value, done)
  {
    var p := Drain(e, budget, comps).value;
    DrainFollows(e, budget, comps, done, p);
    SliceOf(p, e, budget, comps, done);
  }

  /** The commit step of `workLoop`, applied to what the loop left. */
  lemma SliceOf(p: Progress, e: Engine, budget: nat, comps: Components, done: seq<nat>)
    requires Inv(e) && e.root.Some? && Drain(e, budget, comps) == Ok(p)
    requires Pending(p.engine, done + p.units)
    ensures SliceOutcome(WorkLoop(e, budget, comps).value, done)
  {
  }

  /** What a run of `workLoop` calls on a pending render with work left ends in. */
  ghost predicate RunOutcome(t: Trace, done: seq<nat>) {
    && (t.engine.nextWork.Some? ==> Pending(t.engine, done + t.units) && t.commits == [])
    && (t.engine.nextWork.None? ==>
          && Finished(t.engine, done + t.units)
          && t.commits == [CommitRoot(t.engine.fibers)])
  }

  /** One `workLoop` call of a run, unrolled. */
  lemma RunUnfold(e: Engine, budgets: seq<nat>, comps: Components)
    requires Inv(e) && budgets != [] && Run(e, budgets, comps).Ok?
    ensures WorkLoop(e, budgets[0], comps).Ok?
    ensures var s := WorkLoop(e, budgets[0], comps).value;
      && Run(s.engine, budgets[1..], comps).Ok?
      && var t := Run(s.engine, budgets[1..], comps).value;
         Run(e, budgets, comps).value
         == Trace(t.engine, s.units + t.units, (if s.committed.Some? then [s.committed.value] else []) + t.commits)
  {
  }

  /**
   * A run of `workLoop` calls that starts on a pending render with work left
   * either is still pending, having committed nothing, or has committed the
   * completed walk exactly once and is idle.
   */
  lemma {:induction false} RunFollows(e: Engine, budgets: seq<nat>, comps: Components, done: seq<nat>)
    requires Pending(e, done) && e.nextWork.Some? && Run(e, budgets, comps).Ok?
    ensures RunOutcome(Run(e, budgets, comps).value, done)
    decreases |budgets|, 0
  {
    if budgets == [] {
      assert done + [] == done;
    } else {
      RunUnfold(e, budgets, comps);
      SliceFollows(e, budgets[0], comps, done);
      var s := WorkLoop(e, budgets[0], comps).value;
      if s.committed.Some? {
        RunIdle(s.engine, budgets[1..], comps);
        CommittedRun(s, done, Run(e, budgets, comps).value);
      } else {
        RunTail(s.engine, budgets[1..], comps, done + s.units);
        PendingRun(s, Run(s.engine, budgets[1..], comps).value, done, Run(e, budgets, comps).value);
      }
    }
  }

  /** The recursive call of RunFollows, stated apart so that its proof sees little else. */
  lemma {:induction false} RunTail(e: Engine, budgets: seq<nat>, comps: Components, done: seq<nat>)
    requires Pending(e, done) && e.nextWork.Some? && Run(e, budgets, comps).Ok?
    ensures RunOutcome(Run(e, budgets, comps).value, done)
    decreases |budgets|, 1
  {
    RunFollows(e, budgets, comps, done);
  }

  lemma CommittedRun(s: Slice, done: seq<nat>, t: Trace)
    requires SliceOutcome(s, done) && s.committed.Some?
    requires t == Trace(s.engine, s.units + [], [s.committed.value] + [])
    ensures RunOutcome(t, done)
  {
    assert s.units + [] == s.units;
    assert [s.committed.value] + [] == [s.committed.value];
  }

  lemma PendingRun(s: Slice, t: Trace, done: seq<nat>, r: Trace)
    requires RunOutcome(t, done + s.units)
    requires r == Trace(t.engine, s.units + t.units, [] + t.commits)
    ensures RunOutcome(r, done)
  {
    assert done + s.units + t.units == done + r.units;
    assert [] + t.commits == t.commits;
  }
  /** A freshly rendered root is pending with nothing worked on yet. */
  lemma RenderPending(e: Engine, el: Element, container: Handle)
    ensures Pending(Render(e, el, container), [])
  {
  }

  /** A prefix of a sequence without repeats has none either. */
  lemma PrefixDistinct(p: seq<nat>, n: nat)
    requires Distinct(p) && n <= |p|
    ensures Distinct(p[..n])
  {
  }

  /**
   * Where a run that starts at `render` stands: its units are a walk from the
   * root that `nextWork` continues, with nodes in step, and it has committed
   * once exactly when the work is drained.
   */
  ghost predicate Reached(t: Trace) {
    && t.engine.fibers != [] && Inv(t.engine)
    && OnWalk(t.engine.fibers, t.units, t.engine.nextWork)
    && (t.engine.nextWork.Some? ==> t.engine.root == Some(0) && t.commits == [])
    && (t.engine.nextWork.None? ==> t.engine.root.None? && t.commits == [CommitRoot(t.engine.fibers)])
  }

  lemma RenderRun(e: Engine, el: Element, container: Handle, budgets: seq<nat>, comps: Components)
    requires Run(Render(e, el, container), budgets, comps).Ok?
    ensures Reached(Run(Render(e, el, container), budgets, comps).value)
  {
    RenderPending(e, el, container);
    RunFollows(Render(e, el, container), budgets, comps, []);
    ReachedOf(Run(Render(e, el, container), budgets, comps).value);
  }

  lemma ReachedOf(t: Trace)
    requires RunOutcome(t, [])
    ensures Reached(t)
  {
    assert [] + t.units == t.units;
  }

  /**
   * In every state `render` and `workLoop` calls reach: the fibers worked on
   * are a prefix of the preorder of the fiber tree as built so far, with no
   * fiber twice, and nodes exist exactly for the host fibers among them.
   */
  lemma ReachedInPreorder(t: Trace)
    requires Reached(t)
    ensures |t.units| <= |Subtree(t.engine.fibers, 0)| && t.units == Subtree(t.engine.fibers, 0)[..|t.units|]
    ensures Distinct(t.units)
    ensures forall k :: 0 <= k < |t.units| ==>
      (t.engine.fibers[t.units[k]].dom.Some? <==> !t.engine.fibers[t.units[k]].kind.Component?)
  {
    var a := t.engine.fibers;
    FromRootIsPreorderPrefix(a, t.units, t.engine.nextWork);
    var p := Subtree(a, 0);
    PreorderWalk(a);
    WalkDistinct(a, p);
    PrefixDistinct(p, |t.units|);
  }

  /**
   * While work is left, the next unit is the next fiber of the preorder,
   * the root is still pending, and nothing has been committed.
   */
  lemma ReachedWaiting(t: Trace)
    requires Reached(t) && t.engine.nextWork.Some?
    ensures |t.units| < |Subtree(t.engine.fibers, 0)| && t.engine.nextWork.value == Subtree(t.engine.fibers, 0)[|t.units|]
    ensures t.engine.nextWork.value !in t.units
    ensures t.engine.root == Some(0) && t.commits == []
  {
    FromRootIsPreorderPrefix(t.engine.fibers, t.units, t.engine.nextWork);
  }

  /**
   * Once the work is drained, every fiber has been worked on, in preorder,
   * and the root has been cleared.
   */
  lemma ReachedCommitted(t: Trace)
    requires Reached(t) && t.engine.nextWork.None?
    ensures t.units == Subtree(t.engine.fibers, 0) && t.engine.root.None?
  {
    FromRootIsPreorderPrefix(t.engine.fibers, t.units, t.engine.nextWork);
  }

  /**
   * The one commit of a drained run appends the nodes in the order the
   * fibers were worked on, root excluded.
   */
  lemma ReachedCommitOrder(t: Trace)
    requires Reached(t) && t.engine.nextWork.None?
    ensures t.units[1..] == Below(t.engine.fibers)
    ensures t.commits == [Appends(t.engine.fibers, Below(t.engine.fibers))]
  {
    ReachedCommitted(t);
  }
}
