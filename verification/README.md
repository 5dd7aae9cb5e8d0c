# mini-react fiber engine, modelled in Dafny

This project models the fiber engine of mini-react (core/React.js). The engine covers:

- `createElement` and `createTextNode`, which build element descriptions;
- `render`, which installs a root fiber;
- `performWorkOfUnit`, the unit of work: it gives the fiber its host node if it has none, expands the fiber's children into new fibers, and returns the next fiber without a stack;
- `workLoop`, the time-sliced loop that performs units while the idle deadline allows;
- `commitRoot`/`commitWork`, which append every host node to its nearest ancestor that has one.

Modules follow the structure of the program:

- `Elements`: element descriptions, with props objects as ordered key/value lists.
- `Host`: host nodes and the DOM calls the engine makes, kept as an operation log. It includes `createDom` and its property classifier.
- `Fibers`: fibers in an index arena, with `parent`, `child` and `sibling` as indices, and `reconcileChildren`.
- `Traversal`: the successor that `performWorkOfUnit` returns, and the preorder it induces.
- `Commit`: `commitWork` and `commitRoot`.
- `Scheduler`:
  - the module state (`nextWork`, `root`);
  - `render`, `updateFunctionComponent`, `updateHostComponent`, `performWorkOfUnit`, `workLoop`;
  - runs of successive `workLoop` calls.
- `Wrappers` and `Seqs` are small shared helpers.

The central results:

- Following the successor from the root visits every fiber exactly once, in preorder (`Traversal.PreorderWalk`, `Traversal.WalkDistinct`).
- `commitWork` appends nodes in that same preorder (`Commit.CommitWork`, `Commit.CommitRoot`).
- After `render` and any sequence of `workLoop` calls that do not throw, the fibers worked on are a duplicate-free prefix of the preorder of the tree built so far (`Scheduler.RenderRun`, `Scheduler.ReachedInPreorder`). Once the work is drained, there has been exactly one commit, which appends the nodes in that order (`Scheduler.ReachedCommitOrder`).

Text elements keep their text under `nodeValue` (core/React.js:18), and the model does the same.

## Model

| member | source | states |
|---|---|---|
| Elements.Get | core/React.js:51 | `props[k]` is absent exactly when `k` is not among the object's keys, and a present value is the one stored under `k` |
| Elements.Put | core/React.js:4-10 | after setting `k`, reading `k` gives the new value and every other key reads as before |
| Elements.PutKeys | core/React.js:4-10 | spreading props and then setting `children` keeps an existing `children` key in its place, and otherwise adds it as the last key |
| Elements.CreateTextNode | core/React.js:14-22 | a text element has type `TEXT_ELEMENT`, exactly the keys `nodeValue` and `children`, the text as `nodeValue` and the remaining arguments as `children` |
| Elements.CreateElement | core/React.js:1-12 | the element has the given type. Every given prop other than `children` reads back unchanged, and key order is the given order with `children` last if it was new; distinct keys stay distinct. `children` is always a list with one item per argument, in order: a string or number becomes exactly the element `createTextNode` makes from it with no further arguments, anything else is kept as it is |
| Elements.PutUnique | core/React.js:4-10 | setting `children` on a props object with distinct keys leaves its keys distinct |
| Elements.ChildElements | core/React.js:146 | the model reads `fiber.props.children` as reconcilable exactly when it is a list whose every item is an element, and it then yields those elements in order (any other list is treated as unreadable; see "## Left out") |
| Elements.CreateElementChildren | core/React.js:6-9 | an element built from primitive and element arguments hands the engine one child element per argument, in order |
| Elements.TextNodeIsLeaf | core/React.js:14-21 | a text element built with no extra arguments has no child elements |
| Host.Lower | core/React.js:46 | lower-casing keeps the length and lower-cases each letter in place |
| Host.Attributes | core/React.js:41-43 | filtering the keys drops every `children` prop and keeps every other prop |
| Host.AttributesConcat | core/React.js:41-43 | filtering keeps the props' order: the attributes of a concatenation are those of each part in turn, and one prop is kept exactly when its key is not `children` |
| Host.AttributeKeys | core/React.js:41-43 | after filtering, `children` occurs zero times and every other key occurs as often as before |
| Host.EachAttributeOnce | core/React.js:41-53 | for an object with distinct keys, each key other than `children` is applied exactly once and `children` never |
| Host.ApplyProps | core/React.js:44-53 | one host call per applied prop, in order: a key starting with `on` becomes a listener on the rest of the key, lower-cased, with the prop's value as handler; any other key is assigned directly |
| Host.EventNameLowered | core/React.js:46 | event names contain no upper-case letters, and lower-casing them again changes nothing |
| Host.CreateDom | core/React.js:36-55 | `createDom` makes one new node, a text node for `TEXT_ELEMENT` and an element of the fiber's type otherwise, then makes exactly the property calls above; the earlier log is unchanged |
| Host.CreateDomFresh | core/React.js:37-40 | the node `createDom` makes has never appeared in an earlier host call, and the handle counter stays ahead of every handle used |
| Fibers.Reconcile | core/React.js:116-135 | `reconcileChildren` appends one fiber per child and changes no existing fiber except `fiber.child`. That becomes the first new fiber, or stays as it was when the list is empty |
| Fibers.ReconcileLinks | core/React.js:116-135 | reconciling keeps the arena well linked: parents earlier, child and sibling links later, each child's parent the fiber that links to it |
| Fibers.ReconcileReadBack | core/React.js:116-135 | with a non-empty list, walking `fiber.child` then `.sibling` visits exactly one new fiber per element, in order. Each one carries its element's type and props, has `fiber` as parent, and has no node and no child yet; the last has no sibling |
| Traversal.Successor | core/React.js:83-94 | the fiber `performWorkOfUnit` hands on exists and is never the root |
| Traversal.Climb | core/React.js:86-94 | the loop that climbs from the fiber yields a fiber that exists and is not the root |
| Traversal.ClimbNearest | core/React.js:86-94 | that loop yields the sibling of the nearest ancestor-or-self that has one, and nothing exactly when no fiber from there up to the root has a sibling |
| Traversal.SubtreeWalk | core/React.js:83-94 | successors from a fiber visit its subtree in preorder, then continue where climbing out of the subtree leads |
| Traversal.PreorderWalk | core/React.js:83-94 | repeatedly taking `performWorkOfUnit`'s result from the root visits the whole tree in preorder and then yields nothing |
| Traversal.WalkDistinct | core/React.js:83-94 | a sequence of units that runs out never visits a fiber twice |
| Traversal.FromRootIsPreorderPrefix | core/React.js:83-94 | a partial run from the root is a prefix of the preorder, and the next unit is the next fiber of the preorder, one not yet visited. The run is over exactly when the whole preorder has been visited |
| Commit.HostParent | core/React.js:103-106 | the loop at the top of `commitWork` stops at the nearest strict ancestor that owns a node. It always stops, because the root owns the container |
| Commit.CommitWork | core/React.js:101-113 | `commitWork(fiber)` appends, in preorder over the fiber, its later siblings and all their subtrees, each fiber's node to the node of its nearest ancestor that owns one; fibers without a node append nothing |
| Commit.AppendsConcat | core/React.js:101-113 | the appends for two runs of fibers one after the other are those of the first run, then those of the second |
| Commit.ForestAppends | core/React.js:107-112 | `commitWork` makes the fiber's own append, then its child's calls, then its sibling's |
| Commit.CommitRoot | core/React.js:97-100 | `commitRoot` makes the appends of every fiber but the root, in preorder |
| Scheduler.Boot | core/React.js:24-25 | the module starts with no work and no root |
| Scheduler.Render | core/React.js:26-34 | `nextWork` and `root` are the same new fiber, whose node is the container and whose props are exactly `children: [el]` |
| Scheduler.UpdateFunctionComponent | core/React.js:137-140 | the component is called with the fiber's props; the element it returns becomes the fiber's only child, a new fiber with that element's type and props, the fiber as parent, no node, no child and no sibling. Nothing else changes, and the arena stays well linked |
| Scheduler.UpdateHostComponent | core/React.js:142-147 | in the model, throws exactly when `children` is not a list of elements (earlier than the source for a list holding a non-element; see "## Left out"). Otherwise the fiber keeps its node or gets the one `createDom` makes, and gains one new child fiber per element, in order, each with that element's type and props and no node. No other existing fiber changes, the host log only grows, and the arena stays well linked |
| Scheduler.HostChildren | core/React.js:146 | reconciling after the node step keeps the node and changes only `fiber.child` |
| Scheduler.EnsureDom | core/React.js:143-145 | a fiber that already has a node keeps it and no host call is made; otherwise it gets the node `createDom` makes |
| Scheduler.DomLinks | core/React.js:143-145 | giving a fiber a node keeps the arena well linked |
| Scheduler.PerformUnit | core/React.js:72-95 | a function component gets no node and makes no host call. A host fiber gets a node only if it had none. Only a host fiber whose children are not a list of elements throws. No other existing fiber changes, new fibers have no node, the host log only grows, and the result is the successor |
| Scheduler.UnitChildren | core/React.js:137-147 | a function component gets exactly one child, the element its function returns for its props; a host fiber gets one child per element of its `children` list, in order |
| Scheduler.ClimbFrame | core/React.js:86-94 | a unit of work does not change where climbing from any earlier fiber leads |
| Scheduler.SuccessorFrame | core/React.js:83-94 | nor what any earlier fiber's successor is |
| Scheduler.WalkExtends | core/React.js:72-95 | performing the next unit of a partial run from the root extends that run by the unit's fiber |
| Scheduler.NodesExtend | core/React.js:137-147 | the fibers worked on keep having a node exactly when they are not function components |
| Scheduler.UnitFollows | core/React.js:72-95 | one unit of work keeps the run from the root and the nodes in step |
| Scheduler.Drain | core/React.js:57-63 | the loop performs at least one unit when there is work, at most one more unit than the budget allows, and stops early only when the work runs out; `root` is untouched and the host log only grows |
| Scheduler.DrainFollows | core/React.js:59-63 | the loop continues the run from the root with no repeat |
| Scheduler.WorkLoop | core/React.js:57-68 | `commitRoot` runs exactly when the loop leaves no `nextWork` while a `root` is pending. It then clears `root`, and its calls are appended to the host log as the loop left it; without a commit the host is as the loop left it. The log only grows |
| Scheduler.SliceFollows | core/React.js:57-66 | a `workLoop` call on a pending render either leaves it pending with work left and commits nothing, or drains it and commits the arena |
| Scheduler.Run | core/React.js:57-70 | over any number of `workLoop` calls, a render is committed at most once, nothing is committed without a pending root, and the host log only grows |
| Scheduler.RunIdle | core/React.js:64-67 | with neither work nor a root, `workLoop` calls change nothing |
| Scheduler.RunFollows | core/React.js:57-70 | successive `workLoop` calls on a pending render end still pending with no commit, or idle after exactly one commit |
| Scheduler.RenderRun | core/React.js:24-70 | `render` followed by any `workLoop` calls that do not throw reaches a state where the units performed are a walk from the root that `nextWork` continues, and nodes exist exactly for the host fibers among them. While work is left `root` is still set and nothing has been committed; once the work is drained `root` is cleared and `commitRoot` has run exactly once |
| Scheduler.ReachedInPreorder | core/React.js:57-95 | in such a state, the units performed are a prefix of the preorder of the tree built so far, with no fiber twice, and exactly the non-component fibers among them have nodes |
| Scheduler.ReachedWaiting | core/React.js:57-68 | while work is left, the next unit is the next fiber of the preorder and has not been worked on yet; `root` is still the render's root, and nothing has been committed |
| Scheduler.ReachedCommitted | core/React.js:57-95 | once the work is drained, every fiber has been worked on, in preorder, and `root` is cleared |
| Scheduler.ReachedCommitOrder | core/React.js:97-113 | the one commit of a drained run appends the nodes in the order the fibers were worked on: the units after the root are exactly the fibers below it |

## Left out

- The DOM itself is not modelled. `document.createElement`, `document.createTextNode`, `append`, `addEventListener` and property assignment are recorded as host operations, and nodes are counter-issued handles.
- `requestIdleCallback` and `deadline.timeRemaining()` are not modelled. Each `workLoop` call takes a budget: the number of readings of at least 1 before the first reading below 1. The perpetual rescheduling becomes a sequence of such calls (`Scheduler.Run`).
- `console.log` in `createDom` is not modelled: it has no effect on the engine.
- Function components are not executed. They are a parameter mapping a component id and its props to the element it returns. A component that returns something other than an element is not modelled.
- Numbers are unbounded integers; floating-point values are not modelled.
- Object keys keep insertion order. JavaScript moves integer-like keys to the front, and that ordering is not modelled.
- Host.Lower: lower-cases ASCII letters only; the full Unicode case mapping of `toLowerCase` is not modelled.
- Prop and children values are strings, numbers, functions, elements and lists; `null`, `undefined`, booleans and plain objects (such as `disabled: true` or `style: {…}`, which `createDom` assigns as they are) are not modelled. A props argument of `null` is the empty list.
- Scheduler.UpdateHostComponent: a `children` list holding anything other than an element (a string, or the nested array that a `map` inside JSX produces) makes the model throw at the fiber that holds the list. In JavaScript, `reconcileChildren` accepts any array and makes a fiber with undefined `type` and `props` for such an item; the throw comes only when that fiber is reached, after the subtrees of its earlier siblings, at `Object.keys(undefined)` in `createDom` (after a `document.createElement(undefined)` call). A missing `children` list throws at once in both.
- Elements.ChildElements: reads such a list as unreadable, which is what makes the model throw early as described on the line above; the source has no such check.
- Scheduler.PerformUnit: inherits that early throw from Scheduler.UpdateHostComponent, so a unit fails at the fiber that holds the list rather than when the fiber made from the offending item is reached.
- A throw ends the run of `workLoop` calls; what happens after an uncaught exception in the browser is not modelled. The error result carries only the fault: the DOM calls made before the throw in that call are not kept. These are the calls of earlier units in the same call, and the `createDom` calls for a fiber whose `children` list is missing. Their nodes are never attached, so nothing visible is lost.
- The container passed to `render` is assumed to be a node, not `null`.
- Re-rendering (`alternate`, effect tags, property removal, listener detach/reattach, `update`) is not in core/React.js and is not modelled. The same goes for App.jsx, which is application code calling an `update` that core/React.js does not define.
