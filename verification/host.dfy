/**
 * The host side of the engine: the DOM calls `createDom` and `commitWork`
 * make, recorded as a log of operations instead of performed. Node handles
 * come from a counter, so every node the engine creates is new.
 */
module Host {
  import opened Elements

  /** A host node: the container passed to `render`, or one the engine created. */
  datatype Handle = Container(id: nat) | Created(serial: nat)

  datatype HostOp =
    | MakeElement(node: Handle, tag: string)                 // document.createElement(tag)
    | MakeText(node: Handle)                                 // document.createTextNode('')
    | Assign(node: Handle, name: string, val: Value)         // dom[name] = value
    | Listen(node: Handle, event: string, handler: Value)    // dom.addEventListener(event, handler)
    | Append(parent: Handle, child: Handle)                  // parent.append(child)

  /** The next serial to hand out and every host call made so far. */
  datatype HostState = HostState(serial: nat, log: seq<HostOp>)

  /** Property names that `createDom` turns into event listeners. */
  predicate IsEventKey(key: string) {
    |key| >= 2 && key[0] == 'o' && key[1] == 'n'
  }

  function LowerChar(c: char): char {
    if 'A' <= c <= 'Z' then (c as int + 32) as char else c
  }

  /** `String.prototype.toLowerCase` on ASCII letters. */
  function Lower(s: string): (r: string)
    ensures |r| == |s|
    ensures forall i :: 0 <= i < |s| ==> r[i] == LowerChar(s[i])
  {
    seq(|s|, i requires 0 <= i < |s| => LowerChar(s[i]))
  }

  /** `name.slice(2).toLowerCase()`. */
  function EventName(key: string): string
    requires IsEventKey(key)
  {
    Lower(key[2..])
  }

  /** The one host call `createDom` makes for one property. */
  function ApplyProp(node: Handle, p: Prop): HostOp {
    if IsEventKey(p.key) then Listen(node, EventName(p.key), p.val)
    else Assign(node, p.key, p.val)
  }

  /** `Object.keys(props).filter(isProperty)`, with the values alongside. */
  function Attributes(ps: seq<Prop>): (r: seq<Prop>)
    ensures forall i :: 0 <= i < |r| ==> r[i].key != ChildrenKey && r[i] in ps
    ensures forall p :: p in ps && p.key != ChildrenKey ==> p in r
  {
    if ps == [] then []
    else if ps[0].key == ChildrenKey then Attributes(ps[1..])
    else [ps[0]] + Attributes(ps[1..])
  }

  /**
   * Filtering keeps the props' order: the attributes of a concatenation are
   * those of each part in turn, and a single prop is kept exactly when its
   * key is not `children`.
   */
  lemma {:induction false} AttributesConcat(ps: seq<Prop>, qs: seq<Prop>)
    ensures Attributes(ps + qs) == Attributes(ps) + Attributes(qs)
    ensures |ps| == 1 ==> Attributes(ps) == if ps[0].key == ChildrenKey then [] else ps
  {
    if ps == [] {
      assert ps + qs == qs;
    } else {
      assert (ps + qs)[0] == ps[0] && (ps + qs)[1..] == ps[1..] + qs;
      AttributesConcat(ps[1..], qs);
      if |ps| == 1 {
        assert ps[1..] == [];
      }
    }
  }

  /** Filtering removes every `children` key and keeps every other key as often as it occurs. */
  lemma {:induction false} AttributeKeys(ps: seq<Prop>, k: string)
    ensures multiset(Keys(Attributes(ps)))[k] == if k == ChildrenKey then 0 else multiset(Keys(ps))[k]
  {
    if ps != [] {
      AttributeKeys(ps[1..], k);
      assert ps == [ps[0]] + ps[1..];
      KeysCons(ps[0], ps[1..]);
      assert multiset(Keys(ps)) == multiset([ps[0].key]) + multiset(Keys(ps[1..]));
      var rest := Attributes(ps[1..]);
      if ps[0].key != ChildrenKey {
        KeysCons(ps[0], rest);
        assert multiset(Keys(Attributes(ps))) == multiset([ps[0].key]) + multiset(Keys(rest));
      }
    }
  }

  /** The `forEach` over the attributes in `createDom`. */
  function ApplyProps(node: Handle, ps: seq<Prop>): (ops: seq<HostOp>)
    ensures |ops| == |Attributes(ps)|
    ensures forall i :: 0 <= i < |ops| ==>
      var p := Attributes(ps)[i];
      if IsEventKey(p.key) then ops[i] == Listen(node, Lower(p.key[2..]), p.val)
      else ops[i] == Assign(node, p.key, p.val)
  {
    var attrs := Attributes(ps);
    seq(|attrs|, i requires 0 <= i < |attrs| => ApplyProp(node, attrs[i]))
  }

  /** The tag passed to `document.createElement`; a missing type reads as "undefined". */
  function TagName(kind: ElemType): string
    requires !kind.Component?
  {
    if kind.Tag? then kind.name else "undefined"
  }

  /** `createDom(fiber)`: a new node, then one host call per attribute. */
  function CreateDom(host: HostState, kind: ElemType, ps: seq<Prop>): (r: (Handle, HostState))
    requires !kind.Component?
    ensures r.0 == Created(host.serial) && r.1.serial == host.serial + 1
    ensures |r.1.log| == |host.log| + 1 + |Attributes(ps)|
    ensures r.1.log[..|host.log|] == host.log
    ensures r.1.log[|host.log|] == if kind == Tag(TextTag) then MakeText(r.0) else MakeElement(r.0, TagName(kind))
    ensures r.1.log[|host.log| + 1..] == ApplyProps(r.0, ps)
  {
    var node := Created(host.serial);
    var make := if kind == Tag(TextTag) then MakeText(node) else MakeElement(node, TagName(kind));
    (node, HostState(host.serial + 1, host.log + [make] + ApplyProps(node, ps)))
  }

  /** The host nodes a call refers to. */
  function Handles(op: HostOp): set<Handle> {
    match op
    case MakeElement(n, _) => {n}
    case MakeText(n) => {n}
    case Assign(n, _, _) => {n}
    case Listen(n, _, _) => {n}
    case Append(p, c) => {p, c}
  }

  /** Every created node named in the log was handed out before the counter's value. */
  predicate Allocated(host: HostState) {
    forall i, h :: 0 <= i < |host.log| && h in Handles(host.log[i]) && h.Created? ==> h.serial < host.serial
  }

  /** Each node `createDom` makes is one the host has never seen, and the counter stays ahead. */
  lemma CreateDomFresh(host: HostState, kind: ElemType, ps: seq<Prop>)
    requires !kind.Component?
    requires Allocated(host)
    ensures var (node, host') := CreateDom(host, kind, ps);
      && Allocated(host')
      && forall i :: 0 <= i < |host.log| ==> node !in Handles(host.log[i])
  {
  }

  /** Distinct keys occur once each in `Object.keys`. */
  lemma {:induction false} UniqueKeysOnce(ps: seq<Prop>, k: string)
    requires UniqueKeys(ps)
    ensures multiset(Keys(ps))[k] == if k in Keys(ps) then 1 else 0
  {
    if ps != [] {
      assert ps == [ps[0]] + ps[1..];
      KeysCons(ps[0], ps[1..]);
      UniqueKeysOnce(ps[1..], k);
      if ps[0].key == k {
        KeyAbsent(ps[1..], k);
      }
    }
  }

  /** Under distinct keys, the first key does not occur again. */
  lemma {:induction false} KeyAbsent(ps: seq<Prop>, k: string)
    requires forall i :: 0 <= i < |ps| ==> ps[i].key != k
    ensures k !in Keys(ps)
  {
    if ps != [] {
      assert ps == [ps[0]] + ps[1..];
      KeysCons(ps[0], ps[1..]);
      KeyAbsent(ps[1..], k);
    }
  }

  /** With distinct keys, every attribute is applied exactly once and `children` never. */
  lemma EachAttributeOnce(ps: seq<Prop>, k: string)
    requires UniqueKeys(ps)
    ensures multiset(Keys(Attributes(ps)))[k] == if k != ChildrenKey && k in Keys(ps) then 1 else 0
  {
    AttributeKeys(ps, k);
    UniqueKeysOnce(ps, k);
  }

  /** Listener names are lower case, whatever the property's spelling. */
  lemma EventNameLowered(key: string)
    requires IsEventKey(key)
    ensures forall i :: 0 <= i < |EventName(key)| ==> !('A' <= EventName(key)[i] <= 'Z')
    ensures Lower(EventName(key)) == EventName(key)
  {
  }
}
