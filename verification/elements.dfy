/**
 * Elements: the immutable node descriptions that `createElement` builds, and
 * the property objects they carry. A JavaScript object is modelled as a list
 * of key/value pairs in insertion order, which is the order `Object.keys`
 * reports for non-numeric keys.
 */
module Elements {
  import opened Wrappers

  /** The `type` of the elements made for string and number children. */
  const TextTag: string := "TEXT_ELEMENT"
  /** The reserved property that holds an element's children. */
  const ChildrenKey: string := "children"
  /** The property a text element keeps its text under. */
  const NodeValueKey: string := "nodeValue"

  /** What an element's `type` field holds. */
  datatype ElemType =
    | Tag(name: string)     // a host tag name, or TextTag
    | Component(id: nat)    // a function component, named by its index in a component table
    | Untyped               // no `type` at all: the root fiber that `render` creates

  /** The property values the engine distinguishes. */
  datatype Value =
    | Str(s: string)
    | Num(n: int)
    | Fn(id: nat)           // a function value, such as an event handler
    | Node(elem: Element)
    | List(items: seq<Value>)

  datatype Prop = Prop(key: string, val: Value)

  /** `{type, props}`; the field is called `kind` because `type` is a Dafny keyword. */
  datatype Element = Element(kind: ElemType, props: seq<Prop>)

  /** `Object.keys(props)`. */
  function Keys(ps: seq<Prop>): (ks: seq<string>)
    ensures |ks| == |ps|
  {
    if ps == [] then [] else [ps[0].key] + Keys(ps[1..])
  }

  /** A list of pairs is a faithful object when no key repeats. */
  predicate UniqueKeys(ps: seq<Prop>) {
    forall i, j :: 0 <= i < j < |ps| ==> ps[i].key != ps[j].key
  }

  /** `props[k]`, with None for `undefined`. */
  function Get(ps: seq<Prop>, k: string): (r: Option<Value>)
    ensures r.None? <==> k !in Keys(ps)
    ensures r.Some? ==> Prop(k, r.value) in ps
  {
    if ps == [] then None
    else if ps[0].key == k then Some(ps[0].val)
    else Get(ps[1..], k)
  }

  /** `props[k] = v`: an existing key keeps its place, a new key is added last. */
  function Put(ps: seq<Prop>, k: string, v: Value): (r: seq<Prop>)
    ensures Get(r, k) == Some(v)
    ensures forall k' :: k' != k ==> Get(r, k') == Get(ps, k')
  {
    if ps == [] then [Prop(k, v)]
    else if ps[0].key == k then
      ConsFacts(Prop(k, v), ps[1..]);
      assert ps == [ps[0]] + ps[1..];
      ConsFacts(ps[0], ps[1..]);
      [Prop(k, v)] + ps[1..]
    else
      var rest := Put(ps[1..], k, v);
      ConsFacts(ps[0], rest);
      assert ps == [ps[0]] + ps[1..];
      ConsFacts(ps[0], ps[1..]);
      [ps[0]] + rest
  }

  /** Put adds a key only when it is new, and then at the end. */
  lemma {:induction false} PutKeys(ps: seq<Prop>, k: string, v: Value)
    ensures Keys(Put(ps, k, v)) == if k in Keys(ps) then Keys(ps) else Keys(ps) + [k]
  {
    if ps == [] {
    } else {
      assert ps == [ps[0]] + ps[1..];
      KeysCons(ps[0], ps[1..]);
      if ps[0].key == k {
        PutKeysFront(ps, k, v);
      } else {
        PutKeys(ps[1..], k, v);
        PutKeysLater(ps, k, v);
      }
    }
  }

  /** The Put step that overwrites the first pair. */
  lemma PutKeysFront(ps: seq<Prop>, k: string, v: Value)
    requires ps != [] && ps[0].key == k
    requires Keys(ps) == [ps[0].key] + Keys(ps[1..])
    ensures Keys(Put(ps, k, v)) == Keys(ps) && k in Keys(ps)
  {
    assert Put(ps, k, v) == [Prop(k, v)] + ps[1..];
    KeysCons(Prop(k, v), ps[1..]);
  }

  /** The Put step that keeps the first pair and recurses on the rest. */
  lemma PutKeysLater(ps: seq<Prop>, k: string, v: Value)
    requires ps != [] && ps[0].key != k
    requires Keys(ps) == [ps[0].key] + Keys(ps[1..])
    requires Keys(Put(ps[1..], k, v)) == if k in Keys(ps[1..]) then Keys(ps[1..]) else Keys(ps[1..]) + [k]
    ensures Keys(Put(ps, k, v)) == if k in Keys(ps) then Keys(ps) else Keys(ps) + [k]
  {
    var rest := Put(ps[1..], k, v);
    assert Put(ps, k, v) == [ps[0]] + rest;
    KeysCons(ps[0], rest);
    assert k in Keys(ps) <==> k in Keys(ps[1..]);
  }

  lemma KeysCons(p: Prop, ps: seq<Prop>)
    ensures Keys([p] + ps) == [p.key] + Keys(ps)
  {
    assert ([p] + ps)[1..] == ps;
  }

  /** How Get and Keys see a pair in front of a list. */
  lemma ConsFacts(p: Prop, ps: seq<Prop>)
    ensures Keys([p] + ps) == [p.key] + Keys(ps)
    ensures forall k :: Get([p] + ps, k) == if p.key == k then Some(p.val) else Get(ps, k)
  {
    assert ([p] + ps)[1..] == ps;
  }

  /** `createTextNode(text, ...rest)`. */
  function CreateTextNode(text: Value, rest: seq<Value>): (e: Element)
    ensures e.kind == Tag(TextTag)
    ensures Keys(e.props) == [NodeValueKey, ChildrenKey]
    ensures Get(e.props, NodeValueKey) == Some(text)
    ensures Get(e.props, ChildrenKey) == Some(List(rest))
  {
    Element(Tag(TextTag), [Prop(NodeValueKey, text), Prop(ChildrenKey, List(rest))])
  }

  /** The children that `createElement` wraps into text elements. */
  predicate IsPrimitive(v: Value) {
    v.Str? || v.Num?
  }

  function WrapChild(v: Value): Value {
    if IsPrimitive(v) then Node(CreateTextNode(v, [])) else v
  }

  /** `createElement(type, props, ...children)`. */
  function CreateElement(kind: ElemType, props: seq<Prop>, children: seq<Value>): (e: Element)
    ensures e.kind == kind
    ensures Keys(e.props) == if ChildrenKey in Keys(props) then Keys(props) else Keys(props) + [ChildrenKey]
    ensures forall k :: k != ChildrenKey ==> Get(e.props, k) == Get(props, k)
    ensures Get(e.props, ChildrenKey).Some? && Get(e.props, ChildrenKey).value.List?
    ensures var items := Get(e.props, ChildrenKey).value.items;
      |items| == |children| &&
      forall i :: 0 <= i < |children| ==>
        items[i] == if IsPrimitive(children[i]) then Node(CreateTextNode(children[i], [])) else children[i]
    ensures UniqueKeys(props) ==> UniqueKeys(e.props)
  {
    var items := seq(|children|, i requires 0 <= i < |children| => WrapChild(children[i]));
    PutKeys(props, ChildrenKey, List(items));
    PutUnique(props, ChildrenKey, List(items));
    Element(kind, Put(props, ChildrenKey, List(items)))
  }

  /** `Object.keys(ps)[j]` is the key of the j-th pair. */
  lemma {:induction false} KeysAt(ps: seq<Prop>)
    ensures forall j :: 0 <= j < |ps| ==> Keys(ps)[j] == ps[j].key
  {
    if ps != [] {
      KeysAt(ps[1..]);
      assert Keys(ps) == [ps[0].key] + Keys(ps[1..]);
    }
  }

  /** Setting a property of an object with distinct keys keeps its keys distinct. */
  lemma PutUnique(ps: seq<Prop>, k: string, v: Value)
    ensures UniqueKeys(ps) ==> UniqueKeys(Put(ps, k, v))
  {
    var r := Put(ps, k, v);
    PutKeys(ps, k, v);
    KeysAt(ps);
    KeysAt(r);
    if UniqueKeys(ps) {
      forall i, j | 0 <= i < j < |r|
        ensures r[i].key != r[j].key
      {
        if j >= |ps| {
          assert r[i].key == Keys(ps)[i];
        }
      }
    }
  }

  /** `props.children` when it is a list whose every item is an element. */
  function ChildElements(ps: seq<Prop>): (r: Option<seq<Element>>)
    ensures r.Some? <==>
      && Get(ps, ChildrenKey).Some?
      && Get(ps, ChildrenKey).value.List?
      && forall i :: 0 <= i < |Get(ps, ChildrenKey).value.items| ==> Get(ps, ChildrenKey).value.items[i].Node?
    ensures r.Some? ==>
      && |r.value| == |Get(ps, ChildrenKey).value.items|
      && forall i :: 0 <= i < |r.value| ==> Get(ps, ChildrenKey).value.items[i] == Node(r.value[i])
  {
    match Get(ps, ChildrenKey)
    case Some(List(items)) =>
      if forall i :: 0 <= i < |items| ==> items[i].Node? then
        Some(seq(|items|, i requires 0 <= i < |items| && items[i].Node? => items[i].elem))
      else None
    case _ => None
  }

  /**
   * An element built from primitive and element children hands the engine a
   * readable children list: one element per argument, in order, primitives
   * replaced by childless text elements.
   */
  lemma CreateElementChildren(kind: ElemType, props: seq<Prop>, children: seq<Value>)
    requires forall i :: 0 <= i < |children| ==> IsPrimitive(children[i]) || children[i].Node?
    ensures var cs := ChildElements(CreateElement(kind, props, children).props);
      && cs.Some?
      && |cs.value| == |children|
      && forall i :: 0 <= i < |children| ==>
           cs.value[i] == if IsPrimitive(children[i]) then CreateTextNode(children[i], []) else children[i].elem
  {
  }

  /** A text element is a leaf: its children list is empty. */
  lemma TextNodeIsLeaf(text: Value)
    ensures ChildElements(CreateTextNode(text, []).props) == Some([])
  {
  }
}
