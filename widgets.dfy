/**
 * The widget trees the controller manager works on, and `_walk_tree`, the one
 * traversal every other part of the manager is built from.
 *
 * A widget's identity, its class and its children never change while the
 * manager runs, so the tree itself is a value. What the manager does change
 * (Kivy properties such as `synth`, `nrpn` and `group`, and the controller
 * attributes `channel`, `value` and `linked`) lives in a heap keyed by widget
 * identity, so that a controller held in the manager's list and the same
 * widget met again in a tree walk see the same state.
 */
module Widgets {

  type WidgetId = nat

  /** The Python values a widget property can hold. */
  datatype Value = None | Str(s: string) | Int(i: int)

  /** Python truthiness: `None`, the empty string and zero are false. */
  predicate Truthy(v: Value) {
    match v
    case None => false
    case Str(s) => s != ""
    case Int(i) => i != 0
  }

  /** The widget classes the manager distinguishes. */
  datatype Kind = Other | Base | Radio | RadioButton | DropDown | Utility

  /** `isinstance(w, BaseController)`: radio and drop-down controllers are base controllers. */
  predicate IsBaseController(k: Kind) {
    k == Base || k == Radio || k == RadioButton || k == DropDown
  }

  /** The widgets the manager keeps in its controller list. */
  predicate IsController(k: Kind) {
    IsBaseController(k) || k == Utility
  }

  /** The `w_type` argument of the property passes. */
  datatype WidgetType = BaseControllerType | UtilityControllerType | RadioButtonType

  /** `isinstance(w, w_type)` */
  predicate IsInstance(k: Kind, t: WidgetType) {
    match t
    case BaseControllerType => IsBaseController(k)
    case UtilityControllerType => k == Utility
    case RadioButtonType => k == RadioButton
  }

  datatype Widget = Widget(id: WidgetId, kind: Kind, children: seq<Widget>)

  /** The mutable state of one widget. `props` holds the Kivy properties the
      widget declares; a name missing from it is a property the widget's class
      does not declare. */
  datatype WidgetState = WidgetState(
    props: map<string, Value>,
    channel: Value,
    value: int,
    linked: seq<WidgetId>)

  type Heap = map<WidgetId, WidgetState>

  /** The outcome of `widget.property(prop).get(widget)`. */
  datatype PropRead = KeyError | Got(value: Value)

  function GetProp(h: Heap, id: WidgetId, prop: string): PropRead {
    if id in h && prop in h[id].props then Got(h[id].props[prop]) else KeyError
  }

  /** `widget.property(prop).set(widget, v)`; nothing else of the widget changes. */
  function SetProp(h: Heap, id: WidgetId, prop: string, v: Value): (h': Heap)
    ensures h'.Keys == h.Keys
    ensures id in h ==> GetProp(h', id, prop) == Got(v)
    ensures forall p :: p != prop ==> GetProp(h', id, p) == GetProp(h, id, p)
    ensures forall other :: other != id && other in h ==> h'[other] == h[other]
    ensures id in h ==> h'[id] == h[id].(props := h'[id].props)
  {
    if id in h then h[id := h[id].(props := h[id].props[prop := v])] else h
  }

  /** An attribute read such as `controller.synth`; an undeclared property reads as `None`. */
  function Attr(h: Heap, id: WidgetId, prop: string): Value {
    match GetProp(h, id, prop)
    case Got(v) => v
    case KeyError => None
  }

  function ChannelOf(h: Heap, id: WidgetId): Value {
    if id in h then h[id].channel else None
  }

  function ValueOf(h: Heap, id: WidgetId): int {
    if id in h then h[id].value else 0
  }

  /** The nodes of a tree in pre-order: a node, then each child's subtree in child order. */
  function PreOrder(w: Widget): (r: seq<Widget>)
    decreases w, 1
  {
    [w] + PreOrderAll(w.children)
  }

  function PreOrderAll(ws: seq<Widget>): (r: seq<Widget>)
    decreases ws, 0
  {
    if ws == [] then [] else PreOrder(ws[0]) + PreOrderAll(ws[1..])
  }

  /** The screens are walked one after the other. */
  lemma {:induction false} PreOrderAllSnoc(ws: seq<Widget>, i: nat)
    requires i < |ws|
    ensures PreOrderAll(ws[..i + 1]) == PreOrderAll(ws[..i]) + PreOrder(ws[i])
  {
    if i == 0 {
      assert ws[..1][1..] == [];
    } else {
      PreOrderAllSnoc(ws[1..], i - 1);
      assert ws[..i + 1][1..] == ws[1..][..i];
      assert ws[..i][1..] == ws[1..][..i - 1];
      assert ws[1..][i - 1] == ws[i];
      assert ws[..i + 1][0] == ws[..i][0] == ws[0];
    }
  }

  /** The subtree of a child lies within the walk of all the children. */
  lemma {:induction false} PreOrderAllHas(ws: seq<Widget>, k: nat)
    requires k < |ws|
    ensures forall n :: n in PreOrder(ws[k]) ==> n in PreOrderAll(ws)
  {
    if k > 0 {
      PreOrderAllHas(ws[1..], k - 1);
    }
  }

  function IdSet(ns: seq<Widget>): set<WidgetId> {
    set n | n in ns :: n.id
  }

  /** No widget occurs twice: the trees are trees, not graphs, and no widget
      belongs to two screens. */
  ghost predicate DistinctIds(ns: seq<Widget>) {
    forall i, j :: 0 <= i < j < |ns| ==> ns[i].id != ns[j].id
  }

  lemma {:induction false} DistinctIdsSplit(a: seq<Widget>, b: seq<Widget>)
    requires DistinctIds(a + b)
    ensures DistinctIds(a) && DistinctIds(b) && IdSet(a) !! IdSet(b)
  {
    forall i, j | 0 <= i < j < |a| ensures a[i].id != a[j].id {
      assert a[i] == (a + b)[i] && a[j] == (a + b)[j];
    }
    forall i, j | 0 <= i < j < |b| ensures b[i].id != b[j].id {
      assert b[i] == (a + b)[|a| + i] && b[j] == (a + b)[|a| + j];
    }
    forall x | x in IdSet(a) ensures x !in IdSet(b) {
      var n :| n in a && n.id == x;
      var i :| 0 <= i < |a| && a[i] == n;
      if m :| m in b && m.id == x {
        var j :| 0 <= j < |b| && b[j] == m;
        assert (a + b)[i] == n && (a + b)[|a| + j] == m;
      }
    }
  }

  lemma {:induction false} IdSetConcat(a: seq<Widget>, b: seq<Widget>)
    ensures IdSet(a + b) == IdSet(a) + IdSet(b)
  {
    assert forall n :: n in a + b <==> n in a || n in b;
  }

  /**
   * `_walk_tree(widget, func, value, *args)`: `step` is `func` with its extra
   * arguments bound. It is given the node, the inherited value and the state
   * (everything `func` may change), and returns the value handed on to every
   * child together with the new state. Children are walked in order, each
   * from the state the previous child's walk left behind; nothing is passed
   * back up.
   */
  function Walk<S, V>(w: Widget, step: (Widget, V, S) -> (V, S), v: V, s: S): S
    decreases w, 1
  {
    var (v', s') := step(w, v, s);
    WalkChildren(w.children, step, v', s')
  }

  function WalkChildren<S, V>(ws: seq<Widget>, step: (Widget, V, S) -> (V, S), v: V, s: S): S
    decreases ws, 0
  {
    if ws == [] then s else WalkChildren(ws[1..], step, v, Walk(ws[0], step, v, s))
  }

  /** The calls a walk makes, in order: each node with the value it inherited.
      `ret` is what the step returns for a node and its inherited value. */
  function Calls<V>(w: Widget, ret: (Widget, V) -> V, v: V): seq<(Widget, V)>
    decreases w, 1
  {
    [(w, v)] + CallsAll(w.children, ret, ret(w, v))
  }

  function CallsAll<V>(ws: seq<Widget>, ret: (Widget, V) -> V, v: V): seq<(Widget, V)>
    decreases ws, 0
  {
    if ws == [] then [] else Calls(ws[0], ret, v) + CallsAll(ws[1..], ret, v)
  }

  /** A step that only records each call in a log. */
  function Recording<V>(ret: (Widget, V) -> V): (Widget, V, seq<(Widget, V)>) -> (V, seq<(Widget, V)>) {
    (w: Widget, v: V, log: seq<(Widget, V)>) => (ret(w, v), log + [(w, v)])
  }

  function Visited<V>(calls: seq<(Widget, V)>): (r: seq<Widget>)
    ensures |r| == |calls| && forall i :: 0 <= i < |calls| ==> r[i] == calls[i].0
  {
    if calls == [] then [] else [calls[0].0] + Visited(calls[1..])
  }

  lemma {:induction false} VisitedConcat<V>(a: seq<(Widget, V)>, b: seq<(Widget, V)>)
    ensures Visited(a + b) == Visited(a) + Visited(b)
  {
  }

  /** The walk makes exactly the calls `Calls` lists, in that order, and only
      appends to what was logged before it. */
  lemma {:induction false} WalkRecordsCalls<V>(w: Widget, ret: (Widget, V) -> V, v: V, log: seq<(Widget, V)>)
    ensures Walk(w, Recording(ret), v, log) == log + Calls(w, ret, v)
    decreases w, 1
  {
    WalkChildrenRecordsCalls(w.children, ret, ret(w, v), log + [(w, v)]);
  }

  lemma {:induction false} WalkChildrenRecordsCalls<V>(ws: seq<Widget>, ret: (Widget, V) -> V, v: V, log: seq<(Widget, V)>)
    ensures WalkChildren(ws, Recording(ret), v, log) == log + CallsAll(ws, ret, v)
    decreases ws, 0
  {
    if ws != [] {
      WalkRecordsCalls(ws[0], ret, v, log);
      WalkChildrenRecordsCalls(ws[1..], ret, v, log + Calls(ws[0], ret, v));
    }
  }

  /** Whatever the step returns, the nodes are visited in pre-order, each once. */
  lemma {:induction false} CallsVisitPreOrder<V>(w: Widget, ret: (Widget, V) -> V, v: V)
    ensures Visited(Calls(w, ret, v)) == PreOrder(w)
    decreases w, 1
  {
    CallsAllVisitPreOrder(w.children, ret, ret(w, v));
    VisitedConcat([(w, v)], CallsAll(w.children, ret, ret(w, v)));
  }

  lemma {:induction false} CallsAllVisitPreOrder<V>(ws: seq<Widget>, ret: (Widget, V) -> V, v: V)
    ensures Visited(CallsAll(ws, ret, v)) == PreOrderAll(ws)
    decreases ws, 0
  {
    if ws != [] {
      CallsVisitPreOrder(ws[0], ret, v);
      CallsAllVisitPreOrder(ws[1..], ret, v);
      VisitedConcat(Calls(ws[0], ret, v), CallsAll(ws[1..], ret, v));
    }
  }

  lemma {:induction false} CallsAllSplit<V>(ws: seq<Widget>, ret: (Widget, V) -> V, v: V, k: nat)
    requires k < |ws|
    ensures CallsAll(ws, ret, v) == CallsAll(ws[..k], ret, v) + Calls(ws[k], ret, v) + CallsAll(ws[k + 1..], ret, v)
  {
    if k == 0 {
      assert ws[..0] == [];
      assert ws[1..] == ws[k + 1..];
    } else {
      CallsAllSplit(ws[1..], ret, v, k - 1);
      assert ws[1..][..k - 1] == ws[..k][1..];
      assert ws[1..][k - 1] == ws[k];
      assert ws[1..][k..] == ws[k + 1..];
      assert ws[..k][0] == ws[0];
    }
  }

  /**
   * The node is called first, with the value it inherited; then child `k`'s
   * whole subtree is walked, with the value returned for the node, right after
   * the subtrees of children `0 .. k-1`.
   */
  lemma {:induction false} ChildWalkedWithParentValue<V>(w: Widget, ret: (Widget, V) -> V, v: V, k: nat)
    requires k < |w.children|
    ensures Calls(w, ret, v)[0] == (w, v)
    ensures var start := 1 + |PreOrderAll(w.children[..k])|;
            var end := start + |PreOrder(w.children[k])|;
            end <= |Calls(w, ret, v)| &&
            Calls(w, ret, v)[start..end] == Calls(w.children[k], ret, ret(w, v))
  {
    var cs, x := w.children, ret(w, v);
    CallsAllSplit(cs, ret, x, k);
    CallsAllVisitPreOrder(cs[..k], ret, x);
    CallsVisitPreOrder(cs[k], ret, x);
    var pre, mid, post := CallsAll(cs[..k], ret, x), Calls(cs[k], ret, x), CallsAll(cs[k + 1..], ret, x);
    assert Calls(w, ret, v) == [(w, v)] + pre + mid + post;
    assert |Visited(pre)| == |pre| && |Visited(mid)| == |mid|;
    assert ([(w, v)] + pre + mid + post)[1 + |pre|..1 + |pre| + |mid|] == mid;
  }
}
