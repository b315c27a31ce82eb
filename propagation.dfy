/**
 * `_propigate_property_if_type` and `_set_property_if_type`: the two steps the
 * manager walks its trees with to hand configuration down to the widgets that
 * do not set it themselves.
 */
module Propagation {
  import opened Widgets

  /** `widget.property(prop).get(widget) or value`, where an undeclared property
      (the `KeyError` branch) also falls back to the inherited value. */
  function Effective(own: PropRead, inherited: Value): (r: Value)
    ensures Truthy(r) <==> (own.Got? && Truthy(own.value)) || Truthy(inherited)
    ensures r == inherited || own == Got(r)
    ensures own.Got? && Truthy(own.value) ==> r == own.value
  {
    match own
    case Got(x) => if Truthy(x) then x else inherited
    case KeyError => inherited
  }

  /** One call of `_propigate_property_if_type(widget, value, prop, w_type)`:
      the value for the children, and the heap after the possible write. */
  function PropagateAt(w: Widget, inherited: Value, h: Heap, prop: string, wtype: WidgetType): (Value, Heap) {
    var eff := Effective(GetProp(h, w.id, prop), inherited);
    (eff, if IsInstance(w.kind, wtype) && Truthy(eff) then SetProp(h, w.id, prop, eff) else h)
  }

  function PropagateStep(prop: string, wtype: WidgetType): (Widget, Value, Heap) -> (Value, Heap) {
    (w: Widget, inherited: Value, h: Heap) => PropagateAt(w, inherited, h, prop, wtype)
  }

  /** `_walk_tree(root, _propigate_property_if_type, default, prop, w_type)` */
  function PropagatePass(root: Widget, default: Value, prop: string, wtype: WidgetType, h: Heap): Heap {
    Walk(root, PropagateStep(prop, wtype), default, h)
  }

  /** One call of `_set_property_if_type(widget, value, prop, w_type)`: write
      `value` if the widget is a `w_type` whose property is unset, and hand the
      incoming value on unchanged. */
  function SetIfUnsetAt(w: Widget, v: Value, h: Heap, prop: string, wtype: WidgetType): (Value, Heap) {
    (v, if IsInstance(w.kind, wtype) && !Truthy(Attr(h, w.id, prop)) then SetProp(h, w.id, prop, v) else h)
  }

  function SetIfUnsetStep(prop: string, wtype: WidgetType): (Widget, Value, Heap) -> (Value, Heap) {
    (w: Widget, v: Value, h: Heap) => SetIfUnsetAt(w, v, h, prop, wtype)
  }

  /** `_walk_tree(root, _set_property_if_type, value, prop, w_type)` */
  function SetIfUnsetPass(root: Widget, v: Value, prop: string, wtype: WidgetType, h: Heap): Heap {
    Walk(root, SetIfUnsetStep(prop, wtype), v, h)
  }

  // ---------------------------------------------------------------------------
  // Framing: a pass touches only its own property, and only on its own subtree.

  /** `h'` differs from `h` at most in property `prop` of the widgets in `ids`. */
  ghost predicate OnlyProp(h: Heap, h': Heap, ids: set<WidgetId>, prop: string) {
    && h'.Keys == h.Keys
    && forall id :: id in h ==>
         && (id !in ids ==> h'[id] == h[id])
         && h'[id] == h[id].(props := h'[id].props)
         && h'[id].props - {prop} == h[id].props - {prop}
  }

  lemma {:induction false} OnlyPropTrans(h1: Heap, h2: Heap, h3: Heap, ids1: set<WidgetId>, ids2: set<WidgetId>, prop: string)
    requires OnlyProp(h1, h2, ids1, prop) && OnlyProp(h2, h3, ids2, prop)
    ensures OnlyProp(h1, h3, ids1 + ids2, prop)
  {
  }

  /** A step that writes at most property `prop` of the node it is given. */
  ghost predicate LocalStep(step: (Widget, Value, Heap) -> (Value, Heap), prop: string) {
    forall w: Widget, v: Value, h: Heap :: OnlyProp(h, step(w, v, h).1, {w.id}, prop)
  }

  lemma {:induction false} PropagateStepIsLocal(prop: string, wtype: WidgetType)
    ensures LocalStep(PropagateStep(prop, wtype), prop)
  {
    forall w: Widget, v: Value, h: Heap ensures OnlyProp(h, PropagateStep(prop, wtype)(w, v, h).1, {w.id}, prop) {
      var eff := Effective(GetProp(h, w.id, prop), v);
      if w.id in h {
        assert SetProp(h, w.id, prop, eff)[w.id].props - {prop} == h[w.id].props - {prop};
      }
    }
  }

  lemma {:induction false} SetIfUnsetStepIsLocal(prop: string, wtype: WidgetType)
    ensures LocalStep(SetIfUnsetStep(prop, wtype), prop)
  {
    forall w: Widget, v: Value, h: Heap ensures OnlyProp(h, SetIfUnsetStep(prop, wtype)(w, v, h).1, {w.id}, prop) {
      if w.id in h {
        assert SetProp(h, w.id, prop, v)[w.id].props - {prop} == h[w.id].props - {prop};
      }
    }
  }

  /** A walk with a local step changes property `prop` of the walked subtree and nothing else. */
  lemma {:induction false} WalkOnlyProp(w: Widget, step: (Widget, Value, Heap) -> (Value, Heap), prop: string, v: Value, h: Heap)
    requires LocalStep(step, prop)
    ensures OnlyProp(h, Walk(w, step, v, h), IdSet(PreOrder(w)), prop)
    decreases w, 1
  {
    var (v', h1) := step(w, v, h);
    WalkChildrenOnlyProp(w.children, step, prop, v', h1);
    IdSetConcat([w], PreOrderAll(w.children));
    OnlyPropTrans(h, h1, Walk(w, step, v, h), {w.id}, IdSet(PreOrderAll(w.children)), prop);
  }

  lemma {:induction false} WalkChildrenOnlyProp(ws: seq<Widget>, step: (Widget, Value, Heap) -> (Value, Heap), prop: string, v: Value, h: Heap)
    requires LocalStep(step, prop)
    ensures OnlyProp(h, WalkChildren(ws, step, v, h), IdSet(PreOrderAll(ws)), prop)
    decreases ws, 0
  {
    if ws == [] {
      assert OnlyProp(h, h, {}, prop);
    } else {
      var h1 := Walk(ws[0], step, v, h);
      WalkOnlyProp(ws[0], step, prop, v, h);
      WalkChildrenOnlyProp(ws[1..], step, prop, v, h1);
      IdSetConcat(PreOrder(ws[0]), PreOrderAll(ws[1..]));
      OnlyPropTrans(h, h1, WalkChildren(ws, step, v, h), IdSet(PreOrder(ws[0])), IdSet(PreOrderAll(ws[1..])), prop);
    }
  }

  /** The propagation pass changes property `prop` of the walked subtree and nothing else. */
  lemma {:induction false} PropagateChangesOnlyProp(root: Widget, default: Value, prop: string, wtype: WidgetType, h: Heap)
    ensures OnlyProp(h, PropagatePass(root, default, prop, wtype, h), IdSet(PreOrder(root)), prop)
  {
    PropagateStepIsLocal(prop, wtype);
    WalkOnlyProp(root, PropagateStep(prop, wtype), prop, default, h);
  }

  // ---------------------------------------------------------------------------
  // Precedence: an explicitly set (truthy) value is never overwritten.

  ghost predicate SetTo(h: Heap, id: WidgetId, prop: string, x: Value) {
    GetProp(h, id, prop) == Got(x) && Truthy(x)
  }

  lemma {:induction false} PropagateKeepsSet(w: Widget, v: Value, prop: string, wtype: WidgetType, h: Heap, id: WidgetId, x: Value)
    requires SetTo(h, id, prop, x)
    ensures SetTo(Walk(w, PropagateStep(prop, wtype), v, h), id, prop, x)
    decreases w, 1
  {
    var (v', h1) := PropagateAt(w, v, h, prop, wtype);
    assert SetTo(h1, id, prop, x);
    PropagateChildrenKeepsSet(w.children, v', prop, wtype, h1, id, x);
  }

  lemma {:induction false} PropagateChildrenKeepsSet(ws: seq<Widget>, v: Value, prop: string, wtype: WidgetType, h: Heap, id: WidgetId, x: Value)
    requires SetTo(h, id, prop, x)
    ensures SetTo(WalkChildren(ws, PropagateStep(prop, wtype), v, h), id, prop, x)
    decreases ws, 0
  {
    if ws != [] {
      PropagateKeepsSet(ws[0], v, prop, wtype, h, id, x);
      PropagateChildrenKeepsSet(ws[1..], v, prop, wtype, Walk(ws[0], PropagateStep(prop, wtype), v, h), id, x);
    }
  }

  /** Precedence: a widget whose own value is set (truthy) keeps it, whatever its ancestors hold. */
  lemma {:induction false} PropagateNeverOverwritesSet(root: Widget, default: Value, prop: string, wtype: WidgetType, h: Heap, id: WidgetId)
    requires GetProp(h, id, prop).Got? && Truthy(GetProp(h, id, prop).value)
    ensures GetProp(PropagatePass(root, default, prop, wtype, h), id, prop) == GetProp(h, id, prop)
  {
    PropagateKeepsSet(root, default, prop, wtype, h, id, GetProp(h, id, prop).value);
  }

  // ---------------------------------------------------------------------------
  // Only widgets of the pass's type are written.

  lemma {:induction false} PropagateSkipsOthers(w: Widget, v: Value, prop: string, wtype: WidgetType, h: Heap)
    requires DistinctIds(PreOrder(w))
    ensures var h' := Walk(w, PropagateStep(prop, wtype), v, h);
            h'.Keys == h.Keys &&
            forall n :: n in PreOrder(w) && !IsInstance(n.kind, wtype) && n.id in h ==> h'[n.id] == h[n.id]
    decreases w, 1
  {
    var step := PropagateStep(prop, wtype);
    var (v', h1) := PropagateAt(w, v, h, prop, wtype);
    var h' := Walk(w, step, v, h);
    DistinctIdsSplit([w], PreOrderAll(w.children));
    PropagateChildrenSkipsOthers(w.children, v', prop, wtype, h1);
    PropagateStepIsLocal(prop, wtype);
    WalkChildrenOnlyProp(w.children, step, prop, v', h1);
    assert w.id !in IdSet(PreOrderAll(w.children));
    forall n | n in PreOrder(w) && !IsInstance(n.kind, wtype) && n.id in h ensures h'[n.id] == h[n.id] {
      if n == w {
        assert h1 == h;
      } else {
        assert n in PreOrderAll(w.children);
        assert n.id in IdSet(PreOrderAll(w.children));
        assert h1[n.id] == h[n.id];
      }
    }
  }

  lemma {:induction false} PropagateChildrenSkipsOthers(ws: seq<Widget>, v: Value, prop: string, wtype: WidgetType, h: Heap)
    requires DistinctIds(PreOrderAll(ws))
    ensures var h' := WalkChildren(ws, PropagateStep(prop, wtype), v, h);
            h'.Keys == h.Keys &&
            forall n :: n in PreOrderAll(ws) && !IsInstance(n.kind, wtype) && n.id in h ==> h'[n.id] == h[n.id]
    decreases ws, 0
  {
    if ws != [] {
      var step := PropagateStep(prop, wtype);
      var h1 := Walk(ws[0], step, v, h);
      var h' := WalkChildren(ws, step, v, h);
      DistinctIdsSplit(PreOrder(ws[0]), PreOrderAll(ws[1..]));
      PropagateSkipsOthers(ws[0], v, prop, wtype, h);
      PropagateChildrenSkipsOthers(ws[1..], v, prop, wtype, h1);
      PropagateStepIsLocal(prop, wtype);
      WalkOnlyProp(ws[0], step, prop, v, h);
      WalkChildrenOnlyProp(ws[1..], step, prop, v, h1);
      forall n | n in PreOrderAll(ws) && !IsInstance(n.kind, wtype) && n.id in h ensures h'[n.id] == h[n.id] {
        if n in PreOrder(ws[0]) {
          assert n.id in IdSet(PreOrder(ws[0]));
        } else {
          assert n in PreOrderAll(ws[1..]);
          assert n.id in IdSet(PreOrderAll(ws[1..]));
        }
      }
    }
  }

  /** A widget that is not of the pass's type is left exactly as it was. */
  lemma {:induction false} PropagateWritesOnlyType(root: Widget, default: Value, prop: string, wtype: WidgetType, h: Heap, n: Widget)
    requires DistinctIds(PreOrder(root))
    requires n in PreOrder(root) && !IsInstance(n.kind, wtype) && n.id in h
    ensures n.id in PropagatePass(root, default, prop, wtype, h)
    ensures PropagatePass(root, default, prop, wtype, h)[n.id] == h[n.id]
  {
    PropagateSkipsOthers(root, default, prop, wtype, h);
  }

  // ---------------------------------------------------------------------------
  // Default: where no widget sets the property to anything else, every widget
  // of the type ends up holding the value handed to the root.

  /** No widget of `ns` sets `prop` to a truthy value other than `v`. */
  ghost predicate SetsAtMost(ns: seq<Widget>, h: Heap, prop: string, v: Value) {
    forall n :: n in ns && GetProp(h, n.id, prop).Got? && Truthy(GetProp(h, n.id, prop).value) ==>
      GetProp(h, n.id, prop).value == v
  }

  ghost predicate AllHold(ns: seq<Widget>, h: Heap, prop: string, wtype: WidgetType, v: Value) {
    forall n :: n in ns && IsInstance(n.kind, wtype) && n.id in h ==> GetProp(h, n.id, prop) == Got(v)
  }

  lemma {:induction false} PropagateInherits(w: Widget, v: Value, prop: string, wtype: WidgetType, h: Heap)
    requires DistinctIds(PreOrder(w)) && Truthy(v) && SetsAtMost(PreOrder(w), h, prop, v)
    ensures AllHold(PreOrder(w), Walk(w, PropagateStep(prop, wtype), v, h), prop, wtype, v)
    decreases w, 1
  {
    var step := PropagateStep(prop, wtype);
    var (v', h1) := PropagateAt(w, v, h, prop, wtype);
    assert v' == v;
    var h' := Walk(w, step, v, h);
    DistinctIdsSplit([w], PreOrderAll(w.children));
    assert w.id !in IdSet(PreOrderAll(w.children));
    forall n | n in PreOrderAll(w.children)
      ensures GetProp(h1, n.id, prop) == GetProp(h, n.id, prop)
    {
      assert n.id in IdSet(PreOrderAll(w.children));
      assert n in PreOrder(w);
    }
    PropagateChildrenInherit(w.children, v, prop, wtype, h1);
    PropagateStepIsLocal(prop, wtype);
    WalkChildrenOnlyProp(w.children, step, prop, v, h1);
    forall n | n in PreOrder(w) && IsInstance(n.kind, wtype) && n.id in h'
      ensures GetProp(h', n.id, prop) == Got(v)
    {
      if n != w {
        assert n in PreOrderAll(w.children);
      }
    }
  }

  lemma {:induction false} PropagateChildrenInherit(ws: seq<Widget>, v: Value, prop: string, wtype: WidgetType, h: Heap)
    requires DistinctIds(PreOrderAll(ws)) && Truthy(v) && SetsAtMost(PreOrderAll(ws), h, prop, v)
    ensures AllHold(PreOrderAll(ws), WalkChildren(ws, PropagateStep(prop, wtype), v, h), prop, wtype, v)
    decreases ws, 0
  {
    if ws != [] {
      var step := PropagateStep(prop, wtype);
      var h1 := Walk(ws[0], step, v, h);
      var h' := WalkChildren(ws, step, v, h);
      DistinctIdsSplit(PreOrder(ws[0]), PreOrderAll(ws[1..]));
      PropagateInherits(ws[0], v, prop, wtype, h);
      PropagateStepIsLocal(prop, wtype);
      WalkOnlyProp(ws[0], step, prop, v, h);
      forall n | n in PreOrderAll(ws[1..])
        ensures GetProp(h1, n.id, prop) == GetProp(h, n.id, prop)
      {
        assert n.id in IdSet(PreOrderAll(ws[1..]));
        assert n in PreOrderAll(ws);
      }
      PropagateChildrenInherit(ws[1..], v, prop, wtype, h1);
      WalkChildrenOnlyProp(ws[1..], step, prop, v, h1);
      forall n | n in PreOrderAll(ws) && IsInstance(n.kind, wtype) && n.id in h'
        ensures GetProp(h', n.id, prop) == Got(v)
      {
        if n in PreOrder(ws[0]) {
          assert n.id in IdSet(PreOrder(ws[0]));
        } else {
          assert n in PreOrderAll(ws[1..]);
        }
      }
    }
  }

  /** Default: in a tree where no widget sets the property (to anything but
      the default), every widget of the pass's type ends up holding the value
      given at the root. */
  lemma {:induction false} PropagateDefault(root: Widget, default: Value, prop: string, wtype: WidgetType, h: Heap, n: Widget)
    requires DistinctIds(PreOrder(root)) && Truthy(default) && SetsAtMost(PreOrder(root), h, prop, default)
    requires n in PreOrder(root) && IsInstance(n.kind, wtype) && n.id in h
    ensures GetProp(PropagatePass(root, default, prop, wtype, h), n.id, prop) == Got(default)
  {
    PropagateInherits(root, default, prop, wtype, h);
    PropagateChangesOnlyProp(root, default, prop, wtype, h);
  }
}

module PropagationLaws {
  import opened Widgets
  import opened Propagation

  // ---------------------------------------------------------------------------
  // Idempotence: running a pass a second time changes nothing.

  /** `h1` and `h2` hold the same state for every widget in `ids`. */
  ghost predicate AgreeOn(h1: Heap, h2: Heap, ids: set<WidgetId>) {
    forall id :: id in ids ==> (id in h1 <==> id in h2) && (id in h1 ==> h1[id] == h2[id])
  }

  /** What a pass does to a subtree depends only on that subtree's state. */
  lemma {:induction false} PropagateLocal(w: Widget, v: Value, prop: string, wtype: WidgetType, h1: Heap, h2: Heap)
    requires AgreeOn(h1, h2, IdSet(PreOrder(w)))
    ensures AgreeOn(Walk(w, PropagateStep(prop, wtype), v, h1), Walk(w, PropagateStep(prop, wtype), v, h2), IdSet(PreOrder(w)))
    decreases w, 1
  {
    var step := PropagateStep(prop, wtype);
    assert w.id in IdSet(PreOrder(w));
    var (e1, r1) := PropagateAt(w, v, h1, prop, wtype);
    var (e2, r2) := PropagateAt(w, v, h2, prop, wtype);
    assert e1 == e2;
    IdSetConcat([w], PreOrderAll(w.children));
    assert AgreeOn(r1, r2, IdSet(PreOrder(w)));
    PropagateChildrenLocal(w.children, e1, prop, wtype, r1, r2);
    PropagateStepIsLocal(prop, wtype);
    WalkChildrenOnlyProp(w.children, step, prop, e1, r1);
    WalkChildrenOnlyProp(w.children, step, prop, e1, r2);
  }

  lemma {:induction false} PropagateChildrenLocal(ws: seq<Widget>, v: Value, prop: string, wtype: WidgetType, h1: Heap, h2: Heap)
    requires AgreeOn(h1, h2, IdSet(PreOrderAll(ws)))
    ensures AgreeOn(WalkChildren(ws, PropagateStep(prop, wtype), v, h1), WalkChildren(ws, PropagateStep(prop, wtype), v, h2), IdSet(PreOrderAll(ws)))
    decreases ws, 0
  {
    if ws != [] {
      var step := PropagateStep(prop, wtype);
      IdSetConcat(PreOrder(ws[0]), PreOrderAll(ws[1..]));
      var a1, a2 := Walk(ws[0], step, v, h1), Walk(ws[0], step, v, h2);
      PropagateLocal(ws[0], v, prop, wtype, h1, h2);
      PropagateStepIsLocal(prop, wtype);
      WalkOnlyProp(ws[0], step, prop, v, h1);
      WalkOnlyProp(ws[0], step, prop, v, h2);
      assert AgreeOn(a1, a2, IdSet(PreOrderAll(ws[1..])));
      PropagateChildrenLocal(ws[1..], v, prop, wtype, a1, a2);
      WalkChildrenOnlyProp(ws[1..], step, prop, v, a1);
      WalkChildrenOnlyProp(ws[1..], step, prop, v, a2);
    }
  }

  lemma {:induction false} SetPropSame(h: Heap, id: WidgetId, prop: string, v: Value)
    requires GetProp(h, id, prop) == Got(v)
    ensures SetProp(h, id, prop, v) == h
  {
    assert h[id].props[prop := v] == h[id].props;
    assert h[id].(props := h[id].props) == h[id];
  }

  lemma {:induction false} PropagateTwice(w: Widget, v: Value, prop: string, wtype: WidgetType, h: Heap)
    requires DistinctIds(PreOrder(w))
    ensures var once := Walk(w, PropagateStep(prop, wtype), v, h);
            Walk(w, PropagateStep(prop, wtype), v, once) == once
    decreases w, 1
  {
    var step := PropagateStep(prop, wtype);
    var (eff, r1) := PropagateAt(w, v, h, prop, wtype);
    var s1 := WalkChildren(w.children, step, eff, r1);
    assert Walk(w, step, v, h) == s1;
    DistinctIdsSplit([w], PreOrderAll(w.children));
    assert w.id !in IdSet(PreOrderAll(w.children));
    PropagateStepIsLocal(prop, wtype);
    WalkChildrenOnlyProp(w.children, step, prop, eff, r1);
    assert GetProp(s1, w.id, prop) == GetProp(r1, w.id, prop);
    var (eff2, r2) := PropagateAt(w, v, s1, prop, wtype);
    assert eff2 == eff;
    if IsInstance(w.kind, wtype) && Truthy(eff) && w.id in h {
      SetPropSame(s1, w.id, prop, eff);
    }
    assert r2 == s1;
    PropagateChildrenTwice(w.children, eff, prop, wtype, r1);
  }

  lemma {:induction false} PropagateChildrenTwice(ws: seq<Widget>, v: Value, prop: string, wtype: WidgetType, h: Heap)
    requires DistinctIds(PreOrderAll(ws))
    ensures var once := WalkChildren(ws, PropagateStep(prop, wtype), v, h);
            WalkChildren(ws, PropagateStep(prop, wtype), v, once) == once
    decreases ws, 0
  {
    if ws != [] {
      var step := PropagateStep(prop, wtype);
      DistinctIdsSplit(PreOrder(ws[0]), PreOrderAll(ws[1..]));
      var first, rest := IdSet(PreOrder(ws[0])), IdSet(PreOrderAll(ws[1..]));
      var a := Walk(ws[0], step, v, h);
      var b := WalkChildren(ws[1..], step, v, a);
      PropagateStepIsLocal(prop, wtype);
      WalkChildrenOnlyProp(ws[1..], step, prop, v, a);
      assert AgreeOn(a, b, first);
      var a2 := Walk(ws[0], step, v, b);
      PropagateTwice(ws[0], v, prop, wtype, h);
      PropagateLocal(ws[0], v, prop, wtype, b, a);
      WalkOnlyProp(ws[0], step, prop, v, b);
      assert a2 == b by {
        forall id | id in a2 ensures a2[id] == b[id] {
          if id in first {
            assert a2[id] == a[id];
          }
        }
      }
      PropagateChildrenTwice(ws[1..], v, prop, wtype, a);
    }
  }

  /** Idempotence: a second run of the same pass over the same tree leaves
      every widget as the first run left it. */
  lemma {:induction false} PropagateIdempotent(root: Widget, default: Value, prop: string, wtype: WidgetType, h: Heap)
    requires DistinctIds(PreOrder(root))
    ensures var once := PropagatePass(root, default, prop, wtype, h);
            PropagatePass(root, default, prop, wtype, once) == once
  {
    PropagateTwice(root, default, prop, wtype, h);
  }

  // ---------------------------------------------------------------------------
  // The set-if-unset pass, widget by widget.

  /** The state `_set_property_if_type` leaves a widget in when it is called with `v`. */
  function SetIfUnsetState(h: Heap, n: Widget, v: Value, prop: string, wtype: WidgetType): WidgetState
    requires n.id in h
  {
    if IsInstance(n.kind, wtype) && !Truthy(Attr(h, n.id, prop)) then h[n.id].(props := h[n.id].props[prop := v])
    else h[n.id]
  }

  lemma {:induction false} SetIfUnsetWalk(w: Widget, v: Value, prop: string, wtype: WidgetType, h: Heap)
    requires DistinctIds(PreOrder(w))
    ensures var h' := Walk(w, SetIfUnsetStep(prop, wtype), v, h);
            h'.Keys == h.Keys &&
            forall n :: n in PreOrder(w) && n.id in h ==> h'[n.id] == SetIfUnsetState(h, n, v, prop, wtype)
    decreases w, 1
  {
    var step := SetIfUnsetStep(prop, wtype);
    var (v', h1) := SetIfUnsetAt(w, v, h, prop, wtype);
    assert v' == v;
    var h' := Walk(w, step, v, h);
    DistinctIdsSplit([w], PreOrderAll(w.children));
    assert w.id !in IdSet(PreOrderAll(w.children));
    SetIfUnsetChildren(w.children, v, prop, wtype, h1);
    SetIfUnsetStepIsLocal(prop, wtype);
    WalkChildrenOnlyProp(w.children, step, prop, v, h1);
    forall n | n in PreOrder(w) && n.id in h ensures h'[n.id] == SetIfUnsetState(h, n, v, prop, wtype) {
      if n != w {
        assert n in PreOrderAll(w.children);
        assert n.id in IdSet(PreOrderAll(w.children));
        assert h1[n.id] == h[n.id];
        assert Attr(h1, n.id, prop) == Attr(h, n.id, prop);
      }
    }
  }

  lemma {:induction false} SetIfUnsetChildren(ws: seq<Widget>, v: Value, prop: string, wtype: WidgetType, h: Heap)
    requires DistinctIds(PreOrderAll(ws))
    ensures var h' := WalkChildren(ws, SetIfUnsetStep(prop, wtype), v, h);
            h'.Keys == h.Keys &&
            forall n :: n in PreOrderAll(ws) && n.id in h ==> h'[n.id] == SetIfUnsetState(h, n, v, prop, wtype)
    decreases ws, 0
  {
    if ws != [] {
      var step := SetIfUnsetStep(prop, wtype);
      var h1 := Walk(ws[0], step, v, h);
      var h' := WalkChildren(ws, step, v, h);
      DistinctIdsSplit(PreOrder(ws[0]), PreOrderAll(ws[1..]));
      SetIfUnsetWalk(ws[0], v, prop, wtype, h);
      SetIfUnsetChildren(ws[1..], v, prop, wtype, h1);
      SetIfUnsetStepIsLocal(prop, wtype);
      WalkOnlyProp(ws[0], step, prop, v, h);
      WalkChildrenOnlyProp(ws[1..], step, prop, v, h1);
      forall n | n in PreOrderAll(ws) && n.id in h ensures h'[n.id] == SetIfUnsetState(h, n, v, prop, wtype) {
        if n in PreOrder(ws[0]) {
          assert n.id in IdSet(PreOrder(ws[0]));
        } else {
          assert n in PreOrderAll(ws[1..]);
          assert n.id in IdSet(PreOrderAll(ws[1..]));
          assert h1[n.id] == h[n.id];
          assert Attr(h1, n.id, prop) == Attr(h, n.id, prop);
        }
      }
    }
  }

  /** Every widget of type `w_type` in the subtree whose property was unset now
      holds `v` (the value given at the root, never an intermediate one); every
      other widget is unchanged. */
  lemma {:induction false} SetIfUnsetPassResult(root: Widget, v: Value, prop: string, wtype: WidgetType, h: Heap, n: Widget)
    requires DistinctIds(PreOrder(root)) && n in PreOrder(root) && n.id in h
    ensures var h' := SetIfUnsetPass(root, v, prop, wtype, h);
            && n.id in h'
            && (IsInstance(n.kind, wtype) && !Truthy(Attr(h, n.id, prop)) ==> GetProp(h', n.id, prop) == Got(v))
            && (!IsInstance(n.kind, wtype) || Truthy(Attr(h, n.id, prop)) ==> h'[n.id] == h[n.id])
  {
    SetIfUnsetWalk(root, v, prop, wtype, h);
  }

  // ---------------------------------------------------------------------------
  // Inheritance: a widget gets the value of its nearest ancestor-or-self that
  // sets one, or the pass's default when none does.

  /** `path` runs down the tree from `w`: each node is a child of the one before it. */
  ghost predicate IsPath(w: Widget, path: seq<Widget>)
    decreases |path|
  {
    && path != []
    && path[0] == w
    && (|path| == 1 || (path[1] in w.children && IsPath(path[1], path[1..])))
  }

  /** Widget `n` sets `prop` itself: it declares the property and holds a truthy value. */
  ghost predicate Sets(h: Heap, n: Widget, prop: string) {
    GetProp(h, n.id, prop).Got? && Truthy(GetProp(h, n.id, prop).value)
  }

  /** The value `_propigate_property_if_type` computes at the last node of
      `path` when the first node inherits `v`: `Effective` applied node by node. */
  ghost function EffAlong(path: seq<Widget>, h: Heap, prop: string, v: Value): Value
    decreases |path|
  {
    if path == [] then v else EffAlong(path[1..], h, prop, Effective(GetProp(h, path[0].id, prop), v))
  }

  /** When no node on a path sets `prop`, the value at its end is the value inherited at its start. */
  lemma {:induction false} EffAlongNone(path: seq<Widget>, h: Heap, prop: string, v: Value)
    requires forall i :: 0 <= i < |path| ==> !Sets(h, path[i], prop)
    ensures EffAlong(path, h, prop, v) == v
    decreases |path|
  {
    if path != [] {
      var rest := path[1..];
      forall j | 0 <= j < |rest| ensures !Sets(h, rest[j], prop) {
        assert rest[j] == path[j + 1];
      }
      assert !Sets(h, path[0], prop);
      EffAlongNone(rest, h, prop, v);
    }
  }

  /** The value at the end of a path is the own value of the last node on it that sets `prop`. */
  lemma {:induction false} EffAlongNearest(path: seq<Widget>, h: Heap, prop: string, v: Value, i: nat)
    requires i < |path| && Sets(h, path[i], prop)
    requires forall j :: i < j < |path| ==> !Sets(h, path[j], prop)
    ensures EffAlong(path, h, prop, v) == GetProp(h, path[i].id, prop).value
    decreases |path|
  {
    var rest, v' := path[1..], Effective(GetProp(h, path[0].id, prop), v);
    forall j | i - 1 < j < |rest| ensures !Sets(h, rest[j], prop) {
      assert rest[j] == path[j + 1];
    }
    if i == 0 {
      EffAlongNone(rest, h, prop, v');
    } else {
      assert rest[i - 1] == path[i];
      EffAlongNearest(rest, h, prop, v', i - 1);
    }
  }

  /** Changing the heap away from the nodes of a path does not change the value along it. */
  lemma {:induction false} EffAlongAgree(path: seq<Widget>, h1: Heap, h2: Heap, prop: string, v: Value)
    requires forall i :: 0 <= i < |path| ==> GetProp(h1, path[i].id, prop) == GetProp(h2, path[i].id, prop)
    ensures EffAlong(path, h1, prop, v) == EffAlong(path, h2, prop, v)
    decreases |path|
  {
    if path != [] {
      var rest := path[1..];
      forall i | 0 <= i < |rest| ensures GetProp(h1, rest[i].id, prop) == GetProp(h2, rest[i].id, prop) {
        assert rest[i] == path[i + 1];
      }
      EffAlongAgree(rest, h1, h2, prop, Effective(GetProp(h1, path[0].id, prop), v));
    }
  }

  /** Every node of a path lies in the tree it starts from. */
  lemma {:induction false} PathInTree(w: Widget, path: seq<Widget>)
    requires IsPath(w, path)
    ensures forall i :: 0 <= i < |path| ==> path[i] in PreOrder(w)
    decreases |path|
  {
    assert PreOrder(w)[0] == w;
    if |path| > 1 {
      var rest := path[1..];
      PathInTree(path[1], rest);
      var k :| 0 <= k < |w.children| && w.children[k] == path[1];
      PreOrderAllHas(w.children, k);
      forall i | 0 < i < |path| ensures path[i] in PreOrder(w) {
        assert path[i] == rest[i - 1];
      }
    }
  }

  /** The child whose subtree holds `n`. */
  lemma {:induction false} ChildHolding(ws: seq<Widget>, n: Widget) returns (k: nat)
    requires n in PreOrderAll(ws)
    ensures k < |ws| && n in PreOrder(ws[k])
    decreases |ws|
  {
    if n in PreOrder(ws[0]) {
      k := 0;
    } else {
      var j := ChildHolding(ws[1..], n);
      k := j + 1;
    }
  }

  /** Every widget of a tree is reached by a path from its root. */
  lemma {:induction false} PathTo(w: Widget, n: Widget) returns (path: seq<Widget>)
    requires n in PreOrder(w)
    ensures IsPath(w, path) && path[|path| - 1] == n
    decreases w
  {
    if n == w {
      path := [w];
    } else {
      var k := ChildHolding(w.children, n);
      var below := PathTo(w.children[k], n);
      path := [w] + below;
      assert path[1..] == below;
    }
  }

  /** The state `_propigate_property_if_type` leaves `n` in when the value it computes there is `e`. */
  ghost function PassedState(h: Heap, n: Widget, e: Value, prop: string, wtype: WidgetType): WidgetState
    requires n.id in h
  {
    if IsInstance(n.kind, wtype) && Truthy(e) then h[n.id].(props := h[n.id].props[prop := e]) else h[n.id]
  }

  /** A path that starts at one of `ws` lies within the walk of all of `ws`. */
  lemma {:induction false} PathInChildren(ws: seq<Widget>, path: seq<Widget>)
    requires path != [] && path[0] in ws && IsPath(path[0], path)
    ensures forall i :: 0 <= i < |path| ==> path[i] in PreOrderAll(ws)
  {
    PathInTree(path[0], path);
    var k :| 0 <= k < |ws| && ws[k] == path[0];
    PreOrderAllHas(ws, k);
  }

  /** A change confined to `ids` leaves a path outside `ids` as it was: the
      value along it and the state of its last node. */
  lemma {:induction false} FrameKeepsPath(h: Heap, h': Heap, ids: set<WidgetId>, prop: string, path: seq<Widget>, ns: seq<Widget>, v: Value)
    requires OnlyProp(h, h', ids, prop) && IdSet(ns) !! ids
    requires path != [] && path[|path| - 1].id in h
    requires forall i :: 0 <= i < |path| ==> path[i] in ns
    ensures EffAlong(path, h', prop, v) == EffAlong(path, h, prop, v)
    ensures h'[path[|path| - 1].id] == h[path[|path| - 1].id]
  {
    forall i | 0 <= i < |path| ensures GetProp(h', path[i].id, prop) == GetProp(h, path[i].id, prop) {
      assert path[i].id in IdSet(ns);
    }
    EffAlongAgree(path, h', h, prop, v);
    assert path[|path| - 1].id in IdSet(ns);
  }

  lemma {:induction false} PropagateAlong(w: Widget, v: Value, prop: string, wtype: WidgetType, h: Heap, path: seq<Widget>)
    requires DistinctIds(PreOrder(w)) && IsPath(w, path) && path[|path| - 1].id in h
    ensures var n, h' := path[|path| - 1], Walk(w, PropagateStep(prop, wtype), v, h);
            n.id in h' && h'[n.id] == PassedState(h, n, EffAlong(path, h, prop, v), prop, wtype)
    decreases w, 1
  {
    var step := PropagateStep(prop, wtype);
    var (eff, r1) := PropagateAt(w, v, h, prop, wtype);
    assert Walk(w, step, v, h) == WalkChildren(w.children, step, eff, r1);
    DistinctIdsSplit([w], PreOrderAll(w.children));
    assert IdSet([w]) == {w.id};
    PropagateStepIsLocal(prop, wtype);
    if |path| == 1 {
      WalkChildrenOnlyProp(w.children, step, prop, eff, r1);
      assert EffAlong(path, h, prop, v) == eff by {
        assert path[1..] == [];
      }
    } else {
      var rest := path[1..];
      assert rest[|rest| - 1] == path[|path| - 1];
      assert step(w, v, h).1 == r1;
      PathInChildren(w.children, rest);
      FrameKeepsPath(h, r1, {w.id}, prop, rest, PreOrderAll(w.children), eff);
      PropagateChildrenAlong(w.children, eff, prop, wtype, r1, rest);
    }
  }

  lemma {:induction false} PropagateChildrenAlong(ws: seq<Widget>, v: Value, prop: string, wtype: WidgetType, h: Heap, path: seq<Widget>)
    requires DistinctIds(PreOrderAll(ws)) && path != [] && path[0] in ws && IsPath(path[0], path) && path[|path| - 1].id in h
    ensures var n, h' := path[|path| - 1], WalkChildren(ws, PropagateStep(prop, wtype), v, h);
            n.id in h' && h'[n.id] == PassedState(h, n, EffAlong(path, h, prop, v), prop, wtype)
    decreases ws, 0
  {
    var step := PropagateStep(prop, wtype);
    var a := Walk(ws[0], step, v, h);
    DistinctIdsSplit(PreOrder(ws[0]), PreOrderAll(ws[1..]));
    PropagateStepIsLocal(prop, wtype);
    if path[0] == ws[0] {
      PropagateAlong(ws[0], v, prop, wtype, h, path);
      PathInTree(path[0], path);
      assert path[|path| - 1].id in IdSet(PreOrder(ws[0]));
      WalkChildrenOnlyProp(ws[1..], step, prop, v, a);
    } else {
      WalkOnlyProp(ws[0], step, prop, v, h);
      PathInChildren(ws[1..], path);
      FrameKeepsPath(h, a, IdSet(PreOrder(ws[0])), prop, path, PreOrderAll(ws[1..]), v);
      PropagateChildrenAlong(ws[1..], v, prop, wtype, a, path);
    }
  }

  /** Inheritance over a whole pass: for the widget `n` at the end of a path
      from the root, the value computed along the path (`EffAlong`, which by
      `EffAlongNearest` and `EffAlongNone` is the value of the nearest widget on it that sets
      `prop`, else the default) is written when it is truthy and `n` is a
      `w_type`; otherwise `n` is left unchanged. */
  lemma {:induction false} PropagateInheritsNearest(root: Widget, default: Value, prop: string, wtype: WidgetType, h: Heap, path: seq<Widget>)
    requires DistinctIds(PreOrder(root)) && IsPath(root, path) && path[|path| - 1].id in h
    ensures var n, e := path[|path| - 1], EffAlong(path, h, prop, default);
            var h' := PropagatePass(root, default, prop, wtype, h);
            && n.id in h'
            && (IsInstance(n.kind, wtype) && Truthy(e) ==> h'[n.id] == h[n.id].(props := h[n.id].props[prop := e]))
            && (!(IsInstance(n.kind, wtype) && Truthy(e)) ==> h'[n.id] == h[n.id])
  {
    PropagateAlong(root, default, prop, wtype, h, path);
  }
}
