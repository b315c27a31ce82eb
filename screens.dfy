/**
 * `_propigate_properties`: each screen in turn gets three passes, `synth` to
 * base controllers, `synth` to utility controllers, then `nrpn` to base
 * controllers.
 */
module Screens {
  import opened Widgets
  import opened Propagation
  import opened PropagationLaws

  const DefaultSynth: Value := Str("default")

  /** The three passes of `_propigate_properties` on one screen, in order. */
  function PropagateScreen(s: Widget, h: Heap): Heap {
    var h1 := PropagatePass(s, DefaultSynth, "synth", BaseControllerType, h);
    var h2 := PropagatePass(s, DefaultSynth, "synth", UtilityControllerType, h1);
    PropagatePass(s, None, "nrpn", BaseControllerType, h2)
  }

  /** `_propigate_properties`: the screens in order. */
  function PropagateScreens(ss: seq<Widget>, h: Heap): Heap {
    if ss == [] then h else PropagateScreen(ss[|ss| - 1], PropagateScreens(ss[..|ss| - 1], h))
  }

  // ---------------------------------------------------------------------------
  // Framing

  /** `h'` differs from `h` at most in the `synth` and `nrpn` properties of the widgets in `ids`. */
  ghost predicate SynthNrpnOnly(h: Heap, h': Heap, ids: set<WidgetId>) {
    && h'.Keys == h.Keys
    && forall id :: id in h ==>
         && (id !in ids ==> h'[id] == h[id])
         && h'[id] == h[id].(props := h'[id].props)
         && h'[id].props - {"synth", "nrpn"} == h[id].props - {"synth", "nrpn"}
  }

  lemma {:induction false} OnlyPropWiden(h: Heap, h': Heap, ids: set<WidgetId>, prop: string)
    requires OnlyProp(h, h', ids, prop) && (prop == "synth" || prop == "nrpn")
    ensures SynthNrpnOnly(h, h', ids)
  {
    forall id | id in h
      ensures h'[id].props - {"synth", "nrpn"} == h[id].props - {"synth", "nrpn"}
    {
      assert h'[id].props - {"synth", "nrpn"} == (h'[id].props - {prop}) - {"synth", "nrpn"};
      assert h[id].props - {"synth", "nrpn"} == (h[id].props - {prop}) - {"synth", "nrpn"};
    }
  }

  lemma {:induction false} SynthNrpnOnlyTrans(h1: Heap, h2: Heap, h3: Heap, ids1: set<WidgetId>, ids2: set<WidgetId>)
    requires SynthNrpnOnly(h1, h2, ids1) && SynthNrpnOnly(h2, h3, ids2)
    ensures SynthNrpnOnly(h1, h3, ids1 + ids2)
  {
  }

  /** A pass on a screen changes only its property, on that screen's widgets. */
  lemma {:induction false} ScreenFrame(s: Widget, h: Heap)
    ensures SynthNrpnOnly(h, PropagateScreen(s, h), IdSet(PreOrder(s)))
  {
    var ids := IdSet(PreOrder(s));
    var h1 := PropagatePass(s, DefaultSynth, "synth", BaseControllerType, h);
    var h2 := PropagatePass(s, DefaultSynth, "synth", UtilityControllerType, h1);
    PropagateChangesOnlyProp(s, DefaultSynth, "synth", BaseControllerType, h);
    PropagateChangesOnlyProp(s, DefaultSynth, "synth", UtilityControllerType, h1);
    PropagateChangesOnlyProp(s, None, "nrpn", BaseControllerType, h2);
    OnlyPropWiden(h, h1, ids, "synth");
    OnlyPropWiden(h1, h2, ids, "synth");
    OnlyPropWiden(h2, PropagateScreen(s, h), ids, "nrpn");
    SynthNrpnOnlyTrans(h, h1, h2, ids, ids);
    SynthNrpnOnlyTrans(h, h2, PropagateScreen(s, h), ids, ids);
  }

  /** `_propigate_properties` changes only `synth` and `nrpn`, and only on the screens' widgets. */
  lemma {:induction false} ScreensFrame(ss: seq<Widget>, h: Heap)
    ensures SynthNrpnOnly(h, PropagateScreens(ss, h), IdSet(PreOrderAll(ss)))
  {
    if ss != [] {
      var n := |ss| - 1;
      ScreensFrame(ss[..n], h);
      ScreenFrame(ss[n], PropagateScreens(ss[..n], h));
      PreOrderAllSnoc(ss, n);
      assert ss[..n + 1] == ss;
      IdSetConcat(PreOrderAll(ss[..n]), PreOrder(ss[n]));
      SynthNrpnOnlyTrans(h, PropagateScreens(ss[..n], h), PropagateScreens(ss, h),
        IdSet(PreOrderAll(ss[..n])), IdSet(PreOrder(ss[n])));
    }
  }

  // ---------------------------------------------------------------------------
  // Precedence: a property a widget sets itself survives every pass.

  lemma {:induction false} PassKeepsTruthy(root: Widget, default: Value, prop: string, wtype: WidgetType, h: Heap, id: WidgetId, q: string)
    requires GetProp(h, id, q).Got? && Truthy(GetProp(h, id, q).value)
    ensures GetProp(PropagatePass(root, default, prop, wtype, h), id, q) == GetProp(h, id, q)
  {
    if q == prop {
      PropagateNeverOverwritesSet(root, default, prop, wtype, h, id);
    } else {
      var h' := PropagatePass(root, default, prop, wtype, h);
      PropagateChangesOnlyProp(root, default, prop, wtype, h);
      assert q in h[id].props - {prop};
      assert h'[id].props - {prop} == h[id].props - {prop};
    }
  }

  /** A widget that sets `synth`, `nrpn` (or any other property) to a truthy
      value itself keeps that value through `_propigate_properties`. */
  lemma {:induction false} ScreensKeepTruthy(ss: seq<Widget>, h: Heap, id: WidgetId, q: string)
    requires GetProp(h, id, q).Got? && Truthy(GetProp(h, id, q).value)
    ensures GetProp(PropagateScreens(ss, h), id, q) == GetProp(h, id, q)
  {
    if ss != [] {
      var n := |ss| - 1;
      var s, h0 := ss[n], PropagateScreens(ss[..n], h);
      ScreensKeepTruthy(ss[..n], h, id, q);
      var h1 := PropagatePass(s, DefaultSynth, "synth", BaseControllerType, h0);
      var h2 := PropagatePass(s, DefaultSynth, "synth", UtilityControllerType, h1);
      PassKeepsTruthy(s, DefaultSynth, "synth", BaseControllerType, h0, id, q);
      PassKeepsTruthy(s, DefaultSynth, "synth", UtilityControllerType, h1, id, q);
      PassKeepsTruthy(s, None, "nrpn", BaseControllerType, h2, id, q);
    }
  }

  // ---------------------------------------------------------------------------
  // Default: on a screen where nothing sets a synth, every controller gets
  // the synth "default".

  lemma {:induction false} DefaultAfterBasePass(s: Widget, h: Heap)
    requires DistinctIds(PreOrder(s)) && SetsAtMost(PreOrder(s), h, "synth", DefaultSynth)
    ensures SetsAtMost(PreOrder(s), PropagatePass(s, DefaultSynth, "synth", BaseControllerType, h), "synth", DefaultSynth)
  {
    var h1 := PropagatePass(s, DefaultSynth, "synth", BaseControllerType, h);
    PropagateInherits(s, DefaultSynth, "synth", BaseControllerType, h);
    PropagateChangesOnlyProp(s, DefaultSynth, "synth", BaseControllerType, h);
    forall n | n in PreOrder(s) && n.id in h && !IsInstance(n.kind, BaseControllerType)
      ensures h1[n.id] == h[n.id]
    {
      PropagateWritesOnlyType(s, DefaultSynth, "synth", BaseControllerType, h, n);
    }
  }

  /** On a screen none of whose widgets sets `synth` (other than to
      "default"), every base and utility controller ends with synth "default". */
  lemma {:induction false} ScreenDefaultSynth(s: Widget, h: Heap, n: Widget)
    requires DistinctIds(PreOrder(s)) && SetsAtMost(PreOrder(s), h, "synth", DefaultSynth)
    requires n in PreOrder(s) && IsController(n.kind) && n.id in h
    ensures GetProp(PropagateScreen(s, h), n.id, "synth") == Got(DefaultSynth)
  {
    var h1 := PropagatePass(s, DefaultSynth, "synth", BaseControllerType, h);
    var h2 := PropagatePass(s, DefaultSynth, "synth", UtilityControllerType, h1);
    PropagateChangesOnlyProp(s, DefaultSynth, "synth", BaseControllerType, h);
    DefaultAfterBasePass(s, h);
    if n.kind == Utility {
      PropagateDefault(s, DefaultSynth, "synth", UtilityControllerType, h1, n);
    } else {
      PropagateDefault(s, DefaultSynth, "synth", BaseControllerType, h, n);
      PassKeepsTruthy(s, DefaultSynth, "synth", UtilityControllerType, h1, n.id, "synth");
    }
    PassKeepsTruthy(s, None, "nrpn", BaseControllerType, h2, n.id, "synth");
  }

  // ---------------------------------------------------------------------------
  // The screens do not interfere: each screen ends as if it were alone.

  lemma {:induction false} ScreenLocal(s: Widget, h1: Heap, h2: Heap)
    requires AgreeOn(h1, h2, IdSet(PreOrder(s)))
    ensures AgreeOn(PropagateScreen(s, h1), PropagateScreen(s, h2), IdSet(PreOrder(s)))
  {
    var a1 := PropagatePass(s, DefaultSynth, "synth", BaseControllerType, h1);
    var a2 := PropagatePass(s, DefaultSynth, "synth", BaseControllerType, h2);
    PropagateLocal(s, DefaultSynth, "synth", BaseControllerType, h1, h2);
    var b1 := PropagatePass(s, DefaultSynth, "synth", UtilityControllerType, a1);
    var b2 := PropagatePass(s, DefaultSynth, "synth", UtilityControllerType, a2);
    PropagateLocal(s, DefaultSynth, "synth", UtilityControllerType, a1, a2);
    PropagateLocal(s, None, "nrpn", BaseControllerType, b1, b2);
  }

  /** What `_propigate_properties` leaves on screen `k` is what propagating
      that screen alone, from the initial state, leaves. */
  lemma {:induction false} ScreensIndependent(ss: seq<Widget>, h: Heap, k: nat)
    requires DistinctIds(PreOrderAll(ss)) && k < |ss|
    ensures AgreeOn(PropagateScreens(ss, h), PropagateScreen(ss[k], h), IdSet(PreOrder(ss[k])))
  {
    var n := |ss| - 1;
    var init, last := ss[..n], ss[n];
    var h0 := PropagateScreens(init, h);
    PreOrderAllSnoc(ss, n);
    assert ss[..n + 1] == ss;
    DistinctIdsSplit(PreOrderAll(init), PreOrder(last));
    ScreensFrame(init, h);
    if k == n {
      assert AgreeOn(h0, h, IdSet(PreOrder(last)));
      ScreenLocal(last, h0, h);
    } else {
      assert init[k] == ss[k];
      ScreensIndependent(init, h, k);
      PreOrderAllHas(init, k);
      ScreenFrame(last, h0);
      ScreenFrame(ss[k], h);
      var mine := IdSet(PreOrder(ss[k]));
      forall id | id in mine
        ensures id !in IdSet(PreOrder(last))
      {
        var m :| m in PreOrder(ss[k]) && m.id == id;
        assert m in PreOrderAll(init);
        assert id in IdSet(PreOrderAll(init));
      }
    }
  }

  /** On a screen none of whose widgets sets `synth` (other than to
      "default"), every controller ends with synth "default" after all the
      screens have been propagated. */
  lemma {:induction false} ScreensDefaultSynth(ss: seq<Widget>, h: Heap, k: nat, c: Widget)
    requires DistinctIds(PreOrderAll(ss)) && k < |ss|
    requires SetsAtMost(PreOrder(ss[k]), h, "synth", DefaultSynth)
    requires c in PreOrder(ss[k]) && IsController(c.kind) && c.id in h
    ensures GetProp(PropagateScreens(ss, h), c.id, "synth") == Got(DefaultSynth)
  {
    ScreenIdsDistinct(ss, k);
    ScreenDefaultSynth(ss[k], h, c);
    ScreensIndependent(ss, h, k);
    assert c.id in IdSet(PreOrder(ss[k]));
  }

  /** The widgets of one screen have distinct ids when all the screens' widgets do. */
  lemma {:induction false} ScreenIdsDistinct(ss: seq<Widget>, k: nat)
    requires DistinctIds(PreOrderAll(ss)) && k < |ss|
    ensures DistinctIds(PreOrder(ss[k]))
  {
    var ps, p := PreOrderAll(ss), PreOrder(ss[k]);
    var i := PreOrderAllSplitAt(ss, k);
    assert ps[i..][..|p|] == p;
    assert ps[i..i + |p|] == p;
    forall a, b | 0 <= a < b < |p| ensures p[a].id != p[b].id {
      assert p[a] == ps[i + a] && p[b] == ps[i + b];
    }
  }

  /** The pre-order of screen `k` is a contiguous part of the pre-order of all screens. */
  lemma {:induction false} PreOrderAllSplitAt(ws: seq<Widget>, k: nat) returns (i: nat)
    requires k < |ws|
    ensures i + |PreOrder(ws[k])| <= |PreOrderAll(ws)|
    ensures PreOrderAll(ws)[i..] == PreOrder(ws[k]) + PreOrderAll(ws)[i + |PreOrder(ws[k])|..]
  {
    if k == 0 {
      i := 0;
    } else {
      var j := PreOrderAllSplitAt(ws[1..], k - 1);
      i := |PreOrder(ws[0])| + j;
      assert PreOrderAll(ws) == PreOrder(ws[0]) + PreOrderAll(ws[1..]);
      assert PreOrderAll(ws)[i..] == PreOrderAll(ws[1..])[j..];
    }
  }
}
