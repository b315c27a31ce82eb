/**
 * `initialise_controllers`, one controller at a time: link and bind base
 * controllers, hand a radio controller's group to its radio buttons, fill
 * drop-down options from the catalogue, and bind the four patch handlers of
 * utility controllers.
 */
module Initialisation {
  import opened Widgets
  import opened Propagation
  import opened PropagationLaws
  import opened Routing

  /** `options_lists`: synth -> option-list key -> option labels. */
  type OptionLists = map<Value, map<Value, seq<string>>>

  /** `controller.add_options(options_lists[controller.synth][controller.option_list])`:
      an undeclared `option_list` (AttributeError) or a missing synth or key
      (KeyError) is skipped silently. */
  function OptionsEvents(h: Heap, c: Widget, lists: OptionLists): (es: seq<Event>)
    ensures |es| <= 1
    ensures var key := GetProp(h, c.id, "option_list");
            es != [] <==> key.Got? && Synth(h, c) in lists && key.value in lists[Synth(h, c)]
    ensures es != [] ==> es == [OptionsAdded(c.id, lists[Synth(h, c)][GetProp(h, c.id, "option_list").value])]
  {
    match GetProp(h, c.id, "option_list")
    case KeyError => []
    case Got(key) =>
      var synth := Synth(h, c);
      if synth in lists && key in lists[synth] then [OptionsAdded(c.id, lists[synth][key])] else []
  }

  /** The heap after initialising controller `c` of the list `cs`. */
  function InitHeap(cs: seq<Widget>, h: Heap, c: Widget): Heap {
    if IsBaseController(c.kind) then
      var linked := WithLinked(h, c.id, LinkTargets(cs, h, c));
      if c.kind == Radio then SetIfUnsetPass(c, Attr(linked, c.id, "group"), "group", RadioButtonType, linked)
      else linked
    else h
  }

  /** The heap after initialising `done`, a prefix of `cs`, in order. */
  function Initialised(cs: seq<Widget>, done: seq<Widget>, h: Heap): Heap {
    if done == [] then h
    else InitHeap(cs, Initialised(cs, done[..|done| - 1], h), done[|done| - 1])
  }

  // ---------------------------------------------------------------------------
  // Initialisation keeps every protocol coordinate.

  /** `h'` agrees with `h` on everything but `linked` and the `group` property. */
  ghost predicate KeepsCoords(h: Heap, h': Heap) {
    && h'.Keys == h.Keys
    && forall id :: id in h ==>
         && h'[id].channel == h[id].channel
         && h'[id].value == h[id].value
         && h'[id].props - {"group"} == h[id].props - {"group"}
  }

  lemma {:induction false} KeepsCoordsTrans(h1: Heap, h2: Heap, h3: Heap)
    requires KeepsCoords(h1, h2) && KeepsCoords(h2, h3)
    ensures KeepsCoords(h1, h3)
  {
  }

  lemma {:induction false} KeepsCoordsReads(h: Heap, h': Heap, c: Widget)
    requires KeepsCoords(h, h')
    ensures Coords(h', c) == Coords(h, c)
    ensures Synth(h', c) == Synth(h, c)
    ensures GetProp(h', c.id, "option_list") == GetProp(h, c.id, "option_list")
  {
    if c.id in h {
      var p, p' := h[c.id].props - {"group"}, h'[c.id].props - {"group"};
      assert "nrpn" in h[c.id].props <==> "nrpn" in p;
      assert "nrpn" in h'[c.id].props <==> "nrpn" in p';
      assert "synth" in h[c.id].props <==> "synth" in p;
      assert "synth" in h'[c.id].props <==> "synth" in p';
      assert "option_list" in h[c.id].props <==> "option_list" in p;
      assert "option_list" in h'[c.id].props <==> "option_list" in p';
    }
  }

  lemma {:induction false} LinkTargetsKept(cs: seq<Widget>, h: Heap, h': Heap, ci: Widget)
    requires KeepsCoords(h, h')
    ensures LinkTargets(cs, h', ci) == LinkTargets(cs, h, ci)
  {
    if cs != [] {
      LinkTargetsKept(cs[..|cs| - 1], h, h', ci);
      KeepsCoordsReads(h, h', ci);
      KeepsCoordsReads(h, h', cs[|cs| - 1]);
    }
  }

  lemma {:induction false} InitHeapFrame(cs: seq<Widget>, h: Heap, c: Widget)
    ensures KeepsCoords(h, InitHeap(cs, h, c))
    ensures forall id :: id in h && id != c.id ==> InitHeap(cs, h, c)[id].linked == h[id].linked
    ensures c.id in h && IsBaseController(c.kind) ==> InitHeap(cs, h, c)[c.id].linked == h[c.id].linked + LinkTargets(cs, h, c)
    ensures c.id in h && !IsBaseController(c.kind) ==> InitHeap(cs, h, c)[c.id].linked == h[c.id].linked
  {
    if IsBaseController(c.kind) {
      var linked := WithLinked(h, c.id, LinkTargets(cs, h, c));
      if c.id in h {
        assert linked[c.id].props - {"group"} == h[c.id].props - {"group"};
      }
      assert KeepsCoords(h, linked);
      if c.kind == Radio {
        var g := Attr(linked, c.id, "group");
        SetIfUnsetStepIsLocal("group", RadioButtonType);
        WalkOnlyProp(c, SetIfUnsetStep("group", RadioButtonType), "group", g, linked);
      }
    }
  }

  /** Initialising a controller leaves `group` alone everywhere, except in the
      subtree of a radio controller. */
  lemma {:induction false} InitHeapGroupElsewhere(cs: seq<Widget>, h: Heap, c: Widget, id: WidgetId)
    requires id in h
    requires c.kind == Radio ==> id !in IdSet(PreOrder(c))
    ensures GetProp(InitHeap(cs, h, c), id, "group") == GetProp(h, id, "group")
  {
    if IsBaseController(c.kind) {
      var linked := WithLinked(h, c.id, LinkTargets(cs, h, c));
      assert GetProp(linked, id, "group") == GetProp(h, id, "group");
      if c.kind == Radio {
        SetIfUnsetStepIsLocal("group", RadioButtonType);
        WalkOnlyProp(c, SetIfUnsetStep("group", RadioButtonType), "group", Attr(linked, c.id, "group"), linked);
      }
    }
  }

  /** A radio controller hands its own group to every radio button in its
      subtree whose group is unset; every other widget, in its subtree or
      outside it, keeps its group. */
  lemma {:induction false} InitHeapRadioGroup(cs: seq<Widget>, h: Heap, c: Widget, n: Widget)
    requires c.kind == Radio && DistinctIds(PreOrder(c)) && n in PreOrder(c) && n.id in h
    ensures n.kind == RadioButton && !Truthy(Attr(h, n.id, "group")) ==>
              GetProp(InitHeap(cs, h, c), n.id, "group") == Got(Attr(h, c.id, "group"))
    ensures n.kind != RadioButton || Truthy(Attr(h, n.id, "group")) ==>
              GetProp(InitHeap(cs, h, c), n.id, "group") == GetProp(h, n.id, "group")
    ensures forall id :: id in h && id !in IdSet(PreOrder(c)) ==>
              GetProp(InitHeap(cs, h, c), id, "group") == GetProp(h, id, "group")
  {
    forall id | id in h && id !in IdSet(PreOrder(c))
      ensures GetProp(InitHeap(cs, h, c), id, "group") == GetProp(h, id, "group")
    {
      InitHeapGroupElsewhere(cs, h, c, id);
    }
    var linked := WithLinked(h, c.id, LinkTargets(cs, h, c));
    assert GetProp(linked, c.id, "group") == GetProp(h, c.id, "group");
    assert GetProp(linked, n.id, "group") == GetProp(h, n.id, "group");
    SetIfUnsetPassResult(c, Attr(linked, c.id, "group"), "group", RadioButtonType, linked, n);
  }

  lemma {:induction false} InitialisedKeepsCoords(cs: seq<Widget>, done: seq<Widget>, h: Heap)
    ensures KeepsCoords(h, Initialised(cs, done, h))
  {
    if done != [] {
      var c := done[|done| - 1];
      var h1 := Initialised(cs, done[..|done| - 1], h);
      InitialisedKeepsCoords(cs, done[..|done| - 1], h);
      InitHeapFrame(cs, h1, c);
      KeepsCoordsTrans(h, h1, InitHeap(cs, h1, c));
    }
  }

  // ---------------------------------------------------------------------------
  // Linking after initialisation.

  lemma {:induction false} InitialisedLinks(cs: seq<Widget>, done: seq<Widget>, h: Heap)
    requires DistinctIds(done)
    ensures var h' := Initialised(cs, done, h);
            && h'.Keys == h.Keys
            && (forall c :: c in done && c.id in h && IsBaseController(c.kind) ==>
                  h'[c.id].linked == h[c.id].linked + LinkTargets(cs, h, c))
            && (forall c :: c in done && c.id in h && !IsBaseController(c.kind) ==> h'[c.id].linked == h[c.id].linked)
            && (forall id :: id in h && id !in IdSet(done) ==> h'[id].linked == h[id].linked)
  {
    if done != [] {
      var init, c := done[..|done| - 1], done[|done| - 1];
      assert done == init + [c];
      DistinctIdsSplit(init, [c]);
      IdSetConcat(init, [c]);
      assert c.id !in IdSet(init);
      var h1 := Initialised(cs, init, h);
      var h' := Initialised(cs, done, h);
      InitialisedLinks(cs, init, h);
      InitialisedKeepsCoords(cs, init, h);
      InitialisedKeepsCoords(cs, done, h);
      InitHeapFrame(cs, h1, c);
      LinkTargetsKept(cs, h, h1, c);
      forall d | d in done && d.id in h
        ensures IsBaseController(d.kind) ==> h'[d.id].linked == h[d.id].linked + LinkTargets(cs, h, d)
        ensures !IsBaseController(d.kind) ==> h'[d.id].linked == h[d.id].linked
      {
        if d != c {
          assert d in init;
          assert d.id in IdSet(init);
        }
      }
    }
  }

  /** After `initialise_controllers` over the whole list, every base controller
      `a` has gained exactly `LinkTargets`; two distinct base controllers with
      the same (channel, nrpn) are linked both ways, and a controller whose
      list started empty is not linked to itself. */
  lemma {:induction false} LinkedAfterInit(cs: seq<Widget>, h: Heap, a: Widget, b: Widget)
    requires DistinctIds(cs) && a in cs && b in cs && a.id in h && b.id in h
    requires IsBaseController(a.kind) && IsBaseController(b.kind)
    ensures var h' := Initialised(cs, cs, h);
            && h'.Keys == h.Keys
            && h'[a.id].linked == h[a.id].linked + LinkTargets(cs, h, a)
            && (a.id != b.id && Coords(h, a) == Coords(h, b) ==> b.id in h'[a.id].linked && a.id in h'[b.id].linked)
            && (h[a.id].linked == [] ==> a.id !in h'[a.id].linked)
  {
    InitialisedLinks(cs, cs, h);
    InitialisedKeepsCoords(cs, cs, h);
    assert a.id in IdSet(cs) && b.id in IdSet(cs);
    LinkSymmetric(cs, h, a, b);
  }

  // ---------------------------------------------------------------------------
  // Requests made for each controller.

  /** The requests concerning widget `id`, in order. */
  function EventsFor(es: seq<Event>, id: WidgetId): (r: seq<Event>)
    ensures forall k :: 0 <= k < |r| ==> r[k].id == id
  {
    if es == [] then []
    else EventsFor(es[..|es| - 1], id) + (if es[|es| - 1].id == id then [es[|es| - 1]] else [])
  }

  lemma {:induction false} EventsForConcat(a: seq<Event>, b: seq<Event>, id: WidgetId)
    ensures EventsFor(a + b, id) == EventsFor(a, id) + EventsFor(b, id)
  {
    if b == [] {
      assert a + b == a;
    } else {
      assert (a + b)[..|a + b| - 1] == a + b[..|b| - 1];
      EventsForConcat(a, b[..|b| - 1], id);
    }
  }

  lemma {:induction false} EventsForOnly(es: seq<Event>, id: WidgetId)
    requires forall e :: e in es ==> e.id == id
    ensures EventsFor(es, id) == es
  {
    if es != [] {
      EventsForOnly(es[..|es| - 1], id);
    }
  }

  lemma {:induction false} EventsForNone(es: seq<Event>, id: WidgetId)
    requires forall e :: e in es ==> e.id != id
    ensures EventsFor(es, id) == []
  {
    if es != [] {
      EventsForNone(es[..|es| - 1], id);
    }
  }

  /** The requests made while initialising controller `c`, in order. The
      options are read before anything else of `c` changes; initialisation
      changes neither `synth` nor `option_list` (see `InitialisedKeepsCoords`),
      so reading them from the heap before initialisation gives the same. */
  function InitRequests(h: Heap, c: Widget, lists: OptionLists): seq<Event> {
    if IsBaseController(c.kind) then
      [Bound(c.id, MidiSendNrpn)]
      + (if c.kind == DropDown then OptionsEvents(h, c, lists) else [])
      + [SetUp(c.id), SelectionShown(c.id)]
    else
      [Bound(c.id, PatchLoad), Bound(c.id, PatchSave), Bound(c.id, PatchSend), Bound(c.id, PatchReceive)]
  }

  /** Every request made while initialising `c` concerns `c`. */
  lemma {:induction false} InitRequestsOwn(h: Heap, c: Widget, lists: OptionLists)
    ensures forall e :: e in InitRequests(h, c, lists) ==> e.id == c.id
  {
    if IsBaseController(c.kind) && c.kind == DropDown {
      var opts := OptionsEvents(h, c, lists);
      forall e | e in opts ensures e.id == c.id {
      }
    }
  }

  /** The requests made while initialising `done`, in order. */
  function InitLog(done: seq<Widget>, h: Heap, lists: OptionLists): seq<Event> {
    if done == [] then []
    else InitLog(done[..|done| - 1], h, lists) + InitRequests(h, done[|done| - 1], lists)
  }

  lemma {:induction false} InitialisedSnoc(cs: seq<Widget>, done: seq<Widget>, h: Heap, c: Widget, lists: OptionLists)
    ensures Initialised(cs, done + [c], h) == InitHeap(cs, Initialised(cs, done, h), c)
    ensures InitLog(done + [c], h, lists) == InitLog(done, h, lists) + InitRequests(h, c, lists)
  {
    assert (done + [c])[..|done|] == done;
  }

  lemma {:induction false} InitRequestsKept(h: Heap, h1: Heap, c: Widget, lists: OptionLists)
    requires KeepsCoords(h, h1)
    ensures InitRequests(h1, c, lists) == InitRequests(h, c, lists)
  {
    KeepsCoordsReads(h, h1, c);
  }
  /** Before turn `i` of the loop in `initialise_controllers`: the heap so far
      keeps the coordinates of the starting heap, so the requests are the same. */
  lemma {:induction false} InitStepReady(cs: seq<Widget>, i: nat, h0: Heap, lists: OptionLists)
    requires i < |cs|
    ensures KeepsCoords(h0, Initialised(cs, cs[..i], h0))
    ensures InitRequests(Initialised(cs, cs[..i], h0), cs[i], lists) == InitRequests(h0, cs[i], lists)
  {
    InitialisedKeepsCoords(cs, cs[..i], h0);
    InitRequestsKept(h0, Initialised(cs, cs[..i], h0), cs[i], lists);
  }

  /** After turn `i`: heap and request log are those of the first `i + 1` controllers. */
  lemma {:induction false} InitStepDone(cs: seq<Widget>, i: nat, h0: Heap, lists: OptionLists, e0: seq<Event>,
                     before: Heap, pre: seq<Event>, after: Heap, post: seq<Event>)
    requires i < |cs|
    requires before == Initialised(cs, cs[..i], h0) && pre == e0 + InitLog(cs[..i], h0, lists)
    requires after == InitHeap(cs, before, cs[i])
    requires post == pre + InitRequests(before, cs[i], lists)
    ensures after == Initialised(cs, cs[..i + 1], h0)
    ensures post == e0 + InitLog(cs[..i + 1], h0, lists)
  {
    assert cs[..i + 1] == cs[..i] + [cs[i]];
    InitialisedSnoc(cs, cs[..i], h0, cs[i], lists);
    InitStepReady(cs, i, h0, lists);
    LogStep(e0, InitLog(cs[..i], h0, lists), InitRequests(h0, cs[i], lists), pre, post);
  }

  lemma {:induction false} LogStep(e0: seq<Event>, log: seq<Event>, own: seq<Event>, pre: seq<Event>, post: seq<Event>)
    requires pre == e0 + log && post == pre + own
    ensures post == e0 + (log + own)
  {
  }



  /** The requests of one controller's initialisation, appended to a log. */
  lemma {:induction false} EventsForStep(es: seq<Event>, own: seq<Event>, ownId: WidgetId, id: WidgetId)
    requires forall e :: e in own ==> e.id == ownId
    ensures EventsFor(es + own, id) == EventsFor(es, id) + (if id == ownId then own else [])
  {
    EventsForConcat(es, own, id);
    if id == ownId {
      EventsForOnly(own, id);
    } else {
      EventsForNone(own, id);
    }
  }

  /** No request concerns a widget that is not in the list. */
  lemma {:induction false} InitLogNone(done: seq<Widget>, h: Heap, lists: OptionLists, id: WidgetId)
    requires forall i :: 0 <= i < |done| ==> done[i].id != id
    ensures EventsFor(InitLog(done, h, lists), id) == []
  {
    if done != [] {
      var init, d := done[..|done| - 1], done[|done| - 1];
      forall i | 0 <= i < |init| ensures init[i].id != id {
        assert init[i] == done[i];
      }
      InitLogNone(init, h, lists, id);
      InitRequestsOwn(h, d, lists);
      EventsForStep(InitLog(init, h, lists), InitRequests(h, d, lists), d.id, id);
    }
  }

  /** The requests concerning a controller of the list are those of its own initialisation. */
  lemma {:induction false} InitLogFor(done: seq<Widget>, h: Heap, lists: OptionLists, c: Widget)
    requires DistinctIds(done) && c in done
    ensures EventsFor(InitLog(done, h, lists), c.id) == InitRequests(h, c, lists)
  {
    var init, d := done[..|done| - 1], done[|done| - 1];
    var log, own := InitLog(init, h, lists), InitRequests(h, d, lists);
    InitRequestsOwn(h, d, lists);
    EventsForStep(log, own, d.id, c.id);
    if c == d {
      forall i | 0 <= i < |init| ensures init[i].id != c.id {
        assert init[i] == done[i];
      }
      InitLogNone(init, h, lists, c.id);
    } else {
      var j :| 0 <= j < |done| && done[j] == c;
      assert j < |init| && init[j] == c && c.id != d.id;
      forall a, b | 0 <= a < b < |init| ensures init[a].id != init[b].id {
        assert init[a] == done[a] && init[b] == done[b];
      }
      InitLogFor(init, h, lists, c);
    }
  }

  /** Each base controller gets exactly one MIDI send handler, then at most one
      option list (only when it is a drop-down whose synth and key are in the
      catalogue), then setup and display; each utility controller gets the four
      patch handlers, once each. */
  lemma {:induction false} RequestsPerController(cs: seq<Widget>, h: Heap, lists: OptionLists, c: Widget)
    requires DistinctIds(cs) && c in cs
    ensures var es := EventsFor(InitLog(cs, h, lists), c.id);
            && es == InitRequests(h, c, lists)
            && (IsBaseController(c.kind) ==>
                  && 3 <= |es| <= 4
                  && es[0] == Bound(c.id, MidiSendNrpn)
                  && es[|es| - 2..] == [SetUp(c.id), SelectionShown(c.id)]
                  && (|es| == 4 <==> c.kind == DropDown && OptionsEvents(h, c, lists) != []))
            && (!IsBaseController(c.kind) ==>
                  es == [Bound(c.id, PatchLoad), Bound(c.id, PatchSave), Bound(c.id, PatchSend), Bound(c.id, PatchReceive)])
            && (c.kind != DropDown || Synth(h, c) !in lists ==> forall e :: e in es ==> !e.OptionsAdded?)
  {
    InitLogFor(cs, h, lists, c);
  }
}
