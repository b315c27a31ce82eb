/**
 * `ControllerManager`: the object that owns the list of controllers found on
 * the screens, and that the application calls to configure them and to move
 * values between them and the MIDI and patch layers.
 */
module Manager {
  import opened Widgets
  import opened Propagation
  import opened Discovery
  import opened Routing
  import opened Screens
  import opened Initialisation

  class ControllerManager {
    /** `self.screens`, in the order the screen dictionary yields its values. */
    const screens: seq<Widget>
    /** The state of every widget on the screens. */
    var heap: Heap
    /** `self.controllers` */
    var controllers: seq<Widget>
    /** The requests made to controllers, MIDI and the patch manager, oldest first. */
    var events: seq<Event>

    /** No controller is listed twice, and every controller has a state. */
    ghost predicate Valid()
      reads this
    {
      DistinctIds(controllers) && IdSet(controllers) <= heap.Keys
    }

    /** `__init__`: collect the controllers screen by screen, then propagate
        `synth` and `nrpn`. */
    constructor (screens: seq<Widget>, initial: Heap)
      requires DistinctIds(PreOrderAll(screens))
      requires IdSet(PreOrderAll(screens)) <= initial.Keys
      ensures Valid()
      ensures this.screens == screens
      ensures controllers == ControllersIn(PreOrderAll(screens))
      ensures heap == PropagateScreens(screens, initial)
      ensures events == []
    {
      var found: seq<Widget> := [];
      var i := 0;
      while i < |screens|
        invariant 0 <= i <= |screens|
        invariant found == ControllersIn(PreOrderAll(screens[..i]))
      {
        CollectScreen(screens, i, found);
        found := Walk(screens[i], CollectStep(), None, found);
        i := i + 1;
      }
      assert screens[..|screens|] == screens;
      DiscoveredControllers(screens);
      DiscoveredIds(screens);
      this.screens := screens;
      heap := initial;
      controllers := found;
      events := [];
      new;
      PropagateProperties();
      ScreensFrame(screens, initial);
    }

    /** `_propigate_properties` */
    method PropagateProperties()
      modifies this`heap
      ensures heap == PropagateScreens(screens, old(heap))
    {
      var i := 0;
      while i < |screens|
        invariant 0 <= i <= |screens|
        invariant heap == PropagateScreens(screens[..i], old(heap))
      {
        assert screens[..i + 1][..i] == screens[..i];
        heap := PropagatePass(screens[i], DefaultSynth, "synth", BaseControllerType, heap);
        heap := PropagatePass(screens[i], DefaultSynth, "synth", UtilityControllerType, heap);
        heap := PropagatePass(screens[i], None, "nrpn", BaseControllerType, heap);
        i := i + 1;
      }
      assert screens[..|screens|] == screens;
    }

    /** The `synths` property: each controller's synth, once. */
    method Synths() returns (r: seq<Value>)
      ensures forall i, j :: 0 <= i < j < |r| ==> r[i] != r[j]
      ensures forall v :: v in r <==> v in SynthSet(controllers, heap)
    {
      r := [];
      var i := 0;
      while i < |controllers|
        invariant 0 <= i <= |controllers|
        invariant forall a, b :: 0 <= a < b < |r| ==> r[a] != r[b]
        invariant forall v :: v in r <==> exists j :: 0 <= j < i && Synth(heap, controllers[j]) == v
      {
        var s := Synth(heap, controllers[i]);
        if s !in r {
          r := r + [s];
        }
        i := i + 1;
      }
      forall v | v in SynthSet(controllers, heap)
        ensures exists j :: 0 <= j < |controllers| && Synth(heap, controllers[j]) == v
      {
        var c :| c in controllers && Synth(heap, c) == v;
        var j :| 0 <= j < |controllers| && controllers[j] == c;
      }
    }

    /** `set_channels(channels)`: `ok` is false where `channels[controller.synth]`
        raises `KeyError`; the controllers before that one have their channel set. */
    method SetChannels(channels: map<Value, Value>) returns (ok: bool)
      requires Valid()
      modifies this`heap
      ensures Valid()
      ensures ok <==> forall c :: c in controllers ==> Synth(old(heap), c) in channels
      ensures heap == AssignChannels(controllers, old(heap), channels)
    {
      var cs, h0 := controllers, heap;
      FirstUnmappedAll(cs, h0, channels);
      var h := h0;
      var i := 0;
      while i < |cs|
        invariant 0 <= i <= |cs|
        invariant AssignChannels(cs[i..], h, channels) == AssignChannels(cs, h0, channels)
        invariant i + FirstUnmapped(cs[i..], h, channels) == FirstUnmapped(cs, h0, channels)
        invariant h.Keys == h0.Keys
      {
        var c := cs[i];
        var s := Synth(h, c);
        if s !in channels {
          heap := h;
          return false;
        }
        var h1 := WithChannel(h, c.id, channels[s]);
        ghost var rest := cs[i + 1..];
        assert cs[i..][1..] == rest;
        forall j | 0 <= j < |rest| ensures Synth(h1, rest[j]) == Synth(h, rest[j]) {
          WithChannelSynth(h, c.id, channels[s], rest[j]);
        }
        FirstUnmappedSame(rest, h, h1, channels);
        h := h1;
        i := i + 1;
      }
      heap := h;
      return true;
    }

    /** `_link_controllers(con_i)`: append every other controller at the same
        (channel, nrpn) to `con_i.linked`, in list order. */
    method LinkControllers(ci: Widget)
      requires Valid()
      modifies this`heap
      ensures Valid()
      ensures heap == WithLinked(old(heap), ci.id, LinkTargets(controllers, old(heap), ci))
    {
      var cs, h0 := controllers, heap;
      var h := h0;
      var j := 0;
      WithLinkedNothing(h0, ci.id);
      while j < |cs|
        invariant 0 <= j <= |cs|
        invariant h == WithLinked(h0, ci.id, LinkTargets(cs[..j], h0, ci))
        invariant h.Keys == h0.Keys
      {
        var cj := cs[j];
        ghost var found := LinkTargets(cs[..j], h0, ci);
        WithLinkedTwice(h0, ci.id, found, [cj.id]);
        assert cs[..j + 1][..j] == cs[..j];
        assert Coords(h, ci) == Coords(h0, ci) && Coords(h, cj) == Coords(h0, cj);
        assert LinkTargets(cs[..j + 1], h0, ci)
            == found + if cj.id != ci.id && Coords(h0, cj) == Coords(h0, ci) then [cj.id] else [];
        if ci.id != cj.id && Coords(h, ci) == Coords(h, cj) {
          h := WithLinked(h, ci.id, [cj.id]);
        } else {
          assert found + [] == found;
        }
        j := j + 1;
      }
      assert cs[..|cs|] == cs;
      heap := h;
    }

    /** `initialise_controllers(options_lists, midi, patch_manager)` */
    method InitialiseControllers(lists: OptionLists)
      requires Valid()
      modifies this`heap, this`events
      ensures Valid()
      ensures heap == Initialised(controllers, controllers, old(heap))
      ensures events == old(events) + InitLog(controllers, old(heap), lists)
    {
      var cs := controllers;
      ghost var h0, e0 := heap, events;
      var i := 0;
      while i < |cs|
        invariant 0 <= i <= |cs|
        invariant Valid()
        invariant heap == Initialised(cs, cs[..i], h0)
        invariant events == e0 + InitLog(cs[..i], h0, lists)
      {
        var c := cs[i];
        ghost var before, pre := heap, events;
        InitStepReady(cs, i, h0, lists);
        InitialiseController(c, lists);
        InitStepDone(cs, i, h0, lists, e0, before, pre, heap, events);
        i := i + 1;
      }
      assert cs[..|cs|] == cs;
    }

    /** One turn of the loop in `initialise_controllers`. */
    method InitialiseController(c: Widget, lists: OptionLists)
      requires Valid()
      modifies this`heap, this`events
      ensures Valid()
      ensures heap == InitHeap(controllers, old(heap), c)
      ensures events == old(events) + InitRequests(old(heap), c, lists)
    {
      InitHeapFrame(controllers, heap, c);
      var requests: seq<Event>;
      if IsBaseController(c.kind) {
        ghost var before := heap;
        LinkControllers(c);
        requests := [Bound(c.id, MidiSendNrpn)];
        if c.kind == Radio {
          heap := SetIfUnsetPass(c, Attr(heap, c.id, "group"), "group", RadioButtonType, heap);
        }
        if c.kind == DropDown {
          KeepsCoordsReads(before, heap, c);
          requests := requests + OptionsEvents(heap, c, lists);
        }
        requests := requests + [SetUp(c.id), SelectionShown(c.id)];
      } else {
        requests := [Bound(c.id, PatchLoad), Bound(c.id, PatchSave), Bound(c.id, PatchSend), Bound(c.id, PatchReceive)];
      }
      events := events + requests;
    }

    /** `set_controller_value(channel, nrpn, value)`: every base controller at
        (channel, nrpn) takes the value. Only the heap is in the frame: no
        request is made, so nothing is echoed back to MIDI. */
    method SetControllerValue(channel: Value, nrpn: Value, v: int)
      requires Valid()
      modifies this`heap
      ensures Valid()
      ensures heap == SetValue(controllers, old(heap), channel, nrpn, v)
    {
      var cs, h0 := controllers, heap;
      var h := h0;
      var i := 0;
      while i < |cs|
        invariant 0 <= i <= |cs|
        invariant h == SetValue(cs[..i], h0, channel, nrpn, v)
      {
        var c := cs[i];
        assert cs[..i + 1][..i] == cs[..i];
        if Addressed(h, c, channel, nrpn) {
          h := WithValue(h, c.id, v);
        }
        i := i + 1;
      }
      assert cs[..|cs|] == cs;
      heap := h;
    }

    /** `set_controller_values(synth, nrpn_order, data)`: `ok` is false where
        `nrpn_order[i]` raises `IndexError`; the bytes before that are applied. */
    method SetControllerValues(synth: Value, order: seq<Value>, data: seq<int>) returns (ok: bool)
      requires Valid()
      modifies this`heap
      ensures Valid()
      ensures ok <==> |data| <= |order|
      ensures var k := if |data| <= |order| then |data| else |order|;
              heap == SetValues(controllers, old(heap), synth, order, data[..k])
    {
      var i := 0;
      while i < |data|
        invariant 0 <= i <= |data| && i <= |order|
        invariant heap == SetValues(controllers, old(heap), synth, order, data[..i])
        invariant heap.Keys == old(heap).Keys
      {
        if i == |order| {
          return false;
        }
        assert data[..i + 1][..i] == data[..i];
        SetControllerValue(synth, order[i], data[i]);
        i := i + 1;
      }
      assert data[..|data|] == data;
      return true;
    }

    /** `get_controller_values(synth, nrpn_order)` */
    method GetControllerValues(synth: Value, order: seq<Value>) returns (out: seq<int>)
      ensures out == GetValues(controllers, heap, synth, order)
    {
      out := [];
      var i := 0;
      while i < |order|
        invariant 0 <= i <= |order|
        invariant out == GetValues(controllers, heap, synth, order[..i])
      {
        ghost var before := out;
        var j := 0;
        while j < |controllers|
          invariant 0 <= j <= |controllers|
          invariant out == before + ValuesAt(controllers[..j], heap, synth, order[i])
        {
          var c := controllers[j];
          assert controllers[..j + 1][..j] == controllers[..j];
          if Selected(heap, c, synth, order[i]) {
            out := out + [ValueOf(heap, c.id)];
          }
          j := j + 1;
        }
        assert controllers[..|controllers|] == controllers;
        assert order[..i + 1][..i] == order[..i];
        i := i + 1;
      }
      assert order[..|order|] == order;
    }

    /** `send_all(synth)`: every controller of the synth sends its value, in list order. */
    method SendAll(synth: Value)
      modifies this`events
      ensures events == old(events) + SendsFor(controllers, heap, synth)
    {
      var i := 0;
      while i < |controllers|
        invariant 0 <= i <= |controllers|
        invariant events == old(events) + SendsFor(controllers[..i], heap, synth)
      {
        var c := controllers[i];
        assert controllers[..i + 1][..i] == controllers[..i];
        if Synth(heap, c) == synth {
          events := events + [ValueSent(c.id)];
        }
        i := i + 1;
      }
      assert controllers[..|controllers|] == controllers;
    }
  }
}
