/**
 * What the manager's routing operations do to the controllers, stated as
 * functions of the controller list and the widget heap: channel assignment,
 * linking, inbound values, value collection and resending.
 */
module Routing {
  import opened Widgets

  /** A handler the manager binds to a controller event. */
  datatype Handler =
    | MidiSendNrpn   // on_send -> midi.send_nrpn(channel, nrpn, value)
    | PatchLoad      // on_load -> patch_manager.on_load(synth)
    | PatchSave      // on_save -> patch_manager.on_save(synth)
    | PatchSend      // on_send -> patch_manager.on_send(synth)
    | PatchReceive   // on_receive -> patch_manager.on_receive(synth)

  /** What the manager asks of the controllers and their collaborators, in order. */
  datatype Event =
    | Bound(id: WidgetId, handler: Handler)         // controller.bind(...)
    | OptionsAdded(id: WidgetId, options: seq<string>) // controller.add_options(...)
    | SetUp(id: WidgetId)                          // controller.setup()
    | SelectionShown(id: WidgetId)                 // controller.display_selected()
    | ValueSent(id: WidgetId)                      // controller.send_value()

  function Synth(h: Heap, c: Widget): Value {
    Attr(h, c.id, "synth")
  }

  function Nrpn(h: Heap, c: Widget): Value {
    Attr(h, c.id, "nrpn")
  }

  /** `h'` differs from `h` at most in the `channel`, `value` and `linked`
      attributes: no Kivy property changes. */
  ghost predicate SameProps(h: Heap, h': Heap) {
    h'.Keys == h.Keys && forall id :: id in h ==> h'[id].props == h[id].props
  }

  // ---------------------------------------------------------------------------
  // synths

  function SynthSet(cs: seq<Widget>, h: Heap): set<Value> {
    set c | c in cs :: Synth(h, c)
  }

  // ---------------------------------------------------------------------------
  // set_channels

  /** The position of the first controller whose synth has no channel: where
      `channels[controller.synth]` raises `KeyError`; `|cs|` when there is none. */
  function FirstUnmapped(cs: seq<Widget>, h: Heap, channels: map<Value, Value>): (k: nat)
    ensures k <= |cs|
    ensures forall i :: 0 <= i < k ==> Synth(h, cs[i]) in channels
    ensures k < |cs| ==> Synth(h, cs[k]) !in channels
  {
    if cs == [] then 0
    else if Synth(h, cs[0]) !in channels then 0
    else 1 + FirstUnmapped(cs[1..], h, channels)
  }

  /** Every synth has a channel exactly when no controller is left unmapped. */
  lemma {:induction false} FirstUnmappedAll(cs: seq<Widget>, h: Heap, channels: map<Value, Value>)
    ensures FirstUnmapped(cs, h, channels) == |cs| <==> forall c :: c in cs ==> Synth(h, c) in channels
  {
    if cs != [] && Synth(h, cs[0]) in channels {
      FirstUnmappedAll(cs[1..], h, channels);
      assert forall c :: c in cs ==> c == cs[0] || c in cs[1..];
    }
  }

  function WithChannel(h: Heap, id: WidgetId, ch: Value): Heap {
    if id in h then h[id := h[id].(channel := ch)] else h
  }

  /** The loop of `set_channels`: `controller.channel = channels[controller.synth]`
      for each of `cs` in turn, up to the first synth without a channel, where
      the `KeyError` ends the loop and the assignments made so far remain. */
  function AssignChannels(cs: seq<Widget>, h: Heap, channels: map<Value, Value>): (h': Heap)
    ensures h'.Keys == h.Keys
  {
    if cs == [] || Synth(h, cs[0]) !in channels then h
    else AssignChannels(cs[1..], WithChannel(h, cs[0].id, channels[Synth(h, cs[0])]), channels)
  }

  /** Setting a channel changes no synth. */
  lemma {:induction false} WithChannelSynth(h: Heap, id: WidgetId, ch: Value, c: Widget)
    ensures Synth(WithChannel(h, id, ch), c) == Synth(h, c)
  {
  }

  /** Where the loop stops depends only on the synths, which it does not change. */
  lemma {:induction false} FirstUnmappedSame(cs: seq<Widget>, h: Heap, h': Heap, channels: map<Value, Value>)
    requires forall i :: 0 <= i < |cs| ==> Synth(h', cs[i]) == Synth(h, cs[i])
    ensures FirstUnmapped(cs, h', channels) == FirstUnmapped(cs, h, channels)
  {
    if cs != [] {
      FirstUnmappedSame(cs[1..], h, h', channels);
    }
  }

  /** One turn of the loop: the state after the first assignment, from which the rest continues. */
  lemma {:induction false} AssignChannelsUnfold(cs: seq<Widget>, h: Heap, channels: map<Value, Value>)
    requires cs != [] && Synth(h, cs[0]) in channels
    ensures var h1 := WithChannel(h, cs[0].id, channels[Synth(h, cs[0])]);
            && AssignChannels(cs, h, channels) == AssignChannels(cs[1..], h1, channels)
            && FirstUnmapped(cs, h, channels) == 1 + FirstUnmapped(cs[1..], h1, channels)
  {
    var h1 := WithChannel(h, cs[0].id, channels[Synth(h, cs[0])]);
    forall i | 0 <= i < |cs[1..]| ensures Synth(h1, cs[1..][i]) == Synth(h, cs[1..][i]) {
      WithChannelSynth(h, cs[0].id, channels[Synth(h, cs[0])], cs[1..][i]);
    }
    FirstUnmappedSame(cs[1..], h, h1, channels);
  }

  /** Every widget other than the controllers before the first unmapped synth keeps its state. */
  lemma {:induction false} ChannelsKept(cs: seq<Widget>, h: Heap, channels: map<Value, Value>, id: WidgetId)
    requires id in h
    requires forall i :: 0 <= i < FirstUnmapped(cs, h, channels) ==> cs[i].id != id
    ensures AssignChannels(cs, h, channels)[id] == h[id]
  {
    if cs != [] && Synth(h, cs[0]) in channels {
      var h1 := WithChannel(h, cs[0].id, channels[Synth(h, cs[0])]);
      AssignChannelsUnfold(cs, h, channels);
      assert cs[0].id != id;
      forall i | 0 <= i < FirstUnmapped(cs[1..], h1, channels) ensures cs[1..][i].id != id {
        assert cs[1..][i] == cs[i + 1];
      }
      ChannelsKept(cs[1..], h1, channels, id);
    }
  }

  /** The controllers before the first unmapped synth get the channel of their
      synth; every other widget, including the unmapped one and those after
      it, keeps its state. */
  lemma {:induction false} ChannelsAssigned(cs: seq<Widget>, h: Heap, channels: map<Value, Value>)
    requires DistinctIds(cs)
    ensures var h', k := AssignChannels(cs, h, channels), FirstUnmapped(cs, h, channels);
            && (forall i :: 0 <= i < k && cs[i].id in h ==> h'[cs[i].id] == h[cs[i].id].(channel := channels[Synth(h, cs[i])]))
            && (forall id :: id in h && id !in IdSet(cs[..k]) ==> h'[id] == h[id])
  {
    forall id | id in h && id !in IdSet(cs[..FirstUnmapped(cs, h, channels)])
      ensures AssignChannels(cs, h, channels)[id] == h[id]
    {
      var k := FirstUnmapped(cs, h, channels);
      forall i | 0 <= i < k ensures cs[i].id != id {
        assert cs[..k][i] == cs[i];
      }
      ChannelsKept(cs, h, channels, id);
    }
    if cs != [] && Synth(h, cs[0]) in channels {
      var c, rest := cs[0], cs[1..];
      var h1 := WithChannel(h, c.id, channels[Synth(h, c)]);
      var h', k := AssignChannels(cs, h, channels), FirstUnmapped(cs, h, channels);
      DistinctIdsSplit([c], rest);
      assert [c] + rest == cs;
      AssignChannelsUnfold(cs, h, channels);
      ChannelsAssigned(rest, h1, channels);
      assert c.id !in IdSet(rest[..k - 1]) by {
        assert IdSet(rest[..k - 1]) <= IdSet(rest);
      }
      forall i | 0 <= i < k && cs[i].id in h
        ensures h'[cs[i].id] == h[cs[i].id].(channel := channels[Synth(h, cs[i])])
      {
        if i > 0 {
          assert cs[i] == rest[i - 1];
          assert cs[i].id in IdSet(rest);
          WithChannelSynth(h, c.id, channels[Synth(h, c)], cs[i]);
        }
      }
    }
  }

  // ---------------------------------------------------------------------------
  // _link_controllers

  /** The protocol coordinate a controller addresses. */
  function Coords(h: Heap, c: Widget): (Value, Value) {
    (ChannelOf(h, c.id), Nrpn(h, c))
  }

  /** The controllers `_link_controllers(con_i)` appends to `con_i.linked`, in list order. */
  function LinkTargets(cs: seq<Widget>, h: Heap, ci: Widget): seq<WidgetId> {
    if cs == [] then []
    else
      var c := cs[|cs| - 1];
      LinkTargets(cs[..|cs| - 1], h, ci) + (if c.id != ci.id && Coords(h, c) == Coords(h, ci) then [c.id] else [])
  }

  function WithLinked(h: Heap, id: WidgetId, extra: seq<WidgetId>): Heap {
    if id in h then h[id := h[id].(linked := h[id].linked + extra)] else h
  }

  lemma {:induction false} WithLinkedNothing(h: Heap, id: WidgetId)
    ensures WithLinked(h, id, []) == h
  {
    if id in h {
      assert h[id].linked + [] == h[id].linked;
      assert h[id].(linked := h[id].linked + []) == h[id];
    }
  }

  lemma {:induction false} WithLinkedTwice(h: Heap, id: WidgetId, a: seq<WidgetId>, b: seq<WidgetId>)
    ensures WithLinked(WithLinked(h, id, a), id, b) == WithLinked(h, id, a + b)
    ensures forall c :: Coords(WithLinked(h, id, a), c) == Coords(h, c)
  {
    if id in h {
      assert h[id].linked + a + b == h[id].linked + (a + b);
    }
  }

  lemma {:induction false} LinkTargetsMembers(cs: seq<Widget>, h: Heap, ci: Widget, x: WidgetId)
    ensures x in LinkTargets(cs, h, ci) <==> exists c :: c in cs && c.id == x && x != ci.id && Coords(h, c) == Coords(h, ci)
  {
    if cs != [] {
      var init, c := cs[..|cs| - 1], cs[|cs| - 1];
      assert cs == init + [c];
      LinkTargetsMembers(init, h, ci, x);
    }
  }

  /** Linking is symmetric and never links a controller to itself. */
  lemma {:induction false} LinkSymmetric(cs: seq<Widget>, h: Heap, a: Widget, b: Widget)
    requires DistinctIds(cs) && a in cs && b in cs
    ensures a.id !in LinkTargets(cs, h, a)
    ensures b.id in LinkTargets(cs, h, a) <==> a.id in LinkTargets(cs, h, b)
    ensures b.id in LinkTargets(cs, h, a) <==> a.id != b.id && Coords(h, a) == Coords(h, b)
  {
    LinkTargetsMembers(cs, h, a, a.id);
    LinkTargetsMembers(cs, h, a, b.id);
    LinkTargetsMembers(cs, h, b, a.id);
    forall c | c in cs && (c.id == a.id || c.id == b.id) ensures c == a || c == b {
      var i :| 0 <= i < |cs| && cs[i] == c;
      var j :| 0 <= j < |cs| && cs[j] == (if c.id == a.id then a else b);
      assert i == j;
    }
  }

  // ---------------------------------------------------------------------------
  // set_controller_value and set_controller_values

  /** The controllers `set_controller_value(channel, nrpn, _)` updates. */
  predicate Addressed(h: Heap, c: Widget, channel: Value, nrpn: Value) {
    IsBaseController(c.kind) && ChannelOf(h, c.id) == channel && Nrpn(h, c) == nrpn
  }

  function WithValue(h: Heap, id: WidgetId, v: int): Heap {
    if id in h then h[id := h[id].(value := v)] else h
  }

  /** `controller.set_without_sending_midi(v)` on every addressed controller of `cs`, in turn. */
  function SetValue(cs: seq<Widget>, h: Heap, channel: Value, nrpn: Value, v: int): (h': Heap)
    ensures h'.Keys == h.Keys
  {
    if cs == [] then h
    else
      var prev := SetValue(cs[..|cs| - 1], h, channel, nrpn, v);
      var c := cs[|cs| - 1];
      if Addressed(prev, c, channel, nrpn) then WithValue(prev, c.id, v) else prev
  }

  /** `h'` differs from `h` at most in the stored values. */
  ghost predicate ValueOnly(h: Heap, h': Heap) {
    h'.Keys == h.Keys && forall id :: id in h ==> h'[id] == h[id].(value := h'[id].value)
  }

  /** An update touches the stored values and nothing else. */
  lemma {:induction false} SetValueFrame(cs: seq<Widget>, h: Heap, channel: Value, nrpn: Value, v: int)
    ensures ValueOnly(h, SetValue(cs, h, channel, nrpn, v))
  {
    if cs != [] {
      SetValueFrame(cs[..|cs| - 1], h, channel, nrpn, v);
    }
  }

  /** A widget that is not in the list keeps its state. */
  lemma {:induction false} SetValueKept(cs: seq<Widget>, h: Heap, channel: Value, nrpn: Value, v: int, id: WidgetId)
    requires id in h && forall i :: 0 <= i < |cs| ==> cs[i].id != id
    ensures SetValue(cs, h, channel, nrpn, v)[id] == h[id]
  {
    if cs != [] {
      SetValueKept(cs[..|cs| - 1], h, channel, nrpn, v, id);
    }
  }

  /** A controller of the list takes the value exactly when it is addressed. */
  lemma {:induction false} SetValueAt(cs: seq<Widget>, h: Heap, channel: Value, nrpn: Value, v: int, c: Widget)
    requires DistinctIds(cs) && c in cs && c.id in h
    ensures SetValue(cs, h, channel, nrpn, v)[c.id].value == if Addressed(h, c, channel, nrpn) then v else h[c.id].value
  {
    var init, last := cs[..|cs| - 1], cs[|cs| - 1];
    var prev := SetValue(init, h, channel, nrpn, v);
    if c == last {
      forall i | 0 <= i < |init| ensures init[i].id != c.id {
        assert init[i] == cs[i];
      }
      SetValueKept(init, h, channel, nrpn, v, c.id);
      SetValueFrame(init, h, channel, nrpn, v);
      assert Addressed(prev, c, channel, nrpn) == Addressed(h, c, channel, nrpn);
    } else {
      var i :| 0 <= i < |cs| && cs[i] == c;
      assert i < |init| && init[i] == c;
      assert last.id != c.id;
      forall a, b | 0 <= a < b < |init| ensures init[a].id != init[b].id {
        assert init[a] == cs[a] && init[b] == cs[b];
      }
      SetValueAt(init, h, channel, nrpn, v, c);
    }
  }

  /** Exactly the addressed controllers take the value; nothing else changes. */
  lemma {:induction false} SetValueResult(cs: seq<Widget>, h: Heap, channel: Value, nrpn: Value, v: int)
    requires DistinctIds(cs)
    ensures var h' := SetValue(cs, h, channel, nrpn, v);
            && (forall c :: c in cs && c.id in h ==> h'[c.id].value == if Addressed(h, c, channel, nrpn) then v else h[c.id].value)
            && (forall id :: id in h && id !in IdSet(cs) ==> h'[id] == h[id])
  {
    forall c | c in cs && c.id in h
      ensures SetValue(cs, h, channel, nrpn, v)[c.id].value == if Addressed(h, c, channel, nrpn) then v else h[c.id].value
    {
      SetValueAt(cs, h, channel, nrpn, v, c);
    }
    forall id | id in h && id !in IdSet(cs) ensures SetValue(cs, h, channel, nrpn, v)[id] == h[id] {
      forall i | 0 <= i < |cs| ensures cs[i].id != id {
        assert cs[i] in cs;
      }
      SetValueKept(cs, h, channel, nrpn, v, id);
    }
  }

  /** No addressed controller: the update is a no-op. */
  lemma {:induction false} SetValueNoMatch(cs: seq<Widget>, h: Heap, channel: Value, nrpn: Value, v: int)
    requires forall c :: c in cs ==> !Addressed(h, c, channel, nrpn)
    ensures SetValue(cs, h, channel, nrpn, v) == h
  {
    if cs != [] {
      var init, c := cs[..|cs| - 1], cs[|cs| - 1];
      assert cs == init + [c];
      SetValueNoMatch(init, h, channel, nrpn, v);
    }
  }

  /** `set_controller_value(synth, nrpn_order[i], data[i])` for each `i` in turn:
      the synth is passed where the channel is expected. */
  function SetValues(cs: seq<Widget>, h: Heap, synth: Value, order: seq<Value>, data: seq<int>): (h': Heap)
    requires |data| <= |order|
    ensures h'.Keys == h.Keys
  {
    if data == [] then h
    else
      var k := |data| - 1;
      SetValue(cs, SetValues(cs, h, synth, order, data[..k]), synth, order[k], data[k])
  }

  /** A batch update touches the stored values and nothing else. */
  lemma {:induction false} SetValuesFrame(cs: seq<Widget>, h: Heap, synth: Value, order: seq<Value>, data: seq<int>)
    requires |data| <= |order|
    ensures ValueOnly(h, SetValues(cs, h, synth, order, data))
  {
    if data != [] {
      var k := |data| - 1;
      var prev := SetValues(cs, h, synth, order, data[..k]);
      SetValuesFrame(cs, h, synth, order, data[..k]);
      SetValueFrame(cs, prev, synth, order[k], data[k]);
    }
  }

  /** The last byte addressed to a controller wins. */
  lemma {:induction false} SetValuesLastWins(cs: seq<Widget>, h: Heap, synth: Value, order: seq<Value>, data: seq<int>, c: Widget)
    requires |data| <= |order| && DistinctIds(cs) && c in cs && c.id in h
    ensures forall j :: (0 <= j < |data| && Addressed(h, c, synth, order[j])
                         && forall k :: j < k < |data| ==> !Addressed(h, c, synth, order[k]))
                        ==> SetValues(cs, h, synth, order, data)[c.id].value == data[j]
  {
    if data != [] {
      var k := |data| - 1;
      var prev := SetValues(cs, h, synth, order, data[..k]);
      SetValuesLastWins(cs, h, synth, order, data[..k], c);
      SetValuesFrame(cs, h, synth, order, data[..k]);
      SetValueAt(cs, prev, synth, order[k], data[k], c);
      assert Addressed(prev, c, synth, order[k]) == Addressed(h, c, synth, order[k]);
    }
  }

  /** A controller no byte addresses keeps its state. */
  lemma {:induction false} SetValuesUnaddressed(cs: seq<Widget>, h: Heap, synth: Value, order: seq<Value>, data: seq<int>, c: Widget)
    requires |data| <= |order| && DistinctIds(cs) && c in cs && c.id in h
    requires forall j :: 0 <= j < |data| ==> !Addressed(h, c, synth, order[j])
    ensures SetValues(cs, h, synth, order, data)[c.id] == h[c.id]
  {
    if data != [] {
      var k := |data| - 1;
      var prev := SetValues(cs, h, synth, order, data[..k]);
      SetValuesUnaddressed(cs, h, synth, order, data[..k], c);
      SetValuesFrame(cs, h, synth, order, data[..k]);
      SetValueAt(cs, prev, synth, order[k], data[k], c);
      SetValueFrame(cs, prev, synth, order[k], data[k]);
      assert Addressed(prev, c, synth, order[k]) == Addressed(h, c, synth, order[k]);
    }
  }

  /** A widget that is not in the list keeps its state through the whole batch. */
  lemma {:induction false} SetValuesKept(cs: seq<Widget>, h: Heap, synth: Value, order: seq<Value>, data: seq<int>, id: WidgetId)
    requires |data| <= |order| && id in h && forall i :: 0 <= i < |cs| ==> cs[i].id != id
    ensures SetValues(cs, h, synth, order, data)[id] == h[id]
  {
    if data != [] {
      var k := |data| - 1;
      SetValuesKept(cs, h, synth, order, data[..k], id);
      SetValueKept(cs, SetValues(cs, h, synth, order, data[..k]), synth, order[k], data[k], id);
    }
  }

  // ---------------------------------------------------------------------------
  // get_controller_values

  /** The controllers `get_controller_values(synth, _)` reads for one address:
      no base-controller test here, unlike `set_controller_value`. */
  predicate Selected(h: Heap, c: Widget, synth: Value, nrpn: Value) {
    Synth(h, c) == synth && Nrpn(h, c) == nrpn
  }

  /** The values of the selected controllers of `cs`, in list order. */
  function ValuesAt(cs: seq<Widget>, h: Heap, synth: Value, nrpn: Value): seq<int> {
    if cs == [] then []
    else
      var c := cs[|cs| - 1];
      ValuesAt(cs[..|cs| - 1], h, synth, nrpn) + (if Selected(h, c, synth, nrpn) then [ValueOf(h, c.id)] else [])
  }

  /** The output of `get_controller_values(synth, order)`. */
  function GetValues(cs: seq<Widget>, h: Heap, synth: Value, order: seq<Value>): seq<int> {
    if order == [] then []
    else GetValues(cs, h, synth, order[..|order| - 1]) + ValuesAt(cs, h, synth, order[|order| - 1])
  }

  /** The output for a concatenated address list is the concatenation of the outputs. */
  lemma {:induction false} GetValuesConcat(cs: seq<Widget>, h: Heap, synth: Value, a: seq<Value>, b: seq<Value>)
    ensures GetValues(cs, h, synth, a + b) == GetValues(cs, h, synth, a) + GetValues(cs, h, synth, b)
  {
    if b == [] {
      assert a + b == a;
    } else {
      var k := |b| - 1;
      var ab := a + b;
      assert ab[..|ab| - 1] == a + b[..k] && ab[|ab| - 1] == b[k];
      GetValuesConcat(cs, h, synth, a, b[..k]);
    }
  }

  /** An address with no selected controller contributes nothing, and one
      with selected controllers contributes one value each. */
  lemma {:induction false} ValuesAtEmpty(cs: seq<Widget>, h: Heap, synth: Value, nrpn: Value)
    ensures ValuesAt(cs, h, synth, nrpn) == [] <==> forall c :: c in cs ==> !Selected(h, c, synth, nrpn)
  {
    if cs != [] {
      var init, c := cs[..|cs| - 1], cs[|cs| - 1];
      assert cs == init + [c];
      ValuesAtEmpty(init, h, synth, nrpn);
    }
  }

  lemma {:induction false} ValuesAtAll(cs: seq<Widget>, h: Heap, synth: Value, nrpn: Value, v: int)
    requires forall c :: c in cs && Selected(h, c, synth, nrpn) ==> ValueOf(h, c.id) == v
    ensures forall x :: x in ValuesAt(cs, h, synth, nrpn) ==> x == v
  {
    if cs != [] {
      var init, c := cs[..|cs| - 1], cs[|cs| - 1];
      assert cs == init + [c];
      ValuesAtAll(init, h, synth, nrpn, v);
    }
  }

  lemma {:induction false} ValuesAtSameSelection(cs: seq<Widget>, h: Heap, h': Heap, synth: Value, nrpn: Value)
    requires SameProps(h, h')
    ensures |ValuesAt(cs, h', synth, nrpn)| == |ValuesAt(cs, h, synth, nrpn)|
  {
    if cs != [] {
      var init, c := cs[..|cs| - 1], cs[|cs| - 1];
      assert Selected(h, c, synth, nrpn) == Selected(h', c, synth, nrpn);
      ValuesAtSameSelection(init, h, h', synth, nrpn);
    }
  }

  /** Value round trip: when every controller read back for `(s, n)` is a base
      controller on channel `s`, reading `[n]` for synth `s` after the inbound
      update `(s, n, v)` yields `v` once per such controller. */
  lemma {:induction false} ValueRoundTrip(cs: seq<Widget>, h: Heap, s: Value, n: Value, v: int)
    requires DistinctIds(cs)
    requires forall c :: c in cs ==> c.id in h
    requires forall c :: c in cs && Selected(h, c, s, n) ==> Addressed(h, c, s, n)
    ensures var out := GetValues(cs, SetValue(cs, h, s, n, v), s, [n]);
            |out| == |ValuesAt(cs, h, s, n)| && forall x :: x in out ==> x == v
  {
    var h' := SetValue(cs, h, s, n, v);
    SetValueResult(cs, h, s, n, v);
    SetValueFrame(cs, h, s, n, v);
    assert SameProps(h, h');
    assert GetValues(cs, h', s, [n]) == ValuesAt(cs, h', s, n) by {
      assert [n][..0] == [];
    }
    forall c | c in cs && Selected(h', c, s, n) ensures ValueOf(h', c.id) == v {
      assert Selected(h, c, s, n);
    }
    ValuesAtAll(cs, h', s, n, v);
    ValuesAtSameSelection(cs, h, h', s, n);
  }

  // ---------------------------------------------------------------------------
  // send_all

  /** The sends `send_all(synth)` triggers, in list order. */
  function SendsFor(cs: seq<Widget>, h: Heap, synth: Value): seq<Event> {
    if cs == [] then []
    else
      var c := cs[|cs| - 1];
      SendsFor(cs[..|cs| - 1], h, synth) + (if Synth(h, c) == synth then [ValueSent(c.id)] else [])
  }

  /** Exactly the controllers of the synth are sent, and nothing but sends happens. */
  lemma {:induction false} SendsForMembers(cs: seq<Widget>, h: Heap, synth: Value, e: Event)
    ensures e in SendsFor(cs, h, synth) <==> e.ValueSent? && exists c :: c in cs && c.id == e.id && Synth(h, c) == synth
  {
    if cs != [] {
      var init, c := cs[..|cs| - 1], cs[|cs| - 1];
      assert cs == init + [c];
      SendsForMembers(init, h, synth, e);
    }
  }

  /** The sends follow the list order: splitting the list splits the sends at the same place. */
  lemma {:induction false} SendsForConcat(a: seq<Widget>, b: seq<Widget>, h: Heap, synth: Value)
    ensures SendsFor(a + b, h, synth) == SendsFor(a, h, synth) + SendsFor(b, h, synth)
  {
    if b == [] {
      assert a + b == a;
    } else {
      var init, c := b[..|b| - 1], b[|b| - 1];
      assert a + b == (a + init) + [c];
      assert (a + b)[..|a + b| - 1] == a + init;
      SendsForConcat(a, init, h, synth);
    }
  }
}
