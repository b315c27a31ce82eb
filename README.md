# Synth-Controller: the controller manager

A Dafny model of `ControllerManager`, the object at the centre of the
Synth-Controller application. The application builds Kivy screens whose widget
trees hold controllers (sliders, radio groups, drop-downs, utility buttons)
for the parameters of hardware synthesizers. The manager:

- walks every screen's widget tree and keeps a list of the base and utility
  controllers it finds;
- propagates the `synth` and `nrpn` properties down the trees, so a
  controller inherits the synth and NRPN number of the nearest ancestor that
  sets them (`synth` falls back to `"default"`);
- assigns each controller the MIDI channel of its synth;
- links controllers that address the same (channel, NRPN), binds them to
  MIDI and to the patch manager, hands radio buttons their group, loads
  drop-down option lists, and sets the controllers up;
- moves values between the controllers and MIDI: an inbound value, a batch
  of values from a patch dump, a read-back in NRPN order, and a send of every
  controller of one synth.

## Structure

| file | module | what it holds |
|---|---|---|
| `widgets.dfy` | `Widgets` | widget trees, the widget state heap, pre-order, `_walk_tree` as a generic fold and the order of its calls |
| `propagation.dfy` | `Propagation`, `PropagationLaws` | `_propigate_property_if_type` and `_set_property_if_type` passes: frame, precedence, type restriction, nearest-ancestor inheritance, default, locality, idempotence |
| `discovery.dfy` | `Discovery` | `_collect_controllers` and what discovery finds |
| `screens.dfy` | `Screens` | `_propigate_properties` over all screens |
| `routing.dfy` | `Routing` | `set_channels`, `_link_controllers`, `set_controller_value(s)`, `get_controller_values`, `send_all` as functions on the heap |
| `initialisation.dfy` | `Initialisation` | `initialise_controllers`: the resulting heap and the requests it makes |
| `manager.dfy` | `Manager` | the `ControllerManager` class, each operation a method proved against the functions above |

Widget identity, class and children never change while the manager runs, so a
tree is a datatype `Widget(id, kind, children)`. What the manager changes (the
Kivy properties `synth`, `nrpn`, `group`, `option_list`, and the controller
attributes `channel`, `value`, `linked`) lives in a heap `map<WidgetId,
WidgetState>`, a field of the class. The controller list holds widgets whose
state is looked up by id. So a controller in the list and the same widget met
in a tree walk share one state, as Python objects do.

Calls the manager makes into code outside it (`bind`, `add_options`, `setup`,
`display_selected`, `send_value`) are appended to an `events` log in the
class. Each event carries the id of the widget it concerns.

Exceptions are outcomes, not preconditions. `set_channels` stops at the first
synth without a channel (`KeyError`), and `set_controller_values` stops at the
first byte without an NRPN (`IndexError`). Each returns `ok == false` and keeps
the updates made before the raise.

## Model

| member | source | states |
|---|---|---|
| Widgets.SetProp | synth_controller/controller_manager.py:133-134 | a property write sets that property of that widget; its other properties, its channel, value and links, and every other widget stay as they were |
| Widgets.Walk | synth_controller/controller_manager.py:117-122 | no contract of its own: `func` is called on the node with the inherited value, then each child is walked in order with the value `func` returned, threading the state; its call order is stated by `Widgets.WalkRecordsCalls`, `Widgets.CallsVisitPreOrder` and `Widgets.ChildWalkedWithParentValue` |
| Widgets.WalkChildren | synth_controller/controller_manager.py:121-122 | no contract of its own: the children's walks one after the other, each from the state the previous one left |
| Widgets.WalkRecordsCalls | synth_controller/controller_manager.py:117-122 | a walk with a recording step appends exactly the calls `Calls` lists, in order, to the log |
| Widgets.CallsVisitPreOrder | synth_controller/controller_manager.py:117-122 | whatever `func` returns, the walk calls it once per node of the tree, in pre-order |
| Widgets.ChildWalkedWithParentValue | synth_controller/controller_manager.py:117-122 | the node is called first with the value it inherited; child `k`'s whole subtree is walked next after children `0..k-1`, and it inherits the value `func` returned for the parent |
| Propagation.Effective | synth_controller/controller_manager.py:142-145 | the value passed on is the widget's own value when that is truthy, otherwise the inherited one (also when the property is undeclared); it is truthy iff one of the two is |
| Propagation.PropagateAt | synth_controller/controller_manager.py:137-150 | no contract of its own: one call computes `Effective` and writes it when the widget is a `w_type` and the value is truthy; its properties are the pass lemmas below |
| Propagation.PropagatePass | synth_controller/controller_manager.py:137-150 | no contract of its own: the walk with `PropagateAt` from the default; its meaning is stated by `PropagationLaws.PropagateInheritsNearest` and the frame, precedence and idempotence lemmas |
| Propagation.SetIfUnsetAt | synth_controller/controller_manager.py:130-135 | no contract of its own: one call writes the value to a `w_type` whose property is falsy and hands the value on unchanged |
| Propagation.SetIfUnsetPass | synth_controller/controller_manager.py:130-135 | no contract of its own: the walk with `SetIfUnsetAt`; its result is stated by `PropagationLaws.SetIfUnsetPassResult` |
| Propagation.PropagateChangesOnlyProp | synth_controller/controller_manager.py:137-150 | a propagation pass changes only property `prop`, and only on widgets of the walked tree |
| Propagation.PropagateNeverOverwritesSet | synth_controller/controller_manager.py:142-148 | precedence: a widget whose own value is truthy keeps it, whatever its ancestors hold |
| Propagation.PropagateWritesOnlyType | synth_controller/controller_manager.py:147-148 | a widget that is not an instance of `w_type` is left exactly as it was |
| Propagation.PropagateDefault | synth_controller/controller_manager.py:137-150 | with a truthy default, when no widget sets `prop` to a truthy value other than the default, every widget of type `w_type` ends holding the default; a falsy default, such as the `None` of the nrpn pass, is never written, so those widgets keep their own falsy or undeclared value (`PropagationLaws.PropagateInheritsNearest`) |
| PropagationLaws.PropagateLocal | synth_controller/controller_manager.py:137-150 | what a pass leaves on a tree depends only on that tree's own widgets |
| PropagationLaws.PropagateIdempotent | synth_controller/controller_manager.py:137-150 | running the same pass twice leaves the heap as one run left it |
| PropagationLaws.SetIfUnsetPassResult | synth_controller/controller_manager.py:130-135 | a widget of type `w_type` whose property is falsy gets the value; every other widget of the tree is unchanged |
| PropagationLaws.EffAlongNone | synth_controller/controller_manager.py:142-145 | along a path where no widget sets the property, the value at its end is the value inherited at its start |
| PropagationLaws.EffAlongNearest | synth_controller/controller_manager.py:142-145 | along a path, the value at its end is the own value of the last widget on it that sets the property |
| PropagationLaws.PathTo | synth_controller/controller_manager.py:117-122 | every widget of a tree is reached by a path of parent-to-child steps from the root |
| PropagationLaws.PropagateInheritsNearest | synth_controller/controller_manager.py:137-150 | for the widget at the end of any path from the root: when it is a `w_type` and the value along the path (its own, else its nearest ancestor's, else the default) is truthy, it ends holding that value and nothing else of it changes; otherwise it is unchanged |
| Discovery.CollectStep | synth_controller/controller_manager.py:124-128 | no contract of its own: one call appends the widget when it is a base or utility controller |
| Discovery.ControllersIn | synth_controller/controller_manager.py:124-128 | the controllers among a list of widgets, in order; its contract bounds the length by the input's; what it holds is stated by the three lemmas below |
| Discovery.ControllersInSound | synth_controller/controller_manager.py:124-128 | every widget collected is a base or utility controller of the walked widgets |
| Discovery.ControllersInComplete | synth_controller/controller_manager.py:124-128 | every base or utility controller among the walked widgets is collected |
| Discovery.ControllersInDistinct | synth_controller/controller_manager.py:124-128 | distinct widgets give a list without repeats |
| Discovery.ControllersInConcat | synth_controller/controller_manager.py:14-15 | collecting over two parts in turn is collecting over each part, results joined in order |
| Discovery.CollectWalk | synth_controller/controller_manager.py:124-128 | walking one tree appends its controllers, in pre-order, to the list found so far |
| Discovery.CollectScreen | synth_controller/controller_manager.py:14-15 | one turn of the screen loop extends the list with that screen's controllers |
| Discovery.DiscoveredControllers | synth_controller/controller_manager.py:10-15 | after all screens, a widget is listed iff it is a base or utility controller on a screen; nothing is listed twice; screen order is kept |
| Screens.PropagateScreen | synth_controller/controller_manager.py:21-42 | no contract of its own: the three passes on one screen (synth to base controllers, synth to utility controllers, nrpn to base controllers) in that order |
| Screens.PropagateScreens | synth_controller/controller_manager.py:18-42 | no contract of its own: `PropagateScreen` on each screen in order |
| Screens.ScreenFrame | synth_controller/controller_manager.py:21-42 | the three passes on one screen change only `synth` and `nrpn`, only on that screen's widgets |
| Screens.ScreensFrame | synth_controller/controller_manager.py:18-42 | propagation over all screens changes only `synth` and `nrpn`, only on the screens' widgets |
| Screens.ScreensKeepTruthy | synth_controller/controller_manager.py:18-42 | any property a widget sets to a truthy value itself survives propagation |
| Screens.ScreenDefaultSynth | synth_controller/controller_manager.py:22-35 | on a screen where nothing sets `synth` other than to "default", every base and utility controller ends with synth "default" |
| Screens.ScreensIndependent | synth_controller/controller_manager.py:21-42 | what propagation leaves on screen `k` equals what propagating that screen alone leaves |
| Screens.ScreensDefaultSynth | synth_controller/controller_manager.py:18-42 | the default-synth result holds after all screens have been propagated |
| Routing.FirstUnmapped | synth_controller/controller_manager.py:52-53 | the index of the first controller whose synth has no channel (or the length): every synth before it is mapped and the one at it is not |
| Routing.AssignChannels | synth_controller/controller_manager.py:49-53 | keeps the set of widgets; which channels it sets is stated by `Routing.ChannelsAssigned` |
| Routing.FirstUnmappedAll | synth_controller/controller_manager.py:52-53 | the loop reaches the end iff every controller's synth has a channel |
| Routing.ChannelsKept | synth_controller/controller_manager.py:52-53 | a widget that is not among the controllers before the first unmapped synth keeps its whole state |
| Routing.ChannelsAssigned | synth_controller/controller_manager.py:49-53 | the controllers before the first unmapped synth get the channel of their synth and nothing else changes; every other widget is unchanged |
| Routing.LinkTargets | synth_controller/controller_manager.py:152-157 | no contract of its own: the ids appended to `con_i.linked`, in list order; stated by `Routing.LinkTargetsMembers` and `Routing.LinkSymmetric` |
| Routing.LinkTargetsMembers | synth_controller/controller_manager.py:154-157 | an id is appended iff it belongs to another listed controller with the same (channel, nrpn) |
| Routing.LinkSymmetric | synth_controller/controller_manager.py:152-157 | a controller is never linked to itself, and `b` is a target of `a` iff `a` is a target of `b` |
| Routing.SetValue | synth_controller/controller_manager.py:159-166 | keeps the set of widgets; what it changes is stated by `Routing.SetValueFrame` and `Routing.SetValueResult` |
| Routing.SetValueFrame | synth_controller/controller_manager.py:162-166 | an inbound value changes stored values and nothing else |
| Routing.SetValueAt | synth_controller/controller_manager.py:162-166 | a listed controller takes the value iff it is a base controller at that (channel, nrpn) |
| Routing.SetValueKept | synth_controller/controller_manager.py:162-166 | a widget that is not in the list keeps its state |
| Routing.SetValueResult | synth_controller/controller_manager.py:159-166 | exactly the addressed controllers take the value; every other widget is unchanged |
| Routing.SetValueNoMatch | synth_controller/controller_manager.py:159-166 | when no controller is addressed, the heap is unchanged |
| Routing.SetValues | synth_controller/controller_manager.py:168-172 | requires no more bytes than NRPNs (the method cuts the bytes at the `IndexError`); keeps the set of widgets; stated by `Routing.SetValuesFrame`, `Routing.SetValuesLastWins`, `Routing.SetValuesUnaddressed` and `Routing.SetValuesKept` |
| Routing.SetValuesFrame | synth_controller/controller_manager.py:168-172 | a batch update changes stored values and nothing else |
| Routing.SetValuesLastWins | synth_controller/controller_manager.py:168-172 | a controller ends with the last byte addressed to it, the synth being matched against its channel |
| Routing.SetValuesUnaddressed | synth_controller/controller_manager.py:168-172 | a controller no byte addresses keeps its state |
| Routing.SetValuesKept | synth_controller/controller_manager.py:168-172 | a widget that is not in the controller list keeps its whole state through the batch |
| Routing.ValuesAt | synth_controller/controller_manager.py:179-181 | no contract of its own: the values of the listed controllers with that synth and NRPN, in list order |
| Routing.GetValues | synth_controller/controller_manager.py:174-182 | no contract of its own: `ValuesAt` for each NRPN in order, concatenated; stated by `Routing.GetValuesConcat` |
| Routing.GetValuesConcat | synth_controller/controller_manager.py:177-182 | the output for `a + b` is the output for `a` followed by the output for `b` |
| Routing.ValuesAtEmpty | synth_controller/controller_manager.py:179-181 | an NRPN contributes nothing iff no controller of the synth has that NRPN |
| Routing.ValuesAtAll | synth_controller/controller_manager.py:179-181 | when every selected controller holds `v`, every value read is `v` |
| Routing.ValuesAtSameSelection | synth_controller/controller_manager.py:179-181 | the number of values read depends only on the properties, not on the stored values |
| Routing.ValueRoundTrip | synth_controller/controller_manager.py:159-182 | when every controller read back for `(s, n)` is a base controller on channel `s`, reading `[n]` after the inbound value `(s, n, v)` gives `v` once per such controller |
| Routing.SendsFor | synth_controller/controller_manager.py:184-187 | no contract of its own: one send per listed controller of the synth, in list order; stated by `Routing.SendsForMembers` and `Routing.SendsForConcat` |
| Routing.SendsForMembers | synth_controller/controller_manager.py:184-187 | exactly the controllers of the synth send their value, and nothing but sends happens |
| Routing.SendsForConcat | synth_controller/controller_manager.py:184-187 | sends follow list order: the sends for `a + b` are those for `a` followed by those for `b` |
| Initialisation.OptionsEvents | synth_controller/controller_manager.py:90-97 | an option list is added iff the controller declares `option_list`, its synth is in the catalogue and the key is in the synth's lists; it is then exactly `lists[synth][key]`, once; otherwise nothing is added |
| Initialisation.InitHeap | synth_controller/controller_manager.py:73-88 | no contract of its own: a base controller's `linked` grows by its link targets and a radio controller's group goes to its unset radio buttons; stated by `Initialisation.InitHeapFrame`, `Initialisation.InitHeapRadioGroup` and `Initialisation.InitHeapGroupElsewhere` |
| Initialisation.Initialised | synth_controller/controller_manager.py:73-88 | no contract of its own: `InitHeap` for each controller of a prefix in order; stated by `Initialisation.InitialisedLinks` and `Initialisation.InitialisedKeepsCoords` |
| Initialisation.InitRequests | synth_controller/controller_manager.py:76-114 | no contract of its own: the MIDI bind, options, setup and display of a base controller, or the four patch binds of a utility controller; stated by `Initialisation.InitRequestsOwn` and `Initialisation.RequestsPerController` |
| Initialisation.InitLog | synth_controller/controller_manager.py:73-114 | no contract of its own: `InitRequests` for each controller in order; stated by `Initialisation.InitLogFor` and `Initialisation.InitLogNone` |
| Initialisation.InitHeapFrame | synth_controller/controller_manager.py:73-88 | one controller's initialisation changes only `linked` and `group`; only its own `linked` grows, by its link targets, and only for base controllers |
| Initialisation.InitHeapRadioGroup | synth_controller/controller_manager.py:81-88 | initialising a radio controller gives its group to every radio button in its subtree whose group is unset; a radio button whose group is set, every other widget of the subtree, and every widget outside the subtree keeps its group |
| Initialisation.InitHeapGroupElsewhere | synth_controller/controller_manager.py:73-88 | initialising a controller keeps the `group` of every widget, except inside the subtree of a radio controller |
| Initialisation.InitialisedKeepsCoords | synth_controller/controller_manager.py:73-114 | initialisation never changes channel, value, or any property but `group` |
| Initialisation.InitialisedLinks | synth_controller/controller_manager.py:73-75 | after initialising a list prefix, each base controller in it has gained exactly its link targets; no other `linked` changes |
| Initialisation.LinkedAfterInit | synth_controller/controller_manager.py:73-75 | after the whole list, two distinct base controllers with the same (channel, nrpn) are linked both ways, and an initially empty list never holds its own id |
| Initialisation.InitRequestsOwn | synth_controller/controller_manager.py:73-114 | every request made while initialising a controller concerns that controller |
| Initialisation.InitLogNone | synth_controller/controller_manager.py:73-114 | no request concerns a widget that is not in the list |
| Initialisation.InitLogFor | synth_controller/controller_manager.py:73-114 | the requests concerning a listed controller are exactly those of its own turn |
| Initialisation.RequestsPerController | synth_controller/controller_manager.py:73-114 | a base controller gets one MIDI bind, then at most one option list, then setup and display; a utility controller gets the four patch binds once each; a non-drop-down never gets options |
| Manager.ControllerManager.constructor | synth_controller/controller_manager.py:10-16 | the list is the screens' controllers in pre-order, screen by screen; the heap is the propagated initial heap; nothing is requested |
| Manager.ControllerManager.PropagateProperties | synth_controller/controller_manager.py:18-42 | the heap becomes `PropagateScreens` of the old heap |
| Manager.ControllerManager.Synths | synth_controller/controller_manager.py:44-47 | the result has no repeats and holds exactly the synths of the listed controllers |
| Manager.ControllerManager.SetChannels | synth_controller/controller_manager.py:49-53 | `ok` iff every synth has a channel; the heap is that of the loop stopped at the first `KeyError` |
| Manager.ControllerManager.LinkControllers | synth_controller/controller_manager.py:152-157 | `con_i.linked` grows by its link targets in list order; nothing else changes |
| Manager.ControllerManager.InitialiseControllers | synth_controller/controller_manager.py:55-114 | the heap and the request log are those of initialising every controller in list order |
| Manager.ControllerManager.InitialiseController | synth_controller/controller_manager.py:73-114 | one turn of the loop: the heap after it, and the requests it appends |
| Manager.ControllerManager.SetControllerValue | synth_controller/controller_manager.py:159-166 | the heap becomes `SetValue` of the old heap; only the heap may change, so nothing is sent |
| Manager.ControllerManager.SetControllerValues | synth_controller/controller_manager.py:168-172 | `ok` iff there are no more bytes than NRPNs; the bytes before the `IndexError` are applied in order |
| Manager.ControllerManager.GetControllerValues | synth_controller/controller_manager.py:174-182 | the output is the concatenation, in NRPN order, of the values of the controllers of the synth at each NRPN |
| Manager.ControllerManager.SendAll | synth_controller/controller_manager.py:184-187 | one send per controller of the synth, in list order, appended to the log |

Two behaviours of the code are kept as written.

- `set_controller_values` passes the synth where `set_controller_value`
  expects a channel. So a controller is updated only when its channel value
  equals the synth value (`Routing.SetValues`, `Routing.SetValuesLastWins`).
- `get_controller_values` selects by synth and NRPN with no
  `BaseController` test. Any listed controller with a matching synth and NRPN
  is read, utility controllers included (`Routing.Selected`).

## Left out

- `synth_controller/error_handler.py` is not part of this model.
- `synth_controller/controllers.py` is not part of this model. The class hierarchy is assumed:
  - `RadioController`, `DropDownController` and `RadioButton` are `BaseController` subclasses.
  - `UtilityController` is not one.
- Kivy is not modelled. Screens are a sequence, in the order the screen dictionary yields them. Widget children never change.
- The calls into MIDI, the patch manager and the controllers' own methods are recorded as events, not executed. This covers `bind`, `add_options`, `setup`, `display_selected`, `send_value` and the callbacks behind the bindings.
  - What the option list renders is not modelled.
  - What the bound callbacks later do is not modelled.
- `Widgets.Attr`: reading an undeclared property gives `None` where Python would raise. The model does not require that any widget declares a property.
  - `_set_property_if_type` (line 133) reads through `widget.property(prop)`, which raises `KeyError` when the widget does not declare `prop`, for example a `RadioButton` without `group`. `Propagation.SetIfUnsetAt` reads that property as unset and writes the value instead.
  - `controller.synth` and `controller.nrpn` outside the passes would raise `AttributeError` when undeclared. The model reads them as `None`.
  - A drop-down that does not declare `option_list` raises `AttributeError`, which the code catches (line 95). `Initialisation.OptionsEvents` models that as a skip.
- `Widgets.SetProp`: writing an undeclared property adds it. Kivy's `widget.property(prop)` would raise `KeyError` at lines 134 and 148, which no `try` covers. Whether every `w_type` declares the property passed to it depends on `synth_controller/controllers.py`, which is not part of this model.
- `Manager.ControllerManager.Synths`: Python's `list(set(...))` has no defined order. The contract states the membership and the absence of repeats but no order.
- `get_value()` is modelled as the stored value, and `set_without_sending_midi` as replacing it.
  - `Manager.ControllerManager.SetControllerValue` does not emit a MIDI send. This is stated by its frame: it may modify only the heap, not the request log.
- `Initialisation.InitRequests` reads `synth` and `option_list` from the heap before initialisation. `Initialisation.InitialisedKeepsCoords` proves initialisation never changes them, so this equals reading them at the moment the code does. The method itself reads the current heap.
- A utility controller at the same (channel, nrpn) as a base controller is appended to that base controller's `linked`, as in the code. `_link_controllers` does not test the class of `con_j`.
- Concurrency is not modelled. MIDI input and Kivy callbacks arriving during an operation are out of scope.
