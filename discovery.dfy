/**
 * Controller discovery: `_collect_controllers`, walked over every screen by
 * the manager's constructor.
 */
module Discovery {
  import opened Widgets

  /** `_collect_controllers(widget, _)`: append the widget to the list if it is a
      base or utility controller; the value handed to the children is `None`. */
  function CollectStep(): (Widget, Value, seq<Widget>) -> (Value, seq<Widget>) {
    (w: Widget, v: Value, found: seq<Widget>) => (None, if IsController(w.kind) then found + [w] else found)
  }

  /** The controllers among `ns`, in the order of `ns`. */
  function ControllersIn(ns: seq<Widget>): (r: seq<Widget>)
    ensures |r| <= |ns|
  {
    if ns == [] then [] else (if IsController(ns[0].kind) then [ns[0]] else []) + ControllersIn(ns[1..])
  }

  /** Everything kept is a controller taken from `ns`. */
  lemma {:induction false} ControllersInSound(ns: seq<Widget>, c: Widget)
    requires c in ControllersIn(ns)
    ensures c in ns && IsController(c.kind)
  {
    if c != ns[0] || !IsController(c.kind) {
      ControllersInSound(ns[1..], c);
    }
  }

  lemma {:induction false} ControllersInConcat(a: seq<Widget>, b: seq<Widget>)
    ensures ControllersIn(a + b) == ControllersIn(a) + ControllersIn(b)
  {
    if a == [] {
      assert a + b == b;
    } else {
      var head := if IsController(a[0].kind) then [a[0]] else [];
      assert (a + b)[0] == a[0] && (a + b)[1..] == a[1..] + b;
      ControllersInConcat(a[1..], b);
      assert head + (ControllersIn(a[1..]) + ControllersIn(b)) == (head + ControllersIn(a[1..])) + ControllersIn(b);
    }
  }

  lemma {:induction false} ControllersInComplete(ns: seq<Widget>, n: Widget)
    requires n in ns && IsController(n.kind)
    ensures n in ControllersIn(ns)
  {
    if ns[0] != n {
      ControllersInComplete(ns[1..], n);
    }
  }

  lemma {:induction false} ControllersInDistinct(ns: seq<Widget>)
    requires DistinctIds(ns)
    ensures DistinctIds(ControllersIn(ns))
  {
    if ns != [] {
      DistinctIdsSplit([ns[0]], ns[1..]);
      assert [ns[0]] + ns[1..] == ns;
      ControllersInDistinct(ns[1..]);
      var head := if IsController(ns[0].kind) then [ns[0]] else [];
      var r := head + ControllersIn(ns[1..]);
      forall i, j | 0 <= i < j < |r| ensures r[i].id != r[j].id {
        if i < |head| {
          ControllersInSound(ns[1..], r[j]);
          assert r[i] == ns[0] && r[j] in ns[1..];
          assert r[j].id in IdSet(ns[1..]);
        }
      }
    }
  }

  /** Walking one tree with `_collect_controllers` appends its controllers in pre-order. */
  lemma {:induction false} CollectWalk(w: Widget, v: Value, found: seq<Widget>)
    ensures Walk(w, CollectStep(), v, found) == found + ControllersIn(PreOrder(w))
    decreases w, 1
  {
    var found' := if IsController(w.kind) then found + [w] else found;
    CollectChildren(w.children, None, found');
    ControllersInConcat([w], PreOrderAll(w.children));
  }

  lemma {:induction false} CollectChildren(ws: seq<Widget>, v: Value, found: seq<Widget>)
    ensures WalkChildren(ws, CollectStep(), v, found) == found + ControllersIn(PreOrderAll(ws))
    decreases ws, 0
  {
    if ws == [] {
      assert found + [] == found;
    } else {
      var first, rest := ControllersIn(PreOrder(ws[0])), ControllersIn(PreOrderAll(ws[1..]));
      CollectWalk(ws[0], v, found);
      CollectChildren(ws[1..], v, found + first);
      ControllersInConcat(PreOrder(ws[0]), PreOrderAll(ws[1..]));
      assert found + first + rest == found + (first + rest);
    }
  }

  /** One turn of the constructor's loop: walking screen `i` extends the list
      with that screen's controllers. */
  lemma {:induction false} CollectScreen(screens: seq<Widget>, i: nat, found: seq<Widget>)
    requires i < |screens| && found == ControllersIn(PreOrderAll(screens[..i]))
    ensures Walk(screens[i], CollectStep(), None, found) == ControllersIn(PreOrderAll(screens[..i + 1]))
  {
    CollectWalk(screens[i], None, found);
    PreOrderAllSnoc(screens, i);
    ControllersInConcat(PreOrderAll(screens[..i]), PreOrder(screens[i]));
  }

  /** The controllers found are widgets of the screens. */
  lemma {:induction false} DiscoveredIds(screens: seq<Widget>)
    ensures IdSet(ControllersIn(PreOrderAll(screens))) <= IdSet(PreOrderAll(screens))
  {
    forall id | id in IdSet(ControllersIn(PreOrderAll(screens))) ensures id in IdSet(PreOrderAll(screens)) {
      var c :| c in ControllersIn(PreOrderAll(screens)) && c.id == id;
      ControllersInSound(PreOrderAll(screens), c);
    }
  }

  /** After discovery over all screens: the list holds exactly the base and
      utility controllers of the screens, screen by screen, each screen in
      pre-order, and no widget twice. */
  lemma {:induction false} DiscoveredControllers(screens: seq<Widget>)
    requires DistinctIds(PreOrderAll(screens))
    ensures forall n :: n in ControllersIn(PreOrderAll(screens)) <==> n in PreOrderAll(screens) && IsController(n.kind)
    ensures DistinctIds(ControllersIn(PreOrderAll(screens)))
    ensures screens != [] ==>
      ControllersIn(PreOrderAll(screens)) == ControllersIn(PreOrder(screens[0])) + ControllersIn(PreOrderAll(screens[1..]))
  {
    forall n | n in PreOrderAll(screens) && IsController(n.kind) ensures n in ControllersIn(PreOrderAll(screens)) {
      ControllersInComplete(PreOrderAll(screens), n);
    }
    forall n | n in ControllersIn(PreOrderAll(screens)) ensures n in PreOrderAll(screens) && IsController(n.kind) {
      ControllersInSound(PreOrderAll(screens), n);
    }
    ControllersInDistinct(PreOrderAll(screens));
    if screens != [] {
      ControllersInConcat(PreOrder(screens[0]), PreOrderAll(screens[1..]));
    }
  }
}
