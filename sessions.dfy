/**
  Properties of whole interactions with the drawer: a pan gesture session
  (Began, any number of Changed, then Ended or Cancelled), closing twice,
  and the two orders of attaching the child controllers.
 */
module Sessions {
  import opened Wrappers
  import opened Views
  import opened Drawer

  /** The state after the pan recognizer delivers `events` in order. */
  function Run(l: Layout, s: ContainerState, events: seq<PanEvent>): ContainerState
    decreases |events|
  {
    if events == [] then s else Run(l, PanStep(l, s, events[0]).next, events[1..])
  }

  lemma {:induction false} RunAppend(l: Layout, s: ContainerState, a: seq<PanEvent>, b: seq<PanEvent>)
    ensures Run(l, s, a + b) == Run(l, Run(l, s, a), b)
    decreases |a|
  {
    if a == [] {
      assert a + b == b;
    } else {
      assert (a + b)[0] == a[0] && (a + b)[1..] == a[1..] + b;
      RunAppend(l, PanStep(l, s, a[0]).next, a[1..], b);
    }
  }

  lemma {:induction false} RunKeepsWellFormed(l: Layout, s: ContainerState, events: seq<PanEvent>)
    requires WellFormed(s)
    ensures WellFormed(Run(l, s, events))
    ensures Run(l, s, events).main == s.main && Run(l, s, events).subviews == s.subviews
    decreases |events|
  {
    if events != [] {
      RunKeepsWellFormed(l, PanStep(l, s, events[0]).next, events[1..]);
    }
  }

  predicate AllChanged(changes: seq<PanEvent>)
  {
    forall i | 0 <= i < |changes| :: changes[i].state == Changed
  }

  /** A `Changed` callback whose translation the handler follows. */
  predicate Accepted(e: PanEvent)
  {
    !RejectsDrag(e.dx, e.dy)
  }

  predicate AnyAccepted(changes: seq<PanEvent>)
  {
    exists i | 0 <= i < |changes| :: Accepted(changes[i])
  }

  predicate AnyRejected(changes: seq<PanEvent>)
  {
    exists i | 0 <= i < |changes| :: !Accepted(changes[i])
  }

  /**
    Where a run of `Changed` callbacks leaves the main frame when it starts
    at `start`: the closed frame moved by the LAST accepted translation, or
    `start` when none was accepted.
   */
  function DraggedFrame(l: Layout, start: Rect, changes: seq<PanEvent>): Rect
    decreases |changes|
  {
    if changes == [] then start
    else
      var e := changes[0];
      DraggedFrame(l, if Accepted(e) then ClosedFrame(l).(x := l.bounds.x + e.dx) else start, changes[1..])
  }

  /** Position of the first accepted translation in a run of `Changed` callbacks. */
  function FirstAcceptedIndex(changes: seq<PanEvent>): (i: nat)
    requires AnyAccepted(changes)
    ensures i < |changes| && Accepted(changes[i])
    ensures forall j | 0 <= j < i :: !Accepted(changes[j])
    decreases |changes|
  {
    SplitFirst(changes);
    if Accepted(changes[0]) then 0 else FirstAcceptedIndex(changes[1..]) + 1
  }

  lemma SplitFirst(changes: seq<PanEvent>)
    requires changes != []
    ensures AnyAccepted(changes) == (Accepted(changes[0]) || AnyAccepted(changes[1..]))
    ensures AnyRejected(changes) == (!Accepted(changes[0]) || AnyRejected(changes[1..]))
    ensures AllChanged(changes) ==> changes[0].state == Changed && AllChanged(changes[1..])
  {
  }

  /**
    A run of `Changed` callbacks moves only the main frame, to where the
    last accepted translation puts it; the pan recognizer ends enabled
    exactly when it started enabled and no translation was rejected; and
    at most ONE status-bar refresh is requested, exactly when a refresh
    was pending and some translation was accepted.
   */
  lemma {:induction false} DragFollowsLastAccepted(l: Layout, s: ContainerState, changes: seq<PanEvent>)
    requires MainFrame(s).Some?
    requires AllChanged(changes)
    ensures var r := Run(l, s, changes);
      r.main == s.main && r.left == s.left && r.subviews == s.subviews &&
      r.tapEnabled == s.tapEnabled &&
      r.hideStatusBarOnDrawerOpen == s.hideStatusBarOnDrawerOpen &&
      MainFrame(r) == Some(DraggedFrame(l, MainFrame(s).value, changes)) &&
      r.frames == s.frames[s.main.value := DraggedFrame(l, MainFrame(s).value, changes)] &&
      r.panEnabled == (s.panEnabled && !AnyRejected(changes)) &&
      r.pendingStatusBarAppearanceUpdate == (s.pendingStatusBarAppearanceUpdate && !AnyAccepted(changes)) &&
      s.statusBarUpdates <= r.statusBarUpdates &&
      |r.statusBarUpdates| == |s.statusBarUpdates| +
        (if s.pendingStatusBarAppearanceUpdate && AnyAccepted(changes) then 1 else 0) &&
      (s.pendingStatusBarAppearanceUpdate && AnyAccepted(changes) ==>
        r.statusBarUpdates[|s.statusBarUpdates|] ==
          (s.hideStatusBarOnDrawerOpen && l.bounds.x + changes[FirstAcceptedIndex(changes)].dx > 0.0))
    decreases |changes|
  {
    var m := s.main.value;
    if changes == [] {
      assert s.frames[m := s.frames[m]] == s.frames;
    } else {
      var e := changes[0];
      SplitFirst(changes);
      var s1 := PanStep(l, s, e).next;
      assert s1 == ChangedStep(l, s, e.dx, e.dy).next;
      var start1 := if Accepted(e) then ClosedFrame(l).(x := l.bounds.x + e.dx) else MainFrame(s).value;
      assert MainFrame(s1) == Some(start1);
      assert s1.frames == s.frames[m := start1] by {
        if !Accepted(e) {
          assert s.frames[m := s.frames[m]] == s.frames;
        }
      }
      DragFollowsLastAccepted(l, s1, changes[1..]);
    }
  }

  /**
    A complete gesture session on a drawer that has a main controller:
    the pan recognizer ends enabled whatever was rejected; the main view
    snaps to the open frame exactly when the last accepted drag left its X
    beyond half of `DrawerWidth`, to the closed frame otherwise, so its X is
    either the closed X or `DrawerWidth`; the tap recognizer is enabled
    exactly when the drawer is open; and the session requests one
    status-bar refresh on release plus one more if some drag was accepted.
   */
  lemma GestureSession(l: Layout, s: ContainerState, began: PanEvent, changes: seq<PanEvent>, release: PanEvent)
    requires WellFormed(s) && s.main.Some?
    requires began.state == Began && AllChanged(changes)
    requires release.state == Ended || release.state == Cancelled
    ensures var r := Run(l, s, [began] + changes + [release]);
      var before := DraggedFrame(l, MainFrame(s).value, changes);
      WellFormed(r) &&
      r.main == s.main && r.left == s.left && r.subviews == s.subviews &&
      r.panEnabled &&
      MainFrame(r) == Some(SnapTarget(l, before.x)) &&
      r.frames == s.frames[s.main.value := SnapTarget(l, before.x)] &&
      (MainFrame(r).value.x == l.bounds.x || MainFrame(r).value.x == l.drawerWidth) &&
      r.tapEnabled == DrawerOpen(l, r) &&
      r.pendingStatusBarAppearanceUpdate == !AnyAccepted(changes) &&
      s.statusBarUpdates <= r.statusBarUpdates &&
      |r.statusBarUpdates| == |s.statusBarUpdates| + (if AnyAccepted(changes) then 2 else 1) &&
      r.statusBarUpdates[|r.statusBarUpdates| - 1] == PrefersStatusBarHidden(r) &&
      r.hideStatusBarOnDrawerOpen == s.hideStatusBarOnDrawerOpen &&
      (AnyAccepted(changes) ==>
        r.statusBarUpdates[|s.statusBarUpdates|] ==
          (s.hideStatusBarOnDrawerOpen && l.bounds.x + changes[FirstAcceptedIndex(changes)].dx > 0.0))
  {
    var events := [began] + changes + [release];
    var s1 := PanStep(l, s, began).next;
    assert s1 == s.(pendingStatusBarAppearanceUpdate := true);
    RunAppend(l, s, [began] + changes, [release]);
    RunAppend(l, s, [began], changes);
    assert Run(l, s, [began]) == s1;
    DragFollowsLastAccepted(l, s1, changes);
    var s2 := Run(l, s1, changes);
    RunKeepsWellFormed(l, s1, changes);
    assert Run(l, s2, [release]) == ReleasedStep(l, s2).next;
  }

  /** Releasing exactly at half of `DrawerWidth` snaps closed: the threshold is strict. */
  lemma HalfwaySnapsClosed(l: Layout, s: ContainerState, dy: real)
    requires WellFormed(s) && s.main.Some?
    requires l.drawerWidth / 2.0 - l.bounds.x >= Abs(dy)
    ensures var drag := PanEvent(Changed, l.drawerWidth / 2.0 - l.bounds.x, dy);
      var r := Run(l, s, [PanEvent(Began, 0.0, 0.0), drag, PanEvent(Ended, 0.0, 0.0)]);
      MainFrame(r) == Some(ClosedFrame(l)) && r.tapEnabled == DrawerOpen(l, r)
  {
    var drag := PanEvent(Changed, l.drawerWidth / 2.0 - l.bounds.x, dy);
    assert Accepted(drag);
    assert [PanEvent(Began, 0.0, 0.0)] + [drag] + [PanEvent(Ended, 0.0, 0.0)] ==
           [PanEvent(Began, 0.0, 0.0), drag, PanEvent(Ended, 0.0, 0.0)];
    assert DraggedFrame(l, MainFrame(s).value, [drag]) == ClosedFrame(l).(x := l.drawerWidth / 2.0);
    GestureSession(l, s, PanEvent(Began, 0.0, 0.0), [drag], PanEvent(Ended, 0.0, 0.0));
  }

  /**
    A drag that was rejected because it went left or mostly vertically
    moves nothing and requests no refresh; the `Cancelled` that UIKit then
    delivers enables the pan recognizer again.
   */
  lemma RejectedDragThenCancel(l: Layout, s: ContainerState, dx: real, dy: real)
    requires WellFormed(s) && s.main.Some?
    requires RejectsDrag(dx, dy)
    ensures var mid := Run(l, s, [PanEvent(Began, 0.0, 0.0), PanEvent(Changed, dx, dy)]);
      !mid.panEnabled && mid.frames == s.frames && mid.statusBarUpdates == s.statusBarUpdates
    ensures var r := Run(l, s, [PanEvent(Began, 0.0, 0.0), PanEvent(Changed, dx, dy), PanEvent(Cancelled, 0.0, 0.0)]);
      r.panEnabled && MainFrame(r) == Some(SnapTarget(l, MainFrame(s).value.x))
  {
    var began := PanEvent(Began, 0.0, 0.0);
    var s1 := BeganStep(s).next;
    var drag := PanEvent(Changed, dx, dy);
    assert [began, drag][1..] == [drag] && [drag][1..] == [];
    assert Run(l, s1, [drag]) == Run(l, ChangedStep(l, s1, dx, dy).next, []);
    var ev := [began, PanEvent(Changed, dx, dy), PanEvent(Cancelled, 0.0, 0.0)];
    assert ev == [PanEvent(Began, 0.0, 0.0)] + [PanEvent(Changed, dx, dy)] + [PanEvent(Cancelled, 0.0, 0.0)];
    assert !Accepted(PanEvent(Changed, dx, dy));
    assert DraggedFrame(l, MainFrame(s).value, [PanEvent(Changed, dx, dy)]) == MainFrame(s).value;
    GestureSession(l, s, PanEvent(Began, 0.0, 0.0), [PanEvent(Changed, dx, dy)], PanEvent(Cancelled, 0.0, 0.0));
  }

  /**
    Dragging an already open drawer: the first accepted translation puts
    the main view at the closed frame plus `dx`, not the open frame plus
    `dx`, and the tap recognizer stays enabled. The drawer is then no
    longer open, except when `dx` happens to take X back to `DrawerWidth`.
   */
  lemma TapStaysEnabledWhileDraggingOpenDrawer(l: Layout, s: ContainerState, dx: real, dy: real)
    requires DrawerOpen(l, s) && s.tapEnabled && !RejectsDrag(dx, dy)
    ensures var r := Run(l, s, [PanEvent(Began, 0.0, 0.0), PanEvent(Changed, dx, dy)]);
      r.tapEnabled && MainFrame(r) == Some(ClosedFrame(l).(x := l.bounds.x + dx)) &&
      (DrawerOpen(l, r) <==> l.bounds.x + dx == l.drawerWidth)
  {
    var began, drag := PanEvent(Began, 0.0, 0.0), PanEvent(Changed, dx, dy);
    var s1 := PanStep(l, s, began).next;
    assert [began, drag][1..] == [drag] && [drag][1..] == [];
    assert Run(l, s, [began, drag]) == Run(l, s1, [drag]);
    assert Run(l, s1, [drag]) == ChangedStep(l, s1, dx, dy).next;
  }

  /** A second `CloseDrawer` leaves the frames as the first left them, yet disables tap and refreshes again. */
  lemma CloseIdempotent(l: Layout, s: ContainerState)
    requires s.main.Some?
    ensures var once := CloseStep(l, s).next;
      var twice := CloseStep(l, once);
      twice.outcome == Completed &&
      twice.next.frames == once.frames && !twice.next.tapEnabled &&
      twice.next.statusBarUpdates == once.statusBarUpdates + [once.statusBarUpdates[|once.statusBarUpdates| - 1]]
  {
  }

  /**
    Attaching main view `a` and left view `b` to a new container in either
    order gives the same stacking: the left view directly behind the main.
   */
  lemma ChildOrderIndependent(l: Layout, a: ViewId, b: ViewId)
    requires a != b
    ensures SetLeftStep(l, SetMainStep(l, Initial(), a), b).subviews == [b, a]
    ensures SetMainStep(l, SetLeftStep(l, Initial(), b), a).subviews == [b, a]
  {
    var m := SetMainStep(l, Initial(), a);
    assert m.subviews == [a] && m.main == Some(a) by {
      assert AddSubview([], a) == [a];
    }
    assert SetLeftStep(l, m, b).subviews == [b, a] by {
      assert Remove([a], b) == [a] && IndexOf([a], a) == 0;
      assert InsertSubviewBelow([a], b, a) == [b, a];
    }
    var k := SetLeftStep(l, Initial(), b);
    assert k.subviews == [b] by {
      assert AddSubview([], b) == [b];
    }
    assert SetMainStep(l, k, a).subviews == [b, a] by {
      assert AddSubview([b], a) == [b, a];
    }
  }

  /**
    Replacing the main controller never detaches the old one: its view
    stays in the container with the frame it had, the new view goes on
    top, and the tap flag is left as it was.
   */
  lemma ReplacingMainKeepsOldView(l: Layout, s: ContainerState, c: ViewId)
    requires MainFrame(s).Some? && s.main.value in s.subviews
    requires c !in s.subviews
    ensures var r := SetMainStep(l, s, c);
      r.subviews == s.subviews + [c] &&
      s.main.value in r.frames && r.frames[s.main.value] == MainFrame(s).value &&
      r.tapEnabled == s.tapEnabled
  {
  }

  /**
    So "left directly behind main" holds only for the first main
    controller: attaching `a`, then `b` on the left, then `c` as the new
    main leaves `a` between them.
   */
  lemma ReplacingMainSeparatesLeft(l: Layout, a: ViewId, b: ViewId, c: ViewId)
    requires a != b && b != c && a != c
    ensures SetMainStep(l, SetLeftStep(l, SetMainStep(l, Initial(), a), b), c).subviews == [b, a, c]
  {
    ChildOrderIndependent(l, a, b);
    var attached := SetLeftStep(l, SetMainStep(l, Initial(), a), b);
    assert attached.subviews == [b, a];
    assert c !in attached.subviews;
    assert [b, a] + [c] == [b, a, c];
  }

  /** The drag of the scenario below, from any state with the main frame at the origin. */
  lemma DragOpens(l: Layout, s: ContainerState)
    requires l.bounds.x == 0.0 && l.drawerWidth == DefaultDrawerWidth
    requires WellFormed(s) && s.main.Some? && MainFrame(s) == Some(l.bounds)
    ensures var r := Run(l, s, [PanEvent(Began, 0.0, 0.0), PanEvent(Changed, 250.0, 0.0), PanEvent(Ended, 0.0, 0.0)]);
      r.main == s.main && MainFrame(r) == Some(OpenFrame(l)) && r.tapEnabled
  {
    var began, drag, ended := PanEvent(Began, 0.0, 0.0), PanEvent(Changed, 250.0, 0.0), PanEvent(Ended, 0.0, 0.0);
    assert [began, drag, ended] == [began] + [drag] + [ended];
    assert Accepted(drag);
    assert [drag][1..] == [];
    assert DraggedFrame(l, l.bounds, [drag]) == l.bounds.(x := 250.0);
    GestureSession(l, s, began, [drag], ended);
  }

  /**
    The scenario of a 300-wide drawer: a 250 drag right opens it fully and
    enables tap-to-close; a tap then closes it and disables tap again.
   */
  lemma DragThenTap(main: ViewId, left: ViewId, bounds: Rect)
    requires main != left && bounds.x == 0.0
    ensures var l := Layout(bounds, DefaultDrawerWidth);
      var attached := SetLeftStep(l, SetMainStep(l, Initial(), main), left);
      var afterDrag := Run(l, attached, [PanEvent(Began, 0.0, 0.0), PanEvent(Changed, 250.0, 0.0), PanEvent(Ended, 0.0, 0.0)]);
      var closed := CloseStep(l, afterDrag).next;
      MainFrame(afterDrag).value.x == 300.0 && DrawerOpen(l, afterDrag) && afterDrag.tapEnabled &&
      MainFrame(closed) == Some(bounds) && !DrawerOpen(l, closed) && !closed.tapEnabled
  {
    var l := Layout(bounds, DefaultDrawerWidth);
    var withMain := SetMainStep(l, Initial(), main);
    var attached := SetLeftStep(l, withMain, left);
    assert withMain.main == Some(main) && MainFrame(withMain) == Some(bounds) && WellFormed(withMain);
    assert attached.main == Some(main) && MainFrame(attached) == Some(bounds) && WellFormed(attached);
    DragOpens(l, attached);
  }
}
