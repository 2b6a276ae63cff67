/**
  The drawer container's state as a value, and one function per operation
  of `ContainerViewController` giving the state after it. The class in
  module Container runs the same operations step by step on its fields and
  is proved to end in the state these functions give.

  Coordinates are reals; the screen bounds and `DrawerWidth` are the
  parameters of a `Layout`. Every animation block is taken as an immediate
  assignment of its end value, followed at once by its completion block.
 */
module Drawer {
  import opened Wrappers
  import opened Views

  datatype Rect = Rect(x: real, y: real, width: real, height: real)

  /** `UIScreen.MainScreen.Bounds` and the static `DrawerWidth`. */
  datatype Layout = Layout(bounds: Rect, drawerWidth: real)

  /** The initial value of `DrawerWidth`. */
  const DefaultDrawerWidth: real := 300.0

  /** `MainViewControllerFrame`: the main view fully covering the screen. */
  function ClosedFrame(l: Layout): Rect
  {
    l.bounds
  }

  /** `LeftViewControllerFrame`: the left view always covers the screen. */
  function LeftFrame(l: Layout): Rect
  {
    l.bounds
  }

  /** `MainViewControllerFrameOpen`: the closed frame moved to X = `DrawerWidth`. */
  function OpenFrame(l: Layout): (r: Rect)
    ensures r.x == l.drawerWidth
    ensures r == ClosedFrame(l).(x := l.drawerWidth)
  {
    Rect(l.drawerWidth, l.bounds.y, l.bounds.width, l.bounds.height)
  }

  /**
    Everything the controller changes: the two hosted controllers (by the id
    of their views), the frame of every view it has placed, the container
    view's subviews back to front, the two recognizers' `Enabled` flags,
    `pendingStatusBarAppearanceUpdate`, and the answers of
    `PrefersStatusBarHidden` at each status-bar refresh requested so far.
   */
  datatype ContainerState = ContainerState(
    hideStatusBarOnDrawerOpen: bool,
    left: Option<ViewId>,
    main: Option<ViewId>,
    frames: map<ViewId, Rect>,
    subviews: seq<ViewId>,
    panEnabled: bool,
    tapEnabled: bool,
    pendingStatusBarAppearanceUpdate: bool,
    statusBarUpdates: seq<bool>)

  /** How a call ends: normally, or with the NullReferenceException C# raises
      when it dereferences `MainViewController` while there is none. */
  datatype Outcome = Completed | NullReference

  datatype Step = Step(next: ContainerState, outcome: Outcome)

  /** The invariant every operation keeps. */
  ghost predicate WellFormed(s: ContainerState)
  {
    NoDuplicates(s.subviews) &&
    (s.main.Some? ==> s.main.value in s.frames && s.main.value in s.subviews) &&
    (s.left.Some? ==> s.left.value in s.frames && s.left.value in s.subviews)
  }

  /** `MainViewController?.View.Frame`. */
  function MainFrame(s: ContainerState): Option<Rect>
  {
    if s.main.Some? && s.main.value in s.frames then Some(s.frames[s.main.value]) else None
  }

  /** `DrawerOpen`: the lifted comparison `MainViewController?.View.Frame == MainViewControllerFrameOpen`. */
  predicate DrawerOpen(l: Layout, s: ContainerState)
    ensures DrawerOpen(l, s) ==> s.main.Some? && MainFrame(s).Some? && MainFrame(s).value.x == l.drawerWidth
    ensures MainFrame(s).Some? && MainFrame(s).value.x != l.drawerWidth ==> !DrawerOpen(l, s)
    ensures DrawerOpen(l, s) <==>
      s.main.Some? && s.main.value in s.frames && s.frames[s.main.value] == ClosedFrame(l).(x := l.drawerWidth)
  {
    MainFrame(s) == Some(OpenFrame(l))
  }

  /** `PrefersStatusBarHidden`: with no main controller the lifted `X > 0` is false. */
  predicate PrefersStatusBarHidden(s: ContainerState)
    ensures !s.hideStatusBarOnDrawerOpen ==> !PrefersStatusBarHidden(s)
    ensures s.main.None? ==> !PrefersStatusBarHidden(s)
    ensures s.hideStatusBarOnDrawerOpen && MainFrame(s).Some? ==>
      (PrefersStatusBarHidden(s) <==> MainFrame(s).value.x > 0.0)
  {
    s.hideStatusBarOnDrawerOpen && match MainFrame(s) case Some(f) => f.x > 0.0 case None => false
  }

  /** `updateStatusBarAppearance`: UIKit asks `PrefersStatusBarHidden` again. */
  function UpdateStatusBarAppearance(s: ContainerState): ContainerState
  {
    s.(statusBarUpdates := s.statusBarUpdates + [PrefersStatusBarHidden(s)])
  }

  /**
    The state right after construction. The constructor reads `View`, which
    makes UIKit load the view and run `ViewDidLoad`: the tap recognizer is
    created disabled, the pan recognizer enabled (UIKit's default).
   */
  function Initial(): (r: ContainerState)
    ensures WellFormed(r)
    ensures !r.tapEnabled && r.panEnabled && !r.pendingStatusBarAppearanceUpdate
    ensures r.main.None? && r.left.None? && forall l: Layout :: !DrawerOpen(l, r)
    ensures r.hideStatusBarOnDrawerOpen && r.subviews == []
  {
    ContainerState(true, None, None, map[], [], true, false, false, [])
  }

  // ---------------------------------------------------------------------------
  // Gestures

  /** The states UIKit reports for a gesture recognizer (`Recognized` is `Ended`). */
  datatype GestureState = Possible | Began | Changed | Ended | Cancelled | Failed

  /** One callback of the pan recognizer: its state and its translation in the main view. */
  datatype PanEvent = PanEvent(state: GestureState, dx: real, dy: real)

  function Abs(x: real): real
  {
    if x < 0.0 then -x else x
  }

  /** A `Changed` translation the handler refuses: leftward, or more vertical than horizontal. */
  predicate RejectsDrag(dx: real, dy: real)
  {
    dx < 0.0 || Abs(dy) > dx
  }

  /** The `Began` case: only marks a status-bar refresh as pending. */
  function BeganStep(s: ContainerState): (r: Step)
    ensures r.outcome == Completed && r.next.pendingStatusBarAppearanceUpdate
    ensures r.next.(pendingStatusBarAppearanceUpdate := s.pendingStatusBarAppearanceUpdate) == s
  {
    Step(s.(pendingStatusBarAppearanceUpdate := true), Completed)
  }

  /**
    The `Changed` case. A rejected translation disables the pan recognizer
    and changes nothing else (UIKit then delivers `Cancelled`). An accepted
    one sets the main frame to the closed frame shifted right by `dx`,
    unclamped, and requests the first status-bar refresh of the session.
   */
  function ChangedStep(l: Layout, s: ContainerState, dx: real, dy: real): (r: Step)
    ensures r.next.main == s.main && r.next.left == s.left && r.next.subviews == s.subviews
    ensures r.next.tapEnabled == s.tapEnabled
    ensures r.next.hideStatusBarOnDrawerOpen == s.hideStatusBarOnDrawerOpen
    ensures RejectsDrag(dx, dy) ==>
      r.outcome == Completed && !r.next.panEnabled &&
      r.next.(panEnabled := s.panEnabled) == s
    ensures !RejectsDrag(dx, dy) && s.main.None? ==> r == Step(s, NullReference)
    ensures !RejectsDrag(dx, dy) && s.main.Some? ==>
      r.outcome == Completed &&
      r.next.panEnabled == s.panEnabled &&
      MainFrame(r.next) == Some(ClosedFrame(l).(x := l.bounds.x + dx)) &&
      r.next.frames == s.frames[s.main.value := ClosedFrame(l).(x := l.bounds.x + dx)] &&
      !r.next.pendingStatusBarAppearanceUpdate &&
      r.next.statusBarUpdates == s.statusBarUpdates +
        (if s.pendingStatusBarAppearanceUpdate then [PrefersStatusBarHidden(r.next)] else [])
    ensures WellFormed(s) ==> WellFormed(r.next)
  {
    if dx < 0.0 then Step(s.(panEnabled := false), Completed)
    else if Abs(dy) > dx then Step(s.(panEnabled := false), Completed)
    else
      var frame := ClosedFrame(l).(x := l.bounds.x + dx);
      if s.main.None? then Step(s, NullReference)
      else
        var moved := s.(frames := s.frames[s.main.value := frame]);
        if moved.pendingStatusBarAppearanceUpdate then
          Step(UpdateStatusBarAppearance(moved.(pendingStatusBarAppearanceUpdate := false)), Completed)
        else Step(moved, Completed)
  }

  /** The target of the snap decision: open exactly when the drag passed half of `DrawerWidth`. */
  function SnapTarget(l: Layout, x: real): (r: Rect)
    ensures x > l.drawerWidth / 2.0 ==> r == OpenFrame(l)
    ensures x <= l.drawerWidth / 2.0 ==> r == ClosedFrame(l)
    ensures r.x == l.bounds.x || r.x == l.drawerWidth
  {
    if x > l.drawerWidth / 2.0 then OpenFrame(l) else ClosedFrame(l)
  }

  /**
    The `Ended`/`Cancelled` case: re-enables the pan recognizer, snaps the
    main frame open or closed, then (the completion block) enables the tap
    recognizer exactly when the drawer is open and refreshes the status bar.
   */
  function ReleasedStep(l: Layout, s: ContainerState): (r: Step)
    ensures r.next.panEnabled
    ensures r.next.main == s.main && r.next.left == s.left && r.next.subviews == s.subviews
    ensures r.next.pendingStatusBarAppearanceUpdate == s.pendingStatusBarAppearanceUpdate
    ensures r.next.hideStatusBarOnDrawerOpen == s.hideStatusBarOnDrawerOpen
    ensures MainFrame(s).None? ==> r == Step(s.(panEnabled := true), NullReference)
    ensures MainFrame(s).Some? ==>
      r.outcome == Completed &&
      MainFrame(r.next) == Some(SnapTarget(l, MainFrame(s).value.x)) &&
      r.next.frames == s.frames[s.main.value := SnapTarget(l, MainFrame(s).value.x)] &&
      r.next.tapEnabled == DrawerOpen(l, r.next) &&
      r.next.statusBarUpdates == s.statusBarUpdates + [PrefersStatusBarHidden(r.next)]
    ensures WellFormed(s) ==> WellFormed(r.next)
  {
    var enabled := s.(panEnabled := true);
    match MainFrame(s)
    case None => Step(enabled, NullReference)
    case Some(current) =>
      var finalFrame := if current.x > l.drawerWidth / 2.0 then OpenFrame(l) else ClosedFrame(l);
      var snapped := enabled.(frames := enabled.frames[s.main.value := finalFrame]);
      var completed := snapped.(tapEnabled := DrawerOpen(l, snapped));
      Step(UpdateStatusBarAppearance(completed), Completed)
  }

  /** `handleLtrPanGesture`: the switch over the recognizer's state; other states do nothing. */
  function PanStep(l: Layout, s: ContainerState, pan: PanEvent): (r: Step)
    ensures WellFormed(s) ==> WellFormed(r.next)
    ensures r.next.main == s.main && r.next.left == s.left && r.next.subviews == s.subviews
    ensures r.next.hideStatusBarOnDrawerOpen == s.hideStatusBarOnDrawerOpen
    ensures pan.state in {Possible, Failed} ==> r == Step(s, Completed)
  {
    match pan.state
    case Began => BeganStep(s)
    case Changed => ChangedStep(l, s, pan.dx, pan.dy)
    case Ended | Cancelled => ReleasedStep(l, s)
    case Possible | Failed => Step(s, Completed)
  }

  // ---------------------------------------------------------------------------
  // Closing

  /**
    `CloseDrawer` (and the tap handler, which is exactly `CloseDrawer`):
    disables the tap recognizer, moves the main view to the closed frame and
    refreshes the status bar. Without a main controller the animation block
    faults after the tap recognizer has been disabled.
   */
  function CloseStep(l: Layout, s: ContainerState): (r: Step)
    ensures !r.next.tapEnabled
    ensures r.next.main == s.main && r.next.left == s.left && r.next.subviews == s.subviews
    ensures r.next.panEnabled == s.panEnabled
    ensures r.next.pendingStatusBarAppearanceUpdate == s.pendingStatusBarAppearanceUpdate
    ensures r.next.hideStatusBarOnDrawerOpen == s.hideStatusBarOnDrawerOpen
    ensures s.main.None? ==> r == Step(s.(tapEnabled := false), NullReference)
    ensures s.main.Some? ==>
      r.outcome == Completed &&
      MainFrame(r.next) == Some(ClosedFrame(l)) &&
      r.next.frames == s.frames[s.main.value := ClosedFrame(l)] &&
      r.next.statusBarUpdates ==
        s.statusBarUpdates + [s.hideStatusBarOnDrawerOpen && l.bounds.x > 0.0]
    ensures MainFrame(s) == Some(ClosedFrame(l)) ==> r.next.frames == s.frames
    ensures s.main.Some? && l.drawerWidth != l.bounds.x ==>
      !DrawerOpen(l, r.next) && r.next.tapEnabled == DrawerOpen(l, r.next)
    ensures WellFormed(s) ==> WellFormed(r.next)
  {
    var disabled := s.(tapEnabled := false);
    if s.main.None? then Step(disabled, NullReference)
    else
      var closed := disabled.(frames := disabled.frames[s.main.value := ClosedFrame(l)]);
      Step(UpdateStatusBarAppearance(closed), Completed)
  }

  // ---------------------------------------------------------------------------
  // Child view controllers

  /** The main view is currently a subview of the container view. */
  predicate MainInHierarchy(s: ContainerState)
  {
    s.main.Some? && s.main.value in s.subviews
  }

  /** `SetMainViewController`: the new main view is placed at the closed frame, in front. */
  function SetMainStep(l: Layout, s: ContainerState, v: ViewId): (r: ContainerState)
    ensures r.main == Some(v) && MainFrame(r) == Some(ClosedFrame(l))
    ensures r.frames == s.frames[v := ClosedFrame(l)]
    ensures |r.subviews| > 0 && r.subviews[|r.subviews| - 1] == v
    ensures v !in s.subviews ==> r.subviews == s.subviews + [v]
    ensures Remove(r.subviews, v) == Remove(s.subviews, v)
    ensures r.left == s.left && r.panEnabled == s.panEnabled && r.tapEnabled == s.tapEnabled
    ensures r.pendingStatusBarAppearanceUpdate == s.pendingStatusBarAppearanceUpdate
    ensures r.statusBarUpdates == s.statusBarUpdates
    ensures r.hideStatusBarOnDrawerOpen == s.hideStatusBarOnDrawerOpen
    ensures WellFormed(s) ==> WellFormed(r)
  {
    s.(main := Some(v),
       frames := s.frames[v := ClosedFrame(l)],
       subviews := AddSubview(s.subviews, v))
  }

  /**
    `SetLeftViewController`: the left view covers the screen and goes
    directly behind the main view when that is in the hierarchy, in front
    otherwise.
   */
  function SetLeftStep(l: Layout, s: ContainerState, v: ViewId): (r: ContainerState)
    ensures r.left == Some(v) && v in r.frames && r.frames[v] == LeftFrame(l)
    ensures r.frames == s.frames[v := LeftFrame(l)]
    ensures MainInHierarchy(s) && s.main == Some(v) ==> r.subviews == s.subviews
    ensures MainInHierarchy(s) && s.main != Some(v) ==>
      exists k :: 0 <= k < |r.subviews| - 1 && r.subviews[k] == v && r.subviews[k + 1] == s.main.value
    ensures !MainInHierarchy(s) ==> |r.subviews| > 0 && r.subviews[|r.subviews| - 1] == v
    ensures !MainInHierarchy(s) && v !in s.subviews ==> r.subviews == s.subviews + [v]
    ensures Remove(r.subviews, v) == Remove(s.subviews, v)
    ensures r.main == s.main && r.panEnabled == s.panEnabled && r.tapEnabled == s.tapEnabled
    ensures r.pendingStatusBarAppearanceUpdate == s.pendingStatusBarAppearanceUpdate
    ensures r.statusBarUpdates == s.statusBarUpdates
    ensures r.hideStatusBarOnDrawerOpen == s.hideStatusBarOnDrawerOpen
    ensures WellFormed(s) ==> WellFormed(r)
  {
    var placed := s.(left := Some(v), frames := s.frames[v := LeftFrame(l)]);
    if MainInHierarchy(s) then placed.(subviews := InsertSubviewBelow(s.subviews, v, s.main.value))
    else placed.(subviews := AddSubview(s.subviews, v))
  }
}
