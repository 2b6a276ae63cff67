/**
  `ContainerViewController` as a class whose fields hold what the UIKit
  objects it drives hold: the hosted controllers, the frames of their
  views, the container view's subviews, the two recognizers' `Enabled`
  flags and the pending-refresh flag. Every method changes them step by
  step as the C# code does and is proved to end in the state the matching
  function of module Drawer gives.
 */
module Container {
  import opened Wrappers
  import opened Views
  import opened Drawer

  class ContainerViewController {
    /** The screen bounds and `DrawerWidth`, fixed for the controller's life. */
    const layout: Layout

    var hideStatusBarOnDrawerOpen: bool
    var leftViewController: Option<ViewId>
    var mainViewController: Option<ViewId>
    /** `View.Frame` of each hosted view. */
    var frames: map<ViewId, Rect>
    /** `View.Subviews` of the container, back to front. */
    var subviews: seq<ViewId>
    /** `LtrPanGestureRecognizer.Enabled`. */
    var ltrPanEnabled: bool
    /** `TapGestureRecognizer.Enabled`. */
    var tapEnabled: bool
    var pendingStatusBarAppearanceUpdate: bool
    /** What `PrefersStatusBarHidden` answered at each requested refresh. */
    var statusBarUpdates: seq<bool>

    function State(): ContainerState
      reads this
    {
      ContainerState(hideStatusBarOnDrawerOpen, leftViewController, mainViewController,
        frames, subviews, ltrPanEnabled, tapEnabled,
        pendingStatusBarAppearanceUpdate, statusBarUpdates)
    }

    ghost predicate Valid()
      reads this
    {
      WellFormed(State())
    }

    /** The constructor, including the `ViewDidLoad` that reading `View` triggers. */
    constructor (bounds: Rect, drawerWidth: real)
      ensures layout == Layout(bounds, drawerWidth)
      ensures State() == Initial() && Valid()
    {
      layout := Layout(bounds, drawerWidth);
      hideStatusBarOnDrawerOpen := true;
      leftViewController, mainViewController := None, None;
      frames, subviews := map[], [];
      pendingStatusBarAppearanceUpdate := false;
      statusBarUpdates := [];
      tapEnabled := false;
      ltrPanEnabled := true;
    }

    predicate DrawerOpen()
      reads this
    {
      Drawer.DrawerOpen(layout, State())
    }

    predicate PrefersStatusBarHidden()
      reads this
    {
      Drawer.PrefersStatusBarHidden(State())
    }

    method UpdateStatusBarAppearance()
      modifies this
      ensures State() == Drawer.UpdateStatusBarAppearance(old(State()))
    {
      statusBarUpdates := statusBarUpdates + [PrefersStatusBarHidden()];
    }

    method CloseDrawer() returns (outcome: Outcome)
      requires Valid()
      modifies this
      ensures Valid()
      ensures Step(State(), outcome) == CloseStep(layout, old(State()))
    {
      tapEnabled := false;
      if mainViewController.None? {
        return NullReference;
      }
      frames := frames[mainViewController.value := ClosedFrame(layout)];
      UpdateStatusBarAppearance();
      outcome := Completed;
    }

    /** The awaitable variant: the same effects as `CloseDrawer`. */
    method CloseDrawerAsync() returns (outcome: Outcome)
      requires Valid()
      modifies this
      ensures Valid()
      ensures Step(State(), outcome) == CloseStep(layout, old(State()))
    {
      tapEnabled := false;
      if mainViewController.None? {
        return NullReference;
      }
      frames := frames[mainViewController.value := ClosedFrame(layout)];
      UpdateStatusBarAppearance();
      outcome := Completed;
    }

    method HandleTapGesture() returns (outcome: Outcome)
      requires Valid()
      modifies this
      ensures Valid()
      ensures Step(State(), outcome) == CloseStep(layout, old(State()))
    {
      outcome := CloseDrawer();
    }

    method HandleLtrPanGesture(pan: PanEvent) returns (outcome: Outcome)
      requires Valid()
      modifies this
      ensures Valid()
      ensures Step(State(), outcome) == PanStep(layout, old(State()), pan)
    {
      outcome := Completed;
      match pan.state {
        case Began =>
          pendingStatusBarAppearanceUpdate := true;
        case Changed =>
          if pan.dx < 0.0 {
            ltrPanEnabled := false;
            return;
          }
          if Abs(pan.dy) > pan.dx {
            ltrPanEnabled := false;
            return;
          }
          var frame := ClosedFrame(layout);
          frame := frame.(x := frame.x + pan.dx);
          if mainViewController.None? {
            return NullReference;
          }
          frames := frames[mainViewController.value := frame];
          if pendingStatusBarAppearanceUpdate {
            pendingStatusBarAppearanceUpdate := false;
            UpdateStatusBarAppearance();
          }
        case Ended | Cancelled =>
          ltrPanEnabled := true;
          if mainViewController.None? {
            return NullReference;
          }
          var finalFrame := if frames[mainViewController.value].x > layout.drawerWidth / 2.0
            then OpenFrame(layout) else ClosedFrame(layout);
          frames := frames[mainViewController.value := finalFrame];
          tapEnabled := DrawerOpen();
          UpdateStatusBarAppearance();
        case Possible | Failed =>
      }
    }

    method SetMainViewController(mainView: ViewId)
      requires Valid()
      modifies this
      ensures Valid()
      ensures State() == SetMainStep(layout, old(State()), mainView)
    {
      mainViewController := Some(mainView);
      frames := frames[mainView := ClosedFrame(layout)];
      subviews := AddSubview(subviews, mainView);
    }

    method SetLeftViewController(leftView: ViewId)
      requires Valid()
      modifies this
      ensures Valid()
      ensures State() == SetLeftStep(layout, old(State()), leftView)
    {
      leftViewController := Some(leftView);
      frames := frames[leftView := LeftFrame(layout)];
      if mainViewController.Some? && mainViewController.value in subviews {
        subviews := InsertSubviewBelow(subviews, leftView, mainViewController.value);
      } else {
        subviews := AddSubview(subviews, leftView);
      }
    }
  }
}
