# Drawer container view controller, modelled in Dafny

`ContainerViewController` hosts two child view controllers: a main view
controller on top and a left view controller underneath. Dragging the main
view to the right reveals the left one ("the drawer"). When the drag is
released, the main view snaps fully open (X = `DrawerWidth`) or back to
closed. A tap on the open main view closes it. The status bar hides while
the main view is moved right, if `HideStatusBarOnDrawerOpen` is set.

The model has five modules:

- `Wrappers`: `Option`, standing for C#'s nullable references and `?.` chains.
- `Views`: the container view's subviews as a sequence of view ids, back to
  front. It defines UIKit's `addSubview` (an existing subview moves to the
  front) and `insertSubview:belowSubview:`.
- `Drawer`: the controller's state as a value (`ContainerState`). It has one
  function per operation: `PanStep` for `handleLtrPanGesture`, split into
  `BeganStep`, `ChangedStep` and `ReleasedStep`; `CloseStep` for
  `CloseDrawer`; `SetMainStep` and `SetLeftStep`. It also has the derived
  predicates `DrawerOpen` and `PrefersStatusBarHidden` and the open and
  closed frames.
- `Sessions`: lemmas about whole interactions. One maps a gesture session
  (Began, any number of Changed, then Ended or Cancelled) to its final state.
  Others cover closing twice, both orders of attaching the children, and the
  drag-then-tap scenario.
- `Container`: class `ContainerViewController`. Its fields are the hosted
  controllers, the frames of their views, the subviews, both recognizers'
  `Enabled` flags, `pendingStatusBarAppearanceUpdate` and a log of status-bar
  refreshes. Its methods change those fields step by step, like the C#. Each
  method is proved to end in the state given by the matching `Drawer`
  function.

Modelling choices:

- The screen bounds (`UIScreen.MainScreen.Bounds`) and `DrawerWidth` are
  inputs: a `Layout` value. Coordinates are `real`, so `DrawerWidth / 2` is
  exact.
- Each animation block is an immediate assignment of its final frame. Its
  completion block runs right after.
- A status-bar refresh (`updateStatusBarAppearance`) is modelled as recording
  what `PrefersStatusBarHidden` answers at that moment. The record is
  `statusBarUpdates`.
- Gesture callbacks are explicit `PanEvent(state, dx, dy)` values. The caller
  chooses their order. When a `Changed` event is rejected, the handler sets
  `pan.Enabled = false`. UIKit then delivers `Cancelled`, which the caller
  must pass in as the next event.
- The constructor reads `View`. That makes UIKit load the view and run
  `ViewDidLoad`. So the constructed state already has the tap recognizer
  disabled and the pan recognizer enabled (UIKit's default).
- The C# dereferences `MainViewController` without a null check in four
  places: `CloseDrawer`, `CloseDrawerAsync`, an accepted `Changed`, and
  `Ended`/`Cancelled`. With
  no main controller, each one throws a NullReferenceException. The model
  returns `Outcome.NullReference` and keeps whatever effects happened before
  the throw. The two setters also use their argument without a check
  (ContainerViewController.cs:201-209, 215-219); the model gives them a
  view id, never null (see "## Left out").

Behaviour of the code worth noting:

- On `Ended`/`Cancelled`, the code has no early return when a refresh is
  still pending. The snap decision always runs, and
  `pendingStatusBarAppearanceUpdate` stays set.
- The code emits no transition events.
- While dragging, X is not limited to `[0, DrawerWidth]`. It is the closed X
  plus `dx`, recomputed from the closed frame on every event.
- The tap recognizer is not always disabled before the drawer is fully open.
  Start a drag on an open drawer and the main view jumps to closed X plus
  `dx`, while tap stays enabled; the drawer is then no longer open unless
  that X is exactly `DrawerWidth`: lemma
  `Sessions.TapStaysEnabledWhileDraggingOpenDrawer`. Similarly,
  `SetMainViewController` on an open drawer does not touch the tap flag.
  What does hold: after every snap, tap is enabled exactly when
  `DrawerOpen` holds. After a close it holds too, provided `DrawerWidth`
  differs from the screen's X; when they are equal, the open and closed
  frames coincide and a closed drawer counts as open with tap disabled.
- Left directly behind main holds only for the first main controller.
  `SetMainViewController` never detaches the previous main view: it stays
  in the container with its frame (still `OpenFrame` if the drawer was
  open), the new view goes on top, and the tap flag is untouched. So main
  `a`, left `b`, then main `c` stacks `[b, a, c]`: lemmas
  `Sessions.ReplacingMainKeepsOldView` and `Sessions.ReplacingMainSeparatesLeft`.
- `DrawerOpen` compares the whole main frame with the open frame, not only
  its X.
- With no main controller, the operations listed above throw; they are not
  no-ops.

## Model

| member | source | states |
|---|---|---|
| `Views.AddSubview` | DrawerContainerViewController/DrawerContainerViewController/ContainerViewController.cs:207 | the added view ends up at the front; a new view is appended; the other subviews keep their order; no view ends up listed twice |
| `Views.InsertSubviewBelow` | DrawerContainerViewController/DrawerContainerViewController/ContainerViewController.cs:221-222 | the inserted view sits immediately behind the sibling; the other subviews keep their order; no duplicates appear |
| `Drawer.OpenFrame` | DrawerContainerViewController/DrawerContainerViewController/ContainerViewController.cs:20-22 | the open frame is the closed frame (the screen bounds) with X set to `DrawerWidth` |
| `Drawer.DrawerOpen` | DrawerContainerViewController/DrawerContainerViewController/ContainerViewController.cs:29 | open iff a main controller exists and its frame equals the closed frame with X = `DrawerWidth`, so any other X, however close, is not open |
| `Drawer.PrefersStatusBarHidden` | DrawerContainerViewController/DrawerContainerViewController/ContainerViewController.cs:81 | false when the option is off or there is no main controller; otherwise true exactly when the main frame's X > 0 |
| `Drawer.Initial` | DrawerContainerViewController/DrawerContainerViewController/ContainerViewController.cs:25-56 | a new controller has no children, tap disabled, pan enabled, hiding on, nothing pending; it is not open under any layout |
| `Drawer.BeganStep` | DrawerContainerViewController/DrawerContainerViewController/ContainerViewController.cs:131-135 | `Began` sets the pending-refresh flag and changes nothing else |
| `Drawer.ChangedStep` | DrawerContainerViewController/DrawerContainerViewController/ContainerViewController.cs:137-169 | a leftward or mostly vertical drag only disables pan; an accepted drag sets the main frame to the closed frame shifted by dx, unclamped, clears the pending flag and refreshes only if it was pending; with no main controller it throws; the invariant is kept |
| `Drawer.SnapTarget` | DrawerContainerViewController/DrawerContainerViewController/ContainerViewController.cs:176-177 | the target is open iff X > `DrawerWidth / 2` (exactly half snaps closed); its X is the closed X or `DrawerWidth` |
| `Drawer.ReleasedStep` | DrawerContainerViewController/DrawerContainerViewController/ContainerViewController.cs:171-190 | always re-enables pan; snaps the main frame to `SnapTarget`; then sets tap equal to `DrawerOpen` and refreshes once; with no main controller it throws after re-enabling pan |
| `Drawer.PanStep` | DrawerContainerViewController/DrawerContainerViewController/ContainerViewController.cs:128-192 | the handler keeps the invariant and never changes the children or the subviews; `Possible`/`Failed` do nothing |
| `Drawer.CloseStep` | DrawerContainerViewController/DrawerContainerViewController/ContainerViewController.cs:92-104 | close always disables tap; with a main controller it moves the main frame to closed and records one refresh whose answer is "hidden" exactly when hiding is on and the closed X > 0; closing an already-closed drawer leaves the frames as they were; when `DrawerWidth` differs from the screen's X, the drawer is not open afterwards, so tap matches `DrawerOpen`; with no main controller it throws |
| `Drawer.SetMainStep` | DrawerContainerViewController/DrawerContainerViewController/ContainerViewController.cs:199-210 | the new main view is placed at the closed frame and moved to the front; only that view's frame changes; the other subviews keep their order; nothing else changes |
| `Drawer.SetLeftStep` | DrawerContainerViewController/DrawerContainerViewController/ContainerViewController.cs:213-228 | the left view gets the full-screen frame and no other frame changes; it goes directly behind the main view if that is in the container, and to the front otherwise; other subviews keep their order; a left view that already is the main view in the container leaves the subviews as they were |
| `Sessions.DragFollowsLastAccepted` | DrawerContainerViewController/DrawerContainerViewController/ContainerViewController.cs:137-169 | over any run of Changed events, the main frame follows the last accepted drag; pan ends enabled iff it started enabled and nothing was rejected; at most one refresh, exactly when one was pending and some drag was accepted, and its answer is "hidden" exactly when hiding is on and the FIRST accepted drag put X above 0 |
| `Sessions.GestureSession` | DrawerContainerViewController/DrawerContainerViewController/ContainerViewController.cs:128-192 | at the end of a session pan is enabled; only the main view's frame has changed; the main frame is open iff the last position passed half of `DrawerWidth`, so X is the closed X or `DrawerWidth` whatever the overshoot; tap is enabled iff `DrawerOpen`; the session records 1 refresh, or 2 if some drag was accepted, the first of them answering "hidden" exactly when hiding is on and the first accepted drag put X above 0; the hiding option is unchanged |
| `Sessions.HalfwaySnapsClosed` | DrawerContainerViewController/DrawerContainerViewController/ContainerViewController.cs:177 | a release exactly at `DrawerWidth / 2` snaps closed |
| `Sessions.RejectedDragThenCancel` | DrawerContainerViewController/DrawerContainerViewController/ContainerViewController.cs:141-154 | a rejected drag leaves frames and refreshes unchanged and disables pan; the following `Cancelled` enables pan again |
| `Sessions.TapStaysEnabledWhileDraggingOpenDrawer` | DrawerContainerViewController/DrawerContainerViewController/ContainerViewController.cs:156-160 | for every layout, open drawer with tap enabled and accepted (dx, dy), a Began and a Changed put the main view at the closed X plus dx with tap still enabled; the drawer is open afterwards exactly when the closed X plus dx equals `DrawerWidth` |
| `Sessions.CloseIdempotent` | DrawerContainerViewController/DrawerContainerViewController/ContainerViewController.cs:92-104 | a second close leaves the frames unchanged, keeps tap disabled and still records one refresh |
| `Sessions.ChildOrderIndependent` | DrawerContainerViewController/DrawerContainerViewController/ContainerViewController.cs:199-228 | on a new controller, setting main then left, or left then main, gives the same stacking: left directly behind main |
| `Sessions.ReplacingMainKeepsOldView` | DrawerContainerViewController/DrawerContainerViewController/ContainerViewController.cs:199-210 | replacing the main controller leaves the old main view in the container with its frame, puts the new one on top, and leaves the tap flag alone |
| `Sessions.ReplacingMainSeparatesLeft` | DrawerContainerViewController/DrawerContainerViewController/ContainerViewController.cs:199-228 | main `a`, left `b`, then main `c` stacks the views as `[b, a, c]`: the left view is no longer directly behind the main one |
| `Sessions.DragThenTap` | DrawerContainerViewController/DrawerContainerViewController/ContainerViewController.cs:22-29 | with `DrawerWidth` 300, a 250 drag right opens the drawer fully and enables tap; closing then returns the main view to the screen bounds with tap disabled |
| `Container.ContainerViewController.constructor` | DrawerContainerViewController/DrawerContainerViewController/ContainerViewController.cs:34-56 | the new object is in `Drawer.Initial`'s state |
| `Container.ContainerViewController.UpdateStatusBarAppearance` | DrawerContainerViewController/DrawerContainerViewController/ContainerViewController.cs:85 | appends what `PrefersStatusBarHidden` answers now; nothing else changes |
| `Container.ContainerViewController.CloseDrawer` | DrawerContainerViewController/DrawerContainerViewController/ContainerViewController.cs:92-104 | ends in `CloseStep`'s state and outcome (its body disables tap first, before the frame assignment) and keeps the invariant |
| `Container.ContainerViewController.CloseDrawerAsync` | DrawerContainerViewController/DrawerContainerViewController/ContainerViewController.cs:107-118 | the same effects and outcome as `CloseDrawer` |
| `Container.ContainerViewController.HandleTapGesture` | DrawerContainerViewController/DrawerContainerViewController/ContainerViewController.cs:125 | the tap handler is exactly `CloseDrawer` |
| `Container.ContainerViewController.HandleLtrPanGesture` | DrawerContainerViewController/DrawerContainerViewController/ContainerViewController.cs:128-192 | the in-place handler ends in `PanStep`'s state and outcome and keeps the invariant |
| `Container.ContainerViewController.SetMainViewController` | DrawerContainerViewController/DrawerContainerViewController/ContainerViewController.cs:199-210 | ends in `SetMainStep`'s state and keeps the invariant |
| `Container.ContainerViewController.SetLeftViewController` | DrawerContainerViewController/DrawerContainerViewController/ContainerViewController.cs:213-228 | ends in `SetLeftStep`'s state and keeps the invariant |

The table leaves out members that are plain definitions with no
contract of their own; the contracts above are stated in terms of them.
`Drawer.ClosedFrame` is `MainViewControllerFrame` and `Drawer.LeftFrame`
is `LeftViewControllerFrame` (ContainerViewController.cs:19-20), both the
screen bounds. `Drawer.UpdateStatusBarAppearance` is
`updateStatusBarAppearance` (ContainerViewController.cs:85): it records
the current `PrefersStatusBarHidden` answer. `Drawer.RejectsDrag` is the
two rejection tests of the `Changed` case (ContainerViewController.cs:144,
151). The class predicates `ContainerViewController.DrawerOpen()` and
`ContainerViewController.PrefersStatusBarHidden()` are `Drawer.DrawerOpen`
and `Drawer.PrefersStatusBarHidden` applied to `State()`.

## Left out

- `Drawer.SetMainStep`, `Drawer.SetLeftStep`: a null argument is not
  modelled. The C# first stores it in the field and then throws in
  `AddChildViewController` or at the frame assignment
  (ContainerViewController.cs:201-205, 215-219). The old view stays in
  the container, and `DrawerOpen` and `PrefersStatusBarHidden` then answer
  false. The model's setters take a view id.
- Animation timing: the 0.1, 0.2 and 0.33 durations of
  `UIView.Animate`/`AnimateNotify`/`AnimateNotifyAsync`, and the in-between
  frames. Each block is modelled as its final assignment plus its completion.
- Container.ContainerViewController.CloseDrawerAsync: does not return the
  animation's `finished` flag. UIKit decides that flag, and nothing else
  depends on it. The method returns only the outcome.
- When UIKit queries `PrefersStatusBarHidden` after a refresh request is host
  timing. The model records the answer at the moment of the request.
- `ViewWillAppear`/`ViewWillDisappear` attach and detach the recognizers.
  `AddChildViewController` and `DidMoveToParentViewController` are also left
  out. All of these are framework lifecycle calls that change none of the
  modelled state.
- `PanGestureRecognizerDelegate.ShouldRecognizeSimultaneously` always returns
  true. The arbitration it enables belongs to UIKit.
- UIKit's gesture delivery rules are not modelled, including the `Cancelled`
  it sends after a recognizer is disabled. The caller supplies the events.
- `nfloat` rounding: coordinates are exact reals.
- Changing the screen bounds or the static `DrawerWidth` while a controller
  exists: the C# re-reads `UIScreen.MainScreen.Bounds` and `DrawerWidth` on
  every use (ContainerViewController.cs:19-25), so a rotation or a new
  width takes effect at the next frame assignment. The model fixes both in
  the controller's `Layout` when it is constructed, and does not model
  rotation.
- `InsertSubviewBelow(s, v, v)`: what UIKit does when a view is inserted
  below itself (a left controller that is also the main one) is not
  documented. The model assumes it leaves the subviews as they were, and
  `SetLeftStep` states no stacking for that case beyond that.
- The container view's own frame, set in `commonInit`: nothing reads it.
- `IsDescendantOfView` is modelled as "is a direct subview of the
  container". The model tracks no deeper view hierarchy.
- `DrawerTransitioningEventArgs` and transition events: this controller never
  emits them.
- The sample screens in DrawerContainerViewControllerTest: storyboard wiring
  and table data sources.
