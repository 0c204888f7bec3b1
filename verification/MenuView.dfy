/** The menu view shared by the three shapes (AbstractMenuExperimentView with
    MenuExperimentView): the press/drag/release state machine, the fields it
    keeps, and the trial it starts and finalises. */
module MenuView {
  import opened Common
  import opened Enums
  import opened Trial
  import NormalMenu
  import CustomMenu
  import PieMenu

  /** The shape of a menu and the pixel sizes its setup() derived from the display. */
  datatype Layout =
    | NormalLayout(cellWidth: Pixels, cellHeight: Pixels)
    | CustomLayout(cellWidth: Pixels)
    | PieLayout

  /** Math.atan2(y, x) converted to degrees; supplied, not computed, by this model. */
  type Atan2 = (real, real) -> PieMenu.Degrees

  /** essentialGeometry(PointF) of the view's shape: every non-negative result names
      an item, except the linear menu's bottom edge and an empty pie menu. */
  function HitTest(layout: Layout, p: Point, n: nat, minDist: nat, atan2: Atan2): (r: int)
    ensures -1 <= r <= n
    ensures InDeadZone(p, minDist) ==> r == -1
    ensures layout.PieLayout? ==> (r == -1 <==> InDeadZone(p, minDist))
    ensures r == n ==> (layout.NormalLayout? && p.y == (layout.cellHeight * n) as real)
                       || (layout.PieLayout? && n == 0)
  {
    match layout
    case NormalLayout(w, h) => NormalMenu.EssentialGeometry(p, n, w, h, minDist)
    case CustomLayout(w) => CustomMenu.EssentialGeometry(p, n, w, minDist)
    case PieLayout => PieMenu.EssentialGeometry(p, atan2(p.y, p.x), n, minDist)
  }

  /** The MotionEvent actions the state machine distinguishes. */
  datatype Action = Down | Move | Up | OtherAction

  /** A MotionEvent: its action and its position on screen. */
  datatype TouchEvent = TouchEvent(action: Action, x: real, y: real)

  class MenuExperimentView {
    const layout: Layout
    /** MIN_DIST: the radius of the dead zone around the press point. */
    const minDist: nat
    const atan2: Atan2
    const items: seq<string>

    var trial: ExperimentTrial?
    var state: State
    var startPoint: Point
    var currentIndex: int
    /** Whether a TrialListener is registered. */
    var hasListener: bool
    /** The trials handed to the listener's onTrialCompleted, in order. */
    var completed: seq<ExperimentTrial>

    /** At rest the view holds no press: the start point is (0,0) and nothing is selected. */
    predicate AtRest()
      reads this
    {
      state == Start ==> startPoint == Origin && currentIndex == -1
    }

    /** The constructor taking a list of items: no trial, state START after setup(). */
    constructor FromItems(layout: Layout, minDist: nat, atan2: Atan2, items: seq<string>)
      ensures this.layout == layout && this.minDist == minDist && this.atan2 == atan2
      ensures this.items == items
      ensures trial == null && !ExperimentMode()
      ensures state == Start && startPoint == Origin && currentIndex == -1
      ensures !hasListener && completed == []
      ensures AtRest()
    {
      this.layout := layout;
      this.minDist := minDist;
      this.atan2 := atan2;
      this.items := items;
      trial := null;
      state := Start;
      startPoint := Origin;
      currentIndex := -1;
      hasListener := false;
      completed := [];
    }

    /** The constructor taking a trial: the items are the trial's contents. */
    constructor FromTrial(layout: Layout, minDist: nat, atan2: Atan2, t: ExperimentTrial)
      ensures this.layout == layout && this.minDist == minDist && this.atan2 == atan2
      ensures items == t.contents
      ensures trial == t && ExperimentMode()
      ensures state == Start && startPoint == Origin && currentIndex == -1
      ensures !hasListener && completed == []
      ensures AtRest()
    {
      this.layout := layout;
      this.minDist := minDist;
      this.atan2 := atan2;
      this.items := t.contents;
      trial := t;
      state := Start;
      startPoint := Origin;
      currentIndex := -1;
      hasListener := false;
      completed := [];
    }

    /** The position of an event relative to the start point. */
    function Offset(e: TouchEvent): (p: Point)
      reads this
      ensures startPoint.x + p.x == e.x && startPoint.y + p.y == e.y
    {
      Point(e.x - startPoint.x, e.y - startPoint.y)
    }

    /** essentialGeometry(MotionEvent): the item under the event, judged from the start point. */
    function Resolve(e: TouchEvent): (r: int)
      reads this
      ensures -1 <= r <= |items|
      ensures InDeadZone(Offset(e), minDist) ==> r == -1
    {
      HitTest(layout, Offset(e), |items|, minDist, atan2)
    }

    /** experimentMode(): a trial is attached. */
    predicate ExperimentMode()
      reads this
      ensures ExperimentMode() <==> trial != null
    {
      trial != null
    }

    /** getItem(): the label of the current index, or one of two fixed messages. */
    function GetItem(): (text: string)
      reads this
      ensures currentIndex < 0 ==> text == "Nothing Selected"
      ensures 0 <= currentIndex < |items| ==> text == items[currentIndex]
      ensures currentIndex >= |items| ==> text == "Invalid Selection"
    {
      if currentIndex < 0 then "Nothing Selected"
      else if currentIndex < |items| then items[currentIndex]
      else "Invalid Selection"
    }

    method SetCurrentIndex(newIndex: int)
      modifies this
      ensures currentIndex == newIndex
      ensures startPoint == old(startPoint) && state == old(state) && trial == old(trial)
      ensures hasListener == old(hasListener) && completed == old(completed)
    {
      currentIndex := newIndex;
    }

    method SetStartPoint(p: Point)
      modifies this
      ensures startPoint == p
      ensures currentIndex == old(currentIndex) && state == old(state) && trial == old(trial)
      ensures hasListener == old(hasListener) && completed == old(completed)
    {
      startPoint := p;
    }

    method SetTrial(t: ExperimentTrial?)
      modifies this
      ensures trial == t
      ensures startPoint == old(startPoint) && currentIndex == old(currentIndex)
      ensures state == old(state) && hasListener == old(hasListener) && completed == old(completed)
    {
      trial := t;
    }

    /** setTrialListener: registers (true) or removes (false) the listener. */
    method SetTrialListener(present: bool)
      modifies this
      ensures hasListener == present
      ensures startPoint == old(startPoint) && currentIndex == old(currentIndex)
      ensures state == old(state) && trial == old(trial) && completed == old(completed)
    {
      hasListener := present;
    }

    /** startSelection(point): record the press and, in experiment mode, start the trial. */
    method StartSelection(point: Point, now: int)
      modifies this, trial
      ensures startPoint == point
      ensures state == old(state) && currentIndex == old(currentIndex) && trial == old(trial)
      ensures hasListener == old(hasListener) && completed == old(completed)
      ensures ExperimentMode() ==> trial.startTime == now && trial.startPoint == Some(point)
      ensures ExperimentMode() ==> trial.selectedIndex == old(trial.selectedIndex)
                                   && trial.durationMillis == old(trial.durationMillis)
                                   && trial.endPoint == old(trial.endPoint)
    {
      SetStartPoint(point);
      if ExperimentMode() {
        trial.StartTrial(point, now);
      }
    }

    /** updateModel(menuItem): the current index follows the item under the finger. */
    method UpdateModel(menuItem: int)
      modifies this
      ensures currentIndex == menuItem
      ensures startPoint == old(startPoint) && state == old(state) && trial == old(trial)
      ensures hasListener == old(hasListener) && completed == old(completed)
    {
      if menuItem != currentIndex {
        SetCurrentIndex(menuItem);
      }
    }

    /** reset(): back to the start state, with no press and no selection. */
    method Reset()
      modifies this
      ensures state == Start && startPoint == Origin && currentIndex == -1
      ensures AtRest()
      ensures trial == old(trial) && hasListener == old(hasListener) && completed == old(completed)
    {
      SetStartPoint(Origin);
      SetCurrentIndex(-1);
      state := Start;
    }

    /** endSelection(menuItem, point): announce the outcome, finalise the trial when one
        is attached and a listener is registered, then reset. The announcement names
        the current index, which the last MOVE set, not menuItem. */
    method EndSelection(menuItem: int, point: Point, now: int) returns (announcement: string)
      modifies this, trial
      ensures announcement == if menuItem == -1 then "Nothing Selected"
                              else "Selected " + old(GetItem())
      ensures state == Start && startPoint == Origin && currentIndex == -1
      ensures trial == old(trial) && hasListener == old(hasListener)
      ensures ExperimentMode() && hasListener ==>
                trial.durationMillis == now - old(trial.startTime)
                && trial.endPoint == Some(point) && trial.selectedIndex == menuItem
                && trial.startTime == old(trial.startTime)
                && trial.startPoint == old(trial.startPoint)
                && completed == old(completed) + [trial]
      ensures !(ExperimentMode() && hasListener) ==> completed == old(completed)
      ensures ExperimentMode() && !hasListener ==> unchanged(trial)
    {
      if menuItem == -1 {
        announcement := "Nothing Selected";
      } else {
        announcement := "Selected " + GetItem();
      }
      if ExperimentMode() && trial != null && hasListener {
        trial.EndTrial(point, menuItem, now);
        completed := completed + [trial];
      }
      Reset();
    }

    /** onTouchEvent(event): in START a DOWN begins a selection; in SELECTING a MOVE
        updates the selection and an UP ends it; every other event is ignored. The
        item is resolved before the switch, against the start point in force. */
    method OnTouchEvent(e: TouchEvent, now: int) returns (consumed: bool, announcement: Option<string>)
      modifies this, trial
      ensures trial == old(trial) && hasListener == old(hasListener)
      ensures old(AtRest()) ==> AtRest()
      // START + DOWN: the press is recorded and the trial started
      ensures old(state) == Start && e.action == Down ==>
                consumed && announcement == None && state == Selecting
                && startPoint == Point(e.x, e.y) && currentIndex == old(currentIndex)
                && completed == old(completed)
                && (trial != null ==> trial.startTime == now && trial.startPoint == Some(Point(e.x, e.y))
                                      && trial.selectedIndex == old(trial.selectedIndex)
                                      && trial.durationMillis == old(trial.durationMillis)
                                      && trial.endPoint == old(trial.endPoint))
      // SELECTING + MOVE: the selection follows the finger
      ensures old(state) == Selecting && e.action == Move ==>
                consumed && announcement == None && state == Selecting
                && currentIndex == old(Resolve(e)) && startPoint == old(startPoint)
                && completed == old(completed) && (trial != null ==> unchanged(trial))
      // SELECTING + UP: the selection ends at the item under the finger
      ensures old(state) == Selecting && e.action == Up ==>
                consumed && state == Start && startPoint == Origin && currentIndex == -1
                && announcement == Some(if old(Resolve(e)) == -1 then "Nothing Selected"
                                        else "Selected " + old(GetItem()))
                && (trial != null && hasListener ==>
                      trial.selectedIndex == old(Resolve(e)) && trial.endPoint == Some(Point(e.x, e.y))
                      && trial.durationMillis == now - old(trial.startTime)
                      && trial.startTime == old(trial.startTime) && trial.startPoint == old(trial.startPoint)
                      && completed == old(completed) + [trial])
                && (!(trial != null && hasListener) ==> completed == old(completed))
                && (trial != null && !hasListener ==> unchanged(trial))
      // every other state and action: nothing happens
      ensures !(old(state) == Start && e.action == Down)
              && !(old(state) == Selecting && (e.action == Move || e.action == Up)) ==>
                !consumed && announcement == None && state == old(state)
                && startPoint == old(startPoint) && currentIndex == old(currentIndex)
                && completed == old(completed) && (trial != null ==> unchanged(trial))
    {
      var menuItem := Resolve(e);
      consumed := false;
      announcement := None;
      match state
      case Start =>
        if e.action == Down {
          StartSelection(Point(e.x, e.y), now);
          state := Selecting;
          consumed := true;
        }
      case Selecting =>
        if e.action == Move {
          UpdateModel(menuItem);
          consumed := true;
        } else if e.action == Up {
          var said := EndSelection(menuItem, Point(e.x, e.y), now);
          announcement := Some(said);
          consumed := true;
        }
    }
  }
}
