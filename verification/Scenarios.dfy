/** Concrete gestures on a three-item linear menu (cells 100 x 50 pixels, MIN_DIST
    10) in experiment mode, the prompt being "b": what the view announces, what the
    trial records and what the listener receives. The angle function is never
    consulted by a linear menu. */
module Scenarios {
  import opened Common
  import opened Enums
  import opened Trial
  import opened MenuView
  import NormalMenu

  const Contents: seq<string> := ["a", "b", "c"]

  /** The offset (50, 75) lies in the second cell, rows 50 to 100. */
  lemma SecondCellOffset()
    ensures NormalMenu.EssentialGeometry(Point(50.0, 75.0), 3, 100, 50, 10) == 1
  {
    var p := Point(50.0, 75.0);
    NormalMenu.BelowDeadZone(p, 10);
    var r := NormalMenu.EssentialGeometry(p, 3, 100, 50, 10);
    NormalMenu.BandUnique(p.y, 50, r, 1);
  }

  /** The offset (60, 100) lies in the third cell, rows 100 to 150. */
  lemma ThirdCellOffset()
    ensures NormalMenu.EssentialGeometry(Point(60.0, 100.0), 3, 100, 50, 10) == 2
  {
    var p := Point(60.0, 100.0);
    NormalMenu.BelowDeadZone(p, 10);
    var r := NormalMenu.EssentialGeometry(p, 3, 100, 50, 10);
    NormalMenu.BandUnique(p.y, 50, r, 2);
  }

  /** A view on a fresh trial, with a listener registered. */
  method NewView() returns (v: MenuExperimentView, t: ExperimentTrial)
    ensures fresh(v) && fresh(t) && v.trial == t && v.hasListener && v.completed == []
    ensures v.layout == NormalLayout(100, 50) && v.minDist == 10 && v.items == Contents
    ensures v.state == Start && v.startPoint == Origin && v.currentIndex == -1
    ensures t.promptedIndex == 1 && t.selectedIndex == -1
  {
    t := new ExperimentTrial(Normal, Linear, "b", Contents, 0, 0, 7);
    v := new MenuExperimentView.FromTrial(NormalLayout(100, 50), 10, (y, x) => 0.0, t);
    v.SetTrialListener(true);
  }

  /** Press at (200, 300), drag to (250, 375), release there: item 1, "b", is
      selected and announced, and the trial is handed to the listener with the
      gesture's duration. A second release is ignored. */
  method PressDragRelease() returns (said: Option<string>, again: Option<string>, t: ExperimentTrial,
                                    log: seq<ExperimentTrial>)
    ensures said == Some("Selected b") && again == None
    ensures t.selectedIndex == 1 && t.promptedIndex == 1 && t.durationMillis == 250
    ensures t.startPoint == Some(Point(200.0, 300.0)) && t.endPoint == Some(Point(250.0, 375.0))
    ensures log == [t]
  {
    var v;
    v, t := NewView();
    var consumed, out := v.OnTouchEvent(TouchEvent(Down, 200.0, 300.0), 1000);
    assert v.state == Selecting && v.startPoint == Point(200.0, 300.0);
    SecondCellOffset();
    consumed, out := v.OnTouchEvent(TouchEvent(Move, 250.0, 375.0), 1100);
    assert v.currentIndex == 1 && v.GetItem() == "b";
    assert "Selected " + "b" == "Selected b";
    consumed, said := v.OnTouchEvent(TouchEvent(Up, 250.0, 375.0), 1250);
    assert v.state == Start;
    consumed, again := v.OnTouchEvent(TouchEvent(Up, 250.0, 375.0), 1300);
    assert !consumed;
    log := v.completed;
  }

  /** Press at (200, 300) and release at (260, 400) without a MOVE in between: the
      release lands on item 2, which the trial records, but the announcement names
      the current index, still -1, so it reads "Selected Nothing Selected". */
  method ReleaseWithoutMove() returns (said: Option<string>, t: ExperimentTrial)
    ensures said == Some("Selected Nothing Selected")
    ensures t.selectedIndex == 2 && t.durationMillis == 40
  {
    var v;
    v, t := NewView();
    var consumed, out := v.OnTouchEvent(TouchEvent(Down, 200.0, 300.0), 10);
    ThirdCellOffset();
    assert v.GetItem() == "Nothing Selected";
    assert "Selected " + "Nothing Selected" == "Selected Nothing Selected";
    consumed, said := v.OnTouchEvent(TouchEvent(Up, 260.0, 400.0), 50);
  }
}
