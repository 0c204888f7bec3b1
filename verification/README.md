# Menu experiment: a verified model

This project models the core of an Android app for a menu-selection experiment, written in Dafny.
In the experiment, a participant works through a list of trials. Each trial shows one menu and asks for one item:

- The menu is one of three shapes: a linear column, a 3-column grid or a pie.
- The menu's items come from one of three task lists.

The view is a two-state press/drag/release machine. On release it records the selected item, the timing and the gesture's end points in the trial. It then hands the trial to a listener.

The session builds the trials in three steps:
- it reads its task lists from comma-separated tokens;
- it builds a counterbalanced list: menus in shuffled order, tasks reshuffled for each menu, items shuffled per task, and each prompted item repeated three times;
- it walks through that list with a cursor.

Modules, following the program's structure:

| module | models |
|---|---|
| `Common` | Points, the squared distance test, and Java's int cast, int `/` and float `%` |
| `Enums` | `MenuType`, `TaskType`, `State`, and `TaskType.valueOf` |
| `Strings` | `TextUtils.join` and one-character `String.split` |
| `NormalMenu`, `CustomMenu`, `PieMenu` | `essentialGeometry(PointF)` of each menu shape, as pure functions |
| `MenuView` | `AbstractMenuExperimentView` plus `MenuExperimentView`, as one class with the state machine |
| `Trial` | `ExperimentTrial`, as a class with write-once start and end fields |
| `Schedule` | what `createTrials` builds, as a function over shuffle oracles, with counting, ordering and contiguity lemmas |
| `Session` | `loadTasks`, `createTrials` as nested loops, and the `ExperimentSession` iterator |
| `Scenarios` | concrete gestures on a three-item linear menu |

Conventions:
- Coordinates are reals. The `sqrt` distance test is a comparison of squares.
- The `atan2` angle is an input, in degrees within [-180, 180].
- `Collections.shuffle` is an oracle: call k reorders its list in some way, and only reorders it.
- `System.currentTimeMillis()` is a `now` parameter.
- The `TrialListener` is a "listener registered" flag plus the list of trials handed to it.

Where the code and its documentation disagree, the model follows the code. Two cases:
- The release announcement names the current index, which the last MOVE set, not the released item. A release without a MOVE announces "Selected Nothing Selected" (`Scenarios.ReleaseWithoutMove`).
- The linear menu's bottom edge yields index n, one past the last item (`NormalMenu.BottomEdgeQuirk`).

## Model

| member | source | states |
|---|---|---|
| Common.DistSq | as5-menus-wd28-master/app/src/main/java/cse340/menus/views/AbstractMenuExperimentView.java:362-364 | the squared distance from the press point is never negative |
| Common.InDeadZone | as5-menus-wd28-master/app/src/main/java/cse340/menus/views/NormalMenuView.java:77 | getDistance(p) < MIN_DIST, as squares: the dead zone lies inside the square of side 2 MIN_DIST around the press point and holds the press point itself; the same test as CustomMenuView.java:73 and PieMenuView.java:65 |
| Common.Trunc | as5-menus-wd28-master/app/src/main/java/cse340/menus/views/NormalMenuView.java:80 | Java's (int) cast: the integer part, toward zero on both sides of 0 |
| Common.JavaDiv | as5-menus-wd28-master/app/src/main/java/cse340/menus/views/CustomMenuView.java:71 | Java int division: quotient bounds for a non-negative and for a negative dividend |
| Common.FloatRem | as5-menus-wd28-master/app/src/main/java/cse340/menus/views/PieMenuView.java:71 | Java's % on doubles: for a non-negative dividend it lies in [0, m), and the difference is a whole number of m |
| Common.RemOfShift | as5-menus-wd28-master/app/src/main/java/cse340/menus/views/PieMenuView.java:71 | % 360 removes whole turns: (b + 360q) % 360 == b for b in [0, 360) |
| Common.FloorThenDivide | as5-menus-wd28-master/app/src/main/java/cse340/menus/views/CustomMenuView.java:72 | (int) y / W equals floor(y / W) for non-negative y |
| Enums.AllMenusListsEach | as5-menus-wd28-master/app/src/main/java/cse340/menus/enums/MenuType.java:7-11 | proof step: values() lists each menu type exactly once |
| Enums.AllTasksListsEach | as5-menus-wd28-master/app/src/main/java/cse340/menus/enums/TaskType.java:9-13 | proof step: values() lists each task type exactly once |
| Enums.ParseTaskType | as5-menus-wd28-master/app/src/main/java/cse340/menus/ExperimentSession.java:149 | valueOf finds the constant whose name is the string; no constant has that name when it fails |
| Enums.ParseTaskName | as5-menus-wd28-master/app/src/main/java/cse340/menus/ExperimentSession.java:149 | valueOf(name()) gives the constant back |
| Strings.Join | as5-menus-wd28-master/app/src/main/java/cse340/menus/ExperimentTrial.java:144 | joining no items gives "", one item gives that item, two or more put the separator in the result; PiecesOfJoin and SplitJoin pin the contents |
| Strings.Split | as5-menus-wd28-master/app/src/main/java/cse340/menus/ExperimentSession.java:148 | no piece contains the separator; a string without the separator splits into itself |
| Strings.PiecesOfJoin | as5-menus-wd28-master/app/src/main/java/cse340/menus/ExperimentSession.java:148 | cutting a join at every separator gives back the items |
| Strings.SplitJoin | as5-menus-wd28-master/app/src/main/java/cse340/menus/ExperimentSession.java:148 | split undoes join for separator-free items whose last item is not empty |
| Strings.SplitJoinSplit | as5-menus-wd28-master/app/src/main/java/cse340/menus/ExperimentTrial.java:144 | a list read by split survives join and split again |
| Strings.SplitJoinDropsTrailingEmpty | as5-menus-wd28-master/app/src/main/java/cse340/menus/ExperimentSession.java:148 | with the default limit, a trailing empty item is lost in the round trip |
| NormalMenu.EssentialGeometry | as5-menus-wd28-master/app/src/main/java/cse340/menus/views/NormalMenuView.java:69-81 | result in [-1, n]; -1 outside the column or in the dead zone; a selected cell's band holds y; every inside point selects a cell < n; n exactly on the bottom edge inside the column and outside the dead zone |
| NormalMenu.CellOf | as5-menus-wd28-master/app/src/main/java/cse340/menus/views/NormalMenuView.java:80 | (int)(y / H) = r places y in [rH, (r+1)H) |
| NormalMenu.BottomEdge | as5-menus-wd28-master/app/src/main/java/cse340/menus/views/NormalMenuView.java:76-80 | an index at or past n inside the column forces y == H*n and index n |
| NormalMenu.Monotone | as5-menus-wd28-master/app/src/main/java/cse340/menus/views/NormalMenuView.java:80 | of two accepted points, the lower one never selects an earlier cell, whatever their x |
| NormalMenu.BandUnique | as5-menus-wd28-master/app/src/main/java/cse340/menus/views/NormalMenuView.java:80 | two cell bands that share a y are the same cell |
| NormalMenu.BelowDeadZone | as5-menus-wd28-master/app/src/main/java/cse340/menus/views/NormalMenuView.java:76-77 | a point at least MIN_DIST below the press point is outside the dead zone |
| NormalMenu.BottomEdgeQuirk | as5-menus-wd28-master/app/src/main/java/cse340/menus/views/NormalMenuView.java:76-80 | the bottom edge of a three-item menu yields 3, one past the last item |
| NormalMenu.WorkedExample | as5-menus-wd28-master/app/src/main/java/cse340/menus/views/NormalMenuView.java:76-80 | with n = 3: (W/2, H/2) gives 0, (W/2, 2.5H) gives 2, (W/2, 3.5H) gives -1 |
| CustomMenu.Rows | as5-menus-wd28-master/app/src/main/java/cse340/menus/views/CustomMenuView.java:71 | (n-1)/3 + 1 is ceil(n/3) for n >= 1, and 1 for n = 0 |
| CustomMenu.RawIndex | as5-menus-wd28-master/app/src/main/java/cse340/menus/views/CustomMenuView.java:72 | for non-negative coordinates, the raw index is floor(y/W)*3 + floor(x/W) |
| CustomMenu.EssentialGeometry | as5-menus-wd28-master/app/src/main/java/cse340/menus/views/CustomMenuView.java:69-78 | result in [-1, n); -1 in the dead zone, outside the box, or past the last item; conversely a point in the box, outside the dead zone, whose raw index is below n selects that raw index |
| CustomMenu.FloorBand | as5-menus-wd28-master/app/src/main/java/cse340/menus/views/CustomMenuView.java:72 | the cell that floor(v/W) names holds v |
| CustomMenu.SelectedCellContainsPoint | as5-menus-wd28-master/app/src/main/java/cse340/menus/views/CustomMenuView.java:72-77 | left of the right edge, the cell in row r/3 and column r%3 of the selected r holds the point |
| CustomMenu.RowAndColumn | as5-menus-wd28-master/app/src/main/java/cse340/menus/views/CustomMenuView.java:72 | the row-major number row*3 + col gives back its row and column |
| CustomMenu.RightEdgeSpillsIntoNextRow | as5-menus-wd28-master/app/src/main/java/cse340/menus/views/CustomMenuView.java:72-74 | with n >= 4, a point on the right edge of the first row selects item 3 |
| CustomMenu.WorkedExample | as5-menus-wd28-master/app/src/main/java/cse340/menus/views/CustomMenuView.java:72-75 | with n = 5: (2.5W, 1.5W) has raw index 5 and selects nothing |
| PieMenu.SectorWidth | as5-menus-wd28-master/app/src/main/java/cse340/menus/views/PieMenuView.java:72 | n sectors of 360/n degrees fill the circle |
| PieMenu.NormalisedAngle | as5-menus-wd28-master/app/src/main/java/cse340/menus/views/PieMenuView.java:71 | the normalised angle lies in [0, 360) |
| PieMenu.EssentialGeometry | as5-menus-wd28-master/app/src/main/java/cse340/menus/views/PieMenuView.java:56-73 | -1 exactly in the dead zone (no outer edge); otherwise a sector < n whose band holds the angle; an empty menu gives 0 |
| PieMenu.SectorBounds | as5-menus-wd28-master/app/src/main/java/cse340/menus/views/PieMenuView.java:72 | every angle in [0, 360) falls in a sector in [0, n) whose band holds it |
| PieMenu.SectorsDisjoint | as5-menus-wd28-master/app/src/main/java/cse340/menus/views/PieMenuView.java:71-72 | no angle lies in two sectors |
| PieMenu.SectorAroundCentre | as5-menus-wd28-master/app/src/main/java/cse340/menus/views/PieMenuView.java:71-72 | sector k covers the angles from half a sector before k*360/n clockwise from north, inclusive, to half a sector after it, exclusive, modulo whole turns |
| PieMenu.SectorOfAngle | as5-menus-wd28-master/app/src/main/java/cse340/menus/views/PieMenuView.java:72 | outside the dead zone, the sector whose band holds the angle is selected |
| PieMenu.NormalisedAngleNearCentre | as5-menus-wd28-master/app/src/main/java/cse340/menus/views/PieMenuView.java:71 | the angle half a sector before sector k's centre normalises to the start of k's band |
| PieMenu.NorthIsSectorZero | as5-menus-wd28-master/app/src/main/java/cse340/menus/views/PieMenuView.java:71-72 | straight north selects sector 0 for every n >= 1 |
| PieMenu.BoundaryBelongsToNextSector | as5-menus-wd28-master/app/src/main/java/cse340/menus/views/PieMenuView.java:71-72 | with 4 items, the boundary at 45 degrees clockwise from north selects sector 1 |
| MenuView.HitTest | as5-menus-wd28-master/app/src/main/java/cse340/menus/views/AbstractMenuExperimentView.java:135 | dispatch to the shape: result in [-1, n]; -1 in the dead zone; for a pie, -1 exactly there; n only at the linear bottom edge or for an empty pie |
| MenuView.MenuExperimentView.FromItems | as5-menus-wd28-master/app/src/main/java/cse340/menus/views/AbstractMenuExperimentView.java:72-81 | no trial; state START, start point (0,0), index -1; no listener |
| MenuView.MenuExperimentView.FromTrial | as5-menus-wd28-master/app/src/main/java/cse340/menus/views/AbstractMenuExperimentView.java:89-92 | the trial is attached and its contents are the items; otherwise as FromItems |
| MenuView.MenuExperimentView.Offset | as5-menus-wd28-master/app/src/main/java/cse340/menus/views/AbstractMenuExperimentView.java:130-132 | start point plus offset is the event position |
| MenuView.MenuExperimentView.Resolve | as5-menus-wd28-master/app/src/main/java/cse340/menus/views/AbstractMenuExperimentView.java:130-136 | the item under the event, judged from the start point: in [-1, n], -1 in the dead zone |
| MenuView.MenuExperimentView.ExperimentMode | as5-menus-wd28-master/app/src/main/java/cse340/menus/views/AbstractMenuExperimentView.java:232-234 | proof step: experiment mode is a trial being attached (`mTrial != null`); FromItems and FromTrial state it, and StartSelection and EndSelection state their effects on the trial under it |
| MenuView.MenuExperimentView.GetItem | as5-menus-wd28-master/app/src/main/java/cse340/menus/views/AbstractMenuExperimentView.java:216-226 | "Nothing Selected" below 0, the item in range, "Invalid Selection" past the end |
| MenuView.MenuExperimentView.SetCurrentIndex | as5-menus-wd28-master/app/src/main/java/cse340/menus/views/AbstractMenuExperimentView.java:261-263 | sets the index and nothing else |
| MenuView.MenuExperimentView.SetStartPoint | as5-menus-wd28-master/app/src/main/java/cse340/menus/views/AbstractMenuExperimentView.java:279-281 | sets the start point and nothing else |
| MenuView.MenuExperimentView.SetTrial | as5-menus-wd28-master/app/src/main/java/cse340/menus/views/AbstractMenuExperimentView.java:297-299 | sets the trial and nothing else |
| MenuView.MenuExperimentView.SetTrialListener | as5-menus-wd28-master/app/src/main/java/cse340/menus/views/AbstractMenuExperimentView.java:373-375 | registers or removes the listener and nothing else |
| MenuView.MenuExperimentView.StartSelection | as5-menus-wd28-master/app/src/main/java/cse340/menus/views/MenuExperimentView.java:95-102 | records the start point; starts an attached trial at now from that point, leaving its end fields |
| MenuView.MenuExperimentView.UpdateModel | as5-menus-wd28-master/app/src/main/java/cse340/menus/views/MenuExperimentView.java:131-137 | the index becomes the item under the finger; nothing else changes |
| MenuView.MenuExperimentView.Reset | as5-menus-wd28-master/app/src/main/java/cse340/menus/views/MenuExperimentView.java:142-148 | state START, start point (0,0), index -1; trial and listener kept |
| MenuView.MenuExperimentView.EndSelection | as5-menus-wd28-master/app/src/main/java/cse340/menus/views/MenuExperimentView.java:109-125 | announces "Nothing Selected" for -1, else "Selected " plus the current item; with trial and listener it ends the trial once and logs it, otherwise it leaves the trial alone; then resets |
| MenuView.MenuExperimentView.OnTouchEvent | as5-menus-wd28-master/app/src/main/java/cse340/menus/views/MenuExperimentView.java:50-84 | START+DOWN starts a selection; SELECTING+MOVE follows the finger; SELECTING+UP ends it at the resolved item, finalising the trial at most once and only with a listener, leaving it unchanged without one; DOWN keeps the trial's end fields and duration; every other pair changes nothing and returns false |
| Trial.IndexOf | as5-menus-wd28-master/app/src/main/java/cse340/menus/ExperimentTrial.java:65 | List.indexOf: the first position of the item, or -1 exactly when it is absent |
| Trial.ExperimentTrial.constructor | as5-menus-wd28-master/app/src/main/java/cse340/menus/ExperimentTrial.java:58-68 | fixed conditions as given; prompted index is indexOf, valid when the item is present and getItem then returns it; selected -1 |
| Trial.ExperimentTrial.StartTrial | as5-menus-wd28-master/app/src/main/java/cse340/menus/ExperimentTrial.java:74-77 | start time now, start point p; end fields untouched |
| Trial.ExperimentTrial.EndTrial | as5-menus-wd28-master/app/src/main/java/cse340/menus/ExperimentTrial.java:84-88 | duration now - start, end point p, selected index as given; start fields untouched |
| Trial.ExperimentTrial.GetItem | as5-menus-wd28-master/app/src/main/java/cse340/menus/ExperimentTrial.java:111-113 | the item at the prompted index, which indexOf finds at or before that index |
| Trial.ExperimentTrial.Row | as5-menus-wd28-master/app/src/main/java/cse340/menus/ExperimentTrial.java:116-145 | one field per header column, each the matching trial field in header order: participant, trial, repeat, menu, task, start time, duration, start x/y, end x/y, selected, prompted, and the contents joined by "/" |
| Trial.AllOptionsColumnReadsBack | as5-menus-wd28-master/app/src/main/java/cse340/menus/ExperimentTrial.java:144 | the last log column splits back into contents read from a task table |
| Trial.IndexOfAtMost | as5-menus-wd28-master/app/src/main/java/cse340/menus/ExperimentTrial.java:65 | indexOf finds an element no later than any position holding it |
| Schedule.Prompted | as5-menus-wd28-master/app/src/main/java/cse340/menus/ExperimentSession.java:195 | min(ITEM_MAX, size): at most both, equal to one |
| Schedule.Repeats | as5-menus-wd28-master/app/src/main/java/cse340/menus/ExperimentSession.java:196-201 | the j-loop yields repeat numbers 0..j-1 of one item, in order |
| Schedule.Items | as5-menus-wd28-master/app/src/main/java/cse340/menus/ExperimentSession.java:195-202 | i rounds of the item loop yield i * NUM_REPEATS trials |
| Schedule.Block | as5-menus-wd28-master/app/src/main/java/cse340/menus/ExperimentSession.java:195-202 | a condition holds min(ITEM_MAX, size) * NUM_REPEATS trials, each of that menu and task, showing the unshuffled list, prompting a shuffled item among the first prompted ones, repeat below NUM_REPEATS |
| Schedule.TaskBlock | as5-menus-wd28-master/app/src/main/java/cse340/menus/ExperimentSession.java:185-192 | the block of the j-th task has min(ITEM_MAX, size) * NUM_REPEATS trials |
| Schedule.ItemsLayout | as5-menus-wd28-master/app/src/main/java/cse340/menus/ExperimentSession.java:195-200 | trial i*NUM_REPEATS + j of the loops prompts shuffled item i with repeat number j |
| Schedule.BlockLayout | as5-menus-wd28-master/app/src/main/java/cse340/menus/ExperimentSession.java:195-199 | proof step: trial i*NUM_REPEATS + j of a block prompts shuffled item i with repeat number j |
| Schedule.ItemsAreBlock | as5-menus-wd28-master/app/src/main/java/cse340/menus/ExperimentSession.java:195-202 | the nested loops build exactly the block |
| Schedule.MenuOrder | as5-menus-wd28-master/app/src/main/java/cse340/menus/ExperimentSession.java:172-174 | the menu types shuffled once: a reordering of values() |
| Schedule.TaskOrders | as5-menus-wd28-master/app/src/main/java/cse340/menus/ExperimentSession.java:173-178 | the task list reshuffled once per menu, cumulatively: every order is a reordering of values() |
| Schedule.TrialList | as5-menus-wd28-master/app/src/main/java/cse340/menus/ExperimentSession.java:165-207 | the reference schedule CreateTrials is proved against: menu sections in menu order; with reordering shuffles, the number of menu types times the per-menu count long |
| Schedule.MenuOrderIsPermutation | as5-menus-wd28-master/app/src/main/java/cse340/menus/ExperimentSession.java:172-174 | the menu order lists every menu type exactly once |
| Schedule.TaskOrderIsPermutation | as5-menus-wd28-master/app/src/main/java/cse340/menus/ExperimentSession.java:173-178 | after any number of reshuffles, a menu's task order lists every task exactly once |
| Schedule.TrialsFor | as5-menus-wd28-master/app/src/main/java/cse340/menus/ExperimentSession.java:180-202 | a multiple of NUM_REPEATS, at most NUM_REPEATS x ITEM_MAX per task in the list |
| Schedule.TrialsForConcat | as5-menus-wd28-master/app/src/main/java/cse340/menus/ExperimentSession.java:180-202 | counts of task lists add up under concatenation |
| Schedule.TrialsForSingle | as5-menus-wd28-master/app/src/main/java/cse340/menus/ExperimentSession.java:195-196 | proof step: one task contributes min(ITEM_MAX, size) * NUM_REPEATS |
| Schedule.TrialsForRemove | as5-menus-wd28-master/app/src/main/java/cse340/menus/ExperimentSession.java:180-202 | removing a task from the list removes exactly its trials from the count |
| Schedule.TrialsForPermutation | as5-menus-wd28-master/app/src/main/java/cse340/menus/ExperimentSession.java:178 | the count does not depend on the order of task types |
| Schedule.ConditionsLength | as5-menus-wd28-master/app/src/main/java/cse340/menus/ExperimentSession.java:180-202 | the first n blocks hold the count of the first n tasks |
| Schedule.SectionLength | as5-menus-wd28-master/app/src/main/java/cse340/menus/ExperimentSession.java:178-202 | every menu gets the same number of trials, whatever its task order |
| Schedule.SectionsLength | as5-menus-wd28-master/app/src/main/java/cse340/menus/ExperimentSession.java:177-204 | the first n menus hold n times the per-menu count |
| Schedule.PerMenuUnfolded | as5-menus-wd28-master/app/src/main/java/cse340/menus/ExperimentSession.java:180-202 | the per-menu count is the sum over the three tasks of min(ITEM_MAX, size) * NUM_REPEATS |
| Schedule.ScheduleLength | as5-menus-wd28-master/app/src/main/java/cse340/menus/ExperimentSession.java:172-204 | total = number of menu types x sum over tasks of min(ITEM_MAX, size) x NUM_REPEATS |
| Schedule.FullPoolsGive108 | as5-menus-wd28-master/app/src/main/java/cse340/menus/ExperimentSession.java:30-33 | with at least ITEM_MAX items per task there are 108 trials |
| Schedule.ConditionsWellFormed | as5-menus-wd28-master/app/src/main/java/cse340/menus/ExperimentSession.java:185-199 | every trial of a menu's blocks belongs to that menu, shows its task's unshuffled list and prompts an item of it |
| Schedule.SectionWellFormed | as5-menus-wd28-master/app/src/main/java/cse340/menus/ExperimentSession.java:177-202 | every trial of the m-th section is well formed and belongs to the m-th menu |
| Schedule.SectionsWellFormed | as5-menus-wd28-master/app/src/main/java/cse340/menus/ExperimentSession.java:177-204 | every trial of the first n sections is well formed |
| Schedule.ScheduleWellFormed | as5-menus-wd28-master/app/src/main/java/cse340/menus/ExperimentSession.java:185-199 | every trial shows the unshuffled list and prompts one of its items, with repeat below NUM_REPEATS |
| Schedule.ScheduleIsContiguous | as5-menus-wd28-master/app/src/main/java/cse340/menus/ExperimentSession.java:177-204 | the list is three contiguous menu sections in menu order |
| Schedule.SectionIsContiguous | as5-menus-wd28-master/app/src/main/java/cse340/menus/ExperimentSession.java:180-203 | each section is three contiguous task blocks in that menu's task order |
| Session.LoadFrom | as5-menus-wd28-master/app/src/main/java/cse340/menus/ExperimentSession.java:145-150 | reading only adds keys; no tokens leave the table as it was |
| Session.LoadTasks | as5-menus-wd28-master/app/src/main/java/cse340/menus/ExperimentSession.java:137-158 | the loop's result is the pairwise reading of all tokens, including both failures |
| Session.LoadSucceedsIff | as5-menus-wd28-master/app/src/main/java/cse340/menus/ExperimentSession.java:145-149 | reading succeeds exactly when the tokens pair up and every name parses |
| Session.PairedNamesStep | as5-menus-wd28-master/app/src/main/java/cse340/menus/ExperimentSession.java:146-149 | the tokens pair up exactly when the first pair does and the rest pair up |
| Session.LaterPairOverwrites | as5-menus-wd28-master/app/src/main/java/cse340/menus/ExperimentSession.java:149 | a later pair for a task replaces its list and keeps every other |
| Session.LoadOfWrittenPair | as5-menus-wd28-master/app/src/main/java/cse340/menus/ExperimentSession.java:146-149 | a task written as name and "/"-joined items reads back as those items |
| Session.DescribesAppend | as5-menus-wd28-master/app/src/main/java/cse340/menus/ExperimentSession.java:198-200 | proof step: appending a trial made for the next description at the next number keeps the list faithful |
| Session.CompleteByName | as5-menus-wd28-master/app/src/main/java/cse340/menus/ExperimentSession.java:185 | every task has a list exactly when the three named tasks do |
| Session.AddCondition | as5-menus-wd28-master/app/src/main/java/cse340/menus/ExperimentSession.java:195-202 | the item loop appends the trials of the block, numbered on from trialNum |
| Session.AddRepeats | as5-menus-wd28-master/app/src/main/java/cse340/menus/ExperimentSession.java:196-201 | the repeat loop appends NUM_REPEATS trials of one item, numbered on |
| Session.AddSection | as5-menus-wd28-master/app/src/main/java/cse340/menus/ExperimentSession.java:180-203 | the loop over task types appends the menu's section |
| Session.CreateTrials | as5-menus-wd28-master/app/src/main/java/cse340/menus/ExperimentSession.java:165-207 | None exactly when a task has no list; otherwise trial k is made for description k of the schedule, with number k and the participant |
| Session.CreatedTrialsAreSound | as5-menus-wd28-master/app/src/main/java/cse340/menus/ExperimentSession.java:168-200 | trial numbers are the positions; each trial shows its task's list, has a valid prompted index and a repeat below NUM_REPEATS |
| Session.ExperimentSession.constructor | as5-menus-wd28-master/app/src/main/java/cse340/menus/ExperimentSession.java:54-78 | reads the table, then creates the trials; a failure in either leaves no iterator |
| Session.ExperimentSession.GetCurrentTrial | as5-menus-wd28-master/app/src/main/java/cse340/menus/ExperimentSession.java:89-91 | none before the first next(), afterwards the trial next() returned last |
| Session.ExperimentSession.HasNext | as5-menus-wd28-master/app/src/main/java/cse340/menus/ExperimentSession.java:235-237 | true exactly while the cursor has not handed out every trial |
| Session.ExperimentSession.Next | as5-menus-wd28-master/app/src/main/java/cse340/menus/ExperimentSession.java:244-247 | returns the trial at the cursor, makes it current and advances; more remain exactly when the cursor has not reached the end |
| Scenarios.SecondCellOffset | as5-menus-wd28-master/app/src/main/java/cse340/menus/views/NormalMenuView.java:80 | the offset (50, 75) selects the second cell of a 100 x 50 column |
| Scenarios.ThirdCellOffset | as5-menus-wd28-master/app/src/main/java/cse340/menus/views/NormalMenuView.java:80 | the offset (60, 100) selects the third cell |
| Scenarios.NewView | as5-menus-wd28-master/app/src/main/java/cse340/menus/views/AbstractMenuExperimentView.java:89-92 | a view on a fresh trial prompting "b" starts at rest with the listener registered |
| Scenarios.PressDragRelease | as5-menus-wd28-master/app/src/main/java/cse340/menus/views/MenuExperimentView.java:61-83 | press, drag to item 1 and release: "Selected b", the trial records index 1 and 250 ms and is logged once; a second release is ignored |
| Scenarios.ReleaseWithoutMove | as5-menus-wd28-master/app/src/main/java/cse340/menus/views/MenuExperimentView.java:111-115 | a release on item 2 without a MOVE records 2 but announces "Selected Nothing Selected" |

## Left out

- Rendering: `drawMenu`/`onDraw`, Paint setup, the `announce` Toast (the announcement is returned instead), `invalidate()`, `TEXT_SIZE`.
- The activities (`AbstractMainActivity`, `MainActivity`, `TestActivity`): Android lifecycle and layout plumbing over `hasNext`/`next`.
- The FiveInaRow game view: drawing code over a game class that is not part of this model.
- File and asset I/O:
  - `createCSV`, `deleteCSV`, `recordResult` and `Log` are not modelled.
  - Opening `menuContents.csv` and the Scanner's line mechanics are not modelled: `loadTasks` takes the file's comma- and newline-separated tokens as input.
  - LoadTasks: a file ending in a newline leaves `hasNextLine()` true after the last pair, so Java's `scan.next()` throws and the session gets no iterator; on the same tokens the model succeeds.
- The CSV header is a list of column names, without the ", " separators of the file. `toString` gives its fields as values (`Row`), not as formatted text: float and long formatting is not modelled.
- Floating point:
  - Coordinates and angles are reals, with no rounding, NaN or infinity.
  - The pie menu's empty case (division by zero, NaN cast to 0) is stated as its outcome, 0.
- `Math.atan2`/`Math.toDegrees` are inputs, and `sqrt` is replaced by a comparison of squares.
- `MIN_DIST` and the cell sizes derive from the display size through float ratios. They are parameters here: MIN_DIST a natural number, the cell sizes positive integers.
- Randomness and time:
  - `Collections.shuffle` is an oracle, numbered by call, that only reorders.
  - The participant number is an input.
  - `currentTimeMillis` is a `now` parameter.
- `TrialListener` is not modelled as an object: the model keeps a flag saying a listener is registered, and the list of trials it received.
- `getTrialListener`, `getCurrentIndex`, `getStartPoint`, `getTrial`, `getItems` and the trial's plain getters are field reads, not separate members; `getCurrentTrial` and `hasNext` are members.
- `setParticipantNum` is not modelled: the participant number is fixed at construction.
- `ExperimentSession.toString` is not modelled.
- Session.CreateTrials: a task without a list makes Java throw a NullPointerException in the middle of the loops, and the constructor catches it. The model checks for all three lists before the loops and returns None. The outcome is the same: no iterator.
- Session.ExperimentSession.constructor: Java catches every exception, so on failure `mTrials` is null and `hasNext` would throw. The model keeps `loaded` false and requires it for `HasNext` and `Next`.
- Shuffling works on a copy in Java. Sequences are values here, so "the canonical list is unchanged" holds by construction rather than as a stated property.
