/** One measured attempt of a participant to select a prompted item
    (ExperimentTrial): its fixed conditions, the fields written when the gesture
    starts and ends, and the row it contributes to the result log. */
module Trial {
  import opened Common
  import opened Enums
  import opened Strings

  /** List.indexOf: the first position of x in s, or -1 when x is absent. */
  function IndexOf(s: seq<string>, x: string): (r: int)
    ensures -1 <= r < |s|
    ensures r == -1 <==> x !in s
    ensures r >= 0 ==> s[r] == x && x !in s[..r]
  {
    if s == [] then -1
    else if s[0] == x then 0
    else
      var k := IndexOf(s[1..], x);
      assert s[1..][..if k < 0 then 0 else k] == s[1..if k < 0 then 1 else k + 1];
      if k == -1 then -1 else k + 1
  }

  /** The column names of the result log, in order. */
  const CsvHeader: seq<string> :=
    ["participant", "trialNum", "repeatNum", "menu", "task", "startTime",
     "taskDuration (millis)", "Start x", "Start y", "End x", "End y",
     "selected option", "prompted option", "all options"]

  /** One field of a log row, before it is rendered as text. */
  datatype CsvField = IntField(i: int) | RealField(r: real) | TextField(s: string)

  class ExperimentTrial {
    /** The conditions of the trial, fixed when it is created. */
    const menu: MenuType
    const task: TaskType
    const contents: seq<string>
    const repeatNum: int
    const trialNum: int
    const participantNum: int
    /** The position in contents of the item the participant is asked to select. */
    const promptedIndex: int

    /** What the gesture recorded; Java's defaults (0, null) until written. */
    var selectedIndex: int
    var startTime: int
    var durationMillis: int
    var startPoint: Option<Point>
    var endPoint: Option<Point>

    /** The trial for selecting `item` from `contents`; the prompt is found by
        identity of the label, not by its position in any shuffled copy. */
    constructor (menu: MenuType, task: TaskType, item: string, contents: seq<string>,
                 repeatNum: int, trialNum: int, participantNum: int)
      ensures this.menu == menu && this.task == task && this.contents == contents
      ensures this.repeatNum == repeatNum && this.trialNum == trialNum
      ensures this.participantNum == participantNum
      ensures promptedIndex == IndexOf(contents, item)
      ensures item in contents ==> 0 <= promptedIndex < |contents| && contents[promptedIndex] == item
      ensures item !in contents ==> promptedIndex == -1
      ensures item in contents ==> GetItem() == item
      ensures selectedIndex == -1 && startTime == 0 && durationMillis == 0
      ensures startPoint == None && endPoint == None
    {
      this.menu := menu;
      this.task := task;
      this.contents := contents;
      this.repeatNum := repeatNum;
      this.trialNum := trialNum;
      this.promptedIndex := IndexOf(contents, item);
      this.participantNum := participantNum;
      this.selectedIndex := -1;
      this.startTime := 0;
      this.durationMillis := 0;
      this.startPoint := None;
      this.endPoint := None;
    }

    /** Records the start of the gesture: the clock reading `now` and the finger position. */
    method StartTrial(p: Point, now: int)
      modifies this
      ensures startTime == now && startPoint == Some(p)
      ensures selectedIndex == old(selectedIndex) && durationMillis == old(durationMillis)
      ensures endPoint == old(endPoint)
    {
      startTime := now;
      startPoint := Some(p);
    }

    /** Records the end of the gesture: the time since the start, the final finger
        position and the option selected (-1 for none). */
    method EndTrial(p: Point, selectedOption: int, now: int)
      modifies this
      ensures durationMillis == now - old(startTime)
      ensures endPoint == Some(p) && selectedIndex == selectedOption
      ensures startTime == old(startTime) && startPoint == old(startPoint)
    {
      durationMillis := now - startTime;
      endPoint := Some(p);
      selectedIndex := selectedOption;
    }

    /** The prompted item; Java's get throws when the prompt was not in the contents. */
    function GetItem(): (item: string)
      requires 0 <= promptedIndex < |contents|
      ensures item == contents[promptedIndex]
      ensures item in contents
      ensures IndexOf(contents, item) <= promptedIndex
    {
      IndexOfAtMost(contents, contents[promptedIndex], promptedIndex);
      contents[promptedIndex]
    }

    /** The fields of toString(), one per log column; the start and end points must
        have been recorded (Java dereferences them). */
    function Row(): (row: seq<CsvField>)
      reads this
      requires startPoint.Some? && endPoint.Some?
      ensures |row| == |CsvHeader|
      // column by column, in the order of CsvHeader
      ensures row[0] == IntField(participantNum) && row[1] == IntField(trialNum)
      ensures row[2] == IntField(repeatNum)
      ensures row[3] == TextField(MenuName(menu)) && row[4] == TextField(TaskName(task))
      ensures row[5] == IntField(startTime) && row[6] == IntField(durationMillis)
      ensures row[7] == RealField(startPoint.value.x) && row[8] == RealField(startPoint.value.y)
      ensures row[9] == RealField(endPoint.value.x) && row[10] == RealField(endPoint.value.y)
      ensures row[11] == IntField(selectedIndex) && row[12] == IntField(promptedIndex)
      ensures row[|row| - 1] == TextField(Join(contents, '/'))
    {
      [IntField(participantNum), IntField(trialNum), IntField(repeatNum),
       TextField(MenuName(menu)), TextField(TaskName(task)),
       IntField(startTime), IntField(durationMillis),
       RealField(startPoint.value.x), RealField(startPoint.value.y),
       RealField(endPoint.value.x), RealField(endPoint.value.y),
       IntField(selectedIndex), IntField(promptedIndex),
       TextField(Join(contents, '/'))]
    }
  }

  /** The last log column, split on "/" as task table entries are, gives back the trial's
      contents whenever those contents were themselves read from the table. */
  lemma AllOptionsColumnReadsBack(t: ExperimentTrial, line: string)
    requires t.startPoint.Some? && t.endPoint.Some?
    requires t.contents == Split(line, '/') && |t.contents| >= 1
    ensures Split(t.Row()[|CsvHeader| - 1].s, '/') == t.contents
  {
    SplitJoinSplit(line, '/');
  }

  /** An element found at position i is found at i or earlier. */
  lemma IndexOfAtMost(s: seq<string>, x: string, i: int)
    requires 0 <= i < |s| && s[i] == x
    ensures 0 <= IndexOf(s, x) <= i
  {
    assert x in s;
  }
}
