/** The three enumerations of the experiment (enums/MenuType, enums/TaskType,
    enums/State), their Java names and TaskType.valueOf. */
module Enums {
  import opened Common

  /** The menu condition of a trial. */
  datatype MenuType = Normal | Pie | Custom

  /** A trial's task condition: how the menu's items relate to each other. */
  datatype TaskType = Linear | Relative | Unclass

  /** The state of the press/drag/release machine of a menu view. */
  datatype State = Start | Selecting

  /** MenuType.values(), in declaration order. */
  const AllMenus: seq<MenuType> := [Normal, Pie, Custom]

  /** TaskType.values(), in declaration order. */
  const AllTasks: seq<TaskType> := [Linear, Relative, Unclass]

  lemma AllMenusListsEach(m: MenuType)
    ensures m in AllMenus
    ensures multiset(AllMenus)[m] == 1
  {
  }

  lemma AllTasksListsEach(t: TaskType)
    ensures t in AllTasks
    ensures multiset(AllTasks)[t] == 1
  {
  }

  /** The enum constant's name(), which is also what toString() prints. */
  function MenuName(m: MenuType): string
  {
    match m
    case Normal => "NORMAL"
    case Pie => "PIE"
    case Custom => "CUSTOM"
  }

  function TaskName(t: TaskType): string
  {
    match t
    case Linear => "LINEAR"
    case Relative => "RELATIVE"
    case Unclass => "UNCLASS"
  }

  /** TaskType.valueOf(name): the constant with exactly that name; Java throws
      IllegalArgumentException for any other string, here None. */
  function ParseTaskType(name: string): (r: Option<TaskType>)
    ensures r.Some? ==> TaskName(r.value) == name
    ensures r.None? ==> forall t :: TaskName(t) != name
  {
    if name == "LINEAR" then Some(Linear)
    else if name == "RELATIVE" then Some(Relative)
    else if name == "UNCLASS" then Some(Unclass)
    else None
  }

  /** valueOf inverts name(). */
  lemma ParseTaskName(t: TaskType)
    ensures ParseTaskType(TaskName(t)) == Some(t)
  {
  }
}
