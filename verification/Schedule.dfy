/** What ExperimentSession.createTrials builds, as a value: the counterbalanced
    list of trial descriptions for one participant, in creation order. The list is
    defined the way the loops build it, by appending: block after block of a task
    under a menu, menu section after menu section. Collections.shuffle is an oracle,
    the k-th call of which reorders its list in some way. */
module Schedule {
  import opened Enums

  /** NUM_REPEATS: how many trials each prompted item gets in a row. */
  const NumRepeats: nat := 3

  /** ITEM_MAX: how many items of a condition's list are prompted. */
  const ItemMax: nat := 4

  /** The k-th call of Collections.shuffle on a list: some reordering of it. */
  type Shuffle<!T> = (nat, seq<T>) -> seq<T>

  /** The oracle only ever reorders its argument. */
  ghost predicate Permutes<T(!new)>(shuffle: Shuffle<T>)
  {
    forall k: nat, s: seq<T> :: multiset(shuffle(k, s)) == multiset(s)
  }

  /** A task table: an item list for each task. */
  type TaskTable = map<TaskType, seq<string>>

  /** Every task has an item list (createTrials dereferences tasks.get(task)). */
  predicate Complete(tasks: TaskTable)
  {
    forall t: TaskType :: t in tasks
  }

  /** The arguments of one ExperimentTrial constructor call, apart from the trial
      number (the trial's position in the list) and the participant. */
  datatype TrialSpec = TrialSpec(menu: MenuType, task: TaskType, item: string,
                                 contents: seq<string>, repeatNum: int)

  /** min(ITEM_MAX, items.size()): how many items of the list are prompted. */
  function Prompted(items: seq<string>): (c: nat)
    ensures c <= ItemMax && c <= |items|
    ensures c == ItemMax || c == |items|
  {
    if |items| < ItemMax then |items| else ItemMax
  }

  /** The NUM_REPEATS-loop for one prompted item, after j rounds: trials with
      repeat numbers 0, ..., j - 1. */
  function Repeats(menu: MenuType, task: TaskType, item: string, items: seq<string>, j: nat): (r: seq<TrialSpec>)
    ensures |r| == j
    ensures forall k :: 0 <= k < j ==> r[k] == TrialSpec(menu, task, item, items, k)
  {
    if j == 0 then []
    else Repeats(menu, task, item, items, j - 1) + [TrialSpec(menu, task, item, items, j - 1)]
  }

  /** The item loop of one condition after i rounds: NUM_REPEATS trials for each of
      the shuffled items 0, ..., i - 1 in turn. */
  function Items(menu: MenuType, task: TaskType, items: seq<string>, shuffled: seq<string>, i: nat): (b: seq<TrialSpec>)
    requires i <= |shuffled|
    ensures |b| == i * NumRepeats
  {
    if i == 0 then []
    else Items(menu, task, items, shuffled, i - 1) + Repeats(menu, task, shuffled[i - 1], items, NumRepeats)
  }

  /** The trials of one (menu, task) condition: each of the first Prompted(items)
      shuffled items, NUM_REPEATS times in a row; every trial shows the unshuffled list. */
  function Block(menu: MenuType, task: TaskType, items: seq<string>, shuffled: seq<string>): (b: seq<TrialSpec>)
    requires Prompted(items) <= |shuffled|
    ensures |b| == Prompted(items) * NumRepeats
    ensures forall s :: s in b ==> s.menu == menu && s.task == task && s.contents == items
                                   && s.item in shuffled[..Prompted(items)]
                                   && 0 <= s.repeatNum < NumRepeats
  {
    seq(Prompted(items) * NumRepeats,
        k requires 0 <= k < Prompted(items) * NumRepeats =>
          TrialSpec(menu, task, shuffled[k / NumRepeats], items, k % NumRepeats))
  }

  /** Which call of the item shuffle serves the j-th task under the m-th menu. */
  function ItemCall(m: nat, j: nat): nat
  {
    |AllTasks| * m + j
  }

  /** The block of the j-th task of `order` under the m-th menu: its item list is
      copied and the copy shuffled. */
  function TaskBlock(menu: MenuType, m: nat, order: seq<TaskType>, j: nat, tasks: TaskTable,
                     itemShuffle: Shuffle<string>): (b: seq<TrialSpec>)
    requires j < |order| && Complete(tasks) && Permutes(itemShuffle)
    ensures |b| == Prompted(tasks[order[j]]) * NumRepeats
  {
    var items := tasks[order[j]];
    var shuffled := itemShuffle(ItemCall(m, j), items);
    assert |multiset(shuffled)| == |multiset(items)|;
    Block(menu, order[j], items, shuffled)
  }

  /** The blocks of the first n tasks of `order` under the m-th menu. */
  function Conditions(menu: MenuType, m: nat, order: seq<TaskType>, n: nat, tasks: TaskTable,
                      itemShuffle: Shuffle<string>): seq<TrialSpec>
    requires n <= |order| && Complete(tasks) && Permutes(itemShuffle)
  {
    if n == 0 then []
    else Conditions(menu, m, order, n - 1, tasks, itemShuffle)
         + TaskBlock(menu, m, order, n - 1, tasks, itemShuffle)
  }

  /** A task list after m shuffles: the m-th menu (counting from 0) uses
      TaskOrders(taskShuffle, m + 1). The same list is reshuffled before each menu. */
  function TaskOrders(taskShuffle: Shuffle<TaskType>, m: nat): (order: seq<TaskType>)
    ensures Permutes(taskShuffle) ==> multiset(order) == multiset(AllTasks)
  {
    if m == 0 then AllTasks
    else taskShuffle(m - 1, TaskOrders(taskShuffle, m - 1))
  }

  /** The trials of the m-th menu: the blocks of all tasks in that menu's order. */
  function Section(menus: seq<MenuType>, m: nat, tasks: TaskTable, taskShuffle: Shuffle<TaskType>,
                   itemShuffle: Shuffle<string>): seq<TrialSpec>
    requires m < |menus| && Complete(tasks) && Permutes(itemShuffle)
  {
    var order := TaskOrders(taskShuffle, m + 1);
    Conditions(menus[m], m, order, |order|, tasks, itemShuffle)
  }

  /** The sections of the first n menus. */
  function Sections(menus: seq<MenuType>, n: nat, tasks: TaskTable, taskShuffle: Shuffle<TaskType>,
                    itemShuffle: Shuffle<string>): seq<TrialSpec>
    requires n <= |menus| && Complete(tasks) && Permutes(itemShuffle)
  {
    if n == 0 then []
    else Sections(menus, n - 1, tasks, taskShuffle, itemShuffle)
         + Section(menus, n - 1, tasks, taskShuffle, itemShuffle)
  }

  /** The menu order: the list of all menus shuffled once. */
  function MenuOrder(menuShuffle: Shuffle<MenuType>): (order: seq<MenuType>)
    ensures Permutes(menuShuffle) ==> multiset(order) == multiset(AllMenus)
  {
    menuShuffle(0, AllMenus)
  }

  /** createTrials(tasks): every menu in the shuffled menu order, under it every task
      in that menu's task order; trial k of the list gets trial number k. */
  function TrialList(tasks: TaskTable, menuShuffle: Shuffle<MenuType>,
                    taskShuffle: Shuffle<TaskType>, itemShuffle: Shuffle<string>): (list: seq<TrialSpec>)
    requires Complete(tasks) && Permutes(itemShuffle)
    ensures Permutes(menuShuffle) && Permutes(taskShuffle) ==> |list| == |AllMenus| * PerMenu(tasks)
  {
    var menus := MenuOrder(menuShuffle);
    assert Permutes(menuShuffle) && Permutes(taskShuffle) ==>
             |Sections(menus, |menus|, tasks, taskShuffle, itemShuffle)| == |AllMenus| * PerMenu(tasks) by {
      if Permutes(menuShuffle) && Permutes(taskShuffle) {
        MenuOrderIsPermutation(menuShuffle);
        SectionsLength(menus, |menus|, tasks, taskShuffle, itemShuffle);
      }
    }
    Sections(menus, |menus|, tasks, taskShuffle, itemShuffle)
  }

  /** One more menu: its task list is the previous one shuffled once more, and its
      section follows the sections before it. */
  lemma SectionsStep(menus: seq<MenuType>, n: nat, tasks: TaskTable, taskShuffle: Shuffle<TaskType>,
                     itemShuffle: Shuffle<string>)
    requires n < |menus| && Complete(tasks) && Permutes(itemShuffle)
    ensures TaskOrders(taskShuffle, n + 1) == taskShuffle(n, TaskOrders(taskShuffle, n))
    ensures var order := TaskOrders(taskShuffle, n + 1);
            Sections(menus, n + 1, tasks, taskShuffle, itemShuffle)
            == Sections(menus, n, tasks, taskShuffle, itemShuffle)
               + Conditions(menus[n], n, order, |order|, tasks, itemShuffle)
  {
  }

  // ---------------------------------------------------------------------------
  // Inside a block

  /** Within a block, shuffled item i is prompted by NUM_REPEATS consecutive trials,
      with repeat numbers 0, 1, ..., NUM_REPEATS - 1, starting at position
      i * NUM_REPEATS. */
  lemma {:induction false} ItemsLayout(menu: MenuType, task: TaskType, items: seq<string>,
                                       shuffled: seq<string>, n: nat, i: nat, j: nat)
    requires n <= |shuffled| && i < n && j < NumRepeats
    ensures i * NumRepeats + j < |Items(menu, task, items, shuffled, n)|
    ensures Items(menu, task, items, shuffled, n)[i * NumRepeats + j]
            == TrialSpec(menu, task, shuffled[i], items, j)
  {
    var front := Items(menu, task, items, shuffled, n - 1);
    var last := Repeats(menu, task, shuffled[n - 1], items, NumRepeats);
    assert Items(menu, task, items, shuffled, n) == front + last;
    if i < n - 1 {
      ItemsLayout(menu, task, items, shuffled, n - 1, i, j);
      assert i * NumRepeats + j < (i + 1) * NumRepeats <= (n - 1) * NumRepeats;
    } else {
      assert |front| == i * NumRepeats;
    }
  }

  /** Trial i * NUM_REPEATS + j of a block prompts shuffled item i for the j-th time. */
  lemma BlockLayout(menu: MenuType, task: TaskType, items: seq<string>, shuffled: seq<string>,
                    i: nat, j: nat)
    requires Prompted(items) <= |shuffled| && i < Prompted(items) && j < NumRepeats
    ensures i * NumRepeats + j < |Block(menu, task, items, shuffled)|
    ensures Block(menu, task, items, shuffled)[i * NumRepeats + j]
            == TrialSpec(menu, task, shuffled[i], items, j)
  {
    assert i * NumRepeats + j < (i + 1) * NumRepeats <= Prompted(items) * NumRepeats;
  }

  /** Position k of a block belongs to item k / NUM_REPEATS, repeat k % NUM_REPEATS. */
  lemma SplitIndex(k: nat, n: nat)
    requires k < n * NumRepeats
    ensures k / NumRepeats < n && k % NumRepeats < NumRepeats
    ensures k == (k / NumRepeats) * NumRepeats + k % NumRepeats
  {
  }

  /** The nested loops (items outside, repeats inside) build exactly the block. */
  lemma ItemsAreBlock(menu: MenuType, task: TaskType, items: seq<string>, shuffled: seq<string>)
    requires Prompted(items) <= |shuffled|
    ensures Items(menu, task, items, shuffled, Prompted(items)) == Block(menu, task, items, shuffled)
  {
    var n := Prompted(items);
    var loops := Items(menu, task, items, shuffled, n);
    var block := Block(menu, task, items, shuffled);
    forall k | 0 <= k < |block|
      ensures loops[k] == block[k]
    {
      SplitIndex(k, n);
      var i, j := k / NumRepeats, k % NumRepeats;
      ItemsLayout(menu, task, items, shuffled, n, i, j);
      BlockLayout(menu, task, items, shuffled, i, j);
    }
  }

  // ---------------------------------------------------------------------------
  // The orders are permutations

  /** The menu order lists every menu exactly once. */
  lemma MenuOrderIsPermutation(menuShuffle: Shuffle<MenuType>)
    requires Permutes(menuShuffle)
    ensures multiset(MenuOrder(menuShuffle)) == multiset(AllMenus)
    ensures |MenuOrder(menuShuffle)| == |AllMenus|
    ensures forall menu :: multiset(MenuOrder(menuShuffle))[menu] == 1
  {
    forall menu: MenuType
      ensures multiset(MenuOrder(menuShuffle))[menu] == 1
    {
      AllMenusListsEach(menu);
    }
  }

  /** Every menu's task order, however many shuffles it went through, lists every
      task exactly once. */
  lemma {:induction false} TaskOrderIsPermutation(taskShuffle: Shuffle<TaskType>, m: nat)
    requires Permutes(taskShuffle)
    ensures multiset(TaskOrders(taskShuffle, m)) == multiset(AllTasks)
    ensures |TaskOrders(taskShuffle, m)| == |AllTasks|
    ensures forall task :: multiset(TaskOrders(taskShuffle, m))[task] == 1
  {
    if m > 0 {
      TaskOrderIsPermutation(taskShuffle, m - 1);
    }
    assert |multiset(TaskOrders(taskShuffle, m))| == |multiset(AllTasks)|;
    forall task: TaskType
      ensures multiset(TaskOrders(taskShuffle, m))[task] == 1
    {
      AllTasksListsEach(task);
    }
  }

  // ---------------------------------------------------------------------------
  // Counting

  /** How many trials a list of tasks contributes under one menu. */
  function TrialsFor(tasks: TaskTable, order: seq<TaskType>): (c: nat)
    requires Complete(tasks)
    // NUM_REPEATS trials for each of at most ITEM_MAX items per task
    ensures c % NumRepeats == 0 && c <= NumRepeats * ItemMax * |order|
  {
    if order == [] then 0
    else Prompted(tasks[order[0]]) * NumRepeats + TrialsFor(tasks, order[1..])
  }

  /** How many trials one menu gets: a block per task. */
  function PerMenu(tasks: TaskTable): nat
    requires Complete(tasks)
  {
    TrialsFor(tasks, AllTasks)
  }

  lemma {:induction false} TrialsForConcat(tasks: TaskTable, a: seq<TaskType>, b: seq<TaskType>)
    requires Complete(tasks)
    ensures TrialsFor(tasks, a + b) == TrialsFor(tasks, a) + TrialsFor(tasks, b)
  {
    if a == [] {
      assert a + b == b;
    } else {
      assert (a + b)[0] == a[0];
      assert (a + b)[1..] == a[1..] + b;
      TrialsForConcat(tasks, a[1..], b);
    }
  }

  lemma TrialsForSingle(tasks: TaskTable, x: TaskType)
    requires Complete(tasks)
    ensures TrialsFor(tasks, [x]) == Prompted(tasks[x]) * NumRepeats
  {
    assert [x][1..] == [];
  }

  /** Taking out the i-th task takes out its trials. */
  lemma TrialsForRemove(tasks: TaskTable, b: seq<TaskType>, i: nat)
    requires Complete(tasks) && i < |b|
    ensures TrialsFor(tasks, b) == Prompted(tasks[b[i]]) * NumRepeats + TrialsFor(tasks, b[..i] + b[i + 1..])
  {
    var left, right := b[..i], b[i + 1..];
    assert b == left + [b[i]] + right;
    TrialsForConcat(tasks, left + [b[i]], right);
    TrialsForConcat(tasks, left, [b[i]]);
    TrialsForConcat(tasks, left, right);
    TrialsForSingle(tasks, b[i]);
  }

  /** Taking the head of a out of b, where b holds it at i, leaves a's tail, up to order. */
  lemma RemoveMatching<T>(a: seq<T>, b: seq<T>, i: nat)
    requires a != [] && multiset(a) == multiset(b) && i < |b| && b[i] == a[0]
    ensures multiset(b[..i] + b[i + 1..]) == multiset(a[1..])
  {
    var x, left, right := a[0], b[..i], b[i + 1..];
    assert a == [x] + a[1..];
    assert b == left + [x] + right;
    assert multiset(a[1..]) == multiset(a) - multiset{x};
    assert multiset(left + right) == multiset(b) - multiset{x};
  }

  /** The count does not depend on the order of task types. */
  lemma {:induction false} TrialsForPermutation(tasks: TaskTable, a: seq<TaskType>, b: seq<TaskType>)
    requires Complete(tasks) && multiset(a) == multiset(b)
    ensures TrialsFor(tasks, a) == TrialsFor(tasks, b)
    decreases |a|
  {
    if a == [] {
      assert |multiset(b)| == 0;
    } else {
      assert a[0] in multiset(b);
      var i :| 0 <= i < |b| && b[i] == a[0];
      RemoveMatching(a, b, i);
      TrialsForPermutation(tasks, a[1..], b[..i] + b[i + 1..]);
      TrialsForRemove(tasks, b, i);
    }
  }

  /** The first n blocks hold as many trials as the first n tasks contribute. */
  lemma {:induction false} ConditionsLength(menu: MenuType, m: nat, order: seq<TaskType>, n: nat,
                                            tasks: TaskTable, itemShuffle: Shuffle<string>)
    requires n <= |order| && Complete(tasks) && Permutes(itemShuffle)
    ensures |Conditions(menu, m, order, n, tasks, itemShuffle)| == TrialsFor(tasks, order[..n])
  {
    if n > 0 {
      ConditionsLength(menu, m, order, n - 1, tasks, itemShuffle);
      assert order[..n] == order[..n - 1] + [order[n - 1]];
      TrialsForConcat(tasks, order[..n - 1], [order[n - 1]]);
      TrialsForSingle(tasks, order[n - 1]);
    }
  }

  /** Whatever its task order, every menu gets PerMenu(tasks) trials. */
  lemma SectionLength(menus: seq<MenuType>, m: nat, tasks: TaskTable,
                      taskShuffle: Shuffle<TaskType>, itemShuffle: Shuffle<string>)
    requires m < |menus| && Complete(tasks) && Permutes(itemShuffle) && Permutes(taskShuffle)
    ensures |Section(menus, m, tasks, taskShuffle, itemShuffle)| == PerMenu(tasks)
  {
    var order := TaskOrders(taskShuffle, m + 1);
    ConditionsLength(menus[m], m, order, |order|, tasks, itemShuffle);
    assert order[..|order|] == order;
    TaskOrderIsPermutation(taskShuffle, m + 1);
    TrialsForPermutation(tasks, order, AllTasks);
  }

  /** The first n menus hold n * PerMenu(tasks) trials. */
  lemma {:induction false} SectionsLength(menus: seq<MenuType>, n: nat, tasks: TaskTable,
                                          taskShuffle: Shuffle<TaskType>, itemShuffle: Shuffle<string>)
    requires n <= |menus| && Complete(tasks) && Permutes(itemShuffle) && Permutes(taskShuffle)
    ensures |Sections(menus, n, tasks, taskShuffle, itemShuffle)| == n * PerMenu(tasks)
  {
    if n > 0 {
      SectionsLength(menus, n - 1, tasks, taskShuffle, itemShuffle);
      SectionLength(menus, n - 1, tasks, taskShuffle, itemShuffle);
      MulStep(n, PerMenu(tasks));
    }
  }

  /** (n - 1) * p + p == n * p. */
  lemma MulStep(n: nat, p: nat)
    requires n > 0
    ensures (n - 1) * p + p == n * p
  {
  }

  /** One menu's count, written out per task. */
  lemma PerMenuUnfolded(tasks: TaskTable)
    requires Complete(tasks)
    ensures PerMenu(tasks) == (Prompted(tasks[Linear]) + Prompted(tasks[Relative])
                               + Prompted(tasks[Unclass])) * NumRepeats
  {
    TrialsForConcat(tasks, [Linear], [Relative, Unclass]);
    TrialsForConcat(tasks, [Relative], [Unclass]);
    TrialsForSingle(tasks, Linear);
    TrialsForSingle(tasks, Relative);
    TrialsForSingle(tasks, Unclass);
    assert AllTasks == [Linear] + ([Relative] + [Unclass]);
  }

  /** The session holds |MenuType| x (sum over tasks of min(ITEM_MAX, |items|)) x
      NUM_REPEATS trials. */
  lemma ScheduleLength(tasks: TaskTable, menuShuffle: Shuffle<MenuType>,
                       taskShuffle: Shuffle<TaskType>, itemShuffle: Shuffle<string>)
    requires Complete(tasks)
    requires Permutes(menuShuffle) && Permutes(taskShuffle) && Permutes(itemShuffle)
    ensures |TrialList(tasks, menuShuffle, taskShuffle, itemShuffle)|
            == |AllMenus| * ((Prompted(tasks[Linear]) + Prompted(tasks[Relative])
                              + Prompted(tasks[Unclass])) * NumRepeats)
  {
    var menus := MenuOrder(menuShuffle);
    MenuOrderIsPermutation(menuShuffle);
    SectionsLength(menus, |menus|, tasks, taskShuffle, itemShuffle);
    PerMenuUnfolded(tasks);
  }

  /** With at least ITEM_MAX items for every task: 3 x 3 x 4 x 3 = 108 trials. */
  lemma FullPoolsGive108(tasks: TaskTable, menuShuffle: Shuffle<MenuType>,
                         taskShuffle: Shuffle<TaskType>, itemShuffle: Shuffle<string>)
    requires Complete(tasks) && forall t :: |tasks[t]| >= ItemMax
    requires Permutes(menuShuffle) && Permutes(taskShuffle) && Permutes(itemShuffle)
    ensures |TrialList(tasks, menuShuffle, taskShuffle, itemShuffle)| == 108
  {
    ScheduleLength(tasks, menuShuffle, taskShuffle, itemShuffle);
    assert |tasks[Linear]| >= ItemMax && |tasks[Relative]| >= ItemMax && |tasks[Unclass]| >= ItemMax;
  }

  // ---------------------------------------------------------------------------
  // What every trial is created with

  /** A trial description as createTrials produces it: showing the whole unshuffled
      list of its task, prompting one of its items, with a repeat number below
      NUM_REPEATS. */
  predicate WellFormed(s: TrialSpec, tasks: TaskTable)
  {
    s.task in tasks && s.contents == tasks[s.task]
    && s.item in s.contents && 0 <= s.repeatNum < NumRepeats
  }

  /** The first n blocks of the m-th menu are well formed and belong to that menu. */
  lemma {:induction false} ConditionsWellFormed(menu: MenuType, m: nat, order: seq<TaskType>, n: nat,
                                                tasks: TaskTable, itemShuffle: Shuffle<string>)
    requires n <= |order| && Complete(tasks) && Permutes(itemShuffle)
    ensures forall s :: s in Conditions(menu, m, order, n, tasks, itemShuffle)
                        ==> WellFormed(s, tasks) && s.menu == menu
  {
    if n > 0 {
      ConditionsWellFormed(menu, m, order, n - 1, tasks, itemShuffle);
      var items := tasks[order[n - 1]];
      var shuffled := itemShuffle(ItemCall(m, n - 1), items);
      assert multiset(shuffled) == multiset(items);
      assert |multiset(shuffled)| == |multiset(items)|;
      var b := Block(menu, order[n - 1], items, shuffled);
      assert TaskBlock(menu, m, order, n - 1, tasks, itemShuffle) == b;
      forall s | s in b
        ensures WellFormed(s, tasks) && s.menu == menu
      {
        assert s.item in shuffled[..Prompted(items)];
        assert s.item in multiset(shuffled);
      }
    }
  }

  /** Every trial of the m-th menu is well formed and belongs to menus[m]. */
  lemma SectionWellFormed(menus: seq<MenuType>, m: nat, tasks: TaskTable,
                          taskShuffle: Shuffle<TaskType>, itemShuffle: Shuffle<string>)
    requires m < |menus| && Complete(tasks) && Permutes(itemShuffle)
    ensures forall s :: s in Section(menus, m, tasks, taskShuffle, itemShuffle)
                        ==> WellFormed(s, tasks) && s.menu == menus[m]
  {
    var order := TaskOrders(taskShuffle, m + 1);
    ConditionsWellFormed(menus[m], m, order, |order|, tasks, itemShuffle);
  }

  lemma {:induction false} SectionsWellFormed(menus: seq<MenuType>, n: nat, tasks: TaskTable,
                                              taskShuffle: Shuffle<TaskType>, itemShuffle: Shuffle<string>)
    requires n <= |menus| && Complete(tasks) && Permutes(itemShuffle)
    ensures forall s :: s in Sections(menus, n, tasks, taskShuffle, itemShuffle) ==> WellFormed(s, tasks)
  {
    if n > 0 {
      SectionsWellFormed(menus, n - 1, tasks, taskShuffle, itemShuffle);
      SectionWellFormed(menus, n - 1, tasks, taskShuffle, itemShuffle);
    }
  }

  /** Every trial shows the unshuffled list of its task and prompts an item of that
      list, so its prompted index is valid; its repeat number is below NUM_REPEATS. */
  lemma ScheduleWellFormed(tasks: TaskTable, menuShuffle: Shuffle<MenuType>,
                           taskShuffle: Shuffle<TaskType>, itemShuffle: Shuffle<string>)
    requires Complete(tasks) && Permutes(itemShuffle)
    ensures forall s :: s in TrialList(tasks, menuShuffle, taskShuffle, itemShuffle) ==> WellFormed(s, tasks)
  {
    var menus := MenuOrder(menuShuffle);
    SectionsWellFormed(menus, |menus|, tasks, taskShuffle, itemShuffle);
  }

  // ---------------------------------------------------------------------------
  // The block structure

  /** The schedule is three contiguous menu sections, one per menu of the menu order. */
  lemma ScheduleIsContiguous(tasks: TaskTable, menuShuffle: Shuffle<MenuType>,
                             taskShuffle: Shuffle<TaskType>, itemShuffle: Shuffle<string>)
    requires Complete(tasks) && Permutes(menuShuffle) && Permutes(itemShuffle)
    ensures |MenuOrder(menuShuffle)| == 3
    ensures TrialList(tasks, menuShuffle, taskShuffle, itemShuffle)
            == Section(MenuOrder(menuShuffle), 0, tasks, taskShuffle, itemShuffle)
               + Section(MenuOrder(menuShuffle), 1, tasks, taskShuffle, itemShuffle)
               + Section(MenuOrder(menuShuffle), 2, tasks, taskShuffle, itemShuffle)
  {
    var menus := MenuOrder(menuShuffle);
    MenuOrderIsPermutation(menuShuffle);
    assert Sections(menus, 1, tasks, taskShuffle, itemShuffle)
           == Section(menus, 0, tasks, taskShuffle, itemShuffle);
    assert Sections(menus, 2, tasks, taskShuffle, itemShuffle)
           == Sections(menus, 1, tasks, taskShuffle, itemShuffle)
              + Section(menus, 1, tasks, taskShuffle, itemShuffle);
    assert Sections(menus, 3, tasks, taskShuffle, itemShuffle)
           == Sections(menus, 2, tasks, taskShuffle, itemShuffle)
              + Section(menus, 2, tasks, taskShuffle, itemShuffle);
  }

  /** Each menu's section is three contiguous task blocks, one per task of that
      menu's order, the j-th holding only trials of task order[j]. */
  lemma SectionIsContiguous(menus: seq<MenuType>, m: nat, tasks: TaskTable,
                            taskShuffle: Shuffle<TaskType>, itemShuffle: Shuffle<string>)
    requires m < |menus| && Complete(tasks) && Permutes(taskShuffle) && Permutes(itemShuffle)
    ensures var order := TaskOrders(taskShuffle, m + 1);
            |order| == 3
            && Section(menus, m, tasks, taskShuffle, itemShuffle)
               == TaskBlock(menus[m], m, order, 0, tasks, itemShuffle)
                  + TaskBlock(menus[m], m, order, 1, tasks, itemShuffle)
                  + TaskBlock(menus[m], m, order, 2, tasks, itemShuffle)
  {
    var order := TaskOrders(taskShuffle, m + 1);
    TaskOrderIsPermutation(taskShuffle, m + 1);
    assert Conditions(menus[m], m, order, 1, tasks, itemShuffle)
           == TaskBlock(menus[m], m, order, 0, tasks, itemShuffle);
    assert Conditions(menus[m], m, order, 2, tasks, itemShuffle)
           == Conditions(menus[m], m, order, 1, tasks, itemShuffle)
              + TaskBlock(menus[m], m, order, 1, tasks, itemShuffle);
    assert Conditions(menus[m], m, order, 3, tasks, itemShuffle)
           == Conditions(menus[m], m, order, 2, tasks, itemShuffle)
              + TaskBlock(menus[m], m, order, 2, tasks, itemShuffle);
  }
}
