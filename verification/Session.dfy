/** ExperimentSession: reading its task table from tokens, creating the trials
    of one participant (createTrials), and walking through them with an iterator. */
module Session {
  import opened Common
  import opened Enums
  import opened Strings
  import opened Trial
  import opened Schedule

  // ---------------------------------------------------------------------------
  // loadTasks: tokens to task table

  /** Why a task table cannot be read: a task name with no item list after it
      (Scanner.next finds no token), or a name that is not a TaskType (valueOf throws). */
  datatype LoadError = MissingList | UnknownTask(name: string)

  /** The table that reading `tokens` pair by pair adds to `acc`: each (name, list)
      pair maps TaskType.valueOf(name) to the list split on "/". */
  function LoadFrom(acc: TaskTable, tokens: seq<string>): (r: Result<TaskTable, LoadError>)
    ensures r.Success? ==> acc.Keys <= r.value.Keys
    ensures tokens == [] ==> r == Success(acc)
    decreases |tokens|
  {
    if tokens == [] then Success(acc)
    else if |tokens| == 1 then Failure(MissingList)
    else
      match ParseTaskType(tokens[0])
      case None => Failure(UnknownTask(tokens[0]))
      case Some(t) => LoadFrom(acc[t := Split(tokens[1], '/')], tokens[2..])
  }

  /** The loop of loadTasks over the tokens of menuContents.csv. */
  method LoadTasks(tokens: seq<string>) returns (r: Result<TaskTable, LoadError>)
    ensures r == LoadFrom(map[], tokens)
  {
    var tasks: TaskTable := map[];
    var i := 0;
    while i < |tokens|
      invariant 0 <= i <= |tokens|
      invariant LoadFrom(tasks, tokens[i..]) == LoadFrom(map[], tokens)
      decreases |tokens| - i
    {
      var taskType := tokens[i];
      if i + 1 == |tokens| {
        return Failure(MissingList);
      }
      var optionList := tokens[i + 1];
      var items := Split(optionList, '/');
      var parsed := ParseTaskType(taskType);
      if parsed.None? {
        return Failure(UnknownTask(taskType));
      }
      assert tokens[i..][2..] == tokens[i + 2..];
      tasks := tasks[parsed.value := items];
      i := i + 2;
    }
    assert tokens[i..] == [];
    return Success(tasks);
  }

  /** The tokens come in (name, list) pairs whose names all parse as task types. */
  predicate PairedNames(tokens: seq<string>)
  {
    |tokens| % 2 == 0
    && forall i :: 0 <= i < |tokens| && i % 2 == 0 ==> ParseTaskType(tokens[i]).Some?
  }

  /** Reading succeeds exactly when the tokens come in pairs whose first halves all
      name tasks. */
  lemma {:induction false} LoadSucceedsIff(acc: TaskTable, tokens: seq<string>)
    ensures LoadFrom(acc, tokens).Success? <==> PairedNames(tokens)
    decreases |tokens|
  {
    if |tokens| >= 2 {
      PairedNamesStep(tokens);
      match ParseTaskType(tokens[0])
      case None =>
      case Some(t) =>
        LoadSucceedsIff(acc[t := Split(tokens[1], '/')], tokens[2..]);
    }
  }

  /** The first pair is well formed and so is the rest, exactly when all pairs are. */
  lemma PairedNamesStep(tokens: seq<string>)
    requires |tokens| >= 2
    ensures PairedNames(tokens) <==> ParseTaskType(tokens[0]).Some? && PairedNames(tokens[2..])
  {
    var rest := tokens[2..];
    if ParseTaskType(tokens[0]).Some? && PairedNames(rest) {
      forall i | 0 <= i < |tokens| && i % 2 == 0
        ensures ParseTaskType(tokens[i]).Some?
      {
        if i >= 2 {
          assert tokens[i] == rest[i - 2];
        }
      }
    }
    if PairedNames(tokens) {
      forall i | 0 <= i < |rest| && i % 2 == 0
        ensures ParseTaskType(rest[i]).Some?
      {
        assert rest[i] == tokens[i + 2];
      }
    }
  }

  /** A later pair for a task overwrites what an earlier pair gave it, and leaves
      every other task as it was. */
  lemma {:induction false} LaterPairOverwrites(acc: TaskTable, tokens: seq<string>, name: string,
                                               list: string, t: TaskType)
    requires LoadFrom(acc, tokens).Success? && ParseTaskType(name) == Some(t)
    ensures LoadFrom(acc, tokens + [name, list])
            == Success(LoadFrom(acc, tokens).value[t := Split(list, '/')])
    decreases |tokens|
  {
    if tokens == [] {
      assert tokens + [name, list] == [name, list];
      assert [name, list][2..] == [];
    } else {
      var u := ParseTaskType(tokens[0]).value;
      assert (tokens + [name, list])[2..] == tokens[2..] + [name, list];
      LaterPairOverwrites(acc[u := Split(tokens[1], '/')], tokens[2..], name, list, t);
    }
  }

  /** A task written out as its name and its items joined by "/" reads back as
      those items, whenever no item holds "/" and the last one is not empty. */
  lemma LoadOfWrittenPair(t: TaskType, items: seq<string>)
    requires |items| >= 1 && forall i :: 0 <= i < |items| ==> '/' !in items[i]
    requires |items| == 1 || items[|items| - 1] != ""
    ensures LoadFrom(map[], [TaskName(t), Join(items, '/')]) == Success(map[t := items])
  {
    ParseTaskName(t);
    SplitJoin(items, '/');
    assert [TaskName(t), Join(items, '/')][2..] == [];
  }

  // ---------------------------------------------------------------------------
  // createTrials

  /** Trial t is the one createTrials makes for description s at position k. */
  predicate Describes(t: ExperimentTrial, s: TrialSpec, k: int, participant: int)
  {
    t.menu == s.menu && t.task == s.task && t.contents == s.contents
    && t.repeatNum == s.repeatNum && t.trialNum == k && t.participantNum == participant
    && t.promptedIndex == IndexOf(s.contents, s.item)
  }

  /** trials[k] is made for specs[k] and numbered k, for every k. */
  predicate DescribesAll(trials: seq<ExperimentTrial>, specs: seq<TrialSpec>, participant: int)
  {
    |trials| == |specs|
    && forall k :: 0 <= k < |trials| ==> Describes(trials[k], specs[k], k, participant)
  }

  lemma DescribesAppend(trials: seq<ExperimentTrial>, specs: seq<TrialSpec>, t: ExperimentTrial,
                        s: TrialSpec, participant: int)
    requires DescribesAll(trials, specs, participant) && Describes(t, s, |trials|, participant)
    ensures DescribesAll(trials + [t], specs + [s], participant)
  {
    forall k | 0 <= k < |trials| + 1
      ensures Describes((trials + [t])[k], (specs + [s])[k], k, participant)
    {
      if k < |trials| {
        assert (trials + [t])[k] == trials[k] && (specs + [s])[k] == specs[k];
      }
    }
  }

  /** One more task's block after the first ti blocks gives the first ti + 1. */
  lemma ConditionsStep(before: seq<TrialSpec>, menu: MenuType, m: nat, order: seq<TaskType>, ti: nat,
                       tasks: TaskTable, itemShuffle: Shuffle<string>)
    requires ti < |order| && Complete(tasks) && Permutes(itemShuffle)
    ensures var items := tasks[order[ti]];
            var shuffled := itemShuffle(ItemCall(m, ti), items);
            |shuffled| == |items|
            && before + Conditions(menu, m, order, ti + 1, tasks, itemShuffle)
               == before + Conditions(menu, m, order, ti, tasks, itemShuffle)
                  + Block(menu, order[ti], items, shuffled)
  {
    var items := tasks[order[ti]];
    var shuffled := itemShuffle(ItemCall(m, ti), items);
    assert |multiset(shuffled)| == |multiset(items)|;
    assert TaskBlock(menu, m, order, ti, tasks, itemShuffle) == Block(menu, order[ti], items, shuffled);
  }

  /** Every task has an item list, checked name by name. */
  lemma CompleteByName(tasks: TaskTable)
    ensures Complete(tasks) <==> Linear in tasks && Relative in tasks && Unclass in tasks
  {
    if Linear in tasks && Relative in tasks && Unclass in tasks {
      forall t: TaskType
        ensures t in tasks
      {
        match t
        case Linear =>
        case Relative =>
        case Unclass =>
      }
    }
  }

  /** The two innermost loops of createTrials for one condition: NUM_REPEATS trials
      for each of the first min(ITEM_MAX, |items|) shuffled items, numbered on from
      trialNum. */
  method AddCondition(trials: seq<ExperimentTrial>, trialNum: int, ghost done: seq<TrialSpec>,
                      menu: MenuType, task: TaskType, items: seq<string>, shuffled: seq<string>,
                      participant: int)
      returns (out: seq<ExperimentTrial>, nextNum: int)
    requires trialNum == |trials| && DescribesAll(trials, done, participant)
    requires |shuffled| == |items|
    ensures nextNum == |out|
    ensures DescribesAll(out, done + Block(menu, task, items, shuffled), participant)
  {
    out, nextNum := trials, trialNum;
    ghost var specs := done;
    var count := Min(ItemMax, |items|);
    var i := 0;
    while i < count
      invariant 0 <= i <= count
      invariant nextNum == |out|
      invariant specs == done + Items(menu, task, items, shuffled, i)
      invariant DescribesAll(out, specs, participant)
    {
      ItemsStep(done, menu, task, items, shuffled, i);
      out, nextNum := AddRepeats(out, nextNum, specs, menu, task, shuffled[i], items, participant);
      specs := specs + Repeats(menu, task, shuffled[i], items, NumRepeats);
      i := i + 1;
    }
    ItemsAreBlock(menu, task, items, shuffled);
  }

  /** The inner loop of createTrials: NUM_REPEATS trials prompting `item`, numbered on. */
  method AddRepeats(trials: seq<ExperimentTrial>, trialNum: int, ghost front: seq<TrialSpec>,
                    menu: MenuType, task: TaskType, item: string, items: seq<string>,
                    participant: int)
      returns (out: seq<ExperimentTrial>, nextNum: int)
    requires trialNum == |trials| && DescribesAll(trials, front, participant)
    ensures nextNum == |out|
    ensures DescribesAll(out, front + Repeats(menu, task, item, items, NumRepeats), participant)
  {
    out, nextNum := trials, trialNum;
    var j := 0;
    while j < NumRepeats
      invariant 0 <= j <= NumRepeats
      invariant nextNum == |out|
      invariant DescribesAll(out, front + Repeats(menu, task, item, items, j), participant)
    {
      var t := new ExperimentTrial(menu, task, item, items, j, nextNum, participant);
      ghost var s := TrialSpec(menu, task, item, items, j);
      DescribesAppend(out, front + Repeats(menu, task, item, items, j), t, s, participant);
      AppendAssoc(front, Repeats(menu, task, item, items, j), s);
      out := out + [t];
      nextNum := nextNum + 1;
      j := j + 1;
    }
  }

  /** One more prompted item after the first i. */
  lemma ItemsStep(done: seq<TrialSpec>, menu: MenuType, task: TaskType, items: seq<string>,
                  shuffled: seq<string>, i: nat)
    requires i < |shuffled|
    ensures done + Items(menu, task, items, shuffled, i + 1)
            == (done + Items(menu, task, items, shuffled, i)) + Repeats(menu, task, shuffled[i], items, NumRepeats)
  {
  }

  /** (a + b) + [x] == a + (b + [x]). */
  lemma AppendAssoc<T>(a: seq<T>, b: seq<T>, x: T)
    ensures a + b + [x] == a + (b + [x])
  {
  }

  /** The loop of createTrials over all tasks of one menu, in that menu's task order:
      each task's item list is copied, the copy shuffled, and the condition's trials
      added. */
  method AddSection(trials: seq<ExperimentTrial>, trialNum: int, ghost before: seq<TrialSpec>,
                    menu: MenuType, m: nat, order: seq<TaskType>, tasks: TaskTable,
                    itemShuffle: Shuffle<string>, participant: int)
      returns (out: seq<ExperimentTrial>, nextNum: int)
    requires Complete(tasks) && Permutes(itemShuffle)
    requires trialNum == |trials| && DescribesAll(trials, before, participant)
    ensures nextNum == |out|
    ensures DescribesAll(out, before + Conditions(menu, m, order, |order|, tasks, itemShuffle), participant)
  {
    out, nextNum := trials, trialNum;
    var ti := 0;
    while ti < |order|
      invariant 0 <= ti <= |order|
      invariant nextNum == |out|
      invariant DescribesAll(out, before + Conditions(menu, m, order, ti, tasks, itemShuffle), participant)
    {
      var task := order[ti];
      var items := tasks[task];
      var shuffled := itemShuffle(ItemCall(m, ti), items);
      ghost var done := before + Conditions(menu, m, order, ti, tasks, itemShuffle);
      ConditionsStep(before, menu, m, order, ti, tasks, itemShuffle);
      out, nextNum := AddCondition(out, nextNum, done, menu, task, items, shuffled, participant);
      ti := ti + 1;
    }
  }

  /** createTrials(tasks): the loop over the shuffled menus, reshuffling its task
      list before each menu, with the loops over task types (AddSection), the
      prompted items and their repeats (AddCondition) inside it; each innermost step
      creates the next trial with the running trial number. None when some task has
      no item list, where Java throws. */
  method CreateTrials(tasks: TaskTable, participant: int, menuShuffle: Shuffle<MenuType>,
                      taskShuffle: Shuffle<TaskType>, itemShuffle: Shuffle<string>)
      returns (r: Option<seq<ExperimentTrial>>)
    requires Permutes(menuShuffle) && Permutes(taskShuffle) && Permutes(itemShuffle)
    ensures r.None? <==> !Complete(tasks)
    ensures r.Some? ==> DescribesAll(r.value, TrialList(tasks, menuShuffle, taskShuffle, itemShuffle),
                                     participant)
  {
    CompleteByName(tasks);
    if !(Linear in tasks && Relative in tasks && Unclass in tasks) {
      return None;
    }
    var trials: seq<ExperimentTrial> := [];
    var trialNum := 0;
    var menus := MenuOrder(menuShuffle);
    var order := AllTasks;
    var mi := 0;
    while mi < |menus|
      invariant 0 <= mi <= |menus|
      invariant order == TaskOrders(taskShuffle, mi)
      invariant trialNum == |trials|
      invariant DescribesAll(trials, Sections(menus, mi, tasks, taskShuffle, itemShuffle), participant)
    {
      SectionsStep(menus, mi, tasks, taskShuffle, itemShuffle);
      order := taskShuffle(mi, order);
      ghost var before := Sections(menus, mi, tasks, taskShuffle, itemShuffle);
      trials, trialNum := AddSection(trials, trialNum, before, menus[mi], mi, order, tasks,
                                     itemShuffle, participant);
      mi := mi + 1;
    }
    return Some(trials);
  }

  /** What the loops promise about every created trial: it is numbered by its
      position, shows the unshuffled list of its task, and prompts an item of that
      list, so its prompted index is a valid position. */
  lemma CreatedTrialsAreSound(trials: seq<ExperimentTrial>, tasks: TaskTable, participant: int,
                              menuShuffle: Shuffle<MenuType>, taskShuffle: Shuffle<TaskType>,
                              itemShuffle: Shuffle<string>)
    requires Complete(tasks) && Permutes(itemShuffle)
    requires DescribesAll(trials, TrialList(tasks, menuShuffle, taskShuffle, itemShuffle), participant)
    ensures forall k :: 0 <= k < |trials| ==>
              trials[k].trialNum == k && trials[k].participantNum == participant
              && trials[k].contents == tasks[trials[k].task]
              && 0 <= trials[k].promptedIndex < |trials[k].contents|
              && 0 <= trials[k].repeatNum < NumRepeats
  {
    var specs := TrialList(tasks, menuShuffle, taskShuffle, itemShuffle);
    ScheduleWellFormed(tasks, menuShuffle, taskShuffle, itemShuffle);
    forall k | 0 <= k < |trials|
      ensures trials[k].trialNum == k && trials[k].participantNum == participant
              && trials[k].contents == tasks[trials[k].task]
              && 0 <= trials[k].promptedIndex < |trials[k].contents|
              && 0 <= trials[k].repeatNum < NumRepeats
    {
      assert specs[k] in specs;
      assert Describes(trials[k], specs[k], k, participant);
      assert WellFormed(specs[k], tasks);
    }
  }

  // ---------------------------------------------------------------------------
  // The session

  class ExperimentSession {
    const participantNum: int
    /** mTasks: the table read, if reading succeeded. */
    var tasks: Option<TaskTable>
    /** The list behind mTrials, and the iterator's position in it. */
    var trials: seq<ExperimentTrial>
    var cursor: nat
    /** Whether mTrials was set; the constructor swallows every exception, so a
        failure to read the table or to create the trials leaves it null. */
    var loaded: bool
    var currentTrial: ExperimentTrial?

    /** The cursor stays within the list; without an iterator there is no list. */
    predicate Valid()
      reads this
    {
      cursor <= |trials| && (!loaded ==> trials == [] && cursor == 0)
      && (cursor == 0 ==> currentTrial == null)
      && (cursor > 0 ==> currentTrial == trials[cursor - 1])
    }

    /** ExperimentSession(assets, participantNum): read the table from the tokens
        of menuContents.csv, then create the trials. */
    constructor(tokens: seq<string>, participant: int, menuShuffle: Shuffle<MenuType>,
                taskShuffle: Shuffle<TaskType>, itemShuffle: Shuffle<string>)
      requires Permutes(menuShuffle) && Permutes(taskShuffle) && Permutes(itemShuffle)
      ensures Valid() && participantNum == participant
      ensures cursor == 0 && currentTrial == null
      ensures tasks == (var read := LoadFrom(map[], tokens);
                        if read.Success? then Some(read.value) else None)
      ensures loaded <==> LoadFrom(map[], tokens).Success? && Complete(LoadFrom(map[], tokens).value)
      ensures loaded ==> DescribesAll(trials, TrialList(LoadFrom(map[], tokens).value, menuShuffle,
                                                       taskShuffle, itemShuffle), participant)
    {
      participantNum := participant;
      cursor := 0;
      currentTrial := null;
      var read := LoadTasks(tokens);
      if read.Failure? {
        tasks := None;
        trials := [];
        loaded := false;
      } else {
        tasks := Some(read.value);
        var created := CreateTrials(read.value, participant, menuShuffle, taskShuffle, itemShuffle);
        if created.None? {
          trials := [];
          loaded := false;
        } else {
          trials := created.value;
          loaded := true;
        }
      }
    }

    /** getCurrentTrial(): the trial next() handed out last, none before the first call. */
    function GetCurrentTrial(): (t: ExperimentTrial?)
      reads this
      ensures Valid() ==> (t == null <==> cursor == 0)
      ensures Valid() && cursor > 0 ==> t == trials[cursor - 1]
    {
      currentTrial
    }

    /** hasNext(): whether trials remain; Java needs the iterator to exist. */
    function HasNext(): (more: bool)
      reads this
      requires loaded
      // a trial remains to be handed out exactly when not all have been
      ensures more ==> cursor < |trials|
      ensures Valid() && !more ==> cursor == |trials|
    {
      cursor < |trials|
    }

    /** next(): the trial at the cursor, which becomes the current trial; the
        cursor moves on. Java throws when no trial remains. */
    method Next() returns (t: ExperimentTrial)
      requires Valid() && loaded && HasNext()
      modifies this
      ensures Valid() && loaded && trials == old(trials) && tasks == old(tasks)
      ensures t == trials[old(cursor)] && cursor == old(cursor) + 1
      ensures GetCurrentTrial() == t
      ensures HasNext() <==> old(cursor) + 1 < |trials|
    {
      t := trials[cursor];
      cursor := cursor + 1;
      currentTrial := t;
    }
  }
}
