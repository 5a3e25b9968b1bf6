/** The command loop of `main()`: one input line is stripped, dispatched on
    its first matching form, and either leaves the task list alone or changes
    it and saves it. Reading the line, printing and saving are not performed
    here: a step returns the lines it would print and whether it would save. */
module Session {
  import opened Wrappers
  import opened PyStr
  import opened PyInt
  import opened Tasks

  /** The effect of one input line: the task list afterwards, the lines
      printed in order, whether the list was saved, and whether the loop ends. */
  datatype Outcome = Outcome(tasks: seq<Task>, output: seq<string>, persisted: bool, exit: bool)

  const ListCommand := "list"
  const ExitCommand := "exit"
  const AddPrefix := "add "
  const DonePrefix := "done "
  const RemovePrefix := "remove "

  const AddUsage := "Please enter a task to add. (e.g., add Learn Python)"
  const DoneUsage := "Please enter a valid number. (e.g., done 2)"
  const RemoveUsage := "Please enter a valid number. (e.g., remove 1)"
  const InvalidNumber := "Invalid task number."
  const Goodbye := "Goodbye!"
  const UnknownCommand := "Unknown command. Type 'list', 'add [task]', 'done [number]', 'remove [number]', or 'exit'."

  function Quoted(text: string): string {
    "'" + text + "'"
  }

  /** How a task-number argument resolves against a list of `count` tasks. */
  datatype Selection = Selected(index: nat) | NotANumber | OutOfRange

  /** `int(arg) - 1`, accepted as an index only when it lies in `[0, count)`. */
  function SelectTask(arg: string, count: nat): (s: Selection)
    ensures s == NotANumber <==> ParseInt(arg) == None
    ensures s == OutOfRange <==> ParseInt(arg).Some? && (ParseInt(arg).value < 1 || ParseInt(arg).value > count)
    ensures s.Selected? ==> s.index < count && ParseInt(arg) == Some(s.index as int + 1)
    ensures count == 0 ==> !s.Selected?
  {
    var parsed := ParseInt(arg);
    if parsed == None then NotANumber
    else if 0 <= parsed.value - 1 < count then Selected(parsed.value - 1)
    else OutOfRange
  }

  /** `add <text>`: a non-empty text becomes a new, unfinished task at the end. */
  function AddTask(tasks: seq<Task>, text: string): (r: Outcome)
    ensures !r.exit
    ensures r.persisted <==> text != []
    ensures text != [] ==>
      && |r.tasks| == |tasks| + 1
      && r.tasks[..|tasks|] == tasks
      && r.tasks[|tasks|] == Task(text, false)
      && r.output == ["Added: " + Quoted(text)]
    ensures text == [] ==> r.tasks == tasks && r.output == [AddUsage]
  {
    if text != [] then
      Outcome(tasks + [Task(text, false)], ["Added: " + Quoted(text)], true, false)
    else
      Outcome(tasks, [AddUsage], false, false)
  }

  /** `done <n>`: marks task number `n` as completed. */
  function CompleteTask(tasks: seq<Task>, arg: string): (r: Outcome)
    ensures !r.exit
    ensures r.persisted <==> SelectTask(arg, |tasks|).Selected?
    ensures !r.persisted ==> r.tasks == tasks
    ensures SelectTask(arg, |tasks|) == NotANumber ==> r.output == [DoneUsage]
    ensures SelectTask(arg, |tasks|) == OutOfRange ==> r.output == [InvalidNumber]
    ensures SelectTask(arg, |tasks|).Selected? ==>
      var i := SelectTask(arg, |tasks|).index;
      && |r.tasks| == |tasks|
      && r.tasks[i] == Task(tasks[i].text, true)
      && (forall j :: 0 <= j < |tasks| && j != i ==> r.tasks[j] == tasks[j])
      && r.output == ["Completed: " + Quoted(tasks[i].text)] + ListTasks(r.tasks)
  {
    match SelectTask(arg, |tasks|)
    case NotANumber => Outcome(tasks, [DoneUsage], false, false)
    case OutOfRange => Outcome(tasks, [InvalidNumber], false, false)
    case Selected(i) =>
      var updated := tasks[i := tasks[i].(done := true)];
      Outcome(updated, ["Completed: " + Quoted(updated[i].text)] + ListTasks(updated), true, false)
  }

  /** `remove <n>`: deletes task number `n`; every later task moves up one place. */
  function RemoveTask(tasks: seq<Task>, arg: string): (r: Outcome)
    ensures !r.exit
    ensures r.persisted <==> SelectTask(arg, |tasks|).Selected?
    ensures !r.persisted ==> r.tasks == tasks
    ensures SelectTask(arg, |tasks|) == NotANumber ==> r.output == [RemoveUsage]
    ensures SelectTask(arg, |tasks|) == OutOfRange ==> r.output == [InvalidNumber]
    ensures SelectTask(arg, |tasks|).Selected? ==>
      var i := SelectTask(arg, |tasks|).index;
      && |r.tasks| == |tasks| - 1
      && (forall j :: 0 <= j < i ==> r.tasks[j] == tasks[j])
      && (forall j :: i <= j < |r.tasks| ==> r.tasks[j] == tasks[j + 1])
      && multiset(r.tasks) + multiset{tasks[i]} == multiset(tasks)
      && r.output == ["Removed: " + Quoted(tasks[i].text)] + ListTasks(r.tasks)
  {
    match SelectTask(arg, |tasks|)
    case NotANumber => Outcome(tasks, [RemoveUsage], false, false)
    case OutOfRange => Outcome(tasks, [InvalidNumber], false, false)
    case Selected(i) =>
      var removed := tasks[i];
      var rest := tasks[..i] + tasks[i + 1..];
      DeleteAtShifts(tasks, i);
      Outcome(rest, ["Removed: " + Quoted(removed.text)] + ListTasks(rest), true, false)
  }

  /** `list.pop(i)` leaves the tasks before `i` in place, moves every later one
      up a place, and loses only the task at `i`. */
  lemma DeleteAtShifts(tasks: seq<Task>, i: nat)
    requires i < |tasks|
    ensures var rest := tasks[..i] + tasks[i + 1..];
      && |rest| == |tasks| - 1
      && (forall j :: 0 <= j < i ==> rest[j] == tasks[j])
      && (forall j :: i <= j < |rest| ==> rest[j] == tasks[j + 1])
      && multiset(rest) + multiset{tasks[i]} == multiset(tasks)
  {
    assert tasks == tasks[..i] + [tasks[i]] + tasks[i + 1..];
  }

  /** The body of the command loop for an already stripped line: the first
      matching form wins, in the order list, add, done, remove, exit. */
  function Dispatch(cmd: string, tasks: seq<Task>): (r: Outcome)
    ensures r.exit <==> cmd == ExitCommand
    ensures r.exit ==> r.output == [Goodbye]
    ensures !r.persisted ==> r.tasks == tasks
    ensures r.persisted ==> StartsWith(cmd, AddPrefix) || StartsWith(cmd, DonePrefix) || StartsWith(cmd, RemovePrefix)
    ensures |r.output| >= 1
    ensures cmd == ListCommand ==> r.output == ListTasks(tasks)
    ensures
      && cmd != ListCommand && cmd != ExitCommand
      && !StartsWith(cmd, AddPrefix) && !StartsWith(cmd, DonePrefix) && !StartsWith(cmd, RemovePrefix)
      ==> r.output == [UnknownCommand]
  {
    if cmd == ListCommand then
      Outcome(tasks, ListTasks(tasks), false, false)
    else if StartsWith(cmd, AddPrefix) then
      AddTask(tasks, cmd[|AddPrefix|..])
    else if StartsWith(cmd, DonePrefix) then
      CompleteTask(tasks, cmd[|DonePrefix|..])
    else if StartsWith(cmd, RemovePrefix) then
      RemoveTask(tasks, cmd[|RemovePrefix|..])
    else if cmd == ExitCommand then
      Outcome(tasks, [Goodbye], false, true)
    else
      Outcome(tasks, [UnknownCommand], false, false)
  }

  /** One iteration of the loop on a raw input line. Because the line is
      stripped first, a line of the `add ` form always carries text, so the
      usage hint for an empty task is never printed. */
  function Step(line: string, tasks: seq<Task>): (r: Outcome)
    ensures r.exit <==> Strip(line) == ExitCommand
    ensures !r.persisted ==> r.tasks == tasks
    ensures StartsWith(Strip(line), AddPrefix) ==>
      && r.persisted
      && r.tasks == tasks + [Task(Strip(line)[|AddPrefix|..], false)]
  {
    var cmd := Strip(line);
    assert StartsWith(cmd, AddPrefix) ==> |cmd| > |AddPrefix| by {
      if StartsWith(cmd, AddPrefix) {
        assert cmd[|AddPrefix| - 1] == ' ';
      }
    }
    Dispatch(cmd, tasks)
  }

  /** Completing a task that is already completed changes nothing: running the
      same `done` line twice has the effect of running it once, down to the
      printed lines. */
  lemma CompleteIdempotent(line: string, tasks: seq<Task>)
    requires StartsWith(Strip(line), DonePrefix)
    ensures Step(line, Step(line, tasks).tasks) == Step(line, tasks)
  {
    var cmd := Strip(line);
    assert cmd[0] == 'd';
    assert !StartsWith(cmd, AddPrefix) by { assert AddPrefix[0] == 'a'; }
    var arg := cmd[|DonePrefix|..];
    var once := CompleteTask(tasks, arg);
    assert Step(line, tasks) == once;
    assert Step(line, once.tasks) == CompleteTask(once.tasks, arg);
    match SelectTask(arg, |tasks|)
    case Selected(i) =>
      assert once.tasks[i := once.tasks[i].(done := true)] == once.tasks;
    case NotANumber =>
    case OutOfRange =>
  }

  /** A command word followed by a number as the listing shows it has no
      whitespace at either end. */
  lemma NumberedCommandIsStripped(prefix: string, n: nat)
    requires prefix != [] && !IsSpace(prefix[0])
    ensures IsStripped(prefix + ShowNat(n))
  {
    var digits := ShowNat(n);
    var line := prefix + digits;
    assert line[0] == prefix[0];
    assert line[|line| - 1] == digits[|digits| - 1];
    assert IsDigit(digits[|digits| - 1]);
  }

  /** A stripped `done ` line is handled by `CompleteTask` on its argument. */
  lemma StepDone(arg: string, tasks: seq<Task>)
    requires IsStripped(DonePrefix + arg)
    ensures Step(DonePrefix + arg, tasks) == CompleteTask(tasks, arg)
  {
    var line := DonePrefix + arg;
    StripStripped(line);
    assert line[0] == 'd' && line[|DonePrefix|..] == arg;
    assert line[..|AddPrefix|] != AddPrefix;
    assert Step(line, tasks) == Dispatch(line, tasks);
  }

  /** A stripped `remove ` line is handled by `RemoveTask` on its argument. */
  lemma StepRemove(arg: string, tasks: seq<Task>)
    requires IsStripped(RemovePrefix + arg)
    ensures Step(RemovePrefix + arg, tasks) == RemoveTask(tasks, arg)
  {
    var line := RemovePrefix + arg;
    StripStripped(line);
    assert line[0] == 'r' && line[|RemovePrefix|..] == arg;
    assert line[..|AddPrefix|] != AddPrefix && line[..|DonePrefix|] != DonePrefix;
    assert Step(line, tasks) == Dispatch(line, tasks);
  }

  /** `strip()` keeps an ASCII separator inside the line, and `int()` does not
      skip it: `done` followed by U+001C and a digit asks for a valid number
      and leaves the list alone. */
  lemma DoneWithSeparatorIsNotANumber()
    ensures Step(DonePrefix + "\U{1C}1", [Task("a", false)])
      == Outcome([Task("a", false)], [DoneUsage], false, false)
  {
    var arg := "\U{1C}1";
    var line := DonePrefix + arg;
    assert line[0] == 'd' && line[|line| - 1] == '1';
    StepDone(arg, [Task("a", false)]);
    ParseRejectsForeignChar(arg, 0);
  }

  /** The number shown for the task at index `i` selects index `i`. */
  lemma SelectShownNumber(i: nat, count: nat)
    requires i < count
    ensures SelectTask(ShowNat(i + 1), count) == Selected(i)
  {
    ParseShowNat(i + 1);
  }

  /** The number a listing shows in front of a task, typed back after `done `,
      completes exactly that task. */
  lemma ShownNumberCompletes(tasks: seq<Task>, i: nat)
    requires i < |tasks|
    ensures var r := Step(DonePrefix + ShowNat(i + 1), tasks);
      && r.persisted
      && r.tasks == tasks[i := Task(tasks[i].text, true)]
  {
    SelectShownNumber(i, |tasks|);
    NumberedCommandIsStripped(DonePrefix, i + 1);
    StepDone(ShowNat(i + 1), tasks);
  }

  /** The number a listing shows in front of a task, typed back after
      `remove `, deletes exactly that task. */
  lemma ShownNumberRemoves(tasks: seq<Task>, i: nat)
    requires i < |tasks|
    ensures var r := Step(RemovePrefix + ShowNat(i + 1), tasks);
      && r.persisted
      && r.tasks == tasks[..i] + tasks[i + 1..]
  {
    SelectShownNumber(i, |tasks|);
    NumberedCommandIsStripped(RemovePrefix, i + 1);
    StepRemove(ShowNat(i + 1), tasks);
  }

  /** After a removal, every task that followed the removed one is listed one
      number lower than before. */
  lemma RemoveRenumbers(tasks: seq<Task>, arg: string, j: nat)
    requires SelectTask(arg, |tasks|).Selected?
    requires SelectTask(arg, |tasks|).index < j < |tasks|
    ensures ListTasks(RemoveTask(tasks, arg).tasks)[j] == TaskLine(j, tasks[j])
  {
    var rest := RemoveTask(tasks, arg).tasks;
    assert rest[j - 1] == tasks[j];
    assert ListTasks(rest)[j] == TaskLine(j, rest[j - 1]);
  }
}
