/** A task and the rendering of the task list (`list_tasks`). */
module Tasks {
  import opened PyInt

  /** One to-do item. Tasks carry no identity of their own: a task's number is
      its position in the list, counting from 1. */
  datatype Task = Task(text: string, done: bool)

  const Header := "\n--- Your Tasks ---"
  const NoTasks := "You have no tasks."
  const Footer := "------------------"

  /** "[✓]" for a completed task, "[ ]" otherwise. */
  function StatusMark(done: bool): (m: string)
    ensures |m| == 3 && m[0] == '[' && m[2] == ']'
    ensures m[1] == ' ' <==> !done
  {
    if done then "[\U{2713}]" else "[ ]"
  }

  /** The line shown for task `t` under the number `number`: the number, a
      dot and a blank, the three-character mark, a blank, and the text. */
  function TaskLine(number: nat, t: Task): (line: string)
    ensures var k := |ShowNat(number)|;
      && |line| == k + 6 + |t.text|
      && line[..k] == ShowNat(number)
      && line[k] == '.' && line[k + 1] == ' ' && line[k + 5] == ' '
      && line[k + 2..k + 5] == StatusMark(t.done)
      && line[k + 6..] == t.text
  {
    ShowNat(number) + ". " + StatusMark(t.done) + " " + t.text
  }

  /** The lines for `tasks`, numbered consecutively from `first`. */
  function NumberedLines(tasks: seq<Task>, first: nat): (lines: seq<string>)
    ensures |lines| == |tasks|
    ensures forall i :: 0 <= i < |tasks| ==> lines[i] == TaskLine(first + i, tasks[i])
    decreases |tasks|
  {
    if tasks == [] then [] else [TaskLine(first, tasks[0])] + NumberedLines(tasks[1..], first + 1)
  }

  /** The lines `list_tasks` prints: a header, then one line per task in list
      order numbered from 1 (or a notice when there are none), then a footer. */
  function ListTasks(tasks: seq<Task>): (lines: seq<string>)
    ensures |lines| >= 3
    ensures lines[0] == Header && lines[|lines| - 1] == Footer
    ensures tasks == [] ==> lines == [Header, NoTasks, Footer]
    ensures tasks != [] ==> |lines| == |tasks| + 2
    ensures tasks != [] ==> forall i :: 0 <= i < |tasks| ==> lines[i + 1] == TaskLine(i + 1, tasks[i])
  {
    if tasks == [] then [Header, NoTasks, Footer]
    else [Header] + NumberedLines(tasks, 1) + [Footer]
  }

  /** Two tasks shown under the same number look the same only if they are the
      same task: the mark tells the flag apart and the rest is the text. */
  lemma TaskLineInjective(number: nat, t: Task, u: Task)
    requires TaskLine(number, t) == TaskLine(number, u)
    ensures t == u
  {
    var p := ShowNat(number) + ". ";
    var l := TaskLine(number, t);
    assert l == p + StatusMark(t.done) + " " + t.text;
    assert l == p + StatusMark(u.done) + " " + u.text;
    assert l[|p| + 1] == StatusMark(t.done)[1];
    assert TaskLine(number, u)[|p| + 1] == StatusMark(u.done)[1];
    assert t.done == u.done;
    assert l[|p| + 4..] == t.text;
    assert TaskLine(number, u)[|p| + 4..] == u.text;
  }

  /** The "no tasks" notice appears exactly when the list is empty: a task
      line always opens with its number. */
  lemma EmptyListingOnlyForEmptyList(tasks: seq<Task>)
    ensures ListTasks(tasks)[1] == NoTasks <==> tasks == []
  {
    if tasks != [] {
      assert ListTasks(tasks)[1][0] == ShowNat(1)[0];
      assert NoTasks[0] == 'Y';
    }
  }

  /** The listing loses nothing: equal listings come from equal lists. */
  lemma ListTasksInjective(tasks: seq<Task>, other: seq<Task>)
    requires ListTasks(tasks) == ListTasks(other)
    ensures tasks == other
  {
    EmptyListingOnlyForEmptyList(tasks);
    EmptyListingOnlyForEmptyList(other);
    if tasks != [] {
      forall i | 0 <= i < |tasks|
        ensures tasks[i] == other[i]
      {
        TaskLineInjective(i + 1, tasks[i], other[i]);
      }
    }
  }
}
