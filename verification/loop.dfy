/** The `while True` loop of `main()` over a finite sequence of input lines:
    each line is one step, and the loop stops after the first line whose step
    ends it. The backing file is represented by the last list the session
    saved. The loop is written for any step function and its lemmas assume
    only what they need of the step; the program's loop is `Run`, the loop
    over `Session.Step`. */
module Loop {
  import opened Wrappers
  import opened PyStr
  import opened Tasks
  import opened Session

  /** The state after running lines: the task list, the list last written to
      the file (`None` while nothing has been written), the lines the loop's
      `print` calls write (the `> ` prompt of `input` is not among them),
      whether a step ended the loop, and how many lines were read. */
  datatype RunResult = RunResult(
    tasks: seq<Task>,
    written: Option<seq<Task>>,
    output: seq<string>,
    exited: bool,
    consumed: nat)

  /** Feeds `lines` to the loop, starting from `tasks` and the file contents
      `written`, handling each line with `step`. Lines after the one that ends
      the loop are never read. */
  function RunWith(step: (string, seq<Task>) -> Outcome, lines: seq<string>, tasks: seq<Task>, written: Option<seq<Task>>): (r: RunResult)
    ensures r.consumed <= |lines|
    ensures !r.exited ==> r.consumed == |lines|
    ensures r.exited ==> 1 <= r.consumed
    decreases |lines|
  {
    if lines == [] then
      RunResult(tasks, written, [], false, 0)
    else
      var o := step(lines[0], tasks);
      var saved := if o.persisted then Some(o.tasks) else written;
      if o.exit then
        RunResult(o.tasks, saved, o.output, true, 1)
      else
        var rest := RunWith(step, lines[1..], o.tasks, saved);
        RunResult(rest.tasks, rest.written, o.output + rest.output, rest.exited, rest.consumed + 1)
  }

  /** The program's loop: it reads every line unless one that strips to
      `exit` ends it, and then that line is the last one read. */
  function Run(lines: seq<string>, tasks: seq<Task>, written: Option<seq<Task>>): (r: RunResult)
    ensures r.consumed <= |lines|
    ensures !r.exited ==> r.consumed == |lines|
    ensures r.exited ==> 1 <= r.consumed && IsExit(lines[r.consumed - 1])
  {
    var r := RunWith(Step, lines, tasks, written);
    assert r.exited ==> IsExit(lines[r.consumed - 1]) by {
      StepRunEndsOnExitLine(lines, tasks, written);
    }
    r
  }

  /** The last line the program's loop reads before exiting strips to `exit`. */
  lemma StepRunEndsOnExitLine(lines: seq<string>, tasks: seq<Task>, written: Option<seq<Task>>)
    ensures var r := RunWith(Step, lines, tasks, written);
      r.exited ==> IsExit(lines[r.consumed - 1])
  {
    StepIsLoopStep();
    RunWithStopsAtFirstExit(Step, lines, tasks, written);
  }

  predicate IsExit(line: string) {
    Strip(line) == ExitCommand
  }

  /** A step that ends the loop exactly on a line that strips to `exit`. */
  ghost predicate EndsOnExitLine(step: (string, seq<Task>) -> Outcome) {
    forall line, tasks :: step(line, tasks).exit <==> IsExit(line)
  }

  /** A step that never changes the list without saving it. */
  ghost predicate SavesEveryChange(step: (string, seq<Task>) -> Outcome) {
    forall line, tasks :: !step(line, tasks).persisted ==> step(line, tasks).tasks == tasks
  }

  /** `Session.Step` has both properties the loop lemmas rely on. */
  lemma StepIsLoopStep()
    ensures EndsOnExitLine(Step)
    ensures SavesEveryChange(Step)
  {
  }

  /** With a step that ends on `exit` lines, the loop reads exactly up to and
      including the first `exit` line, and reads every line when there is
      none. */
  lemma {:induction false} RunWithStopsAtFirstExit(step: (string, seq<Task>) -> Outcome, lines: seq<string>, tasks: seq<Task>, written: Option<seq<Task>>)
    requires EndsOnExitLine(step)
    ensures var r := RunWith(step, lines, tasks, written);
      && (r.exited ==> IsExit(lines[r.consumed - 1]))
      && (forall k :: 0 <= k < |lines| && IsExit(lines[k]) ==> r.exited && r.consumed <= k + 1)
    decreases |lines|
  {
    if lines != [] {
      var o := step(lines[0], tasks);
      var saved := if o.persisted then Some(o.tasks) else written;
      if !o.exit {
        RunWithStopsAtFirstExit(step, lines[1..], o.tasks, saved);
        assert forall k :: 1 <= k < |lines| ==> lines[k] == lines[1..][k - 1];
      }
    }
  }

  /** With a step that saves every change, at the end of any run either the
      file holds exactly the current list, or the run saved nothing and
      changed nothing. */
  lemma {:induction false} RunWithKeepsFileInSync(step: (string, seq<Task>) -> Outcome, lines: seq<string>, tasks: seq<Task>, written: Option<seq<Task>>)
    requires SavesEveryChange(step)
    ensures var r := RunWith(step, lines, tasks, written);
      r.written == Some(r.tasks) || (r.written == written && r.tasks == tasks)
    decreases |lines|
  {
    if lines != [] {
      var o := step(lines[0], tasks);
      var saved := if o.persisted then Some(o.tasks) else written;
      if !o.exit {
        RunWithKeepsFileInSync(step, lines[1..], o.tasks, saved);
      }
    }
  }

  /** Lines after the one that ends the loop make no difference. */
  lemma {:induction false} RunWithIgnoresLinesAfterExit(step: (string, seq<Task>) -> Outcome, lines: seq<string>, more: seq<string>, tasks: seq<Task>, written: Option<seq<Task>>)
    requires RunWith(step, lines, tasks, written).exited
    ensures RunWith(step, lines + more, tasks, written) == RunWith(step, lines, tasks, written)
    decreases |lines|
  {
    assert (lines + more)[0] == lines[0];
    var o := step(lines[0], tasks);
    var saved := if o.persisted then Some(o.tasks) else written;
    if !o.exit {
      assert (lines + more)[1..] == lines[1..] + more;
      RunWithIgnoresLinesAfterExit(step, lines[1..], more, o.tasks, saved);
    }
  }

  /** The program reads input up to and including the first line that strips
      to `exit`, and no further. */
  lemma RunStopsAtFirstExit(lines: seq<string>, tasks: seq<Task>, written: Option<seq<Task>>)
    ensures var r := Run(lines, tasks, written);
      && (r.exited ==> 1 <= r.consumed && IsExit(lines[r.consumed - 1]))
      && (!r.exited ==> r.consumed == |lines|)
      && (forall k :: 0 <= k < |lines| && IsExit(lines[k]) ==> r.exited && r.consumed <= k + 1)
  {
    var r := RunWith(Step, lines, tasks, written);
    assert Run(lines, tasks, written) == r;
    StepIsLoopStep();
    RunWithStopsAtFirstExit(Step, lines, tasks, written);
  }

  /** The program saves after every change: when the loop stops, the file
      holds the current list, unless nothing was saved and nothing changed. */
  lemma RunKeepsFileInSync(lines: seq<string>, tasks: seq<Task>, written: Option<seq<Task>>)
    ensures var r := Run(lines, tasks, written);
      r.written == Some(r.tasks) || (r.written == written && r.tasks == tasks)
  {
    StepIsLoopStep();
    RunWithKeepsFileInSync(Step, lines, tasks, written);
  }

  /** Whatever follows the `exit` line is never read. */
  lemma RunIgnoresLinesAfterExit(lines: seq<string>, more: seq<string>, tasks: seq<Task>, written: Option<seq<Task>>)
    requires Run(lines, tasks, written).exited
    ensures Run(lines + more, tasks, written) == Run(lines, tasks, written)
  {
    RunWithIgnoresLinesAfterExit(Step, lines, more, tasks, written);
  }
}
