# A command-line to-do list, modelled in Dafny

The program keeps a list of tasks, each a text and a completion flag, and
runs an interactive loop. It strips each input line and dispatches it on the
first form that matches, in this order:

1. `list`
2. `add <text>`
3. `done <n>`
4. `remove <n>`
5. `exit`
6. anything else

`add` appends an unfinished task. `done` marks task number `n` as completed.
`remove` deletes task number `n`. A task's number is its position in the list
plus one. After every change the whole list is saved to a file. `exit` ends
the loop.

The model is a set of pure functions over an immutable list of tasks:

- `wrappers.dfy` (`Wrappers`): `Option`, standing for "a value, or a
  `ValueError` that was caught".
- `pystr.dfy` (`PyStr`): Python's notion of whitespace, `str.strip()` and
  `str.startswith()`. Trimming is defined once, for any predicate on
  characters (`TrimBy`). `strip()` trims with `IsSpace`, and `int()` trims
  with `PyInt.IsIntSpace`.
- `pyint.dfy` (`PyInt`): Python's `int()` on a decimal string, and `str()`
  of a natural number. `int()` skips a narrower set of whitespace than
  `str.strip()` removes: it keeps the ASCII separators U+001C..U+001F, so a
  number next to one of them is not a number.
- `tasks.dfy` (`Tasks`): the `Task` record and `list_tasks`, as the list of
  lines it prints.
- `session.dfy` (`Session`): one iteration of the loop.
  - `Dispatch` handles an already stripped line.
  - `Step` strips a raw line and then dispatches it.
  - `AddTask`, `CompleteTask` and `RemoveTask` are the three changing
    commands.
  - `SelectTask` is the bounds check that `done` and `remove` share.
- `loop.dfy` (`Loop`): the loop as a fold over a finite sequence of input
  lines. It stops after the first `exit` line. It records the list that was
  last saved, which stands for the contents of the backing file.

Every printed line is one element of an `output` sequence: the argument of
one `print` call, in order. The listing header therefore keeps its leading
`"\n"`. Saving is a `persisted` flag on each step's result.

## Model

| member | source | states |
|---|---|---|
| PyStr.IsSpace | todo.py:52 | the whitespace `strip()` removes is exactly the set `str.isspace()` accepts: tab through carriage return, the separators U+001C..U+001F, space, and the Unicode spaces and line separators |
| PyStr.StartsWith | todo.py:57 | a line starts with a prefix exactly when it is at least as long and agrees with the prefix character by character, and it is then the prefix followed by the rest |
| PyStr.TrimBy | todo.py:52 | for any set of blank characters, the trimmed string has no blank at either end, is no longer than the input, and is empty exactly when the input is all blanks |
| PyStr.TrimPadded | todo.py:52 | for any set of blank characters, padding a trimmed string with blanks on both sides and trimming it gives the string back |
| PyStr.TrimDecomposes | todo.py:52 | for any set of blank characters, every string is its trimmed form with only blanks before and after it |
| PyStr.Strip | todo.py:52 | the stripped line has no whitespace at either end, is no longer than the input, and is empty exactly when the input is all whitespace |
| PyStr.StripPadded | todo.py:52 | padding an already stripped string with whitespace on both sides and stripping gives the string back |
| PyStr.StripDecomposes | todo.py:52 | every line is its stripped form with whitespace before and after it, so stripping removes only whitespace |
| PyStr.StripStripped | todo.py:52 | stripping a string with no whitespace at either end leaves it unchanged |
| PyStr.StripIdempotent | todo.py:52 | stripping twice is the same as stripping once |
| PyInt.ParseInt | todo.py:67-69 | `int()` skips only its own whitespace at either end: what `str.isspace()` accepts except U+001C..U+001F; a blank argument never parses, and a plain run of digits parses to the number it denotes |
| PyInt.IsIntSpace | todo.py:69 | the whitespace `int()` skips around a number: what `str.isspace()` accepts except U+001C..U+001F |
| PyInt.TrimIntSpace | todo.py:69 | the text `int()` reads a number from has none of the whitespace it skips at either end, and is empty exactly when the argument is all such whitespace |
| PyInt.ShowNat | todo.py:43 | the shown number is a non-empty run of digits with no leading zero, and it denotes the number shown |
| PyInt.ParseShowNat | todo.py:69 | parsing the digits shown for a number gives the number back, and the same holds with a minus sign |
| PyInt.ParsePaddedShowNat | todo.py:69 | the digits shown for a number, with whitespace `int()` skips on either side, parse to the number |
| PyInt.ParsePaddedNegatedShowNat | todo.py:69 | the same with a minus sign before the digits parses to the negated number |
| PyInt.ParseRejectsForeignChar | todo.py:67-69 | an argument holding any character other than the whitespace `int()` skips, ASCII digits, signs or underscores is not a number; this includes U+001C..U+001F |
| Tasks.StatusMark | todo.py:42 | the mark is three characters in brackets, with a blank in the middle exactly when the task is not done |
| Tasks.TaskLine | todo.py:42-43 | a task's line is its number, a dot and a blank, its three-character status mark, a blank, and its text, in that order |
| Tasks.NumberedLines | todo.py:41-43 | one line per task, in list order, each showing the task under consecutive numbers |
| Tasks.ListTasks | todo.py:35-44 | header first and footer last; the no-tasks notice alone for an empty list; otherwise exactly one line per task, the i-th task shown as number i+1, for two more lines than tasks in all |
| Tasks.TaskLineInjective | todo.py:42-43 | two tasks shown under the same number give the same line only if they have the same text and the same flag |
| Tasks.EmptyListingOnlyForEmptyList | todo.py:38-43 | the no-tasks notice is printed exactly when the list is empty |
| Tasks.ListTasksInjective | todo.py:35-44 | equal listings come from equal lists, so the listing shows every task completely |
| Session.SelectTask | todo.py:68-70 | an argument is not a number exactly when `int()` fails; it is out of range exactly when it parses to a value below 1 or above the list length; otherwise it selects index n-1; nothing is selected in an empty list |
| Session.AddTask | todo.py:57-64 | a non-empty text is appended as one unfinished task, earlier tasks are unchanged, the list is saved and the text is echoed; an empty text changes nothing and prints the usage hint |
| Session.CompleteTask | todo.py:66-78 | a selected task gets its flag set with its text kept, the length and every other task are unchanged, the list is saved and then re-listed; a bad or out-of-range number changes nothing, saves nothing and prints the matching message |
| Session.RemoveTask | todo.py:80-92 | a selected task is deleted, earlier tasks stay in place, later tasks move up one place, and no other task is lost; the removed text is echoed and the list is re-listed; a bad or out-of-range number changes nothing, saves nothing and prints the matching message |
| Session.DeleteAtShifts | todo.py:85 | popping index i shortens the list by one, keeps the tasks before i, shifts those after it, and loses exactly the task at i |
| Session.Dispatch | todo.py:54-99 | only `exit` ends the loop and it prints the farewell; a line that does not save leaves the list unchanged; only the add, done and remove forms save; `list` prints the listing; any other line prints the unknown-command message |
| Session.Step | todo.py:52-64 | an input line ends the loop exactly when it strips to `exit`; a line of the `add ` form always appends its text and saves, because stripping leaves no empty text, so the usage hint is unreachable |
| Session.StepDone | todo.py:66-68 | a stripped line of the `done ` form reaches the done branch with everything after the prefix as its argument |
| Session.StepRemove | todo.py:80-82 | a stripped line of the `remove ` form reaches the remove branch with everything after the prefix as its argument |
| Session.DoneWithSeparatorIsNotANumber | todo.py:66-78 | `done` followed by U+001C and `1` survives `strip()` but is not a number to `int()`, so with one open task it prints the valid-number hint, changes nothing and saves nothing |
| Session.CompleteIdempotent | todo.py:66-74 | running the same `done` line twice has the same effect and output as running it once |
| Session.SelectShownNumber | todo.py:68-70 | the number shown for the task at index i selects index i |
| Session.ShownNumberCompletes | todo.py:66-74 | typing `done` with the number the listing shows for a task completes exactly that task |
| Session.ShownNumberRemoves | todo.py:80-88 | typing `remove` with the number the listing shows for a task deletes exactly that task |
| Session.RemoveRenumbers | todo.py:84-88 | after a removal, each task that followed the removed one is listed one number lower |
| Loop.Run | todo.py:51-99 | the program's loop reads all of its input unless a line that strips to `exit` ends it, and then that line is the last one read |
| Loop.RunWith | todo.py:51-99 | the loop never reads more lines than it is given, reads all of them unless a step ends it, and reads at least the line that ended it |
| Loop.StepIsLoopStep | todo.py:54-99 | the program's step ends the loop exactly on a line that strips to `exit`, and never changes the list without saving it |
| Loop.RunWithStopsAtFirstExit | todo.py:94-96 | with such a step the loop stops right after the first `exit` line and at no other line |
| Loop.RunWithKeepsFileInSync | todo.py:57-92 | with a step that saves every change, the file ends up holding the current list, unless nothing was saved and nothing changed |
| Loop.RunWithIgnoresLinesAfterExit | todo.py:94-96 | input after the line that ends the loop does not affect the result |
| Loop.RunStopsAtFirstExit | todo.py:51-96 | the program reads input up to and including the first line that strips to `exit`, and all input when there is none |
| Loop.RunKeepsFileInSync | todo.py:57-92 | after any sequence of commands the file holds the in-memory list, unless the session saved nothing and changed nothing |
| Loop.RunIgnoresLinesAfterExit | todo.py:94-96 | whatever is typed after `exit` is never read |

The end of input is not treated like `exit`: `input()` raises `EOFError`,
and nothing catches it. The model follows the code, so `Run` reports
`exited` as false when the lines run out.

`add` with no text is meant to leave the list unchanged and print a hint.
The code has that branch (todo.py:63-64), and `Session.AddTask` models it.
Through `Session.Step` the branch cannot be reached. A line that starts with
`add ` after stripping cannot end in a space, so its text is never empty.
A bare `add` strips to `add`, which is an unknown command.

## Left out

- `load_tasks` and `save_tasks` (todo.py:7-20) read and write a JSON file. File access and JSON are not modelled. A save is the `persisted` flag of a step, and in `Loop` the list last saved stands for the file's contents. The start-up load is the initial list given to `Run`.
- `print_welcome_message` (todo.py:22-33) prints a fixed banner and has no logic.
- `input("> ")` and the `__main__` entry (todo.py:52, todo.py:101-102) are I/O. The model takes the input lines as a finite sequence, and its `output` leaves out the `> ` prompt written before each read.
- Loop.Run: when the lines run out before `exit`, the program raises an uncaught `EOFError`. `Run` just stops with `exited` false, because a crash has no counterpart in a pure function.
- PyInt.ParseInt: Python's `int()` also accepts Unicode decimal digits other than ASCII `0`-`9`, and newer Python versions reject strings of more than 4300 digits. The model accepts ASCII digits only, with no length limit, because the numbers the program shows are ASCII digits from `str(i + 1)` (todo.py:43), and the model reads back only numbers of that form.
- PyStr.IsSpace: Python strings may hold lone surrogate code points, which a Dafny `char` cannot. Task texts and input lines are Dafny strings.
- The model's `Task` holds a string text and a boolean flag, and the list is a sequence of such tasks. Loaded data of any other shape, and whatever the program does with it, is not represented. This covers a `done` value that is not a boolean (the listing reads it by truthiness), a `text` that is not a string (the listing formats it as it is), and a file whose top-level value is not a list. Such data can make a later command raise an uncaught exception (`TypeError`, `AttributeError` or `KeyError`), or go unnoticed, depending on the value and the command.
- A save that fails (permission denied, disk full) ends the program with an exception. This is not modelled: every save succeeds.
- Every `print` succeeds in the model. A standard output that cannot encode a character raises `UnicodeEncodeError`. That character can be the mark `✓` or one in a task's text. On `list` and `add` the error ends the program. `UnicodeEncodeError` is a `ValueError`, so inside the `try` blocks of `done` and `remove` (todo.py:67-78, todo.py:81-92) the program catches it and prints the valid-number hint. It prints the hint after the list was already changed, saved and partly printed.
- Session.CompleteTask: on a stdout that cannot encode the listing, the program completes and saves the task, prints part of its output, then prints "Please enter a valid number. (e.g., done 2)". The contract promises the full confirmation and listing, because printing is not modelled as fallible.
- Session.RemoveTask: the same for `remove`. The task is deleted and saved, and the output ends in "Please enter a valid number. (e.g., remove 1)" instead of the full listing.
- PyInt.ParseRejectsForeignChar: treats a Unicode decimal digit other than ASCII `0`-`9` (such as U+0661) as a foreign character, while Python's `int()` accepts it. This follows from the ASCII-only digits of `PyInt.ParseInt`.
