# LunoTask task-list manager in Dafny

This project models LunoTask, a command-line task manager. Every invocation
loads an ordered list of tasks (`id`, `title`, `completed`) from `tasks.json`
and runs one command. `add` appends a task and writes the list back whole,
unless the new id overflows. `complete` writes whenever it finds the id,
even when that task was already completed. `delete` writes when it removed
a task. `list` prints the list and never writes.

The list is a local vector of the program's entry point. Each command
handler is therefore a method over `seq<Task>`. The method changes a local
copy step by step (a scanning loop for `complete`, a retain loop for
`delete`, a printing loop for `list`) and returns three things: the new
list, whether it saved, and the lines it printed. Each handler is proved
against a specification function:

- `AddedTo` for add.
- `MarkedFirst` for complete.
- `Without` for delete.
- `Listing` for list.

`Execute` puts these together into one whole invocation on the storage
file. The storage file is modelled as `Absent`, `Corrupt` or
`Saved(tasks)`. `Absent` stands for a file that cannot be opened and
`Corrupt` for readable text that does not parse as a task list.

Two groups of definitions carry no contract of their own and are covered
by the rows that use them. `Listing`, `Lines` and `LineOf` define what
`list` prints; the `ListTasks`, `LinesAt` and `Execute` rows state their
properties. `Run` chains several invocations, each loading what the
previous one saved; the `AddsAppendNumbered`, `AddsFromEmptyNumberFromOne`,
`DeleteThenAddReusesId` and `FreshStoreWalkthrough` rows state what such
chains do.

The id rule `tasks.len() as u32 + 1` is modelled exactly as written. The
cast keeps the low 32 bits of the length. If those bits are `u32::MAX`,
the `+ 1` overflows, and the model treats that as the overflow panic: the
process stops without pushing a task or saving. Ids are *not* unique.
`DeleteThenAddReusesId` proves that in a list numbered 1..n, as successive
adds from an empty store produce, deleting any task other than the last one
and then adding a task hands out an id that a stored task still has.
Ids are sometimes described as unique, but the code does not keep them
unique, and this model follows the code.

## Model

| member | source | states |
|---|---|---|
| TaskManager.Load | src/main.rs:31-41 | a file that cannot be opened and readable text that does not parse both load as the empty list; a parsed file loads as its tasks |
| TaskManager.Low32 | src/main.rs:62 | the `as u32` cast of a length is a valid `u32` and leaves a length below 2^32 unchanged |
| TaskManager.Low32IsRemainder | src/main.rs:62 | the cast keeps the remainder of the length modulo 2^32 |
| TaskManager.NextId | src/main.rs:62 | the new id is at least 1, equals `len + 1` whenever `len < 2^32 - 1`, and is absent (overflow panic) exactly when the low 32 bits of `len` are `u32::MAX` |
| TaskManager.AddedTo | src/main.rs:62-67 | an add gives one more task than before; the earlier tasks are unchanged; the last task has the new id, the given title and `completed = false`; the add panics exactly when the id overflows |
| TaskManager.FirstIndexOf | src/main.rs:84-85 | gives the index of a task with the id that has no earlier task with that id, and gives nothing exactly when no task has the id |
| TaskManager.MarkedFirst | src/main.rs:84-89 | the length is kept; only the first task with the id becomes completed; every other task, later tasks with the same id included, is unchanged; with no match the list is unchanged |
| TaskManager.Without | src/main.rs:97 | the result is never longer than the input, and no task in it has the removed id |
| TaskManager.WithoutShrinksIffOccurs | src/main.rs:96-99 | the length stays the same after retain exactly when no task has the id, and in that case the list is identical |
| TaskManager.WithoutKeepsOthers | src/main.rs:97 | every task whose id differs from the removed id stays in the list, as many times as it appeared before |
| TaskManager.WithoutConcat | src/main.rs:97 | retain distributes over concatenation, so the surviving tasks keep their relative order |
| TaskManager.LinesAt | src/main.rs:76-79 | the listing has one line per task, and line k shows the id, title and completed flag of task k |
| TaskManager.Execute | src/main.rs:56-107 | an invocation either leaves the file as it was or writes a list to it; `list` never writes and prints the listing of the loaded tasks; an add with fewer than `2^32 - 1` tasks always writes |
| TaskManager.AddTask | src/main.rs:61-70 | add saves exactly when the id does not overflow; in that case it appends `Task(len + 1, title, false)` and prints the added message; otherwise nothing changes and the overflow panic occurs |
| TaskManager.ListTasks | src/main.rs:72-81 | prints the empty-store line exactly when the list is empty; otherwise prints one line per task in stored order, built from that task's id, title and completed flag |
| TaskManager.CompleteTask | src/main.rs:83-93 | complete saves exactly when some task has the id; the new list marks only the first match; prints completed or not-found to match |
| TaskManager.Retain | src/main.rs:97 | the retain loop keeps exactly the tasks whose id differs from the given one, in their original order |
| TaskManager.DeleteTask | src/main.rs:95-105 | delete gives the filtered list; it saves exactly when the length went down, which happens exactly when the id occurs; otherwise the list is unchanged and not-found is printed |
| TaskManager.Invoke | src/main.rs:56-107 | the load, dispatch and conditional save of one invocation give exactly the result of `Execute` |
| TaskProperties.AddWrites | src/main.rs:61-68 | an add invocation on fewer than `2^32 - 1` stored tasks writes the loaded list with `Task(len + 1, title, false)` appended |
| TaskProperties.NewTasksAt | src/main.rs:62-66 | the tasks that successive adds create after `start` stored tasks: the i-th has id `start + i + 1`, the i-th title, and is not completed |
| TaskProperties.AddsAppendNumbered | src/main.rs:61-68 | successive add invocations, each loading what the previous one saved, keep the stored tasks and append exactly those new tasks |
| TaskProperties.AddsFromEmptyNumberFromOne | src/main.rs:62-63 | starting from no file and with no deletes, N adds give N tasks, and the task at index i is `Task(i + 1, title i, false)` |
| TaskProperties.WithoutNumberedRemovesOne | src/main.rs:96-97 | deleting one id from a list numbered 1..n removes exactly one task |
| TaskProperties.DeleteThenAddReusesId | src/main.rs:62 | in a list numbered 1..n, deleting any id below n and then adding gives a new task with id n, while the last remaining task also has id n |
| TaskProperties.CompleteIdempotent | src/main.rs:84-89 | completing the same id twice gives the same list as completing it once |
| TaskProperties.DeleteTwiceFindsNothing | src/main.rs:95-100 | a second delete of the same id prints not-found and does not write |
| TaskProperties.MissLeavesFileUnchanged | src/main.rs:83-104 | complete or delete of an id that no task has prints not-found and leaves the file as it was, even a missing or corrupt file |
| TaskProperties.CorruptFileIsReplacedOnWrite | src/main.rs:40 | a command that writes over a corrupt file writes what it would have written over a missing file, so the unparseable contents are lost |
| TaskProperties.FreshStoreWalkthrough | src/main.rs:56-107 | with no file, running add a, add b, complete 1, delete 2 (for example a = "Buy milk", b = "Pay bills") leaves only task 1, titled a and marked completed |

## Left out

- Command-line parsing (`Cli`, `Commands`, `Cli::parse`, src/main.rs:15-29, 57) is left out because it is a thin layer over the clap library. Commands come in as the `Command` datatype.
- JSON encoding and file I/O in `load_tasks` and `save_tasks` (src/main.rs:31-54) are abstracted. The file is a `StoredFile` value, and saving replaces it with `Saved(list)`. So a save followed by a load gives back the saved list by construction, and the serde round trip itself is not modelled.
- The `unwrap()` panics on a failed read (src/main.rs:38), a failed serialization in `to_string_pretty` (src/main.rs:44), a failed open for writing (src/main.rs:51) and a failed write (src/main.rs:53) are left out because they are failures outside the program's logic that end the process.
- A file whose contents are not valid UTF-8 makes `read_to_string(...).unwrap()` panic (src/main.rs:38). Such a file is neither loaded as the empty list nor overwritten; `Corrupt` covers only readable text that does not parse.
- The text and emoji of the printed messages are left out. Each printed line is a `Message` value, and a task line carries the id, title and completed flag that it is formatted from.
- Two invocations racing on `tasks.json` are left out because the program does nothing to handle that case.
- `NextId` follows the panic that a debug build raises on the overflowing `+ 1`. It does not model the wrap to id 0 that a release build would give.
- The vector's buffer is modelled as a value sequence. `retain` is modelled as a loop that builds the kept sequence rather than compacting the buffer in place. Aliasing of the buffer is not modelled because nothing in the program shares it.
