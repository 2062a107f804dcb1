/**
 * The task-list manager: one ordered list of tasks, loaded from a file at the
 * start of every invocation and changed by one command. An add writes the
 * list back whole unless the new id overflows; a complete writes whenever it
 * finds the id, even when that task was already completed; a delete writes
 * when it removed a task; a list never writes.
 *
 * The list is a local `Vec<Task>` of the program's entry point; each command
 * handler below changes a local copy of it step by step and hands back the
 * new list, whether it was saved, and the lines it printed. The spec
 * functions (AddedTo, MarkedFirst, Without, Listing) state what each handler
 * computes; `Execute` composes them into one whole invocation.
 */
module TaskManager {

  /** Rust's `u32`. */
  const U32_LIMIT: int := 0x1_0000_0000
  type U32 = x: int | 0 <= x < U32_LIMIT

  datatype Option<T> = None | Some(value: T)

  /** One task record: an identifier, a free-text title and a completion flag. */
  datatype Task = Task(id: U32, title: string, completed: bool)

  /** The subcommands of the command line. */
  datatype Command = Add(title: string) | List | Complete(id: U32) | Delete(id: U32)

  /**
   * What an invocation prints, one value per printed line. The exact
   * emoji and text are not modelled; a task line carries the fields it
   * is formatted from (`[id] title - ✔` or `... - ✘`).
   */
  datatype Message =
    | TaskAdded
    | NoTasks
    | TaskLine(id: U32, title: string, completed: bool)
    | TaskCompleted
    | TaskNotFound
    | TaskDeleted
    | AddOverflowPanic   // the arithmetic-overflow panic of `len as u32 + 1`

  /**
   * The contents of the storage file: `Absent` when it cannot be opened,
   * `Corrupt` when it is readable text that does not parse as a task list,
   * `Saved` when it parses.
   */
  datatype StoredFile = Absent | Corrupt | Saved(tasks: seq<Task>)

  /** The result of one invocation: the storage file afterwards and the printed lines. */
  datatype Outcome = Outcome(file: StoredFile, out: seq<Message>)

  // ---------------------------------------------------------------------
  // Specification functions

  /** Whether some task in the list carries `id`. */
  predicate Occurs(tasks: seq<Task>, id: U32) {
    exists k :: 0 <= k < |tasks| && tasks[k].id == id
  }

  /**
   * Loading the store: a file that cannot be opened and readable text that
   * does not parse as a task list both give the empty list.
   */
  function Load(file: StoredFile): (tasks: seq<Task>)
    ensures file.Saved? ==> tasks == file.tasks
    ensures !file.Saved? ==> tasks == []
  {
    match file
    case Absent => []
    case Corrupt => []
    case Saved(ts) => ts
  }

  /**
   * `n as u32`: the low 32 bits of a length, written as repeated
   * subtraction so that it unfolds only as far as a proof asks.
   */
  function Low32(n: nat): (r: U32)
    ensures n < U32_LIMIT ==> r == n
  {
    if n < U32_LIMIT then n else Low32(n - U32_LIMIT)
  }

  /** The cast keeps the remainder modulo 2^32. */
  lemma {:induction false} Low32IsRemainder(n: nat)
    ensures Low32(n) == n % U32_LIMIT
  {
    if n >= U32_LIMIT {
      Low32IsRemainder(n - U32_LIMIT);
    }
  }

  /**
   * The id a new task receives in a list of `len` tasks: `len as u32`
   * keeps the low 32 bits, and `+ 1` on a `u32` panics when it overflows.
   * None stands for that panic.
   */
  function NextId(len: nat): (r: Option<U32>)
    ensures r.Some? ==> 1 <= r.value
    ensures len < U32_LIMIT - 1 ==> r == Some(len + 1)
    ensures r.None? <==> Low32(len) == U32_LIMIT - 1
  {
    var truncated := Low32(len);
    if truncated == U32_LIMIT - 1 then None else Some(truncated + 1)
  }

  /** The list after an add of `title`, or None when computing the id panics. */
  function AddedTo(tasks: seq<Task>, title: string): (r: Option<seq<Task>>)
    ensures r.None? <==> NextId(|tasks|).None?
    ensures r.Some? ==>
      |r.value| == |tasks| + 1 && r.value[..|tasks|] == tasks &&
      r.value[|tasks|] == Task(NextId(|tasks|).value, title, false)
    ensures |tasks| < U32_LIMIT - 1 ==> r == Some(tasks + [Task(|tasks| + 1, title, false)])
  {
    match NextId(|tasks|)
    case None => None
    case Some(id) => Some(tasks + [Task(id, title, false)])
  }

  /** The position of the first task carrying `id`, if any. */
  function FirstIndexOf(tasks: seq<Task>, id: U32): (r: Option<nat>)
    ensures r.None? <==> !Occurs(tasks, id)
    ensures r.Some? ==>
      r.value < |tasks| && tasks[r.value].id == id &&
      forall j :: 0 <= j < r.value ==> tasks[j].id != id
  {
    if tasks == [] then None
    else if tasks[0].id == id then Some(0)
    else
      match FirstIndexOf(tasks[1..], id)
      case None =>
        assert forall k :: 1 <= k < |tasks| ==> tasks[k] == tasks[1..][k - 1];
        None
      case Some(k) => Some(k + 1)
  }

  /**
   * The list after marking the first task that carries `id` completed;
   * every other task, including later tasks with the same id, is kept.
   */
  function MarkedFirst(tasks: seq<Task>, id: U32): (r: seq<Task>)
    ensures |r| == |tasks|
    ensures !Occurs(tasks, id) ==> r == tasks
    ensures Occurs(tasks, id) ==>
      var k := FirstIndexOf(tasks, id).value;
      r[k] == tasks[k].(completed := true) &&
      forall j :: 0 <= j < |tasks| && j != k ==> r[j] == tasks[j]
  {
    match FirstIndexOf(tasks, id)
    case None => tasks
    case Some(k) => tasks[k := tasks[k].(completed := true)]
  }

  /**
   * The list with every task carrying `id` removed and the rest kept in
   * order: what `retain(|t| t.id != id)` leaves.
   */
  function Without(tasks: seq<Task>, id: U32): (r: seq<Task>)
    ensures |r| <= |tasks|
    ensures forall k :: 0 <= k < |r| ==> r[k].id != id
  {
    if tasks == [] then []
    else
      var n := |tasks| - 1;
      var rest := Without(tasks[..n], id);
      if tasks[n].id == id then rest else rest + [tasks[n]]
  }

  /** Retaining shrinks the list exactly when some task carries the id; otherwise it is the identity. */
  lemma {:induction false} WithoutShrinksIffOccurs(tasks: seq<Task>, id: U32)
    ensures |Without(tasks, id)| == |tasks| <==> !Occurs(tasks, id)
    ensures !Occurs(tasks, id) ==> Without(tasks, id) == tasks
  {
    if tasks != [] {
      var n := |tasks| - 1;
      WithoutShrinksIffOccurs(tasks[..n], id);
      assert tasks == tasks[..n] + [tasks[n]];
      assert Occurs(tasks[..n], id) ==> Occurs(tasks, id) by {
        if Occurs(tasks[..n], id) {
          var k :| 0 <= k < n && tasks[..n][k].id == id;
          assert tasks[k].id == id;
        }
      }
      assert Occurs(tasks, id) ==> Occurs(tasks[..n], id) || tasks[n].id == id by {
        if Occurs(tasks, id) && tasks[n].id != id {
          var k :| 0 <= k < |tasks| && tasks[k].id == id;
          assert tasks[..n][k].id == id;
        }
      }
    }
  }

  /** Every task not carrying the id survives retaining as often as it occurred. */
  lemma {:induction false} WithoutKeepsOthers(tasks: seq<Task>, id: U32, t: Task)
    requires t.id != id
    ensures multiset(Without(tasks, id))[t] == multiset(tasks)[t]
  {
    if tasks != [] {
      var n := |tasks| - 1;
      WithoutKeepsOthers(tasks[..n], id, t);
      assert tasks == tasks[..n] + [tasks[n]];
    }
  }

  /** Retaining distributes over concatenation, so the survivors keep their relative order. */
  lemma {:induction false} WithoutConcat(a: seq<Task>, b: seq<Task>, id: U32)
    ensures Without(a + b, id) == Without(a, id) + Without(b, id)
  {
    if b == [] {
      assert a + b == a;
    } else {
      var n := |b| - 1;
      WithoutConcat(a, b[..n], id);
      assert (a + b)[..|a + b| - 1] == a + b[..n];
    }
  }

  /** The lines `list` prints for a list of tasks, in stored order. */
  function Listing(tasks: seq<Task>): seq<Message> {
    if tasks == [] then [NoTasks] else Lines(tasks)
  }

  /** One line per task, in order. */
  function Lines(tasks: seq<Task>): seq<Message> {
    if tasks == [] then [] else Lines(tasks[..|tasks| - 1]) + [LineOf(tasks[|tasks| - 1])]
  }

  /** The k-th line shows the k-th task. */
  lemma {:induction false} LinesAt(tasks: seq<Task>)
    ensures |Lines(tasks)| == |tasks|
    ensures forall k :: 0 <= k < |tasks| ==> Lines(tasks)[k] == LineOf(tasks[k])
  {
    if tasks != [] {
      LinesAt(tasks[..|tasks| - 1]);
    }
  }

  function LineOf(t: Task): Message {
    TaskLine(t.id, t.title, t.completed)
  }

  /**
   * One whole invocation on the storage file: load, run the command, and
   * write the list back only when the command saves.
   */
  function Execute(cmd: Command, file: StoredFile): (r: Outcome)
    ensures r.file == file || r.file.Saved?
    ensures cmd.List? ==> r == Outcome(file, Listing(Load(file)))
    ensures cmd.Add? && |Load(file)| < U32_LIMIT - 1 ==> r.file.Saved?
  {
    var tasks := Load(file);
    match cmd
    case Add(title) =>
      (match AddedTo(tasks, title)
       case None => Outcome(file, [AddOverflowPanic])
       case Some(after) => Outcome(Saved(after), [TaskAdded]))
    case List => Outcome(file, Listing(tasks))
    case Complete(id) =>
      if Occurs(tasks, id) then Outcome(Saved(MarkedFirst(tasks, id)), [TaskCompleted])
      else Outcome(file, [TaskNotFound])
    case Delete(id) =>
      var after := Without(tasks, id);
      if |after| == |tasks| then Outcome(file, [TaskNotFound])
      else Outcome(Saved(after), [TaskDeleted])
  }

  // ---------------------------------------------------------------------
  // Command handlers

  /** `add <title>`: append a task with id `len + 1`, then save. */
  method AddTask(tasks: seq<Task>, title: string) returns (after: seq<Task>, saved: bool, out: seq<Message>)
    ensures saved <==> NextId(|tasks|).Some?
    ensures saved ==> Some(after) == AddedTo(tasks, title) && out == [TaskAdded]
    ensures !saved ==> after == tasks && out == [AddOverflowPanic]
    ensures |tasks| < U32_LIMIT - 1 ==>
      saved && after == tasks + [Task(|tasks| + 1, title, false)]
  {
    var truncated := |tasks| % U32_LIMIT;
    Low32IsRemainder(|tasks|);
    if truncated == U32_LIMIT - 1 {
      // `+ 1` overflows: the process panics before pushing or saving.
      return tasks, false, [AddOverflowPanic];
    }
    var id: U32 := truncated + 1;
    after := tasks + [Task(id, title, false)];
    saved := true;
    out := [TaskAdded];
  }

  /** `list`: the empty-store line, or one line per task in stored order. */
  method ListTasks(tasks: seq<Task>) returns (out: seq<Message>)
    ensures tasks == [] <==> out == [NoTasks]
    ensures tasks != [] ==>
      |out| == |tasks| &&
      forall k :: 0 <= k < |tasks| ==>
        out[k] == TaskLine(tasks[k].id, tasks[k].title, tasks[k].completed)
    ensures out == Listing(tasks)
  {
    if tasks == [] {
      return [NoTasks];
    }
    out := [];
    for i := 0 to |tasks|
      invariant out == Lines(tasks[..i])
    {
      assert tasks[..i + 1][..i] == tasks[..i];
      out := out + [LineOf(tasks[i])];
    }
    assert tasks[..|tasks|] == tasks;
    LinesAt(tasks);
  }

  /**
   * `complete <id>`: scan in order; at the first task carrying `id`, mark it
   * completed, save and stop. With no match, print not-found and do not save.
   */
  method CompleteTask(tasks: seq<Task>, id: U32) returns (after: seq<Task>, saved: bool, out: seq<Message>)
    ensures saved <==> Occurs(tasks, id)
    ensures after == MarkedFirst(tasks, id)
    ensures out == if saved then [TaskCompleted] else [TaskNotFound]
  {
    after := tasks;
    for i := 0 to |after|
      invariant after == tasks
      invariant forall j :: 0 <= j < i ==> tasks[j].id != id
    {
      if after[i].id == id {
        after := after[i := after[i].(completed := true)];
        return after, true, [TaskCompleted];
      }
    }
    return after, false, [TaskNotFound];
  }

  /** `Vec::retain(|t| t.id != id)`: keep the tasks without `id`, in order. */
  method Retain(tasks: seq<Task>, id: U32) returns (kept: seq<Task>)
    ensures kept == Without(tasks, id)
  {
    kept := [];
    for i := 0 to |tasks|
      invariant kept == Without(tasks[..i], id)
    {
      assert tasks[..i + 1][..i] == tasks[..i];
      if tasks[i].id != id {
        kept := kept + [tasks[i]];
      }
    }
    assert tasks[..|tasks|] == tasks;
  }

  /**
   * `delete <id>`: remove every task carrying `id`; save only when the
   * length changed, otherwise print not-found.
   */
  method DeleteTask(tasks: seq<Task>, id: U32) returns (after: seq<Task>, saved: bool, out: seq<Message>)
    ensures after == Without(tasks, id)
    ensures saved <==> |after| < |tasks|
    ensures saved <==> Occurs(tasks, id)
    ensures !saved ==> after == tasks
    ensures out == if saved then [TaskDeleted] else [TaskNotFound]
  {
    var lenBefore := |tasks|;
    after := Retain(tasks, id);
    WithoutShrinksIffOccurs(tasks, id);
    if |after| == lenBefore {
      saved, out := false, [TaskNotFound];
    } else {
      saved, out := true, [TaskDeleted];
    }
  }

  /**
   * One invocation: load the store, dispatch on the command, and write the
   * list back when the handler saves.
   */
  method Invoke(cmd: Command, file: StoredFile) returns (result: Outcome)
    ensures result == Execute(cmd, file)
    ensures result.file == file || result.file.Saved?
  {
    var tasks := Load(file);
    var after: seq<Task>, saved: bool, out: seq<Message>;
    match cmd {
      case Add(title) =>
        after, saved, out := AddTask(tasks, title);
      case List =>
        out := ListTasks(tasks);
        after, saved := tasks, false;
      case Complete(id) =>
        after, saved, out := CompleteTask(tasks, id);
      case Delete(id) =>
        after, saved, out := DeleteTask(tasks, id);
    }
    result := Outcome(if saved then Saved(after) else file, out);
  }
}
