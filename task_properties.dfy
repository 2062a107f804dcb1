/**
 * Properties of the task-list manager that relate several commands or
 * several invocations: the numbering that successive adds produce, the
 * id an add hands out after a delete, repeated completes and deletes,
 * and the end-to-end walk-through of a fresh store.
 */
module TaskProperties {
  import opened TaskManager

  /** The storage file after running the commands one invocation each, in order. */
  function Run(cmds: seq<Command>, file: StoredFile): StoredFile
    decreases |cmds|
  {
    if cmds == [] then file else Run(cmds[1..], Execute(cmds[0], file).file)
  }

  /** One `add` command per title, in order. */
  function Adds(titles: seq<string>): seq<Command> {
    if titles == [] then [] else [Add(titles[0])] + Adds(titles[1..])
  }

  /** One add invocation, as long as the id does not overflow, writes the list with the next-numbered task appended. */
  lemma AddWrites(title: string, file: StoredFile)
    requires |Load(file)| < U32_LIMIT - 1
    ensures Execute(Add(title), file).file == Saved(Load(file) + [Task(|Load(file)| + 1, title, false)])
  {
  }

  /** Running a non-empty sequence of commands runs the first one, then the rest. */
  lemma RunFirst(cmds: seq<Command>, file: StoredFile)
    requires cmds != []
    ensures Run(cmds, file) == Run(cmds[1..], Execute(cmds[0], file).file)
  {
  }

  /** The tasks that adds of `titles` create after `start` tasks: ids start + 1, start + 2, ... */
  function NewTasks(start: nat, titles: seq<string>): seq<Task>
    requires start + |titles| < U32_LIMIT
    decreases |titles|
  {
    if titles == [] then [] else [Task(start + 1, titles[0], false)] + NewTasks(start + 1, titles[1..])
  }

  /** The i-th new task has id start + i + 1, the i-th title, and is not completed. */
  lemma {:induction false} NewTasksAt(start: nat, titles: seq<string>)
    requires start + |titles| < U32_LIMIT
    ensures |NewTasks(start, titles)| == |titles|
    ensures forall i :: 0 <= i < |titles| ==> NewTasks(start, titles)[i] == Task(start + i + 1, titles[i], false)
    decreases |titles|
  {
    if titles != [] {
      NewTasksAt(start + 1, titles[1..]);
    }
  }

  /**
   * Successive add invocations append one task per title to the stored
   * tasks, which stay untouched; the i-th new task has id (tasks already
   * stored) + i + 1 and is not completed.
   */
  lemma {:induction false} AddsAppendNumbered(titles: seq<string>, file: StoredFile)
    requires |Load(file)| + |titles| < U32_LIMIT
    ensures Load(Run(Adds(titles), file)) == Load(file) + NewTasks(|Load(file)|, titles)
    decreases |titles|
  {
    var before := Load(file);
    if titles == [] {
      assert before + [] == before;
    } else {
      var first := Task(|before| + 1, titles[0], false);
      var next := Saved(before + [first]);
      calc {
        Load(Run(Adds(titles), file));
      == { AddWrites(titles[0], file); RunFirst(Adds(titles), file); }
        Load(Run(Adds(titles[1..]), next));
      == { AddsAppendNumbered(titles[1..], next); }
        (before + [first]) + NewTasks(|before| + 1, titles[1..]);
      == // concatenation is associative
        before + NewTasks(|before|, titles);
      }
    }
  }

  /** From no file and with no deletions, the task at index i has id i + 1. */
  lemma AddsFromEmptyNumberFromOne(titles: seq<string>)
    requires |titles| < U32_LIMIT
    ensures
      var after := Load(Run(Adds(titles), Absent));
      |after| == |titles| &&
      forall i :: 0 <= i < |titles| ==> after[i] == Task(i + 1, titles[i], false)
  {
    AddsAppendNumbered(titles, Absent);
    NewTasksAt(0, titles);
    assert [] + NewTasks(0, titles) == NewTasks(0, titles);
  }

  /** Tasks numbered 1..n in order, as successive adds from empty produce. */
  ghost predicate Numbered(tasks: seq<Task>) {
    forall i :: 0 <= i < |tasks| ==> tasks[i].id == i + 1
  }

  /** Retaining all but one id in a numbered list removes exactly one task. */
  lemma {:induction false} WithoutNumberedRemovesOne(tasks: seq<Task>, k: U32)
    requires Numbered(tasks) && 1 <= k <= |tasks|
    ensures |Without(tasks, k)| == |tasks| - 1
  {
    var n := |tasks| - 1;
    assert tasks == tasks[..n] + [tasks[n]];
    if k == |tasks| {
      WithoutShrinksIffOccurs(tasks[..n], k);
    } else {
      WithoutNumberedRemovesOne(tasks[..n], k);
    }
  }

  /**
   * Ids are not unique: in a numbered list of n tasks, deleting any id but
   * the last and then adding hands out id n again, which the last surviving
   * task still carries.
   */
  lemma DeleteThenAddReusesId(tasks: seq<Task>, k: U32, title: string)
    requires Numbered(tasks) && 1 <= k < |tasks| < U32_LIMIT
    ensures
      var after := Load(Run([Delete(k), Add(title)], Saved(tasks)));
      var n := |tasks|;
      |after| == n && after[n - 2].id == n && after[n - 1].id == n
  {
    var n := |tasks|;
    WithoutNumberedRemovesOne(tasks, k);
    WithoutShrinksIffOccurs(tasks, k);
    assert tasks == tasks[..n - 1] + [tasks[n - 1]];
    var kept := Without(tasks, k);
    assert kept == Without(tasks[..n - 1], k) + [tasks[n - 1]];
    assert kept[n - 2] == tasks[n - 1];
    var f1 := Execute(Delete(k), Saved(tasks)).file;
    assert f1 == Saved(kept);
    var f2 := Execute(Add(title), f1).file;
    assert f2 == Saved(kept + [Task(n, title, false)]);
    assert [Delete(k), Add(title)][1..] == [Add(title)];
    assert Run([Add(title)], f1) == Run([], f2);
  }

  /** Completing the same id twice leaves the list as completing it once. */
  lemma CompleteIdempotent(tasks: seq<Task>, id: U32)
    ensures MarkedFirst(MarkedFirst(tasks, id), id) == MarkedFirst(tasks, id)
  {
  }

  /** A second delete of the same id finds nothing, prints not-found and does not write. */
  lemma DeleteTwiceFindsNothing(id: U32, file: StoredFile)
    ensures
      var first := Execute(Delete(id), file);
      Execute(Delete(id), first.file) == Outcome(first.file, [TaskNotFound])
  {
    var first := Execute(Delete(id), file);
    var tasks := Load(first.file);
    WithoutShrinksIffOccurs(Load(file), id);
    assert !Occurs(tasks, id);
    WithoutShrinksIffOccurs(tasks, id);
  }

  /**
   * A complete or delete of an id that no task carries prints not-found and
   * leaves the storage file exactly as it was, corrupt or missing included.
   */
  lemma MissLeavesFileUnchanged(id: U32, file: StoredFile)
    requires !Occurs(Load(file), id)
    ensures Execute(Complete(id), file) == Outcome(file, [TaskNotFound])
    ensures Execute(Delete(id), file) == Outcome(file, [TaskNotFound])
  {
    WithoutShrinksIffOccurs(Load(file), id);
  }

  /**
   * Any command that writes replaces a corrupt file by the list it computed
   * from an empty store: the unparseable contents are lost.
   */
  lemma CorruptFileIsReplacedOnWrite(cmd: Command)
    requires Execute(cmd, Corrupt).file != Corrupt
    ensures Execute(cmd, Corrupt).file == Execute(cmd, Absent).file
  {
  }

  /**
   * The walk-through of a fresh store: add a, add b, complete 1, delete 2
   * leaves only task 1, titled a and completed.
   */
  lemma FreshStoreWalkthrough(a: string, b: string)
    ensures Run([Add(a), Add(b), Complete(1), Delete(2)], Absent) == Saved([Task(1, a, true)])
  {
    var first, second := Task(1, a, false), Task(2, b, false);
    var done := first.(completed := true);
    var cmds := [Add(a), Add(b), Complete(1), Delete(2)];
    calc {
      Run(cmds, Absent);
    == { AddWrites(a, Absent); RunFirst(cmds, Absent); }
      Run(cmds[1..], Saved([first]));
    == { AddWrites(b, Saved([first]));
         RunFirst(cmds[1..], Saved([first]));
         assert cmds[1..][1..] == cmds[2..] && [first] + [second] == [first, second]; }
      Run(cmds[2..], Saved([first, second]));
    == { CompleteFirstOfTwo(first, second);
         RunFirst(cmds[2..], Saved([first, second]));
         assert cmds[2..][1..] == cmds[3..]; }
      Run(cmds[3..], Saved([done, second]));
    == { DeleteSecondOfTwo(done, second);
         RunFirst(cmds[3..], Saved([done, second]));
         assert cmds[3..][1..] == []; }
      Run([], Saved([done]));
    }
  }

  /** A step of the walk-through: complete 1 marks the first of two stored tasks. */
  lemma CompleteFirstOfTwo(first: Task, second: Task)
    requires first.id == 1
    ensures Execute(Complete(1), Saved([first, second])).file == Saved([first.(completed := true), second])
  {
  }

  /** A step of the walk-through: delete 2 removes the second of two stored tasks. */
  lemma DeleteSecondOfTwo(first: Task, second: Task)
    requires first.id == 1 && second.id == 2
    ensures Execute(Delete(2), Saved([first, second])).file == Saved([first])
  {
    assert [first, second][..1] == [first];
    assert [first][..0] == [];
    assert Without([first, second], 2) == [first];
  }
}
