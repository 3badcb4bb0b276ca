/**
 The task context: the one active transition (a timed work session) and the
 handlers that change it. Every handler is a pure function from the current
 transition to the next one; the store writes that follow the local update
 (and swallow their own errors) do not influence it, except in
 `ArchiveTransition`, where the local state is committed only after both
 writes have returned, and in `Initialize`, where the loaded or created
 document becomes the state.
 */
module TaskContext {
  import opened Wrappers
  import opened Store
  import opened Text
  import Seqs

  datatype Task = Task(id: string, title: string, completed: bool, isTrap: bool)

  /** The active transition. `title` and `startTime` are optional fields of
      the stored document. */
  datatype Transition = Transition(
    id: string,
    number: nat,
    title: Option<string>,
    tasks: seq<Task>,
    startTime: Option<Instant>)

  /** The record appended to the archive collection when a transition ends. */
  datatype ArchivedTransition = ArchivedTransition(
    id: string,
    number: nat,
    tasks: seq<Task>,
    startTime: Option<Instant>,
    completedAt: Instant,
    elapsedTime: int)

  /** The two collections of the store this context touches: the single
      active-transition slot and the append-only archive. */
  datatype Db = Db(active: Option<Transition>, archived: seq<ArchivedTransition>)

  /** The provider's local state together with the store it mirrors. */
  datatype Session = Session(db: Db, current: Transition)

  function TaskId(t: Task): string {
    t.id
  }

  predicate HasTask(tasks: seq<Task>, taskId: string) {
    Seqs.HasKey(tasks, TaskId, taskId)
  }

  const TitlePrefix: string := "Transition "

  /** `Transition ${number}`: the prefix followed by the decimal number, which
      can be read back from the title. */
  function DefaultTitle(number: nat): (r: string)
    ensures |r| > |TitlePrefix| && r[..|TitlePrefix|] == TitlePrefix
    ensures AllDigits(r[|TitlePrefix|..]) && DecimalValue(r[|TitlePrefix|..]) == number
    ensures r[|TitlePrefix|] == '0' ==> number == 0 && |r| == |TitlePrefix| + 1
  {
    DecimalRoundTrip(number);
    var r := TitlePrefix + NatToString(number);
    assert r[|TitlePrefix|..] == NatToString(number);
    r
  }

  /** `title || \`Transition ${number}\``: a missing or empty title falls back
      to the default one. The result is never empty. */
  function TitleOrDefault(title: Option<string>, number: nat): (r: string)
    ensures r != []
    ensures title.Some? && title.value != [] ==> r == title.value
    ensures title.None? || title.value == [] ==> r == DefaultTitle(number)
  {
    if title.Some? && title.value != [] then title.value else DefaultTitle(number)
  }

  /** The transition created when the store holds none: number 1, titled
      after its number, no tasks, started now. */
  function InitialTransition(id: string, now: Instant): (r: Transition)
    ensures r.number == 1 && r.tasks == [] && r.id == id && r.startTime == Some(now)
    ensures r.title == Some(DefaultTitle(r.number))
  {
    assert DigitChar(1) == '1';
    assert DefaultTitle(1) == TitlePrefix + "1" == "Transition 1";
    Transition(id, 1, Some("Transition 1"), [], Some(now))
  }

  /** Loading the active transition at start-up. A failed read, or a failed
      write of a fresh transition, is caught and leaves everything as it was.
      A stored transition is adopted unchanged and nothing is written; only an
      empty slot is filled, with the initial transition. */
  function Initialize(s: Session, read: StoreCall, newId: string, now: Instant, write: StoreCall): (r: Session)
    ensures r.db.archived == s.db.archived
    ensures read.Throws? ==> r == s
    ensures s.db.active.Some? ==> r.db == s.db
    ensures read.Succeeds? && s.db.active.Some? ==> r.current == s.db.active.value
    ensures r.db != s.db <==> read.Succeeds? && s.db.active.None? && write.Succeeds?
    ensures r.db != s.db ==> r.db.active == Some(r.current) && r.current == InitialTransition(newId, now)
    ensures r.current != s.current ==> read.Succeeds? && r.db.active == Some(r.current)
  {
    if read.Throws? then s
    else match s.db.active
      case Some(t) => s.(current := t)
      case None =>
        if write.Throws? then s
        else
          var t := InitialTransition(newId, now);
          Session(s.db.(active := Some(t)), t)
  }

  /** Once the active slot is filled, loading again neither writes nor
      changes the state, whatever ids, clocks and write outcomes come next. */
  lemma InitializeIdempotent(s: Session, newId: string, now: Instant, write: StoreCall,
                             newId': string, now': Instant, read': StoreCall, write': StoreCall)
    requires Initialize(s, Succeeds, newId, now, write).db.active.Some?
    ensures var r := Initialize(s, Succeeds, newId, now, write);
      Initialize(r, read', newId', now', write') == r
  {
  }

  /** `addTask`: a new uncompleted task with the title and trap flag exactly
      as given is appended; the tasks before it are kept as they were. */
  function AddTask(t: Transition, newId: string, title: string, isTrap: bool): (r: Transition)
    ensures r == t.(tasks := r.tasks)
    ensures |r.tasks| == |t.tasks| + 1 && r.tasks[..|t.tasks|] == t.tasks
    ensures r.tasks[|t.tasks|] == Task(newId, title, false, isTrap)
  {
    t.(tasks := t.tasks + [Task(newId, title, false, isTrap)])
  }

  /** `toggleTask`: `completed` is negated on exactly the tasks whose id is
      `taskId`; ids, titles, trap flags, order and every other field stay. */
  function ToggleTask(t: Transition, taskId: string): (r: Transition)
    ensures r == t.(tasks := r.tasks)
    ensures |r.tasks| == |t.tasks|
    ensures forall i :: 0 <= i < |t.tasks| ==>
      && r.tasks[i].id == t.tasks[i].id
      && r.tasks[i].title == t.tasks[i].title
      && r.tasks[i].isTrap == t.tasks[i].isTrap
      && (r.tasks[i].completed != t.tasks[i].completed <==> t.tasks[i].id == taskId)
    ensures !HasTask(t.tasks, taskId) ==> r == t
  {
    var r := t.(tasks := Seqs.MapKey(t.tasks, TaskId, taskId, (x: Task) => x.(completed := !x.completed)));
    assert !HasTask(t.tasks, taskId) ==> r.tasks == t.tasks;
    r
  }

  /** `toggleTrap`: `isTrap` is negated on exactly the tasks whose id is
      `taskId`; the list is NOT reordered. */
  function ToggleTrap(t: Transition, taskId: string): (r: Transition)
    ensures r == t.(tasks := r.tasks)
    ensures |r.tasks| == |t.tasks|
    ensures forall i :: 0 <= i < |t.tasks| ==>
      && r.tasks[i].id == t.tasks[i].id
      && r.tasks[i].title == t.tasks[i].title
      && r.tasks[i].completed == t.tasks[i].completed
      && (r.tasks[i].isTrap != t.tasks[i].isTrap <==> t.tasks[i].id == taskId)
    ensures !HasTask(t.tasks, taskId) ==> r == t
  {
    var r := t.(tasks := Seqs.MapKey(t.tasks, TaskId, taskId, (x: Task) => x.(isTrap := !x.isTrap)));
    assert !HasTask(t.tasks, taskId) ==> r.tasks == t.tasks;
    r
  }

  /** `editTask`: the matching tasks take `newTitle` verbatim (an empty title
      included); nothing else changes. */
  function EditTask(t: Transition, taskId: string, newTitle: string): (r: Transition)
    ensures r == t.(tasks := r.tasks)
    ensures |r.tasks| == |t.tasks|
    ensures forall i :: 0 <= i < |t.tasks| ==>
      && r.tasks[i].id == t.tasks[i].id
      && r.tasks[i].completed == t.tasks[i].completed
      && r.tasks[i].isTrap == t.tasks[i].isTrap
      && r.tasks[i].title == (if t.tasks[i].id == taskId then newTitle else t.tasks[i].title)
    ensures !HasTask(t.tasks, taskId) ==> r == t
  {
    var r := t.(tasks := Seqs.MapKey(t.tasks, TaskId, taskId, (x: Task) => x.(title := newTitle)));
    assert !HasTask(t.tasks, taskId) ==> r.tasks == t.tasks;
    r
  }

  /** `deleteTask`: the result is the task list minus exactly the tasks with
      id `taskId`, the survivors in their original order. */
  function DeleteTask(t: Transition, taskId: string): (r: Transition)
    ensures r == t.(tasks := r.tasks)
    ensures !HasTask(r.tasks, taskId)
    ensures Seqs.Subsequence(r.tasks, t.tasks)
    ensures |r.tasks| + Seqs.CountKey(t.tasks, TaskId, taskId) == |t.tasks|
    ensures !HasTask(t.tasks, taskId) ==> r == t
  {
    t.(tasks := Seqs.RemoveKey(t.tasks, TaskId, taskId))
  }

  /** `updateTransitionTitle`: the new title, or the default one when it is
      the empty string. The stored title is never empty; the number and the
      tasks are untouched. */
  function UpdateTransitionTitle(t: Transition, newTitle: string): (r: Transition)
    ensures r == t.(title := r.title)
    ensures r.title.Some? && r.title.value != []
    ensures newTitle != [] ==> r.title.value == newTitle
    ensures newTitle == [] ==> r.title.value == DefaultTitle(t.number)
  {
    t.(title := Some(TitleOrDefault(Some(newTitle), t.number)))
  }

  /** The archive record: the ending transition's id, number, tasks and start
      time, with the completion instant and the elapsed seconds. */
  function ArchiveRecord(t: Transition, elapsedTime: int, completedAt: Instant): (a: ArchivedTransition)
    ensures a.id == t.id && a.number == t.number && a.tasks == t.tasks && a.startTime == t.startTime
    ensures a.completedAt == completedAt && a.elapsedTime == elapsedTime
  {
    ArchivedTransition(t.id, t.number, t.tasks, t.startTime, completedAt, elapsedTime)
  }

  /** The transition that follows `t`: the next number, no title, no tasks. */
  function NextTransition(t: Transition, newId: string, now: Instant): (r: Transition)
    ensures r.number == t.number + 1 && r.title.None? && r.tasks == []
    ensures r.id == newId && r.startTime == Some(now)
  {
    Transition(newId, t.number + 1, None, [], Some(now))
  }

  /** `archiveTransition`: append the archive record, then overwrite the
      active slot with the next transition, then adopt it locally. A throw at
      either await is caught: the local state stays as it was. A throw at the
      second await comes after the record has been appended, so that record
      stays in the archive. */
  function ArchiveTransition(s: Session, elapsedTime: int, completedAt: Instant, newId: string, now: Instant,
                             append: StoreCall, put: StoreCall): (r: Session)
    ensures append.Throws? ==> r == s
    ensures append.Succeeds? ==> r.db.archived == s.db.archived + [ArchiveRecord(s.current, elapsedTime, completedAt)]
    ensures put.Throws? ==> r.current == s.current && r.db.active == s.db.active
    ensures r.current != s.current <==> append.Succeeds? && put.Succeeds?
    ensures r.current != s.current ==>
      && r.current.number == s.current.number + 1
      && r.current.tasks == [] && r.current.title.None?
      && r.current.id == newId && r.current.startTime == Some(now)
      && r.db.active == Some(r.current)
    ensures r.current != s.current ==> r.current == NextTransition(s.current, newId, now)
  {
    if append.Throws? then s
    else
      var db := s.db.(archived := s.db.archived + [ArchiveRecord(s.current, elapsedTime, completedAt)]);
      if put.Throws? then s.(db := db)
      else
        var next := NextTransition(s.current, newId, now);
        Session(db.(active := Some(next)), next)
  }

  /** Archive records are only ever appended: the old archive is a prefix of
      the new one, which has at most one more record. */
  lemma ArchiveIsAppendOnly(s: Session, elapsedTime: int, completedAt: Instant, newId: string, now: Instant,
                            append: StoreCall, put: StoreCall)
    ensures var r := ArchiveTransition(s, elapsedTime, completedAt, newId, now, append, put);
      && |s.db.archived| <= |r.db.archived| <= |s.db.archived| + 1
      && r.db.archived[..|s.db.archived|] == s.db.archived
  {
  }

  /** When the overwrite of the active slot throws, the record is already
      archived and the state is unchanged, so the user's retry archives the
      same transition a second time. */
  lemma RetryAfterFailedOverwriteArchivesTwice(
    s: Session, e1: int, c1: Instant, id1: string, n1: Instant,
    e2: int, c2: Instant, id2: string, n2: Instant)
    ensures var first := ArchiveTransition(s, e1, c1, id1, n1, Succeeds, Throws);
      var second := ArchiveTransition(first, e2, c2, id2, n2, Succeeds, Succeeds);
      var k := |s.db.archived|;
      && |second.db.archived| == k + 2
      && second.db.archived[k].number == second.db.archived[k + 1].number == s.current.number
      && second.db.archived[k].tasks == second.db.archived[k + 1].tasks == s.current.tasks
      && second.current.number == s.current.number + 1
  {
  }

  /** Archive numbers never run ahead of the active transition and never
      decrease along the archive. */
  ghost predicate Chronological(s: Session) {
    && (forall i :: 0 <= i < |s.db.archived| ==> s.db.archived[i].number <= s.current.number)
    && (forall i, j :: 0 <= i < j < |s.db.archived| ==> s.db.archived[i].number <= s.db.archived[j].number)
  }

  /** Every archive attempt, whatever its outcome, keeps the archive in order. */
  lemma ArchiveKeepsChronology(s: Session, elapsedTime: int, completedAt: Instant, newId: string, now: Instant,
                               append: StoreCall, put: StoreCall)
    requires Chronological(s)
    ensures Chronological(ArchiveTransition(s, elapsedTime, completedAt, newId, now, append, put))
  {
  }

  /** `toggleTask` and `toggleTrap` undo themselves. */
  lemma TogglesAreInvolutions(t: Transition, taskId: string)
    ensures ToggleTask(ToggleTask(t, taskId), taskId) == t
    ensures ToggleTrap(ToggleTrap(t, taskId), taskId) == t
  {
  }

  /** Renaming twice keeps only the second title. */
  lemma EditTaskLastWins(t: Transition, taskId: string, first: string, second: string)
    ensures EditTask(EditTask(t, taskId, first), taskId, second) == EditTask(t, taskId, second)
  {
  }

  /** Deleting a task just added under a fresh id restores the transition. */
  lemma DeleteUndoesAdd(t: Transition, newId: string, title: string, isTrap: bool)
    requires !HasTask(t.tasks, newId)
    ensures DeleteTask(AddTask(t, newId, title, isTrap), newId) == t
  {
    RemoveAppended(t.tasks, Task(newId, title, false, isTrap));
  }

  lemma {:induction false} RemoveAppended(s: seq<Task>, x: Task)
    requires !HasTask(s, x.id)
    ensures Seqs.RemoveKey(s + [x], TaskId, x.id) == s
  {
    if |s| == 0 {
      assert s + [x] == [x];
      assert [x][1..] == [];
    } else {
      assert (s + [x])[1..] == s[1..] + [x];
      assert !HasTask(s[1..], x.id) by {
        assert forall i :: 0 <= i < |s[1..]| ==> s[1..][i] == s[i + 1];
      }
      RemoveAppended(s[1..], x);
      assert s[0].id != x.id;
      assert [s[0]] + s[1..] == s;
    }
  }

  /** A worked session: three tasks added in turn stay in insertion order (the
      context never reorders by trap flag), and finishing after 125 seconds
      archives transition 1 with those tasks and starts transition 2 empty. */
  lemma ThreeTasksThenArchive(db: Db, id0: string, t0: Instant, c: Instant, id4: string, t4: Instant)
    ensures
      var t := InitialTransition(id0, t0);
      var t1 := AddTask(t, "a", "Email", false);
      var t2 := AddTask(t1, "b", "Scroll feed", true);
      var t3 := AddTask(t2, "c", "Write report", false);
      var r := ArchiveTransition(Session(db, t3), 125, c, id4, t4, Succeeds, Succeeds);
      && t3.tasks == [Task("a", "Email", false, false), Task("b", "Scroll feed", false, true),
                      Task("c", "Write report", false, false)]
      && r.current.number == 2 && r.current.tasks == []
      && r.db.archived[|db.archived|].number == 1
      && r.db.archived[|db.archived|].tasks == t3.tasks
      && r.db.archived[|db.archived|].elapsedTime == 125
  {
  }
}
