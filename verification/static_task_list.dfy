/**
 The quick-add list: reusable task stubs kept in the store, shown non-traps
 first, plus the capture of the active transition as a template. Each
 handler awaits its store call first and updates the list only when the call
 returned; a throw is caught and leaves the list as it was.
 */
module StaticTaskList {
  import opened Wrappers
  import opened Store
  import opened Text
  import Seqs
  import TaskContext

  datatype StaticTask = StaticTask(id: string, title: string, isTrap: bool)

  /** The component's state: the shown list and the text in the add box. */
  datatype QuickList = QuickList(tasks: seq<StaticTask>, draft: string)

  /** The record appended to the template collection. */
  datatype TemplateData = TemplateData(title: string, tasks: seq<TaskContext.Task>, createdAt: Instant)

  function StaticId(t: StaticTask): string {
    t.id
  }

  // ---------------------------------------------------------------------------
  // The trap ordering

  /** The comparator handed to `sort`: equal trap flags tie, a non-trap sorts
      before a trap. It is a consistent comparator: a total preorder whose
      only classes are "non-trap" and "trap". */
  function TrapCompare(a: StaticTask, b: StaticTask): (c: int)
    ensures -1 <= c <= 1
    ensures c == 0 <==> a.isTrap == b.isTrap
    ensures c < 0 <==> !a.isTrap && b.isTrap
    ensures c > 0 <==> a.isTrap && !b.isTrap
  {
    if a.isTrap == b.isTrap then 0 else if a.isTrap then 1 else -1
  }

  /** Every non-trap precedes every trap. */
  predicate Partitioned(s: seq<StaticTask>) {
    forall i, j :: 0 <= i < j < |s| && s[i].isTrap ==> s[j].isTrap
  }

  /** Being partitioned is being sorted by the comparator. */
  lemma PartitionedIffSortedByCompare(s: seq<StaticTask>)
    ensures Partitioned(s) <==> forall i, j :: 0 <= i < j < |s| ==> TrapCompare(s[i], s[j]) <= 0
  {
  }

  /** `s.filter(t => !t.isTrap)`. */
  function NonTraps(s: seq<StaticTask>): (r: seq<StaticTask>)
    ensures forall i :: 0 <= i < |r| ==> !r[i].isTrap
    ensures |r| <= |s|
  {
    if s == [] then []
    else if s[0].isTrap then NonTraps(s[1..])
    else [s[0]] + NonTraps(s[1..])
  }

  /** `s.filter(t => t.isTrap)`. */
  function Traps(s: seq<StaticTask>): (r: seq<StaticTask>)
    ensures forall i :: 0 <= i < |r| ==> r[i].isTrap
    ensures |r| <= |s|
  {
    if s == [] then []
    else if s[0].isTrap then [s[0]] + Traps(s[1..])
    else Traps(s[1..])
  }

  /** The non-traps and the traps of a list are, together, the whole list. */
  lemma {:induction false} TrapClassesSplit(s: seq<StaticTask>)
    ensures multiset(NonTraps(s)) + multiset(Traps(s)) == multiset(s)
    ensures |NonTraps(s)| + |Traps(s)| == |s|
  {
    if s != [] {
      TrapClassesSplit(s[1..]);
      assert s == [s[0]] + s[1..];
    }
  }

  lemma {:induction false} TrapClassesOfAppend(a: seq<StaticTask>, b: seq<StaticTask>)
    ensures NonTraps(a + b) == NonTraps(a) + NonTraps(b)
    ensures Traps(a + b) == Traps(a) + Traps(b)
  {
    if a != [] {
      TrapClassesOfAppend(a[1..], b);
      assert (a + b)[1..] == a[1..] + b;
    } else {
      assert a + b == b;
    }
  }

  lemma {:induction false} TrapClassesOfUniform(s: seq<StaticTask>)
    ensures (forall i :: 0 <= i < |s| ==> !s[i].isTrap) ==> NonTraps(s) == s && Traps(s) == []
    ensures (forall i :: 0 <= i < |s| ==> s[i].isTrap) ==> Traps(s) == s && NonTraps(s) == []
  {
    if s != [] {
      TrapClassesOfUniform(s[1..]);
      assert [s[0]] + s[1..] == s;
    }
  }

  /** One step of a stable insertion sort: `x`, which came before every
      element of the sorted `s` in the input, goes in front of the first
      element it does not sort after. */
  function InsertStable(x: StaticTask, s: seq<StaticTask>): (r: seq<StaticTask>)
    ensures multiset(r) == multiset(s) + multiset{x}
    ensures |r| == |s| + 1
  {
    if s == [] || TrapCompare(x, s[0]) <= 0 then [x] + s
    else
      assert s == [s[0]] + s[1..];
      [s[0]] + InsertStable(x, s[1..])
  }

  /** `s.sort((a, b) => a.isTrap === b.isTrap ? 0 : a.isTrap ? 1 : -1)`.
      Since ECMAScript 2019 (ECMA-262 10th edition, section 22.1.3.27) the
      sort is stable, and for this consistent comparator a stable sort has
      exactly one possible output (`TrapSortUnique`); it is computed here by
      insertion. The result is a permutation of the input. */
  function TrapSort(s: seq<StaticTask>): (r: seq<StaticTask>)
    ensures multiset(r) == multiset(s)
    ensures |r| == |s|
  {
    if s == [] then []
    else
      assert s == [s[0]] + s[1..];
      InsertStable(s[0], TrapSort(s[1..]))
  }

  /** A trap inserted into "non-traps, then traps" lands after the non-traps
      and before the traps, which all came later in the input. */
  lemma {:induction false} InsertTrapAfterNonTraps(x: StaticTask, a: seq<StaticTask>, b: seq<StaticTask>)
    requires x.isTrap
    requires forall i :: 0 <= i < |a| ==> !a[i].isTrap
    requires forall i :: 0 <= i < |b| ==> b[i].isTrap
    ensures InsertStable(x, a + b) == a + [x] + b
  {
    if a == [] {
      assert a + b == b;
    } else {
      assert (a + b)[0] == a[0];
      assert (a + b)[1..] == a[1..] + b;
      InsertTrapAfterNonTraps(x, a[1..], b);
      assert a + [x] + b == [a[0]] + (a[1..] + [x] + b);
    }
  }

  /** The sort is the stable partition: the non-traps in input order, then
      the traps in input order. */
  lemma {:induction false} TrapSortIsStablePartition(s: seq<StaticTask>)
    ensures TrapSort(s) == NonTraps(s) + Traps(s)
  {
    if s != [] {
      var x, rest := s[0], s[1..];
      TrapSortIsStablePartition(rest);
      assert s == [x] + rest;
      InsertStep(x, rest);
    }
  }

  /** The induction step: inserting the head into the stable partition of
      the tail gives the stable partition of the whole list. */
  lemma {:induction false} InsertStep(x: StaticTask, rest: seq<StaticTask>)
    ensures InsertStable(x, NonTraps(rest) + Traps(rest)) == NonTraps([x] + rest) + Traps([x] + rest)
  {
    var a, b := NonTraps(rest), Traps(rest);
    if x.isTrap {
      InsertTrapAfterNonTraps(x, a, b);
      TrapCons(x, rest);
    } else {
      InsertNonTrapFirst(x, a + b);
      NonTrapCons(x, rest);
    }
  }

  lemma TrapCons(x: StaticTask, rest: seq<StaticTask>)
    requires x.isTrap
    ensures NonTraps([x] + rest) + Traps([x] + rest) == NonTraps(rest) + [x] + Traps(rest)
  {
  }

  lemma NonTrapCons(x: StaticTask, rest: seq<StaticTask>)
    requires !x.isTrap
    ensures NonTraps([x] + rest) + Traps([x] + rest) == [x] + (NonTraps(rest) + Traps(rest))
  {
  }

  /** A non-trap sorts before anything, so it is inserted in front. */
  lemma InsertNonTrapFirst(x: StaticTask, s: seq<StaticTask>)
    requires !x.isTrap
    ensures InsertStable(x, s) == [x] + s
  {
  }

  /** A partitioned list is its non-traps followed by its traps. */
  lemma {:induction false} PartitionedIsItsClasses(r: seq<StaticTask>)
    requires Partitioned(r)
    ensures r == NonTraps(r) + Traps(r)
  {
    if r != [] {
      if r[0].isTrap {
        assert forall i :: 0 <= i < |r| ==> r[i].isTrap;
        TrapClassesOfUniform(r);
      } else {
        assert Partitioned(r[1..]);
        PartitionedIsItsClasses(r[1..]);
        assert r == [r[0]] + r[1..];
      }
    }
  }

  /** The sort's output is partitioned, and within each class the input
      order is kept (stability). */
  lemma TrapSortPartitionsStably(s: seq<StaticTask>)
    ensures Partitioned(TrapSort(s))
    ensures NonTraps(TrapSort(s)) == NonTraps(s)
    ensures Traps(TrapSort(s)) == Traps(s)
  {
    TrapSortIsStablePartition(s);
    TrapClassesOfAppend(NonTraps(s), Traps(s));
    TrapClassesOfUniform(NonTraps(s));
    TrapClassesOfUniform(Traps(s));
  }

  /** The stable partition is the ONLY partitioned list with the same
      non-traps and the same traps in the same orders: any stable sort with
      this comparator yields `TrapSort(s)`. */
  lemma TrapSortUnique(s: seq<StaticTask>, r: seq<StaticTask>)
    ensures r == TrapSort(s) <==>
      Partitioned(r) && NonTraps(r) == NonTraps(s) && Traps(r) == Traps(s)
  {
    TrapSortPartitionsStably(s);
    if Partitioned(r) && NonTraps(r) == NonTraps(s) && Traps(r) == Traps(s) {
      PartitionedIsItsClasses(r);
      TrapSortIsStablePartition(s);
    }
  }

  /** Sorting a partitioned list changes nothing; sorting twice is sorting once. */
  lemma {:induction false} TrapSortIdempotent(s: seq<StaticTask>)
    ensures Partitioned(s) ==> TrapSort(s) == s
    ensures TrapSort(TrapSort(s)) == TrapSort(s)
  {
    TrapSortUnique(s, s);
    TrapSortPartitionsStably(s);
    TrapSortUnique(TrapSort(s), TrapSort(s));
  }

  // ---------------------------------------------------------------------------
  // The handlers

  /** `fetchStaticTasks`: the fetched documents, trap-sorted; a failed query
      leaves the list alone. */
  function LoadStaticTasks(q: QuickList, fetched: seq<StaticTask>, read: StoreCall): (r: QuickList)
    ensures r.draft == q.draft
    ensures read.Throws? ==> r == q
    ensures read.Succeeds? ==>
      && multiset(r.tasks) == multiset(fetched)
      && Partitioned(r.tasks)
      && NonTraps(r.tasks) == NonTraps(fetched) && Traps(r.tasks) == Traps(fetched)
  {
    TrapSortPartitionsStably(fetched);
    if read.Throws? then q else q.(tasks := TrapSort(fetched))
  }

  /** `addStaticTask`: a blank draft is ignored; otherwise, once the store
      has accepted it, one non-trap task with the trimmed title is put in
      FRONT of the list and the draft is cleared. A partitioned list stays
      partitioned. */
  function AddStaticTask(q: QuickList, newId: string, write: StoreCall): (r: QuickList)
    ensures AllSpace(q.draft) || write.Throws? ==> r == q
    ensures !AllSpace(q.draft) && write.Succeeds? ==>
      && r.tasks == [StaticTask(newId, Trim(q.draft), false)] + q.tasks
      && Trim(q.draft) != [] && r.draft == []
    ensures Partitioned(q.tasks) ==> Partitioned(r.tasks)
  {
    var title := Trim(q.draft);
    if title == [] || write.Throws? then q
    else QuickList([StaticTask(newId, title, false)] + q.tasks, [])
  }

  /** `isTrap` negated on exactly the tasks with id `taskId`, in place. */
  function FlipTrap(s: seq<StaticTask>, taskId: string): (r: seq<StaticTask>)
    ensures |r| == |s|
    ensures forall i :: 0 <= i < |s| ==>
      && r[i].id == s[i].id && r[i].title == s[i].title
      && (r[i].isTrap != s[i].isTrap <==> s[i].id == taskId)
  {
    Seqs.MapKey(s, StaticId, taskId, (t: StaticTask) => t.(isTrap := !t.isTrap))
  }

  /** `toggleTrap`: an unknown id returns early; otherwise, once the store has
      accepted the flip, the flipped list is trap-sorted again. The result is
      partitioned, a permutation of the flipped list, and keeps each class in
      its flipped-list order. */
  function ToggleTrap(q: QuickList, taskId: string, write: StoreCall): (r: QuickList)
    ensures r.draft == q.draft
    ensures !Seqs.HasKey(q.tasks, StaticId, taskId) || write.Throws? ==> r == q
    ensures Seqs.HasKey(q.tasks, StaticId, taskId) && write.Succeeds? ==>
      var flipped := FlipTrap(q.tasks, taskId);
      && Partitioned(r.tasks)
      && multiset(r.tasks) == multiset(flipped)
      && NonTraps(r.tasks) == NonTraps(flipped) && Traps(r.tasks) == Traps(flipped)
    ensures Partitioned(q.tasks) ==> Partitioned(r.tasks)
  {
    if !Seqs.HasKey(q.tasks, StaticId, taskId) || write.Throws? then q
    else
      var flipped := FlipTrap(q.tasks, taskId);
      TrapSortPartitionsStably(flipped);
      q.(tasks := TrapSort(flipped))
  }

  /** Dropping tasks keeps a partitioned list partitioned. */
  lemma {:induction false} RemoveKeepsPartition(s: seq<StaticTask>, taskId: string)
    ensures Partitioned(s) ==> Partitioned(Seqs.RemoveKey(s, StaticId, taskId))
  {
    if s != [] && Partitioned(s) {
      assert Partitioned(s[1..]);
      RemoveKeepsPartition(s[1..], taskId);
      var rest := Seqs.RemoveKey(s[1..], StaticId, taskId);
      if s[0].isTrap {
        assert forall x :: x in s[1..] ==> x.isTrap;
        assert forall x :: x in rest ==> x.isTrap;
      }
    }
  }

  /** `deleteTask`: once the store has deleted the document, exactly the
      tasks with that id leave the list; the rest keep their order. */
  function DeleteTask(q: QuickList, taskId: string, write: StoreCall): (r: QuickList)
    ensures r.draft == q.draft
    ensures write.Throws? || !Seqs.HasKey(q.tasks, StaticId, taskId) ==> r == q
    ensures write.Succeeds? ==>
      && !Seqs.HasKey(r.tasks, StaticId, taskId)
      && Seqs.Subsequence(r.tasks, q.tasks)
      && |r.tasks| + Seqs.CountKey(q.tasks, StaticId, taskId) == |q.tasks|
    ensures Partitioned(q.tasks) ==> Partitioned(r.tasks)
  {
    if write.Throws? then q
    else
      RemoveKeepsPartition(q.tasks, taskId);
      q.(tasks := Seqs.RemoveKey(q.tasks, StaticId, taskId))
  }

  /** The title of exactly the tasks with id `taskId` replaced, in place. */
  function Retitle(s: seq<StaticTask>, taskId: string, newTitle: string): (r: seq<StaticTask>)
    ensures |r| == |s|
    ensures forall i :: 0 <= i < |s| ==>
      && r[i].id == s[i].id && r[i].isTrap == s[i].isTrap
      && r[i].title == (if s[i].id == taskId then newTitle else s[i].title)
    ensures !Seqs.HasKey(s, StaticId, taskId) ==> r == s
  {
    Seqs.MapKey(s, StaticId, taskId, (t: StaticTask) => t.(title := newTitle))
  }

  /** `editTask`: once the store has accepted the title, the matching tasks
      take it; order and trap flags are untouched. */
  function EditTask(q: QuickList, taskId: string, newTitle: string, write: StoreCall): (r: QuickList)
    ensures r.draft == q.draft
    ensures write.Throws? ==> r == q
    ensures write.Succeeds? ==> r.tasks == Retitle(q.tasks, taskId, newTitle)
    ensures Partitioned(q.tasks) ==> Partitioned(r.tasks)
  {
    if write.Throws? then q else q.(tasks := Retitle(q.tasks, taskId, newTitle))
  }

  /** Typing in a task's edit box: the title changes locally, with no store
      call. */
  function RetypeTitle(q: QuickList, taskId: string, newTitle: string): (r: QuickList)
    ensures r.draft == q.draft && r.tasks == Retitle(q.tasks, taskId, newTitle)
    ensures Partitioned(q.tasks) ==> Partitioned(r.tasks)
  {
    q.(tasks := Retitle(q.tasks, taskId, newTitle))
  }

  /** Deleting a task just added under a fresh id restores the list. */
  lemma DeleteUndoesAdd(q: QuickList, newId: string, write: StoreCall)
    requires !Seqs.HasKey(q.tasks, StaticId, newId)
    ensures DeleteTask(AddStaticTask(q, newId, write), newId, Succeeds).tasks == q.tasks
  {
  }

  // ---------------------------------------------------------------------------
  // Any sequence of user actions

  datatype QuickAction =
    | Load(fetched: seq<StaticTask>, read: StoreCall)
    | TypeDraft(text: string)
    | Add(newId: string, write: StoreCall)
    | Toggle(taskId: string, write: StoreCall)
    | Delete(taskId: string, write: StoreCall)
    | Edit(taskId: string, newTitle: string, write: StoreCall)
    | Retype(taskId: string, newTitle: string)

  function Step(q: QuickList, a: QuickAction): (r: QuickList)
    ensures Partitioned(q.tasks) ==> Partitioned(r.tasks)
  {
    match a
    case Load(fetched, read) => LoadStaticTasks(q, fetched, read)
    case TypeDraft(text) => q.(draft := text)
    case Add(newId, write) => AddStaticTask(q, newId, write)
    case Toggle(taskId, write) => ToggleTrap(q, taskId, write)
    case Delete(taskId, write) => DeleteTask(q, taskId, write)
    case Edit(taskId, newTitle, write) => EditTask(q, taskId, newTitle, write)
    case Retype(taskId, newTitle) => RetypeTitle(q, taskId, newTitle)
  }

  function Run(q: QuickList, actions: seq<QuickAction>): QuickList
    decreases |actions|
  {
    if actions == [] then q else Run(Step(q, actions[0]), actions[1..])
  }

  /** Starting from the empty list of the first render, the quick list is
      partitioned after every sequence of loads, adds, toggles, deletes and
      edits. */
  lemma {:induction false} RunKeepsPartition(q: QuickList, actions: seq<QuickAction>)
    requires Partitioned(q.tasks)
    ensures Partitioned(Run(q, actions).tasks)
    decreases |actions|
  {
    if actions != [] {
      RunKeepsPartition(Step(q, actions[0]), actions[1..]);
    }
  }

  // ---------------------------------------------------------------------------
  // Templates

  /** The field-by-field copy `{ id, title, completed, isTrap }` of each task. */
  function CopyTasks(tasks: seq<TaskContext.Task>): (r: seq<TaskContext.Task>)
    ensures r == tasks
  {
    seq(|tasks|, i requires 0 <= i < |tasks| =>
      TaskContext.Task(tasks[i].id, tasks[i].title, tasks[i].completed, tasks[i].isTrap))
  }

  /** `addTemplate`: the transition's title, or the default one when it has
      none or an empty one, with an exact copy of its tasks, completion flags
      included. Nothing is recorded when the store call throws. */
  function AddTemplate(t: TaskContext.Transition, createdAt: Instant, write: StoreCall): (r: Option<TemplateData>)
    ensures r.Some? <==> write.Succeeds?
    ensures r.Some? ==>
      && r.value.title != []
      && (t.title.Some? && t.title.value != [] ==> r.value.title == t.title.value)
      && (t.title.None? || t.title.value == [] ==> r.value.title == TaskContext.DefaultTitle(t.number))
      && r.value.tasks == t.tasks
      && r.value.createdAt == createdAt
  {
    if write.Throws? then None
    else Some(TemplateData(TaskContext.TitleOrDefault(t.title, t.number), CopyTasks(t.tasks), createdAt))
  }

  /** A template captured right after a completed rollover is named after
      the new transition's number and holds no tasks. */
  lemma TemplateAfterRollover(s: TaskContext.Session, elapsedTime: int, completedAt: Instant, newId: string,
                              now: Instant, createdAt: Instant)
    ensures var r := TaskContext.ArchiveTransition(s, elapsedTime, completedAt, newId, now, Succeeds, Succeeds);
      AddTemplate(r.current, createdAt, Succeeds)
        == Some(TemplateData(TaskContext.DefaultTitle(s.current.number + 1), [], createdAt))
  {
  }
}
