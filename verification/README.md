# Transitions: task-list state transitions

A model, in Dafny, of the pure state changes inside the "Transitions"
task/time-tracking app. A *transition* is a timed work session that holds an
ordered list of tasks; a task can be marked completed or flagged as a *trap*
(a distraction to avoid). The model covers three things:

- **The task context** (`app/context/TaskContext.tsx`). Module `TaskContext`
  holds the `Task` and `Transition` records, the creation and loading of the
  active transition, and the handlers that add, toggle, flag, rename and
  delete tasks and rename the transition. It also holds the rollover
  (`archiveTransition`): it appends an archive record, replaces the active
  slot with transition `number + 1`, and commits local state only after both
  store calls have returned.
- **The quick-add list** (`app/components/StaticTaskList.tsx`). Module
  `StaticTaskList` holds the list of reusable task stubs and its trap
  ordering: the comparator that puts non-traps before traps, run by a stable
  `Array.prototype.sort`. It also holds the blank-rejecting prepend, the
  toggle-then-resort, delete and rename by id, and template capture.
- **The calendar hour column** (`app/components/CalendarView.tsx`). Module
  `CalendarView` holds the labels for hours 5 to 24.

Supporting modules: `Text` models JavaScript's `trim` and the decimal
rendering of a number in a template literal. `Seqs` holds the keyed
`map`/`filter` the handlers use. `Store` reduces every awaited store call to
`Succeeds | Throws` and every `Date` to an opaque `Instant`. `Wrappers`
holds `Option`.

Every handler is a pure function from the old state to the new one. The
document store is a parameter: each call into it is an outcome passed in,
and ids and clock readings are values passed in too. For the archive and
for start-up, the two store collections the context touches are modelled
(`TaskContext.Db`: the active slot and the append-only archive). This makes
the partial effect of a failed rollover visible.

## Behaviour kept as the code has it

- The context's `addTask` appends without trimming or rejecting blank titles.
  Neither `addTask` nor `toggleTrap` in the context reorders by trap flag;
  only the quick list does (`TaskContext.ThreeTasksThenArchive`).
- `updateTransitionTitle` falls back to `"Transition n"` only for the empty
  string. A whitespace-only title is stored as given.
- The archive record carries no title. The transition that follows a
  rollover has no title either; its display title (`TitleOrDefault`) is
  `"Transition n+1"`.
- `archiveTransition` appends the archive record before it overwrites the
  active slot. If the overwrite throws, the record stays archived and the
  local state does not advance, so a retry archives the same session twice
  (`TaskContext.RetryAfterFailedOverwriteArchivesTwice`).
- A template copies every task as-is, including `completed` and the ids.
- The hour-24 label is `"12PM"`, the same as hour 12
  (`CalendarView.LabelsCollideOnlyAtNoonAndMidnight`).
- `app/context/TransitionContext.tsx`, from which the quick list imports its
  `Transition` type, is not part of this model. The transition shape of
  `app/context/TaskContext.tsx` is used in its place.

## Model

| member | source | states |
|---|---|---|
| TaskContext.DefaultTitle | app/context/TaskContext.tsx:174 | the fallback title is "Transition " followed by decimal digits, with no leading zero, that read back as the transition number |
| TaskContext.TitleOrDefault | app/context/TaskContext.tsx:174 | `title \|\| default`: a present non-empty title is kept, a missing or empty one becomes the default; the result is never empty |
| TaskContext.InitialTransition | app/context/TaskContext.tsx:53-59 | the created transition has number 1, no tasks, start time now, and the title the default gives for number 1 |
| TaskContext.Initialize | app/context/TaskContext.tsx:44-69 | a stored transition is adopted with no write; only an empty slot is filled, with the initial transition; a thrown read or write changes nothing; the archive is never touched |
| TaskContext.InitializeIdempotent | app/context/TaskContext.tsx:47-61 | once the active slot is filled, loading again neither writes nor changes the state |
| TaskContext.AddTask | app/context/TaskContext.tsx:80-90 | exactly one uncompleted task with the given title and trap flag is appended; earlier tasks and all other fields are unchanged |
| TaskContext.ToggleTask | app/context/TaskContext.tsx:94-104 | `completed` flips on exactly the tasks with the id; ids, titles, trap flags, order and other fields stay; an unknown id changes nothing |
| TaskContext.ToggleTrap | app/context/TaskContext.tsx:106-116 | `isTrap` flips on exactly the tasks with the id, with no reordering; everything else stays; an unknown id changes nothing |
| TaskContext.EditTask | app/context/TaskContext.tsx:128-138 | matching tasks take the new title verbatim, the empty string included; ids, flags and order stay; an unknown id changes nothing |
| TaskContext.DeleteTask | app/context/TaskContext.tsx:118-126 | no task with the id remains; survivors keep their order; exactly as many tasks go as had the id; an unknown id changes nothing |
| TaskContext.UpdateTransitionTitle | app/context/TaskContext.tsx:170-182 | the stored title is never empty: the new title, or the default one for the empty string; number and tasks unchanged |
| TaskContext.ArchiveRecord | app/context/TaskContext.tsx:142-149 | the archive record carries the old id, number, tasks and start time, the completion instant and the elapsed time |
| TaskContext.NextTransition | app/context/TaskContext.tsx:153-158 | the next transition has number + 1, no title and no tasks |
| TaskContext.ArchiveTransition | app/context/TaskContext.tsx:140-168 | local state advances iff both store calls return, and then the new transition, numbered one more with no title or tasks, the new id and start time now, is in the active slot; a throw on append changes nothing; a throw on overwrite leaves the appended record and the old state |
| TaskContext.ArchiveIsAppendOnly | app/context/TaskContext.tsx:151 | the old archive is a prefix of the new one, which has at most one more record |
| TaskContext.RetryAfterFailedOverwriteArchivesTwice | app/context/TaskContext.tsx:151-166 | after an overwrite failure, a successful retry leaves two archive records of the same transition |
| TaskContext.ArchiveKeepsChronology | app/context/TaskContext.tsx:142-163 | every archive attempt keeps archive numbers non-decreasing and not above the active number |
| TaskContext.TogglesAreInvolutions | app/context/TaskContext.tsx:94-116 | toggling completion or trap flag twice restores the transition |
| TaskContext.EditTaskLastWins | app/context/TaskContext.tsx:128-138 | renaming twice equals renaming once with the second title |
| TaskContext.DeleteUndoesAdd | app/context/TaskContext.tsx:80-126 | deleting a task just added under a fresh id restores the transition |
| TaskContext.ThreeTasksThenArchive | app/context/TaskContext.tsx:80-167 | three adds keep insertion order regardless of trap flags; a rollover archives number 1 with those tasks and starts number 2 empty |
| Seqs.MapKey | app/context/TaskContext.tsx:97-99 | the keyed map rewrites exactly the matching elements in place and keeps the length |
| Seqs.RemoveKey | app/context/TaskContext.tsx:121 | the keyed filter drops exactly the matching elements and keeps the others in order |
| Text.Trim | app/components/StaticTaskList.tsx:68 | the trimmed text is the slice of the input between white-space prefix and suffix; it is empty iff the input is all white space |
| Text.TrimIdempotent | app/components/StaticTaskList.tsx:78 | trimming a trimmed title changes nothing |
| Text.NatToString | app/context/TaskContext.tsx:174 | `${n}` of a non-negative integer is at least one decimal digit with no leading zero |
| Text.DecimalRoundTrip | app/context/TaskContext.tsx:174 | the decimal text of a number reads back as that number |
| StaticTaskList.TrapCompare | app/components/StaticTaskList.tsx:101 | the comparator ties equal trap flags and orders a non-trap before a trap |
| StaticTaskList.PartitionedIffSortedByCompare | app/components/StaticTaskList.tsx:101 | a list is sorted by the comparator iff every non-trap precedes every trap |
| StaticTaskList.TrapClassesSplit | app/components/StaticTaskList.tsx:101 | the non-traps and traps of a list together are exactly its elements |
| StaticTaskList.TrapSort | app/components/StaticTaskList.tsx:47 | the sorted list is a permutation of the input |
| StaticTaskList.TrapSortIsStablePartition | app/components/StaticTaskList.tsx:101 | the sort equals the non-traps in input order followed by the traps in input order |
| StaticTaskList.TrapSortPartitionsStably | app/components/StaticTaskList.tsx:99-102 | the sorted list is partitioned and each class keeps its input order |
| StaticTaskList.TrapSortUnique | app/components/StaticTaskList.tsx:47 | a list is the sort's output iff it is partitioned and has the input's non-traps and traps in the same orders |
| StaticTaskList.TrapSortIdempotent | app/components/StaticTaskList.tsx:47 | sorting a partitioned list leaves it unchanged; sorting twice equals sorting once |
| StaticTaskList.LoadStaticTasks | app/components/StaticTaskList.tsx:39-51 | a successful fetch shows a partitioned, stable permutation of the fetched tasks; a failed one changes nothing |
| StaticTaskList.AddStaticTask | app/components/StaticTaskList.tsx:67-88 | a blank draft or a thrown write changes nothing; otherwise one non-trap task with the trimmed title is prepended and the draft cleared; partition is kept |
| StaticTaskList.FlipTrap | app/components/StaticTaskList.tsx:100 | `isTrap` flips on exactly the tasks with the id; ids and titles stay |
| StaticTaskList.ToggleTrap | app/components/StaticTaskList.tsx:90-106 | an unknown id or a thrown write changes nothing; otherwise the result is a partitioned, class-order-preserving permutation of the flipped list |
| StaticTaskList.RemoveKeepsPartition | app/components/StaticTaskList.tsx:111 | removing tasks by id keeps a partitioned list partitioned |
| StaticTaskList.DeleteTask | app/components/StaticTaskList.tsx:108-115 | after a successful delete no task with the id remains and the rest keep their order; partition is kept |
| StaticTaskList.Retitle | app/components/StaticTaskList.tsx:122-124 | matching tasks take the new title; ids, trap flags and order stay |
| StaticTaskList.EditTask | app/components/StaticTaskList.tsx:117-129 | a successful edit renames the matching tasks only; a thrown write changes nothing; partition is kept |
| StaticTaskList.RetypeTitle | app/components/StaticTaskList.tsx:177-181 | typing in an edit box renames the matching tasks locally and keeps the partition |
| StaticTaskList.DeleteUndoesAdd | app/components/StaticTaskList.tsx:67-115 | deleting a task just added under a fresh id restores the list |
| StaticTaskList.Step | app/components/StaticTaskList.tsx:39-129 | every user action keeps a partitioned list partitioned |
| StaticTaskList.RunKeepsPartition | app/components/StaticTaskList.tsx:30-129 | from the empty initial list, any sequence of actions leaves the list partitioned |
| StaticTaskList.CopyTasks | app/components/StaticTaskList.tsx:135-140 | the field-by-field copy equals the original task list, completion flags included |
| StaticTaskList.AddTemplate | app/components/StaticTaskList.tsx:131-153 | a template is recorded iff the write returns; its title is the non-empty transition title or the default; its tasks are the transition's tasks |
| StaticTaskList.TemplateAfterRollover | app/components/StaticTaskList.tsx:133-140 | a template taken right after a rollover is titled "Transition n+1" and is empty |
| CalendarView.DisplayHour | app/components/CalendarView.tsx:28 | for hours 1..24 the displayed hour lies in 1..12 and is congruent to the hour modulo 12 |
| CalendarView.Meridiem | app/components/CalendarView.tsx:29 | the suffix is "AM" iff the hour is below 12, otherwise "PM" |
| CalendarView.HourLabel | app/components/CalendarView.tsx:33 | the label is the displayed hour in decimal digits with no leading zero, followed by the hour's AM/PM suffix |
| CalendarView.RenderTimeLabels | app/components/CalendarView.tsx:25-39 | exactly 20 labels, keyed by hours 5..24 in increasing order, each with that hour's text |
| CalendarView.LabelReadsBack | app/components/CalendarView.tsx:27-33 | labels for hours 5..23 read back as their hour on a 12-hour clock; hour 24 reads back as noon |
| CalendarView.LabelsCollideOnlyAtNoonAndMidnight | app/components/CalendarView.tsx:28-33 | two hours share a label iff they are equal or are 12 and 24 |

## Left out

- Firestore itself (`getDoc`, `setDoc`, `addDoc`, `getDocs`, `updateDoc`, `deleteDoc`). Each call is only an outcome parameter. The store's contents are modelled only for the active slot and the archive, where they gate the context's state.
- TaskContext.AddTask: the write at app/context/TaskContext.tsx:91 persists the pre-append transition. The model covers only the local update.
- The writes after `toggleTask`, `toggleTrap`, `deleteTask`, `editTask` and `updateTransitionTitle` are not modelled. They run after the local update and swallow their errors, so the local state does not depend on them.
- Id generation (`Date.now().toString()`, store document ids) and every `Date`. They are parameters. Ids are not assumed unique: every handler acts on all tasks carrying the id.
- TaskContext.AddTask: `isTrap` is a `bool`, following the declared `boolean` type at app/context/TaskContext.tsx:24. The tab screen at app/(tabs)/index.tsx:30 passes the string `'today'` there; a non-boolean flag is not modelled.
- TaskContext.ArchiveTransition: `elapsedTime` is an integer here. A JavaScript number may be fractional, and it is copied unchanged either way.
- Transition numbers are unbounded naturals. The float precision limit of a JavaScript number is not modelled, and neither is its exponent form: from 1e21 on, `${n}` renders as `"1e+21"` and so on, not as plain decimal digits, so `Text.NatToString` and `TaskContext.DefaultTitle` describe the rendering of numbers below 1e21 only.
- Loading stored documents with `as Transition` / `as StaticTask` casts: stored data is assumed to have the modelled shape.
- `fetchTemplates`: it only reads the template collection into state, and no modelled handler uses that state.
- Template replay: the repository has no code for it.
- The quick list's `editingTask` flag, the `onAddToTransition` callback, alerts, console logging, React hooks, rendering and styles.
- `app/components/Settings.tsx`, `app/components/TaskList.tsx`, `app/types/task.ts`, `app/constants/Colors.ts`, `app/hooks/useClickOutside.ts` and the tab screens: UI or unused shapes outside the core.
