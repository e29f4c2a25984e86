/** The admin's study planner for one cohort: which tasks a view shows,
    which personalized tasks are really individual, saving and deleting a
    task, and importing the cohort's base schedule into a student's plan.

    Store writes are represented by their outcomes (`ok`, the ids the store
    assigns); a failed write leaves the task list as it was. */
module Planner {
  import opened Domain
  import opened Seqs

  // ---------------------------------------------------------------------
  // Badges and visibility
  // ---------------------------------------------------------------------

  /** `b` is a base task of the same cohort, subject and week day as `t`. */
  predicate BaseTwin(b: Task, t: Task) {
    b.studentId.None? && b.subject == t.subject && b.dayOfWeek == t.dayOfWeek && b.cohortId == t.cohortId
  }

  /** Whether some task of `tasks` is a base twin of `t` (`Array.some`). */
  function HasBaseTwin(tasks: seq<Task>, t: Task): (r: bool)
    ensures r <==> exists i :: 0 <= i < |tasks| && BaseTwin(tasks[i], t)
  {
    if |tasks| == 0 then false
    else
      var r := BaseTwin(tasks[0], t) || HasBaseTwin(tasks[1..], t);
      assert forall i :: 1 <= i < |tasks| ==> tasks[i] == tasks[1..][i - 1];
      r
  }

  /** The "Personalizado" badge: a task owned by a student that is not a
      copy of a base task, i.e. no base task of its cohort has its subject
      and day. A student-owned copy shows the cohort badge instead. */
  function TrulyPersonalized(tasks: seq<Task>, t: Task): (r: bool)
    ensures t.studentId.None? ==> !r
    ensures t.studentId.Some? ==> (r <==> forall i :: 0 <= i < |tasks| ==> !BaseTwin(tasks[i], t))
  {
    t.studentId.Some? && !HasBaseTwin(tasks, t)
  }

  datatype PlanMode = BaseMode | StudentMode

  /** A task appears in the planner's list for `day`: in base mode the
      cohort's base tasks, in student mode the selected student's tasks. */
  predicate Visible(mode: PlanMode, day: string, cohort: string, student: string, t: Task) {
    match mode
    case BaseMode => t.dayOfWeek == day && t.cohortId == cohort && t.studentId.None?
    case StudentMode => t.dayOfWeek == day && t.studentId == Some(student)
  }

  function VisibleTasks(tasks: seq<Task>, mode: PlanMode, day: string, cohort: string, student: string): (r: seq<Task>)
    ensures |r| <= |tasks|
    ensures forall t :: t in r <==> t in tasks && Visible(mode, day, cohort, student, t)
  {
    Filter(tasks, t => Visible(mode, day, cohort, student, t))
  }

  /** The list keeps the tasks' order: it acts on each part of a split
      separately, and a single task is listed iff it is visible. */
  lemma VisibleTasksKeepsOrder(a: seq<Task>, b: seq<Task>, t: Task, mode: PlanMode, day: string, cohort: string, student: string)
    ensures VisibleTasks(a + b, mode, day, cohort, student)
            == VisibleTasks(a, mode, day, cohort, student) + VisibleTasks(b, mode, day, cohort, student)
    ensures VisibleTasks([t], mode, day, cohort, student) == if Visible(mode, day, cohort, student, t) then [t] else []
  {
    FilterAppend(a, b, t => Visible(mode, day, cohort, student, t));
    FilterSingleton(t, t => Visible(mode, day, cohort, student, t));
  }

  /** No task is listed both in the base view and in a student's view. */
  lemma BaseAndStudentViewsDisjoint(tasks: seq<Task>, day: string, cohort: string, student: string)
    ensures forall t :: t in VisibleTasks(tasks, BaseMode, day, cohort, student) ==>
              t !in VisibleTasks(tasks, StudentMode, day, cohort, student)
  {
  }

  /** Whether the selected student already has tasks of their own. */
  function StudentHasTasks(tasks: seq<Task>, student: string): (r: bool)
    ensures r <==> student != "" && exists i :: 0 <= i < |tasks| && tasks[i].studentId == Some(student)
  {
    student != "" && OwnsAny(tasks, student)
  }

  function OwnsAny(tasks: seq<Task>, student: string): (r: bool)
    ensures r <==> exists i :: 0 <= i < |tasks| && tasks[i].studentId == Some(student)
  {
    if |tasks| == 0 then false
    else
      var r := tasks[0].studentId == Some(student) || OwnsAny(tasks[1..], student);
      assert forall i :: 1 <= i < |tasks| ==> tasks[i] == tasks[1..][i - 1];
      r
  }

  datatype Strategy = Merge | Replace

  /** What the "Importar Base" button does: ask for a strategy when the
      student already has tasks, merge straight away otherwise. */
  datatype ImportClick = AskStrategy | ImportNow(strategy: Strategy)

  function ImportButton(tasks: seq<Task>, student: string): (c: ImportClick)
    ensures c == AskStrategy <==> StudentHasTasks(tasks, student)
    ensures c != AskStrategy ==> c == ImportNow(Merge)
  {
    if student != "" && StudentHasTasks(tasks, student) then AskStrategy else ImportNow(Merge)
  }

  // ---------------------------------------------------------------------
  // Saving and deleting
  // ---------------------------------------------------------------------

  /** The duration typed in the form, as parsed: `None` when it is not a
      number. Zero and unparsable text both fall back to 60 minutes. */
  function Duration(parsed: Option<int>): (m: int)
    ensures m != 0
    ensures parsed.None? || parsed == Some(0) ==> m == 60
    ensures parsed.Some? && parsed.value != 0 ==> m == parsed.value
  {
    if parsed.None? || parsed.value == 0 then 60 else parsed.value
  }

  /** The planner's context and the task form's fields. */
  datatype Form = Form(mode: PlanMode, cohort: string, student: string, day: string,
                       subject: string, studyMode: string, duration: Option<int>,
                       description: string)

  /** The owner written to a saved task: the selected student in student
      mode, nobody in base mode or when no student is selected. */
  function Owner(f: Form): (o: Option<string>)
    ensures o.Some? <==> f.mode == StudentMode && f.student != ""
    ensures o.Some? ==> o.value == f.student
  {
    if f.mode == StudentMode && f.student != "" then Some(f.student) else None
  }

  /** The task record the form describes, under id `id`. */
  function Saved(f: Form, id: string): (t: Task)
    ensures t.id == id && t.cohortId == f.cohort && t.dayOfWeek == f.day
    ensures t.studentId == Owner(f)
    ensures t.subject == f.subject && t.mode == f.studyMode && t.description == f.description
    ensures t.durationMinutes == Duration(f.duration)
  {
    Task(id, f.cohort, Owner(f), f.subject, f.studyMode, Duration(f.duration), f.day, f.description)
  }

  /** Saving the form: editing task `editing` rewrites every task with that
      id, creating appends a task under the id the store assigned. */
  function SaveTask(tasks: seq<Task>, f: Form, editing: Option<string>, newId: string, ok: bool): (r: seq<Task>)
    ensures !ok ==> r == tasks
    ensures ok && editing.Some? ==> |r| == |tasks|
    ensures ok && editing.Some? ==>
              forall i :: 0 <= i < |r| ==>
                r[i] == if tasks[i].id == editing.value then Saved(f, editing.value) else tasks[i]
    ensures ok && editing.None? ==> r == tasks + [Saved(f, newId)]
  {
    if !ok then tasks
    else if editing.Some? then
      seq(|tasks|, i requires 0 <= i < |tasks| =>
        if tasks[i].id == editing.value then Saved(f, editing.value) else tasks[i])
    else tasks + [Saved(f, newId)]
  }

  /** A saved task shows up in the list it was saved from, provided a
      student is selected in student mode. */
  lemma SavedTaskIsVisible(f: Form, id: string)
    requires f.mode == StudentMode ==> f.student != ""
    ensures Visible(f.mode, f.day, f.cohort, f.student, Saved(f, id))
  {
  }

  /** Deleting: only after confirmation and a successful store delete; then
      exactly the tasks with that id disappear, order kept. */
  function DeleteTask(tasks: seq<Task>, id: string, confirmed: bool, ok: bool): (r: seq<Task>)
    ensures !(confirmed && ok) ==> r == tasks
    ensures confirmed && ok ==> forall t :: t in r <==> t in tasks && t.id != id
    ensures |r| <= |tasks|
  {
    if confirmed && ok then Filter(tasks, (t: Task) => t.id != id) else tasks
  }

  /** A confirmed delete keeps the list's order and every copy of the
      other tasks: deleting from a split is deleting from each part, and
      a single task goes iff it has the id. */
  lemma DeleteTaskKeepsOrder(a: seq<Task>, b: seq<Task>, t: Task, id: string)
    ensures DeleteTask(a + b, id, true, true) == DeleteTask(a, id, true, true) + DeleteTask(b, id, true, true)
    ensures DeleteTask([t], id, true, true) == if t.id != id then [t] else []
  {
    FilterAppend(a, b, (t: Task) => t.id != id);
    FilterSingleton(t, (t: Task) => t.id != id);
  }

  // ---------------------------------------------------------------------
  // Importing the base schedule
  // ---------------------------------------------------------------------

  predicate IsBase(cohort: string, t: Task) {
    t.cohortId == cohort && t.studentId.None?
  }

  /** The cohort's base tasks, in list order. */
  function BaseTasks(tasks: seq<Task>, cohort: string): (r: seq<Task>)
    ensures forall t :: t in r <==> t in tasks && IsBase(cohort, t)
    ensures forall i :: 0 <= i < |r| ==> IsBase(cohort, r[i])
  {
    Filter(tasks, t => IsBase(cohort, t))
  }

  /** The base tasks keep the list's order: the base of a split is the
      base of each part, and a single task is base iff it is one. */
  lemma BaseTasksKeepsOrder(a: seq<Task>, b: seq<Task>, t: Task, cohort: string)
    ensures BaseTasks(a + b, cohort) == BaseTasks(a, cohort) + BaseTasks(b, cohort)
    ensures BaseTasks([t], cohort) == if IsBase(cohort, t) then [t] else []
  {
    FilterAppend(a, b, t => IsBase(cohort, t));
    FilterSingleton(t, t => IsBase(cohort, t));
  }

  /** A student-owned copy of base task `b`, under the id `id`. */
  function Copy(b: Task, id: string, cohort: string, student: string): (c: Task)
    ensures c.id == id && c.cohortId == cohort && c.studentId == Some(student)
    ensures c.subject == b.subject && c.mode == b.mode && c.durationMinutes == b.durationMinutes
    ensures c.dayOfWeek == b.dayOfWeek && c.description == b.description
  {
    Task(id, cohort, Some(student), b.subject, b.mode, b.durationMinutes, b.dayOfWeek, b.description)
  }

  function Copies(base: seq<Task>, ids: seq<string>, cohort: string, student: string): (r: seq<Task>)
    requires |ids| == |base|
    ensures |r| == |base|
    ensures forall i :: 0 <= i < |r| ==> r[i] == Copy(base[i], ids[i], cohort, student)
  {
    seq(|base|, i requires 0 <= i < |base| => Copy(base[i], ids[i], cohort, student))
  }

  datatype Outcome = NoBase | Failed | Imported

  datatype ImportResult = ImportResult(tasks: seq<Task>, outcome: Outcome)

  /** Tasks that survive a replace: everything not owned by the student. */
  function NotOwned(tasks: seq<Task>, student: string): (r: seq<Task>)
    ensures forall t :: t in r <==> t in tasks && t.studentId != Some(student)
    ensures forall i :: 0 <= i < |r| ==> r[i].studentId != Some(student)
  {
    Filter(tasks, (t: Task) => t.studentId != Some(student))
  }

  /** The surviving tasks keep the list's order and multiplicity. */
  lemma NotOwnedKeepsOrder(a: seq<Task>, b: seq<Task>, t: Task, student: string)
    ensures NotOwned(a + b, student) == NotOwned(a, student) + NotOwned(b, student)
    ensures NotOwned([t], student) == if t.studentId != Some(student) then [t] else []
  {
    FilterAppend(a, b, (t: Task) => t.studentId != Some(student));
    FilterSingleton(t, (t: Task) => t.studentId != Some(student));
  }

  /** Importing the cohort's base schedule into the selected student's plan.
      `newIds` are the ids the store gives the copies; `deletesOk` and
      `createsOk` are the outcomes of the delete and create batches. With no
      base task nothing happens. Replace first drops every task of the
      student (a failed delete batch stops there, list unchanged); then one
      copy per base task is appended (a failed create batch keeps what the
      delete already removed). */
  function ExecuteImport(tasks: seq<Task>, cohort: string, student: string, strategy: Strategy,
                         newIds: seq<string>, deletesOk: bool, createsOk: bool): (r: ImportResult)
    requires student != ""
    requires |newIds| == |BaseTasks(tasks, cohort)|
    ensures r.outcome == NoBase <==> |BaseTasks(tasks, cohort)| == 0
    ensures r.outcome == NoBase ==> r.tasks == tasks
    ensures strategy == Merge && r.outcome == Imported ==>
              r.tasks == tasks + Copies(BaseTasks(tasks, cohort), newIds, cohort, student)
    ensures strategy == Merge && r.outcome != Imported ==> r.tasks == tasks
    ensures strategy == Replace && r.outcome == Imported ==>
              r.tasks == NotOwned(tasks, student) + Copies(BaseTasks(tasks, cohort), newIds, cohort, student)
    ensures r.outcome == Imported <==> |BaseTasks(tasks, cohort)| > 0 && createsOk && (strategy == Replace ==> deletesOk)
    ensures strategy == Replace && !deletesOk ==> r.tasks == tasks
    ensures strategy == Replace && deletesOk && !createsOk && |BaseTasks(tasks, cohort)| > 0 ==>
              r.tasks == NotOwned(tasks, student)
  {
    var base := BaseTasks(tasks, cohort);
    if |base| == 0 then ImportResult(tasks, NoBase)
    else if strategy == Replace && !deletesOk then ImportResult(tasks, Failed)
    else
      var kept := if strategy == Replace then NotOwned(tasks, student) else tasks;
      if createsOk then ImportResult(kept + Copies(base, newIds, cohort, student), Imported)
      else ImportResult(kept, Failed)
  }

  /** A successful merge keeps every task in place and adds exactly one
      task per base task. */
  lemma MergeGrowsByBase(tasks: seq<Task>, cohort: string, student: string, newIds: seq<string>, deletesOk: bool)
    requires student != ""
    requires |newIds| == |BaseTasks(tasks, cohort)| > 0
    ensures var r := ExecuteImport(tasks, cohort, student, Merge, newIds, deletesOk, true);
            r.outcome == Imported
            && |r.tasks| == |tasks| + |BaseTasks(tasks, cohort)|
            && r.tasks[..|tasks|] == tasks
  {
    var r := ExecuteImport(tasks, cohort, student, Merge, newIds, deletesOk, true);
    assert r.tasks[..|tasks|] == tasks;
  }

  /** After a successful replace the student owns exactly the fresh copies,
      in base order, and every task of anybody else is still there. */
  lemma {:induction false} ReplaceLeavesOnlyCopies(tasks: seq<Task>, cohort: string, student: string, newIds: seq<string>)
    requires student != ""
    requires |newIds| == |BaseTasks(tasks, cohort)| > 0
    ensures var r := ExecuteImport(tasks, cohort, student, Replace, newIds, true, true);
            && Filter(r.tasks, (t: Task) => t.studentId == Some(student))
               == Copies(BaseTasks(tasks, cohort), newIds, cohort, student)
            && forall t :: t in tasks && t.studentId != Some(student) ==> t in r.tasks
  {
    var kept := NotOwned(tasks, student);
    var copies := Copies(BaseTasks(tasks, cohort), newIds, cohort, student);
    assert ExecuteImport(tasks, cohort, student, Replace, newIds, true, true).tasks == kept + copies;
    OwnedAfterReplace(kept, copies, student);
  }

  /** Appending the student's copies to a list the student owns nothing in
      leaves exactly the copies as the student's tasks. */
  lemma OwnedAfterReplace(kept: seq<Task>, copies: seq<Task>, student: string)
    requires forall i :: 0 <= i < |kept| ==> kept[i].studentId != Some(student)
    requires forall i :: 0 <= i < |copies| ==> copies[i].studentId == Some(student)
    ensures Filter(kept + copies, (t: Task) => t.studentId == Some(student)) == copies
  {
    var owned := (t: Task) => t.studentId == Some(student);
    FilterAppend(kept, copies, owned);
    FilterDropsAll(kept, owned);
    FilterKeepsAll(copies, owned);
  }

  /** Imported copies never carry the "Personalizado" badge: the base task
      each was copied from is still in the list. */
  lemma CopiesAreNotPersonalized(tasks: seq<Task>, cohort: string, student: string, strategy: Strategy,
                                 newIds: seq<string>, deletesOk: bool, createsOk: bool)
    requires student != ""
    requires |newIds| == |BaseTasks(tasks, cohort)|
    ensures var r := ExecuteImport(tasks, cohort, student, strategy, newIds, deletesOk, createsOk);
            r.outcome == Imported ==>
              forall i :: 0 <= i < |newIds| ==>
                !TrulyPersonalized(r.tasks, Copy(BaseTasks(tasks, cohort)[i], newIds[i], cohort, student))
  {
    var base := BaseTasks(tasks, cohort);
    var r := ExecuteImport(tasks, cohort, student, strategy, newIds, deletesOk, createsOk);
    if r.outcome == Imported {
      forall i | 0 <= i < |newIds|
        ensures !TrulyPersonalized(r.tasks, Copy(base[i], newIds[i], cohort, student))
      {
        var b := base[i];
        assert b in tasks && IsBase(cohort, b);
        assert b in r.tasks;
        var j :| 0 <= j < |r.tasks| && r.tasks[j] == b;
        assert BaseTwin(r.tasks[j], Copy(b, newIds[i], cohort, student));
      }
    }
  }
}
