/** The student's day screen: the per-task status map built from the
    student's check-ins, and the check-in wizard that records a new one or
    undoes an existing one.

    The wizard goes `PeriodSelect` → `SuccessStep` | `FailureStep`; each
    event below is a button or field of the screen, and one that the screen
    does not show in the current state leaves the state as it is. Store
    writes are represented by their outcomes. */
module CheckInFlow {
  import opened Domain

  /** The latest known check-in per task id. */
  type StatusMap = map<string, CheckIn>

  /** The map the screen loads: check-ins are filed by task id in list
      order, so a later check-in of a task replaces an earlier one. */
  function BuildStatusMap(records: seq<CheckIn>): (m: StatusMap)
    ensures forall k :: k in m <==> exists i :: 0 <= i < |records| && records[i].taskId == k
    ensures forall k :: k in m ==> m[k].taskId == k
  {
    if |records| == 0 then map[]
    else
      var init := records[..|records| - 1];
      var last := records[|records| - 1];
      var m0 := BuildStatusMap(init);
      assert forall i :: 0 <= i < |init| ==> init[i] == records[i];
      m0[last.taskId := last]
  }

  /** The entry of a task is its LAST check-in in the list: no later
      check-in has the same task id. */
  lemma {:induction false} BuildStatusMapLastWins(records: seq<CheckIn>, k: string)
    requires k in BuildStatusMap(records)
    ensures exists i :: 0 <= i < |records| && records[i] == BuildStatusMap(records)[k]
                        && forall j :: i < j < |records| ==> records[j].taskId != k
  {
    var n := |records|;
    var last := records[n - 1];
    var init := records[..n - 1];
    var m := BuildStatusMap(records);
    assert m == BuildStatusMap(init)[last.taskId := last];
    if last.taskId != k {
      BuildStatusMapLastWins(init, k);
      var i :| 0 <= i < |init| && init[i] == BuildStatusMap(init)[k]
               && forall j :: i < j < |init| ==> init[j].taskId != k;
      assert records[i] == m[k];
      forall j | i < j < n ensures records[j].taskId != k {
        if j < n - 1 {
          assert records[j] == init[j];
        }
      }
    } else {
      assert records[n - 1] == m[k];
    }
  }

  /** What a task card shows: "pending", "completed" or "failed". */
  datatype TaskState = Todo | Done | Missed

  function StateOf(m: StatusMap, taskId: string): (s: TaskState)
    ensures s == Todo <==> taskId !in m
    ensures s == Done <==> taskId in m && m[taskId].completed
    ensures s == Missed <==> taskId in m && !m[taskId].completed
  {
    if taskId !in m then Todo else if m[taskId].completed then Done else Missed
  }

  // ---------------------------------------------------------------------
  // The wizard
  // ---------------------------------------------------------------------

  datatype Step = PeriodSelect | SuccessStep | FailureStep

  /** The wizard's fields: the task it is open for (none: closed), the step,
      the chosen period, and the minutes and note typed in the success step
      (`minutes` is the number the minutes field parses to). */
  datatype Wizard = Wizard(task: Option<string>, step: Step, period: Option<Period>,
                           minutes: int, note: string)

  datatype Screen = Screen(statuses: StatusMap, wizard: Wizard)

  const Closed: Wizard := Wizard(None, PeriodSelect, None, 60, "")

  /** The state every event keeps: an open wizard is for a task without a
      check-in; an outcome step has a task and a period; a closed wizard
      sits at period selection with no period. */
  predicate Inv(s: Screen) {
    && (s.wizard.task.Some? ==> s.wizard.task.value !in s.statuses)
    && (s.wizard.step != PeriodSelect ==> s.wizard.task.Some? && s.wizard.period.Some?)
    && (s.wizard.task.None? ==> s.wizard.step == PeriodSelect && s.wizard.period.None?)
  }

  /** Closing the wizard: task, step and period are reset, the map stays. */
  function Close(s: Screen): (r: Screen)
    ensures r.statuses == s.statuses
    ensures r.wizard.task.None? && r.wizard.step == PeriodSelect && r.wizard.period.None?
    ensures r.wizard.minutes == s.wizard.minutes && r.wizard.note == s.wizard.note
  {
    s.(wizard := s.wizard.(task := None, step := PeriodSelect, period := None))
  }

  /** Clicking a task card. A task with a check-in asks to undo it: after
      confirmation and a successful delete its entry is removed, and only
      its entry. A task without one opens the wizard afresh. */
  function ClickTask(s: Screen, taskId: string, confirmed: bool, deleteOk: bool): (r: Screen)
    ensures taskId in s.statuses && confirmed && deleteOk ==>
              r.statuses == s.statuses - {taskId} && r.wizard == s.wizard
    ensures taskId in s.statuses && !(confirmed && deleteOk) ==> r == s
    ensures taskId !in s.statuses ==>
              r.statuses == s.statuses && r.wizard == Wizard(Some(taskId), PeriodSelect, None, 60, "")
  {
    if taskId in s.statuses then
      if confirmed && deleteOk then s.(statuses := s.statuses - {taskId}) else s
    else
      s.(wizard := Wizard(Some(taskId), PeriodSelect, None, 60, ""))
  }

  /** Picking a period; the period buttons show only in the open wizard's
      first step. */
  function PickPeriod(s: Screen, p: Period): (r: Screen)
    ensures s.wizard.task.Some? && s.wizard.step == PeriodSelect ==> r == s.(wizard := s.wizard.(period := Some(p)))
    ensures !(s.wizard.task.Some? && s.wizard.step == PeriodSelect) ==> r == s
  {
    if s.wizard.task.Some? && s.wizard.step == PeriodSelect then s.(wizard := s.wizard.(period := Some(p))) else s
  }

  /** "Concluído" / "Não Feito": shown in the first step once a period is
      chosen. */
  function ChooseOutcome(s: Screen, success: bool): (r: Screen)
    ensures s.wizard.task.Some? && s.wizard.step == PeriodSelect && s.wizard.period.Some? ==>
              r == s.(wizard := s.wizard.(step := if success then SuccessStep else FailureStep))
    ensures s.wizard.period.None? || s.wizard.step != PeriodSelect || s.wizard.task.None? ==> r == s
  {
    if s.wizard.task.Some? && s.wizard.step == PeriodSelect && s.wizard.period.Some? then
      s.(wizard := s.wizard.(step := if success then SuccessStep else FailureStep))
    else s
  }

  /** "Voltar": from either outcome step back to period selection, keeping
      the chosen period. */
  function Back(s: Screen): (r: Screen)
    ensures s.wizard.task.Some? && s.wizard.step != PeriodSelect ==> r == s.(wizard := s.wizard.(step := PeriodSelect))
    ensures s.wizard.task.None? || s.wizard.step == PeriodSelect ==> r == s
  {
    if s.wizard.task.Some? && s.wizard.step != PeriodSelect then s.(wizard := s.wizard.(step := PeriodSelect)) else s
  }

  /** Typing in the success step's minutes and note fields. */
  function EditSuccess(s: Screen, minutes: int, note: string): (r: Screen)
    ensures s.wizard.task.Some? && s.wizard.step == SuccessStep ==>
              r == s.(wizard := s.wizard.(minutes := minutes, note := note))
    ensures !(s.wizard.task.Some? && s.wizard.step == SuccessStep) ==> r == s
  {
    if s.wizard.task.Some? && s.wizard.step == SuccessStep then s.(wizard := s.wizard.(minutes := minutes, note := note)) else s
  }

  /** The check-in a submit records for task `taskId`. */
  function NewCheckIn(w: Wizard, taskId: string, student: string, success: bool, reason: Option<string>,
                      id: string, now: int): (c: CheckIn)
    ensures c.id == id && c.taskId == taskId && c.studentId == student && c.timestamp == now
    ensures c.completed == success
    ensures c.actualMinutes == Some(if success then w.minutes else 0)
    ensures c.reasonForFailure == (if reason.Some? then reason.value else "")
    ensures c.period == w.period && c.note == w.note
  {
    CheckIn(id, taskId, student, success, Some(if success then w.minutes else 0), reason.GetOr(""), w.period, w.note, now)
  }

  /** Submitting the wizard. Without an open task nothing happens. On a
      successful store write the task's entry becomes the new check-in and
      the wizard closes; on failure everything stays. `id` and `now` are the
      store's record id and the clock's reading. */
  function Submit(s: Screen, student: string, success: bool, reason: Option<string>,
                  id: string, now: int, ok: bool): (r: Screen)
    ensures s.wizard.task.None? || !ok ==> r == s
    ensures s.wizard.task.Some? && ok ==>
              var k := s.wizard.task.value;
              && r.statuses == s.statuses[k := NewCheckIn(s.wizard, k, student, success, reason, id, now)]
              && r.wizard.task.None? && r.wizard.step == PeriodSelect && r.wizard.period.None?
  {
    if s.wizard.task.None? || !ok then s
    else
      var k := s.wizard.task.value;
      Close(s.(statuses := s.statuses[k := NewCheckIn(s.wizard, k, student, success, reason, id, now)]))
  }

  /** After a successful submit the card shows the outcome just recorded. */
  lemma SubmitMarksTask(s: Screen, student: string, success: bool, reason: Option<string>, id: string, now: int)
    requires s.wizard.task.Some?
    ensures var r := Submit(s, student, success, reason, id, now, true);
            StateOf(r.statuses, s.wizard.task.value) == (if success then Done else Missed)
            && forall k :: k != s.wizard.task.value ==> StateOf(r.statuses, k) == StateOf(s.statuses, k)
  {
  }

  /** Submitting and then undoing the same task restores the map. */
  lemma SubmitThenUndo(s: Screen, student: string, success: bool, reason: Option<string>, id: string, now: int)
    requires Inv(s) && s.wizard.task.Some?
    ensures var k := s.wizard.task.value;
            var r := ClickTask(Submit(s, student, success, reason, id, now, true), k, true, true);
            r.statuses == s.statuses
  {
    var k := s.wizard.task.value;
    var c := NewCheckIn(s.wizard, k, student, success, reason, id, now);
    assert k !in s.statuses;
    assert s.statuses[k := c] - {k} == s.statuses;
  }

  // ---------------------------------------------------------------------
  // Every event keeps the invariant
  // ---------------------------------------------------------------------

  /** The wizard's controls. The task cards are covered while the wizard's
      modal is open. "Confirmar Conclusão" exists only in the
      success step and the reason buttons only in the failure step; both
      call the submit handler, the first with success and no reason, the
      others with failure and the button's label. */
  datatype Event =
    | ClickCard(taskId: string, confirmed: bool, deleteOk: bool)
    | PickPeriodButton(p: Period)
    | OutcomeButton(success: bool)
    | BackButton
    | TypeSuccess(minutes: int, note: string)
    | ConfirmButton(student: string, id: string, now: int, ok: bool)
    | ReasonButton(student: string, reason: string, id: string, now: int, ok: bool)
    | CloseModal

  function Apply(s: Screen, e: Event): (r: Screen)
    ensures e.ClickCard? && s.wizard.task.Some? ==> r == s
    ensures e.ConfirmButton? && s.wizard.step != SuccessStep ==> r == s
    ensures e.ReasonButton? && s.wizard.step != FailureStep ==> r == s
  {
    match e
    case ClickCard(t, c, d) => if s.wizard.task.None? then ClickTask(s, t, c, d) else s
    case PickPeriodButton(p) => PickPeriod(s, p)
    case OutcomeButton(b) => ChooseOutcome(s, b)
    case BackButton => Back(s)
    case TypeSuccess(m, n) => EditSuccess(s, m, n)
    case ConfirmButton(st, id, now, ok) =>
      if s.wizard.step == SuccessStep then Submit(s, st, true, None, id, now, ok) else s
    case ReasonButton(st, why, id, now, ok) =>
      if s.wizard.step == FailureStep then Submit(s, st, false, Some(why), id, now, ok) else s
    case CloseModal => Close(s)
  }

  function Run(s: Screen, es: seq<Event>): Screen
    decreases |es|
  {
    if |es| == 0 then s else Run(Apply(s, es[0]), es[1..])
  }

  lemma ApplyKeepsInv(s: Screen, e: Event)
    requires Inv(s)
    ensures Inv(Apply(s, e))
  {
  }

  /** From a freshly loaded screen, any sequence of events keeps the
      invariant; in particular an outcome step always has a period to
      record (see `RunRecordsWithPeriod`). */
  lemma {:induction false} RunKeepsInv(s: Screen, es: seq<Event>)
    requires Inv(s)
    ensures Inv(Run(s, es))
    decreases |es|
  {
    if |es| > 0 {
      ApplyKeepsInv(s, es[0]);
      RunKeepsInv(Apply(s, es[0]), es[1..]);
    }
  }

  /** The loaded screen, with the wizard closed, satisfies the invariant. */
  lemma LoadedScreenInv(records: seq<CheckIn>)
    ensures Inv(Screen(BuildStatusMap(records), Closed))
  {
  }

  /** Every check-in `after` holds that `before` did not hold under the
      same task was recorded with a period. */
  predicate RecordedWithPeriod(before: Screen, after: Screen) {
    forall k :: k in after.statuses && (k !in before.statuses || after.statuses[k] != before.statuses[k]) ==>
      after.statuses[k].period.Some?
  }

  /** One event records nothing without a period, and a success is
      recorded as completed, a failure as not completed. */
  lemma ApplyRecordsWithPeriod(s: Screen, e: Event)
    requires Inv(s)
    ensures RecordedWithPeriod(s, Apply(s, e))
    ensures e.ConfirmButton? && Apply(s, e).statuses != s.statuses ==>
              Apply(s, e).statuses[s.wizard.task.value].completed
    ensures e.ReasonButton? && Apply(s, e).statuses != s.statuses ==>
              !Apply(s, e).statuses[s.wizard.task.value].completed
  {
  }

  /** Over any sequence of events from a consistent screen, every check-in
      the wizard records carries the period chosen for it. */
  lemma {:induction false} RunRecordsWithPeriod(s: Screen, es: seq<Event>)
    requires Inv(s)
    ensures RecordedWithPeriod(s, Run(s, es))
    decreases |es|
  {
    if |es| > 0 {
      var s1 := Apply(s, es[0]);
      ApplyKeepsInv(s, es[0]);
      ApplyRecordsWithPeriod(s, es[0]);
      RunRecordsWithPeriod(s1, es[1..]);
      assert Run(s, es) == Run(s1, es[1..]);
    }
  }
}
