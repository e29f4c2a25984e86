/** The student's own numbers: which tasks apply to them, the seven-day
    planned-versus-done chart, completion efficiency, the study streak, and
    the progress bar of the day screen.

    `history` is the student's own check-in list; `today` is the current
    UTC day number, read from the clock by the caller. */
module StudentAnalytics {
  import opened Domain
  import opened Seqs
  import CheckInFlow

  /** A task applies to a student when it is a base task of the student's
      cohort or is assigned to the student. */
  predicate Applies(u: User, t: Task) {
    (u.cohortId == Some(t.cohortId) && t.studentId.None?) || t.studentId == Some(u.id)
  }

  /** The student's tasks, in store order. */
  function MyTasks(u: User, all: seq<Task>): (r: seq<Task>)
    ensures |r| <= |all|
    ensures forall t :: t in r <==> t in all && Applies(u, t)
  {
    Filter(all, t => Applies(u, t))
  }

  /** The student's tasks keep the store's order and multiplicity. */
  lemma MyTasksKeepsOrder(u: User, a: seq<Task>, b: seq<Task>, t: Task)
    ensures MyTasks(u, a + b) == MyTasks(u, a) + MyTasks(u, b)
    ensures MyTasks(u, [t]) == if Applies(u, t) then [t] else []
  {
    FilterAppend(a, b, t => Applies(u, t));
    FilterSingleton(t, t => Applies(u, t));
  }

  /** Another student's personal task never applies, whatever the cohort. */
  lemma OthersTasksDoNotApply(u: User, t: Task)
    requires t.studentId.Some? && t.studentId.value != u.id
    ensures !Applies(u, t)
  {
  }

  // ---------------------------------------------------------------------
  // The seven-day chart
  // ---------------------------------------------------------------------

  /** Planned minutes for a week day: the durations of the tasks on it. */
  function PlannedMinutes(tasks: seq<Task>, weekday: string): int {
    if |tasks| == 0 then 0
    else
      var t := tasks[|tasks| - 1];
      PlannedMinutes(tasks[..|tasks| - 1], weekday) + (if t.dayOfWeek == weekday then t.durationMinutes else 0)
  }

  /** Studied minutes on a day: the minutes of the completed check-ins
      made that day. */
  function StudiedMinutes(history: seq<CheckIn>, day: int): int {
    if |history| == 0 then 0
    else
      var c := history[|history| - 1];
      StudiedMinutes(history[..|history| - 1], day) + (if c.completed && DayOf(c.timestamp) == day then ActualMinutes(c) else 0)
  }

  /** One bar pair of the chart. */
  datatype ChartPoint = ChartPoint(day: int, planned: int, studied: int)

  function PointFor(tasks: seq<Task>, history: seq<CheckIn>, day: int): ChartPoint {
    ChartPoint(day, PlannedMinutes(tasks, Weekday(day)), StudiedMinutes(history, day))
  }

  function Reverse<T>(s: seq<T>): (r: seq<T>)
    ensures |r| == |s|
    ensures forall i :: 0 <= i < |s| ==> r[i] == s[|s| - 1 - i]
  {
    if |s| == 0 then [] else [s[|s| - 1]] + Reverse(s[..|s| - 1])
  }

  /** The chart: the seven days ending today are collected newest first
      and then reversed, so the bars run from six days ago to today. */
  function Chart(tasks: seq<Task>, history: seq<CheckIn>, today: int): (r: seq<ChartPoint>)
    ensures |r| == 7
    ensures forall i :: 0 <= i < 7 ==> r[i].day == today - 6 + i
    ensures forall i, j :: 0 <= i < j < 7 ==> r[i].day < r[j].day
    ensures forall i :: 0 <= i < 7 ==> r[i] == PointFor(tasks, history, r[i].day)
  {
    var newestFirst := seq(7, i requires 0 <= i < 7 => PointFor(tasks, history, today - i));
    Reverse(newestFirst)
  }

  /** The chart's seven days fall on seven different week days, so every
      week day of the plan is shown exactly once. */
  lemma ChartCoversWeek(tasks: seq<Task>, history: seq<CheckIn>, today: int)
    ensures var r := Chart(tasks, history, today);
            && (forall w :: w in WeekDays ==> exists i :: 0 <= i < 7 && Weekday(r[i].day) == w)
            && (forall i, j :: 0 <= i < j < 7 ==> Weekday(r[i].day) != Weekday(r[j].day))
  {
    var r := Chart(tasks, history, today);
    forall w | w in WeekDays ensures exists i :: 0 <= i < 7 && Weekday(r[i].day) == w {
      var k :| 0 <= k < 7 && WeekDays[k] == w;
      var i := (k - today + 2) % 7;
      assert r[i].day + 4 == today - 2 + i;
      ModSeven(today - 2, i, k);
      assert Weekday(r[i].day) == WeekDays[k];
    }
    forall i, j | 0 <= i < j < 7 ensures Weekday(r[i].day) != Weekday(r[j].day) {
      var a := (r[i].day + 4) % 7;
      var b := (r[j].day + 4) % 7;
      DistinctWithinWeek(today - 2, i, j);
      assert WeekDays[a] != WeekDays[b];
    }
  }

  lemma ModSeven(x: int, i: int, k: int)
    requires 0 <= k < 7 && i == (k - x) % 7
    ensures (x + i) % 7 == k
  {
    var q := (k - x) / 7;
    assert k - x == 7 * q + i;
    assert x + i == k - 7 * q;
  }

  lemma DistinctWithinWeek(x: int, i: int, j: int)
    requires 0 <= i < j < 7
    ensures (x + i) % 7 != (x + j) % 7
  {
    var a := (x + i) / 7;
    var b := (x + j) / 7;
    assert x + i == 7 * a + (x + i) % 7;
    assert x + j == 7 * b + (x + j) % 7;
  }

  // ---------------------------------------------------------------------
  // Efficiency and totals
  // ---------------------------------------------------------------------

  datatype Stats = Stats(efficiency: int, streak: nat, completedTotal: nat)

  /** The "Tarefas Feitas" total: how many positions of the history hold a
      completed check-in; none iff nothing is completed, all iff
      everything is. */
  function CompletedCount(history: seq<CheckIn>): (n: nat)
    ensures n <= |history|
    ensures n == |set i: nat | i < |history| && history[i].completed|
    ensures n == 0 <==> forall i :: 0 <= i < |history| ==> !history[i].completed
    ensures n == |history| <==> forall i :: 0 <= i < |history| ==> history[i].completed
    ensures n == |Filter(history, IsCompleted)|
  {
    CountCompleted(history);
    Count(history, IsCompleted)
  }

  lemma CountCompleted(history: seq<CheckIn>)
    ensures Count(history, IsCompleted) == |set i: nat | i < |history| && history[i].completed|
    ensures Count(history, IsCompleted) == 0 <==> forall i :: 0 <= i < |history| ==> !history[i].completed
    ensures Count(history, IsCompleted) == |history| <==> forall i :: 0 <= i < |history| ==> history[i].completed
  {
    CountIsPositions(history, IsCompleted);
    assert Positions(history, IsCompleted) == set i: nat | i < |history| && history[i].completed;
    CountExtremes(history, IsCompleted, (c: CheckIn) => !c.completed);
  }

  /** Efficiency over all of the student's check-ins. */
  function StudentEfficiency(history: seq<CheckIn>): (r: int)
    ensures 0 <= r <= 100
    ensures |history| == 0 ==> r == 0
    ensures 0 < |history| ==>
              2 * |history| * r - |history| <= 200 * CompletedCount(history) < 2 * |history| * r + |history|
  {
    Efficiency(CompletedCount(history), |history|)
  }

  // ---------------------------------------------------------------------
  // Streak
  // ---------------------------------------------------------------------

  /** How many days back the streak scan looks, today included. */
  const ScanDays: nat := 30

  /** Whether the student completed something on `day`. */
  function StudiedOn(history: seq<CheckIn>, day: int): (r: bool)
    ensures r <==> exists i :: 0 <= i < |history| && history[i].completed && DayOf(history[i].timestamp) == day
  {
    if |history| == 0 then false
    else
      var r := (history[0].completed && DayOf(history[0].timestamp) == day) || StudiedOn(history[1..], day);
      assert forall i :: 1 <= i < |history| ==> history[i] == history[1..][i - 1];
      r
  }

  /** Whether the student completed something `back` days before `today`. */
  predicate StudiedBack(history: seq<CheckIn>, today: int, back: int) {
    StudiedOn(history, today - back)
  }

  /** The scan from `i` days back: a studied day counts one; a missed day
      ends the scan, except today's. */
  function Scan(history: seq<CheckIn>, today: int, i: nat): nat
    decreases ScanDays - i
  {
    if i >= ScanDays then 0
    else if StudiedBack(history, today, i) then 1 + Scan(history, today, i + 1)
    else if i > 0 then 0
    else Scan(history, today, i + 1)
  }

  /** The streak the analytics screen shows. */
  function StreakOf(history: seq<CheckIn>, today: int): nat {
    Scan(history, today, 0)
  }

  /** The scan loop as written, with its early exit. */
  method Streak(history: seq<CheckIn>, today: int) returns (n: nat)
    ensures n == StreakOf(history, today)
    ensures n <= ScanDays
  {
    n := 0;
    var i: nat := 0;
    while i < ScanDays
      invariant i <= ScanDays
      invariant n + Scan(history, today, i) == Scan(history, today, 0)
      invariant n <= i
    {
      if StudiedBack(history, today, i) {
        n := n + 1;
      } else if i > 0 {
        break;
      }
      i := i + 1;
    }
  }

  /** From `i` days back (yesterday or earlier), the scan counts the run of
      studied days starting there, up to the scan's end. */
  lemma {:induction false} ScanIsRun(history: seq<CheckIn>, today: int, i: nat)
    requires 1 <= i <= ScanDays
    ensures i + Scan(history, today, i) <= ScanDays
    ensures forall j :: i <= j < i + Scan(history, today, i) ==> StudiedBack(history, today, j)
    ensures i + Scan(history, today, i) < ScanDays ==> !StudiedBack(history, today, i + Scan(history, today, i))
    decreases ScanDays - i
  {
    if i < ScanDays && StudiedBack(history, today, i) {
      ScanIsRun(history, today, i + 1);
    }
  }

  /** The streak is one for studying today (a miss today does not stop the
      count) plus the run of studied days ending yesterday, capped by the
      29 days the scan looks back. */
  lemma StreakIsRun(history: seq<CheckIn>, today: int)
    ensures var run := Scan(history, today, 1);
            && StreakOf(history, today) == (if StudiedBack(history, today, 0) then 1 else 0) + run
            && run <= ScanDays - 1
            && (forall j :: 1 <= j <= run ==> StudiedBack(history, today, j))
            && (run < ScanDays - 1 ==> !StudiedBack(history, today, run + 1))
  {
    ScanIsRun(history, today, 1);
  }

  /** Without any completed check-in the streak is 0. */
  lemma NoStudyNoStreak(history: seq<CheckIn>, today: int)
    requires forall i :: 0 <= i < |history| ==> !history[i].completed
    ensures StreakOf(history, today) == 0
  {
    assert !StudiedBack(history, today, 0);
    assert !StudiedBack(history, today, 1);
  }

  /** Studying today and yesterday but not the day before gives 2; a miss
      today with study yesterday only gives 1. */
  lemma StreakScenarios(history: seq<CheckIn>, today: int)
    ensures StudiedBack(history, today, 0) && StudiedBack(history, today, 1) && !StudiedBack(history, today, 2) ==>
              StreakOf(history, today) == 2
    ensures !StudiedBack(history, today, 0) && StudiedBack(history, today, 1) && !StudiedBack(history, today, 2) ==>
              StreakOf(history, today) == 1
  {
    StreakIsRun(history, today);
  }

  /** The analytics screen's three numbers. */
  method AnalyticsStats(history: seq<CheckIn>, today: int) returns (s: Stats)
    ensures s.efficiency == StudentEfficiency(history)
    ensures s.streak == StreakOf(history, today) && s.streak <= ScanDays
    ensures s.completedTotal == |Filter(history, IsCompleted)|
  {
    var streak := Streak(history, today);
    s := Stats(StudentEfficiency(history), streak, CompletedCount(history));
  }

  // ---------------------------------------------------------------------
  // The day screen's progress bar
  // ---------------------------------------------------------------------

  /** The tasks of the selected week day, in list order. */
  function DayTasks(tasks: seq<Task>, weekday: string): (r: seq<Task>)
    ensures forall t :: t in r <==> t in tasks && t.dayOfWeek == weekday
  {
    Filter(tasks, (t: Task) => t.dayOfWeek == weekday)
  }

  /** The day's tasks keep the list's order and multiplicity. */
  lemma DayTasksKeepsOrder(a: seq<Task>, b: seq<Task>, t: Task, weekday: string)
    ensures DayTasks(a + b, weekday) == DayTasks(a, weekday) + DayTasks(b, weekday)
    ensures DayTasks([t], weekday) == if t.dayOfWeek == weekday then [t] else []
  {
    FilterAppend(a, b, (t: Task) => t.dayOfWeek == weekday);
    FilterSingleton(t, (t: Task) => t.dayOfWeek == weekday);
  }

  predicate DoneIn(m: CheckInFlow.StatusMap, t: Task) {
    t.id in m && m[t.id].completed
  }

  /** Rounded percentage of the day's tasks whose check-in is completed;
      an empty day counts as one task, so it shows 0%. */
  function DailyProgress(dayTasks: seq<Task>, m: CheckInFlow.StatusMap): (p: int)
    ensures 0 <= p <= 100
    ensures |dayTasks| == 0 ==> p == 0
    ensures (forall i :: 0 <= i < |dayTasks| ==> !DoneIn(m, dayTasks[i])) ==> p == 0
    ensures 0 < |dayTasks| && (forall i :: 0 <= i < |dayTasks| ==> DoneIn(m, dayTasks[i])) ==> p == 100
    ensures var n := if |dayTasks| > 0 then |dayTasks| else 1;
            var c := |Filter(dayTasks, t => DoneIn(m, t))|;
            2 * n * p - n <= 200 * c < 2 * n * p + n
  {
    var done := Filter(dayTasks, t => DoneIn(m, t));
    var n := if |dayTasks| > 0 then |dayTasks| else 1;
    assert (forall i :: 0 <= i < |dayTasks| ==> DoneIn(m, dayTasks[i])) ==> done == dayTasks by {
      if forall i :: 0 <= i < |dayTasks| ==> DoneIn(m, dayTasks[i]) {
        FilterKeepsAll(dayTasks, t => DoneIn(m, t));
      }
    }
    assert (forall i :: 0 <= i < |dayTasks| ==> !DoneIn(m, dayTasks[i])) ==> done == [] by {
      if forall i :: 0 <= i < |dayTasks| ==> !DoneIn(m, dayTasks[i]) {
        FilterDropsAll(dayTasks, t => DoneIn(m, t));
      }
    }
    RoundPercent(|done|, n)
  }
}
