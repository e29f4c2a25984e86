/** Records of the study-plan tracker, the calendar it works in, and the
    percentage rounding its dashboards share.

    Identifiers and names are strings, durations are integer minutes and
    instants are integer minutes since 1970-01-01T00:00 UTC. */
module Domain {

  datatype Option<+T> = None | Some(value: T) {
    function GetOr(default: T): T {
      match this
      case Some(v) => v
      case None => default
    }
  }

  datatype Role = Student | Admin

  datatype Status = Active | Pending | Blocked

  /** A user record; `cohortId` is absent for a user with no cohort. */
  datatype User = User(id: string, name: string, email: string, role: Role,
                       cohortId: Option<string>, status: Status)

  datatype Cohort = Cohort(id: string, name: string)

  /** A scheduled study activity. A task with a `studentId` belongs to that
      student only (personalized); one without is the cohort's base task.
      `mode` is a label from the admin-managed study-mode registry. */
  datatype Task = Task(id: string, cohortId: string, studentId: Option<string>,
                       subject: string, mode: string, durationMinutes: int,
                       dayOfWeek: string, description: string)

  datatype Period = Morning | Afternoon | Night | Dawn

  /** A student's report on one task. An empty `reasonForFailure` means no
      reason was given. */
  datatype CheckIn = CheckIn(id: string, taskId: string, studentId: string,
                             completed: bool, actualMinutes: Option<int>,
                             reasonForFailure: string, period: Option<Period>,
                             note: string, timestamp: int)

  /** Minutes counted for a check-in: a missing duration counts as 0. */
  function ActualMinutes(c: CheckIn): int {
    c.actualMinutes.GetOr(0)
  }

  predicate IsCompleted(c: CheckIn) {
    c.completed
  }

  // ---------------------------------------------------------------------
  // Calendar
  // ---------------------------------------------------------------------

  const MinutesPerDay: int := 1440

  /** The UTC calendar day (days since 1970-01-01) an instant falls on. */
  function DayOf(t: int): int {
    t / MinutesPerDay
  }

  /** The instant of UTC midnight that starts day `d`; this is what a
      `YYYY-MM-DD` date string denotes. */
  function DayStart(d: int): (t: int)
    ensures DayOf(t) == d
    ensures DayOf(t - 1) == d - 1
  {
    assert (d * MinutesPerDay - 1) == (d - 1) * MinutesPerDay + 1439;
    d * MinutesPerDay
  }

  /** Week-day names indexed like `Date.getDay()`: 0 is Sunday. */
  const WeekDays: seq<string> :=
    ["Sunday", "Monday", "Tuesday", "Wednesday", "Thursday", "Friday", "Saturday"]

  /** The English name of the week day of day `d`; day 0 was a Thursday. */
  function Weekday(d: int): (w: string)
    ensures w in WeekDays
  {
    WeekDays[(d + 4) % 7]
  }

  lemma WeekdayPeriodic(d: int)
    ensures Weekday(d + 7) == Weekday(d)
  {
    assert (d + 7 + 4) % 7 == (d + 4) % 7;
  }

  lemma EpochIsThursday()
    ensures Weekday(0) == "Thursday"
    ensures Weekday(3) == "Sunday"
  {
  }

  // ---------------------------------------------------------------------
  // Percentages
  // ---------------------------------------------------------------------

  /** `Math.round(part / whole * 100)` in exact arithmetic: the nearest
      integer to 100·part/whole, halves rounded up. */
  function RoundPercent(part: int, whole: int): (r: int)
    requires 0 <= part <= whole && 0 < whole
    ensures 2 * whole * r - whole <= 200 * part < 2 * whole * r + whole
    ensures 0 <= r <= 100
    ensures part == 0 ==> r == 0
    ensures part == whole ==> r == 100
  {
    var q := 2 * whole;
    var n := 200 * part + whole;
    var r := n / q;
    DivisionBounds(n, q);
    assert 0 <= r by { MulCancel(q, -1, r); }
    assert r <= 100 by { MulCancel(q, r, 101); }
    assert part == 0 ==> r == 0 by {
      if part == 0 { MulCancel(q, r, 1); }
    }
    assert part == whole ==> r == 100 by {
      if part == whole {
        assert n == q * 100 + whole;
        MulCancel(q, r, 101);
        MulCancel(q, 99, r);
      }
    }
    r
  }

  lemma DivisionBounds(n: int, q: int)
    requires 0 < q
    ensures q * (n / q) <= n < q * (n / q) + q
  {
  }

  /** Multiplying by a positive factor preserves strict order. */
  lemma MulCancel(q: int, a: int, b: int)
    requires 0 < q
    requires q * a < q * b + q
    ensures a <= b
  {
    if a > b {
      assert q * a >= q * (b + 1) by {
        MulMonotone(q, b + 1, a);
      }
    }
  }

  lemma MulMonotone(q: int, a: int, b: int)
    requires 0 < q && a <= b
    ensures q * a <= q * b
  {
    assert q * b - q * a == q * (b - a);
  }

  /** Completion efficiency: the rounded percentage of `done` among
      `attempts`, or 0 when nothing was attempted. */
  function Efficiency(done: nat, attempts: nat): (r: int)
    requires done <= attempts
    ensures 0 <= r <= 100
    ensures attempts == 0 ==> r == 0
    ensures 0 < attempts ==> 2 * attempts * r - attempts <= 200 * done < 2 * attempts * r + attempts
  {
    if attempts > 0 then RoundPercent(done, attempts) else 0
  }

  /** Worked values: 7 of 10 is 70%, 1 of 8 rounds 12.5% up to 13%, and
      nothing attempted is 0%. */
  lemma EfficiencyExamples()
    ensures Efficiency(7, 10) == 70
    ensures Efficiency(1, 8) == 13
    ensures Efficiency(0, 0) == 0
  {
  }
}
