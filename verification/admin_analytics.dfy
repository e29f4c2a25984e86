/** The admin dashboard's aggregation (`processAnalytics`): filters the
    check-in history, then derives the KPIs (student count, efficiency,
    top failure reason) and the four chart series. Everything is a pure
    function of the student list, the history, the cohort list and the
    filter settings. */
module AdminAnalytics {
  import opened Domain
  import opened Seqs
  import opened Tally
  import Ranking

  /** A history record as the dashboard receives it: the check-in with its
      task expanded (absent when the task is gone) and the cohort field of
      its expanded student (absent when the student is gone). */
  datatype Entry = Entry(checkIn: CheckIn, task: Option<Task>, studentCohort: Option<string>)

  /** Filter settings; the empty string and `None` mean "no filter". The two
      dates are day numbers, as picked in a date input. */
  datatype Filters = Filters(cohort: string, student: string, subject: string,
                             startDay: Option<int>, endDay: Option<int>)

  const NoFilters: Filters := Filters("", "", "", None, None)

  /** A check-in survives the filters iff every active filter matches. A
      date filter compares against midnight UTC of the chosen day, so the
      end date keeps only check-ins up to the first instant of that day. */
  predicate Passes(f: Filters, e: Entry) {
    && (f.cohort != "" ==> e.studentCohort == Some(f.cohort))
    && (f.student != "" ==> e.checkIn.studentId == f.student)
    && (f.subject != "" ==> e.task.Some? && e.task.value.subject == f.subject)
    && (f.startDay.Some? ==> DayStart(f.startDay.value) <= e.checkIn.timestamp)
    && (f.endDay.Some? ==> e.checkIn.timestamp <= DayStart(f.endDay.value))
  }

  /** The filtered history, in the original order. */
  function FilterHistory(f: Filters, h: seq<Entry>): (r: seq<Entry>)
    ensures |r| <= |h|
    ensures forall e :: e in r <==> e in h && Passes(f, e)
  {
    Filter(h, e => Passes(f, e))
  }

  /** The filter keeps the history's order: it acts on each part of a
      split separately, and a single check-in is kept iff it passes. */
  lemma FilterHistoryKeepsOrder(f: Filters, a: seq<Entry>, b: seq<Entry>, e: Entry)
    ensures FilterHistory(f, a + b) == FilterHistory(f, a) + FilterHistory(f, b)
    ensures FilterHistory(f, [e]) == if Passes(f, e) then [e] else []
  {
    FilterAppend(a, b, e => Passes(f, e));
    FilterSingleton(e, e => Passes(f, e));
  }

  /** With no filter set, every check-in survives, in order. */
  lemma NoFiltersKeepAll(h: seq<Entry>)
    ensures FilterHistory(NoFilters, h) == h
  {
    FilterKeepsAll(h, e => Passes(NoFilters, e));
  }

  /** With an end date, a check-in made later on that same day is dropped. */
  lemma EndDayDropsRestOfDay(f: Filters, e: Entry)
    requires f.endDay.Some?
    requires DayOf(e.checkIn.timestamp) == f.endDay.value
    requires e.checkIn.timestamp != DayStart(f.endDay.value)
    ensures !Passes(f, e)
  {
    var d := f.endDay.value;
    var t := e.checkIn.timestamp;
    assert DayStart(d) < t by {
      assert DayStart(d) <= t;
    }
  }

  // ---------------------------------------------------------------------
  // KPIs
  // ---------------------------------------------------------------------

  /** Students counted on the KPI card: those of the chosen cohort, or all
      of them when no cohort is chosen. */
  function StudentCount(users: seq<User>, f: Filters): (n: nat)
    ensures n <= |users|
    ensures f.cohort == "" ==> n == |users|
    ensures f.cohort != "" ==> n == |Filter(users, (u: User) => u.cohortId == Some(f.cohort))|
  {
    if f.cohort != "" then Count(users, (u: User) => u.cohortId == Some(f.cohort)) else |users|
  }

  /** The divisor of the per-student averages: the student count, or 1 when
      it is 0. */
  function Divider(n: nat): (d: nat)
    ensures 0 < d
    ensures 0 < n ==> d == n
  {
    if n > 0 then n else 1
  }

  predicate IsCompletedEntry(e: Entry) {
    e.checkIn.completed
  }

  function EntryMinutes(e: Entry): int {
    ActualMinutes(e.checkIn)
  }

  /** Completion efficiency over the filtered history. */
  function DashboardEfficiency(fh: seq<Entry>): (r: int)
    ensures 0 <= r <= 100
    ensures 0 < |fh| ==>
              2 * |fh| * r - |fh| <= 200 * |Filter(fh, IsCompletedEntry)| < 2 * |fh| * r + |fh|
    ensures |fh| == 0 ==> r == 0
    ensures 0 < |fh| && (forall i :: 0 <= i < |fh| ==> IsCompletedEntry(fh[i])) ==> r == 100
    ensures (forall i :: 0 <= i < |fh| ==> !IsCompletedEntry(fh[i])) ==> r == 0
  {
    var done := Filter(fh, IsCompletedEntry);
    assert (forall i :: 0 <= i < |fh| ==> IsCompletedEntry(fh[i])) ==> done == fh by {
      if forall i :: 0 <= i < |fh| ==> IsCompletedEntry(fh[i]) {
        FilterKeepsAll(fh, IsCompletedEntry);
      }
    }
    assert (forall i :: 0 <= i < |fh| ==> !IsCompletedEntry(fh[i])) ==> done == [] by {
      if forall i :: 0 <= i < |fh| ==> !IsCompletedEntry(fh[i]) {
        FilterDropsAll(fh, IsCompletedEntry);
      }
    }
    Efficiency(|done|, |fh|)
  }

  /** An incomplete check-in that names a reason. */
  predicate IsReasonedFailure(e: Entry) {
    !e.checkIn.completed && e.checkIn.reasonForFailure != ""
  }

  function ReasonLabel(e: Entry): string {
    if e.checkIn.reasonForFailure != "" then e.checkIn.reasonForFailure else "Outros"
  }

  function Zero(e: Entry): int { 0 }

  function One(e: Entry): int { 1 }

  /** The failure-reason histogram: one row per reason, counted in `count`,
      in order of first appearance. */
  function FailureTally(fh: seq<Entry>): (t: seq<Row>)
    ensures DistinctKeys(t)
    ensures forall k :: k in Keys(t) <==> exists i :: 0 <= i < |fh| && IsReasonedFailure(fh[i]) && fh[i].checkIn.reasonForFailure == k
    ensures forall k :: CountAt(t, k) == KeyedCount(fh, IsReasonedFailure, ReasonLabel, One, k)
    ensures TotalCount(t) == KeptSum(fh, IsReasonedFailure, One)
    ensures forall j :: 0 <= j < |t| ==> t[j].key != ""
  {
    var t := Build([], fh, IsReasonedFailure, ReasonLabel, Zero, One);
    BuildKeys([], fh, IsReasonedFailure, ReasonLabel, Zero, One);
    BuildAt([], fh, IsReasonedFailure, ReasonLabel, Zero, One);
    BuildTotals([], fh, IsReasonedFailure, ReasonLabel, Zero, One);
    assert forall j :: 0 <= j < |t| ==> t[j].key != "" by {
      forall j | 0 <= j < |t| ensures t[j].key != "" {
        assert t[j].key in Keys(t);
      }
    }
    t
  }

  /** The number of kept records equals the number of records `KeptSum`
      counts with weight one. */
  lemma {:induction false} KeptOneIsCount(es: seq<Entry>, keep: Entry -> bool)
    ensures KeptSum(es, keep, One) == |Filter(es, keep)|
  {
    if |es| > 0 {
      KeptOneIsCount(es[..|es| - 1], keep);
    }
  }

  /** The index of the first row with the largest count: the row a stable
      descending sort puts first. */
  function TopIndex(t: seq<Row>): (i: nat)
    requires |t| > 0
    ensures i < |t|
    ensures forall j :: 0 <= j < |t| ==> t[j].count <= t[i].count
    ensures forall j :: 0 <= j < i ==> t[j].count < t[i].count
  {
    if |t| == 1 then 0
    else
      var i := TopIndex(t[..|t| - 1]);
      if t[|t| - 1].count > t[i].count then |t| - 1 else i
  }

  /** The most frequent failure reason, or "Nenhum" when there is none. */
  function TopFailure(t: seq<Row>): (s: string)
    ensures |t| == 0 ==> s == "Nenhum"
    ensures |t| > 0 && (forall j :: 0 <= j < |t| ==> t[j].key != "") ==>
              exists i :: 0 <= i < |t| && t[i].key == s
                          && (forall j :: 0 <= j < |t| ==> t[j].count <= t[i].count)
                          && (forall j :: 0 <= j < i ==> t[j].count < t[i].count)
  {
    if |t| == 0 then "Nenhum"
    else
      var i := TopIndex(t);
      if t[i].key != "" then t[i].key else "Nenhum"
  }

  // ---------------------------------------------------------------------
  // Chart 1: hours per week day
  // ---------------------------------------------------------------------

  /** The English day names the chart knows, Monday first. */
  const EnglishDays: seq<string> :=
    ["Monday", "Tuesday", "Wednesday", "Thursday", "Friday", "Saturday", "Sunday"]

  /** The chart labels, in the same order. */
  const DayLabels: seq<string> := ["Seg", "Ter", "Qua", "Qui", "Sex", "Sáb", "Dom"]

  /** The chart label of an English day name, if it is one. */
  function DayLabel(day: string): (l: Option<string>)
    ensures l.Some? <==> day in EnglishDays
    ensures forall i :: 0 <= i < 7 && EnglishDays[i] == day ==> l == Some(DayLabels[i])
  {
    if day == "Monday" then Some("Seg")
    else if day == "Tuesday" then Some("Ter")
    else if day == "Wednesday" then Some("Qua")
    else if day == "Thursday" then Some("Qui")
    else if day == "Friday" then Some("Sex")
    else if day == "Saturday" then Some("Sáb")
    else if day == "Sunday" then Some("Dom")
    else None
  }

  /** A completed check-in whose task falls on a known week day. */
  predicate CountsForDay(e: Entry) {
    e.checkIn.completed && e.task.Some? && DayLabel(e.task.value.dayOfWeek).Some?
  }

  function DayKey(e: Entry): string {
    if CountsForDay(e) then DayLabel(e.task.value.dayOfWeek).value else ""
  }

  /** The seven zeroed day slots the chart starts from. */
  const DaySeed: seq<Row> :=
    [Row("Seg", 0, 0), Row("Ter", 0, 0), Row("Qua", 0, 0), Row("Qui", 0, 0),
     Row("Sex", 0, 0), Row("Sáb", 0, 0), Row("Dom", 0, 0)]

  /** One bar of the chart: the day label, the completed minutes filed
      under it, and the per-student average in tenths of an hour. */
  datatype DayPoint = DayPoint(day: string, minutes: int, tenths: int)

  /** `parseFloat((minutes / 60 / divider).toFixed(1))`, as a count of tenths:
      the nearest tenth of an hour to minutes/(60·divider), halves up. */
  function HoursTenths(minutes: int, divider: int): (r: int)
    requires 0 < divider
    ensures 6 * divider * r - 3 * divider <= minutes < 6 * divider * r + 3 * divider
  {
    DivisionBounds(minutes + 3 * divider, 6 * divider);
    (minutes + 3 * divider) / (6 * divider)
  }

  lemma DaySeedFacts()
    ensures Keys(DaySeed) == DayLabels
    ensures DistinctKeys(DaySeed)
    ensures forall k :: MinutesAt(DaySeed, k) == 0
  {
    assert Keys(DaySeed) == DayLabels;
    forall k ensures MinutesAt(DaySeed, k) == 0 {
      ZeroRows(DaySeed, k);
    }
  }

  lemma DayKeysAreSeeded(fh: seq<Entry>)
    ensures forall i :: 0 <= i < |fh| && CountsForDay(fh[i]) ==> DayKey(fh[i]) in Keys(DaySeed)
  {
    DaySeedFacts();
    forall i | 0 <= i < |fh| && CountsForDay(fh[i]) ensures DayKey(fh[i]) in DayLabels {
      var day := fh[i].task.value.dayOfWeek;
      var j :| 0 <= j < 7 && EnglishDays[j] == day;
      assert DayKey(fh[i]) == DayLabels[j];
    }
  }

  /** The seven day slots after filing the completed minutes: still the
      seven labels in order, each holding the minutes filed under it. */
  function DayTally(fh: seq<Entry>): (t: seq<Row>)
    ensures Keys(t) == DayLabels
    ensures forall i :: 0 <= i < 7 ==>
              t[i].minutes == KeyedMinutes(fh, CountsForDay, DayKey, EntryMinutes, DayLabels[i])
  {
    DaySeedFacts();
    var t := Build(DaySeed, fh, CountsForDay, DayKey, EntryMinutes, Zero);
    DayKeysAreSeeded(fh);
    BuildKeys(DaySeed, fh, CountsForDay, DayKey, EntryMinutes, Zero);
    BuildRows(DaySeed, fh, CountsForDay, DayKey, EntryMinutes, Zero);
    t
  }

  /** The per-week-day chart: always seven bars, Seg to Dom. */
  function DailySeries(fh: seq<Entry>, divider: int): (r: seq<DayPoint>)
    requires 0 < divider
    ensures |r| == 7
    ensures forall i :: 0 <= i < 7 ==> r[i].day == DayLabels[i]
    ensures forall i :: 0 <= i < 7 ==>
              r[i].minutes == KeyedMinutes(fh, CountsForDay, DayKey, EntryMinutes, DayLabels[i])
    ensures forall i :: 0 <= i < 7 ==> r[i].tenths == HoursTenths(r[i].minutes, divider)
  {
    var t := DayTally(fh);
    seq(7, i requires 0 <= i < 7 => DayPoint(t[i].key, t[i].minutes, HoursTenths(t[i].minutes, divider)))
  }

  // ---------------------------------------------------------------------
  // Chart 2: top subjects
  // ---------------------------------------------------------------------

  function SubjectLabel(e: Entry): string {
    if e.task.Some? && e.task.value.subject != "" then e.task.value.subject else "Outros"
  }

  /** Completed minutes per subject, in order of first appearance. */
  function SubjectTally(fh: seq<Entry>): (t: seq<Row>)
    ensures DistinctKeys(t)
    ensures forall k :: MinutesAt(t, k) == KeyedMinutes(fh, IsCompletedEntry, SubjectLabel, EntryMinutes, k)
    ensures forall k :: k in Keys(t) <==> exists i :: 0 <= i < |fh| && IsCompletedEntry(fh[i]) && SubjectLabel(fh[i]) == k
  {
    BuildKeys([], fh, IsCompletedEntry, SubjectLabel, EntryMinutes, Zero);
    BuildAt([], fh, IsCompletedEntry, SubjectLabel, EntryMinutes, Zero);
    Build([], fh, IsCompletedEntry, SubjectLabel, EntryMinutes, Zero)
  }

  // ---------------------------------------------------------------------
  // Chart 4: per cohort, over the whole history
  // ---------------------------------------------------------------------

  /** `i` is the position of the first user with id `id`. */
  predicate FirstUser(users: seq<User>, id: string, i: int) {
    0 <= i < |users| && users[i].id == id && forall j :: 0 <= j < i ==> users[j].id != id
  }

  /** `j` is the position of the first cohort with id `id`. */
  predicate FirstCohort(cohorts: seq<Cohort>, id: string, j: int) {
    0 <= j < |cohorts| && cohorts[j].id == id && forall k :: 0 <= k < j ==> cohorts[k].id != id
  }

  /** The bucket of a check-in: the name of its student's cohort, or
      "Sem Turma" when the student, the cohort or the name is missing. */
  function CohortLabel(users: seq<User>, cohorts: seq<Cohort>, e: Entry): (name: string)
    ensures name != ""
    ensures (forall i :: 0 <= i < |users| ==> users[i].id != e.checkIn.studentId) ==> name == "Sem Turma"
  {
    var ui := FindIndex(users, (u: User) => u.id == e.checkIn.studentId);
    if ui.None? || users[ui.value].cohortId.None? then "Sem Turma"
    else
      var cj := FindIndex(cohorts, (c: Cohort) => c.id == users[ui.value].cohortId.value);
      if cj.None? || cohorts[cj.value].name == "" then "Sem Turma" else cohorts[cj.value].name
  }

  /** The bucket is the student's cohort: with `i` the first user with the
      check-in's student id and `j` the first cohort with that user's cohort
      id, the bucket is that cohort's name (or "Sem Turma" when it is
      empty); with no such pair, it is "Sem Turma". */
  lemma CohortLabelIsStudentsCohort(users: seq<User>, cohorts: seq<Cohort>, e: Entry)
    ensures forall i, j :: FirstUser(users, e.checkIn.studentId, i) && users[i].cohortId.Some?
                           && FirstCohort(cohorts, users[i].cohortId.value, j) ==>
              CohortLabel(users, cohorts, e) == (if cohorts[j].name != "" then cohorts[j].name else "Sem Turma")
    ensures CohortLabel(users, cohorts, e) != "Sem Turma" ==>
              exists i, j :: FirstUser(users, e.checkIn.studentId, i) && users[i].cohortId.Some?
                             && FirstCohort(cohorts, users[i].cohortId.value, j)
                             && cohorts[j].name == CohortLabel(users, cohorts, e)
  {
    var sid := e.checkIn.studentId;
    var ui := FindIndex(users, (u: User) => u.id == sid);
    if ui.Some? {
      assert FirstUser(users, sid, ui.value);
      assert forall i :: FirstUser(users, sid, i) ==> i == ui.value;
      if users[ui.value].cohortId.Some? {
        var cid := users[ui.value].cohortId.value;
        var cj := FindIndex(cohorts, (c: Cohort) => c.id == cid);
        if cj.Some? {
          assert FirstCohort(cohorts, cid, cj.value);
          assert forall j :: FirstCohort(cohorts, cid, j) ==> j == cj.value;
        } else {
          assert forall j :: !FirstCohort(cohorts, cid, j);
        }
      }
    } else {
      assert forall i :: !FirstUser(users, sid, i);
    }
  }

  predicate AnyEntry(e: Entry) { true }

  /** Completed check-ins add their minutes, the others add one failure. */
  function CohortMinutes(e: Entry): int {
    if e.checkIn.completed then EntryMinutes(e) else 0
  }

  function CohortFailure(e: Entry): int {
    if e.checkIn.completed then 0 else 1
  }

  /** Minutes and failures per cohort name over the UNFILTERED history.
      Every check-in lands in exactly one bucket, so the failures sum to the
      number of incomplete check-ins. */
  function CohortTally(users: seq<User>, cohorts: seq<Cohort>, h: seq<Entry>): (t: seq<Row>)
    ensures DistinctKeys(t)
    ensures forall k :: k in Keys(t) <==> exists i :: 0 <= i < |h| && CohortLabel(users, cohorts, h[i]) == k
    ensures forall k :: CountAt(t, k) == KeyedCount(h, AnyEntry, e => CohortLabel(users, cohorts, e), CohortFailure, k)
    ensures forall k :: MinutesAt(t, k) == KeyedMinutes(h, AnyEntry, e => CohortLabel(users, cohorts, e), CohortMinutes, k)
    ensures TotalCount(t) == |Filter(h, (e: Entry) => !e.checkIn.completed)|
    ensures TotalMinutes(t) == KeptSum(h, IsCompletedEntry, EntryMinutes)
  {
    var key := e => CohortLabel(users, cohorts, e);
    var t := Build([], h, AnyEntry, key, CohortMinutes, CohortFailure);
    assert forall k :: k in Keys(t) <==> exists i :: 0 <= i < |h| && key(h[i]) == k by {
      BuildKeys([], h, AnyEntry, key, CohortMinutes, CohortFailure);
    }
    assert (forall k :: CountAt(t, k) == KeyedCount(h, AnyEntry, key, CohortFailure, k))
        && (forall k :: MinutesAt(t, k) == KeyedMinutes(h, AnyEntry, key, CohortMinutes, k)) by {
      BuildAt([], h, AnyEntry, key, CohortMinutes, CohortFailure);
    }
    assert TotalCount(t) == |Filter(h, (e: Entry) => !e.checkIn.completed)|
        && TotalMinutes(t) == KeptSum(h, IsCompletedEntry, EntryMinutes) by {
      BuildTotals([], h, AnyEntry, key, CohortMinutes, CohortFailure);
      FailuresAreIncomplete(h);
      CompletedMinutes(h);
    }
    t
  }

  lemma {:induction false} FailuresAreIncomplete(h: seq<Entry>)
    ensures KeptSum(h, AnyEntry, CohortFailure) == |Filter(h, (e: Entry) => !e.checkIn.completed)|
  {
    if |h| > 0 {
      FailuresAreIncomplete(h[..|h| - 1]);
    }
  }

  lemma {:induction false} CompletedMinutes(h: seq<Entry>)
    ensures KeptSum(h, AnyEntry, CohortMinutes) == KeptSum(h, IsCompletedEntry, EntryMinutes)
  {
    if |h| > 0 {
      CompletedMinutes(h[..|h| - 1]);
    }
  }

  // ---------------------------------------------------------------------
  // The whole dashboard
  // ---------------------------------------------------------------------

  /** Everything the dashboard shows. `subjects` rows carry minutes,
      `failures` rows carry counts, `cohorts` rows carry both. */
  datatype Dashboard = Dashboard(totalStudents: nat, efficiency: int, topFailure: string,
                                 daily: seq<DayPoint>, subjects: seq<Row>,
                                 failures: seq<Row>, cohorts: seq<Row>)

  /** The dashboard for one filter setting: the KPIs and the four charts,
      each computed from the filtered history except the cohort chart,
      which uses the whole history. */
  function ProcessAnalytics(users: seq<User>, cohorts: seq<Cohort>, h: seq<Entry>, f: Filters): (d: Dashboard)
    ensures d.totalStudents == StudentCount(users, f)
    ensures 0 <= d.efficiency <= 100
    ensures var fh := FilterHistory(f, h);
            0 < |fh| ==>
              2 * |fh| * d.efficiency - |fh| <= 200 * |Filter(fh, IsCompletedEntry)| < 2 * |fh| * d.efficiency + |fh|
    ensures d.failures == FailureTally(FilterHistory(f, h))
    ensures d.topFailure == TopFailure(d.failures)
    ensures d.daily == DailySeries(FilterHistory(f, h), Divider(StudentCount(users, f)))
    ensures d.subjects == Ranking.Top(SubjectTally(FilterHistory(f, h)))
    ensures d.cohorts == CohortTally(users, cohorts, h)
    ensures |FilterHistory(f, h)| == 0 ==> d.efficiency == 0 && d.topFailure == "Nenhum" && d.failures == []
    ensures |d.daily| == 7
    ensures |d.subjects| <= Ranking.TopN && Ranking.SortedDesc(d.subjects)
    ensures TotalCount(d.failures) == |Filter(FilterHistory(f, h), IsReasonedFailure)|
    ensures TotalCount(d.cohorts) == |Filter(h, (e: Entry) => !e.checkIn.completed)|
  {
    var fh := FilterHistory(f, h);
    var n := StudentCount(users, f);
    var failures := FailureTally(fh);
    KeptOneIsCount(fh, IsReasonedFailure);
    assert |fh| == 0 ==> failures == [] by {
      if |fh| == 0 {
        assert Keys(failures) == [];
      }
    }
    Dashboard(n, DashboardEfficiency(fh), TopFailure(failures),
              DailySeries(fh, Divider(n)), Ranking.Top(SubjectTally(fh)),
              failures, CohortTally(users, cohorts, h))
  }
}
