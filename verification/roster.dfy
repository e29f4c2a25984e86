/** Student status management on the admin side: approving or rejecting a
    registration, toggling a student between active and blocked, and the
    student picker of the dashboard filters.

    The store update is represented by its outcome `ok`: when it fails the
    list shown is left as it was. */
module Roster {
  import opened Domain
  import opened Seqs

  datatype Decision = Approve | Reject

  /** The status a decision grants. */
  function Granted(d: Decision): (s: Status)
    ensures s == Active <==> d == Approve
    ensures s == Blocked <==> d == Reject
  {
    match d
    case Approve => Active
    case Reject => Blocked
  }

  /** Every row with id `id` takes status `st`; the other rows stay. */
  function SetStatus(rows: seq<User>, id: string, st: Status): (r: seq<User>)
    ensures |r| == |rows|
    ensures forall i :: 0 <= i < |r| ==>
              r[i] == if rows[i].id == id then rows[i].(status := st) else rows[i]
  {
    seq(|rows|, i requires 0 <= i < |rows| => if rows[i].id == id then rows[i].(status := st) else rows[i])
  }

  /** Approving or rejecting a student: on success the student's rows show
      the granted status and nothing else changes; on failure nothing
      changes. */
  function StudentAction(rows: seq<User>, id: string, d: Decision, ok: bool): (r: seq<User>)
    ensures |r| == |rows|
    ensures forall i :: 0 <= i < |r| && rows[i].id != id ==> r[i] == rows[i]
    ensures forall i :: 0 <= i < |r| && rows[i].id == id ==>
              r[i].status == (if ok then Granted(d) else rows[i].status)
              && r[i] == rows[i].(status := r[i].status)
    ensures !ok ==> r == rows
  {
    if ok then SetStatus(rows, id, Granted(d)) else rows
  }

  /** Deciding twice is deciding once: the second update finds the status
      already granted. */
  lemma StudentActionIdempotent(rows: seq<User>, id: string, d: Decision)
    ensures StudentAction(StudentAction(rows, id, d, true), id, d, true) == StudentAction(rows, id, d, true)
  {
    var once := StudentAction(rows, id, d, true);
    var twice := StudentAction(once, id, d, true);
    assert forall i :: 0 <= i < |twice| ==> twice[i] == once[i];
  }

  /** The first row with id `id`, as `find` locates it. */
  function FindRow(rows: seq<User>, id: string): Option<nat> {
    FindIndex(rows, (u: User) => u.id == id)
  }

  /** The status the toggle button sets: an active student is blocked, any
      other (blocked or still pending) becomes active. */
  function Toggled(s: Status): (t: Status)
    ensures t != s && t != Pending
    ensures t == Blocked <==> s == Active
  {
    if s == Active then Blocked else Active
  }

  /** The toggle of the student list: with no row for `id` nothing happens;
      otherwise the new status is read from the first such row and, on
      success, written to every row with that id. */
  function ToggleStatus(rows: seq<User>, id: string, ok: bool): (r: seq<User>)
    ensures |r| == |rows|
    ensures forall i :: 0 <= i < |r| && rows[i].id != id ==> r[i] == rows[i]
    ensures FindRow(rows, id).None? || !ok ==> r == rows
    ensures FindRow(rows, id).Some? && ok ==>
              forall i :: 0 <= i < |r| && rows[i].id == id ==>
                r[i] == rows[i].(status := Toggled(rows[FindRow(rows, id).value].status))
  {
    var found := FindRow(rows, id);
    if found.None? || !ok then rows
    else SetStatus(rows, id, Toggled(rows[found.value].status))
  }

  /** Ids in the list are unique. */
  predicate UniqueIds(rows: seq<User>) {
    forall i, j :: 0 <= i < j < |rows| ==> rows[i].id != rows[j].id
  }

  /** Toggling an active or blocked student twice restores the list; a
      pending student comes out blocked instead, since the first toggle
      activates it. */
  lemma ToggleTwice(rows: seq<User>, k: nat)
    requires UniqueIds(rows) && k < |rows|
    ensures rows[k].status != Pending ==>
              ToggleStatus(ToggleStatus(rows, rows[k].id, true), rows[k].id, true) == rows
    ensures rows[k].status == Pending ==>
              ToggleStatus(ToggleStatus(rows, rows[k].id, true), rows[k].id, true) == rows[k := rows[k].(status := Blocked)]
  {
    var id := rows[k].id;
    var once := ToggleStatus(rows, id, true);
    FoundAt(rows, k);
    ToggleKeepsIds(rows, id, true);
    FoundAt(once, k);
    var twice := ToggleStatus(once, id, true);
    assert twice[k] == rows[k].(status := Toggled(Toggled(rows[k].status)));
    if rows[k].status != Pending {
      assert forall i :: 0 <= i < |rows| ==> twice[i] == rows[i];
    } else {
      assert forall i :: 0 <= i < |rows| ==> twice[i] == rows[k := rows[k].(status := Blocked)][i];
    }
  }

  /** With unique ids, the row of `rows[k].id` is found at `k`. */
  lemma FoundAt(rows: seq<User>, k: nat)
    requires UniqueIds(rows) && k < |rows|
    ensures FindRow(rows, rows[k].id) == Some(k)
  {
  }

  /** A toggle changes statuses only, so ids and their uniqueness stay. */
  lemma ToggleKeepsIds(rows: seq<User>, id: string, ok: bool)
    ensures forall i :: 0 <= i < |rows| ==> ToggleStatus(rows, id, ok)[i].id == rows[i].id
    ensures UniqueIds(rows) ==> UniqueIds(ToggleStatus(rows, id, ok))
  {
  }

  /** An entry of the student picker. */
  datatype Choice = Choice(value: string, text: string)

  /** A student the picker offers: active, and of the chosen cohort when
      one is chosen. */
  predicate Offered(cohort: string, s: User) {
    s.status == Active && (cohort != "" ==> s.cohortId == Some(cohort))
  }

  function Choices(students: seq<User>): (r: seq<Choice>)
    ensures |r| == |students|
    ensures forall i :: 0 <= i < |r| ==> r[i] == Choice(students[i].id, students[i].name)
  {
    seq(|students|, i requires 0 <= i < |students| => Choice(students[i].id, students[i].name))
  }

  /** The options of the dashboard's student select, in list order. */
  function StudentOptions(students: seq<User>, cohort: string): (r: seq<Choice>)
    ensures |r| <= |students|
    ensures forall c :: c in r <==>
              exists i :: 0 <= i < |students| && Offered(cohort, students[i])
                          && c == Choice(students[i].id, students[i].name)
  {
    var kept := Filter(students, s => Offered(cohort, s));
    var r := Choices(kept);
    assert forall c :: c in r ==>
             exists i :: 0 <= i < |students| && Offered(cohort, students[i])
                         && c == Choice(students[i].id, students[i].name) by {
      forall c | c in r
        ensures exists i :: 0 <= i < |students| && Offered(cohort, students[i])
                            && c == Choice(students[i].id, students[i].name)
      {
        var j :| 0 <= j < |r| && r[j] == c;
        assert kept[j] in students;
        var i :| 0 <= i < |students| && students[i] == kept[j];
      }
    }
    assert forall i :: 0 <= i < |students| && Offered(cohort, students[i]) ==>
             Choice(students[i].id, students[i].name) in r by {
      forall i | 0 <= i < |students| && Offered(cohort, students[i])
        ensures Choice(students[i].id, students[i].name) in r
      {
        assert students[i] in kept;
        var j :| 0 <= j < |kept| && kept[j] == students[i];
        assert r[j] == Choice(students[i].id, students[i].name);
      }
    }
    r
  }

  /** Picker entries follow the students one for one. */
  lemma ChoicesAppend(a: seq<User>, b: seq<User>)
    ensures Choices(a + b) == Choices(a) + Choices(b)
  {
    var ab := a + b;
    assert forall i :: 0 <= i < |ab| ==> Choices(ab)[i] == (Choices(a) + Choices(b))[i] by {
      forall i | 0 <= i < |ab|
        ensures Choices(ab)[i] == (Choices(a) + Choices(b))[i]
      {
        if i >= |a| {
          assert ab[i] == b[i - |a|];
        }
      }
    }
  }

  /** The picker keeps the list's order and one entry per offered student:
      the options of a split are the options of each part, and a single
      student yields an entry iff offered. */
  lemma StudentOptionsKeepsOrder(a: seq<User>, b: seq<User>, u: User, cohort: string)
    ensures StudentOptions(a + b, cohort) == StudentOptions(a, cohort) + StudentOptions(b, cohort)
    ensures StudentOptions([u], cohort) == if Offered(cohort, u) then [Choice(u.id, u.name)] else []
  {
    FilterAppend(a, b, s => Offered(cohort, s));
    ChoicesAppend(Filter(a, s => Offered(cohort, s)), Filter(b, s => Offered(cohort, s)));
    FilterSingleton(u, s => Offered(cohort, s));
  }
}
