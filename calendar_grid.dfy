/**
 * The month calendar: the grid of day cells (leading blanks up to the
 * first weekday, then the days of the month) and, per day, the names of
 * the staff on each shift type.
 */
module CalendarGrid {
  import opened Wrappers
  import opened CivilDate
  import opened DateKey
  import opened Types
  import opened ScheduleStore

  /** The cells of the grid: blanks before the first of the month, then days 1..n. */
  method CalendarDays(year: int, month: int) returns (days: seq<Option<int>>)
    requires 1 <= month <= 12
    ensures var first, n := Weekday(Date(year, month, 1)), DaysInMonth(year, month);
      && |days| == first + n
      && (forall i :: 0 <= i < first ==> days[i] == None)
      && (forall j :: first <= j < |days| ==> days[j] == Some(j - first + 1))
  {
    var firstDayOfMonth := Weekday(Date(year, month, 1));
    DayZeroIsLastDay(year, month);
    var daysInMonth := DayZeroOfNextMonth(year, month).day;
    days := [];
    var i := 0;
    while i < firstDayOfMonth
      invariant 0 <= i <= firstDayOfMonth
      invariant days == seq(i, _ => None)
    {
      days := days + [None];
      i := i + 1;
    }
    i := 1;
    while i <= daysInMonth
      invariant 1 <= i <= daysInMonth + 1
      invariant |days| == firstDayOfMonth + i - 1
      invariant forall j :: 0 <= j < firstDayOfMonth ==> days[j] == None
      invariant forall j :: firstDayOfMonth <= j < |days| ==> days[j] == Some(j - firstDayOfMonth + 1)
    {
      days := days + [Some(i)];
      i := i + 1;
    }
  }

  /** `staffList.find(staff => staff.id === id)?.name || ''`. */
  function NameOf(staff: seq<Staff>, id: string): (name: string)
    ensures (forall j :: 0 <= j < |staff| ==> staff[j].id != id) ==> name == ""
    ensures forall j :: 0 <= j < |staff| && staff[j].id == id && (forall k :: 0 <= k < j ==> staff[k].id != id)
              ==> name == staff[j].name
    decreases |staff|
  {
    if staff == [] then ""
    else if staff[0].id == id then staff[0].name
    else NameOf(staff[1..], id)
  }

  /** A schedule row puts a name under type `t` on `key` when its shift there exists and is `t`, not OFF. */
  predicate Contributes(row: StaffSchedule, key: Key, t: ShiftType) {
    key in row.shifts && row.shifts[key].kind != OFF && row.shifts[key].kind == t
  }

  /** The names listed under type `t` for `key`, in schedule-row order. */
  function NamesFor(rows: Schedule, staff: seq<Staff>, key: Key, t: ShiftType): seq<string>
    decreases |rows|
  {
    if rows == [] then []
    else
      var last := rows[|rows| - 1];
      NamesFor(rows[..|rows| - 1], staff, key, t) + (if Contributes(last, key, t) then [NameOf(staff, last.staffId)] else [])
  }

  datatype Assignments = Assignments(morning: seq<string>, afternoon: seq<string>, night: seq<string>, off: seq<string>)

  /** `getDaySchedule(day)`: the assignments of the day's key, `YYYY-MM-DD` with month and day padded. */
  method GetDaySchedule(year: int, month: int, day: int, staff: seq<Staff>, schedule: Schedule) returns (a: Assignments)
    ensures var key := TemplateKey(year, month, day);
      && a.morning == NamesFor(schedule, staff, key, Morning)
      && a.afternoon == NamesFor(schedule, staff, key, Afternoon)
      && a.night == NamesFor(schedule, staff, key, Night)
      && a.off == []
  {
    var dateStr := TemplateKey(year, month, day);
    a := GroupByShift(dateStr, staff, schedule);
  }

  /** The `schedule.forEach` pass: each row working a non-OFF shift on `key` pushes its name under that type. */
  method GroupByShift(key: Key, staff: seq<Staff>, schedule: Schedule) returns (a: Assignments)
    ensures a.morning == NamesFor(schedule, staff, key, Morning)
    ensures a.afternoon == NamesFor(schedule, staff, key, Afternoon)
    ensures a.night == NamesFor(schedule, staff, key, Night)
    ensures a.off == []
  {
    a := Assignments([], [], [], []);
    var i := 0;
    while i < |schedule|
      invariant 0 <= i <= |schedule|
      invariant a.morning == NamesFor(schedule[..i], staff, key, Morning)
      invariant a.afternoon == NamesFor(schedule[..i], staff, key, Afternoon)
      invariant a.night == NamesFor(schedule[..i], staff, key, Night)
      invariant a.off == []
    {
      var s := schedule[i];
      NamesForStep(schedule, i, staff, key);
      if key in s.shifts && s.shifts[key].kind != OFF {
        var name := NameOf(staff, s.staffId);
        var t := s.shifts[key].kind;
        if t == Morning {
          a := a.(morning := a.morning + [name]);
        } else if t == Afternoon {
          a := a.(afternoon := a.afternoon + [name]);
        } else {
          a := a.(night := a.night + [name]);
        }
      }
      i := i + 1;
    }
    assert schedule[..i] == schedule;
  }

  // ---------------------------------------------------------------------
  // Lemmas
  // ---------------------------------------------------------------------

  lemma NamesForSnoc(rows: Schedule, row: StaffSchedule, staff: seq<Staff>, key: Key, t: ShiftType)
    ensures NamesFor(rows + [row], staff, key, t) ==
      NamesFor(rows, staff, key, t) + (if Contributes(row, key, t) then [NameOf(staff, row.staffId)] else [])
  {
    assert (rows + [row])[..|rows|] == rows;
  }

  lemma NamesForStep(rows: Schedule, i: int, staff: seq<Staff>, key: Key)
    requires 0 <= i < |rows|
    ensures forall t ::
              NamesFor(rows[..i + 1], staff, key, t) ==
              NamesFor(rows[..i], staff, key, t) + (if Contributes(rows[i], key, t) then [NameOf(staff, rows[i].staffId)] else [])
  {
    assert rows[..i + 1][..i] == rows[..i];
  }

  /** Each listed name comes from a row working that type, and each such row lists a name, in row order. */
  lemma {:induction false} NamesForRows(rows: Schedule, staff: seq<Staff>, key: Key, t: ShiftType)
    ensures forall n :: n in NamesFor(rows, staff, key, t) ==>
              exists i :: 0 <= i < |rows| && Contributes(rows[i], key, t) && n == NameOf(staff, rows[i].staffId)
    ensures forall i :: 0 <= i < |rows| && Contributes(rows[i], key, t) ==> NameOf(staff, rows[i].staffId) in NamesFor(rows, staff, key, t)
    decreases |rows|
  {
    if rows != [] {
      var init, last := rows[..|rows| - 1], rows[|rows| - 1];
      NamesForRows(init, staff, key, t);
      var before := NamesFor(init, staff, key, t);
      var extra := if Contributes(last, key, t) then [NameOf(staff, last.staffId)] else [];
      var names := NamesFor(rows, staff, key, t);
      assert names == before + extra;
      forall n | n in names ensures exists i :: 0 <= i < |rows| && Contributes(rows[i], key, t) && n == NameOf(staff, rows[i].staffId) {
        if n in before {
          assert exists i :: 0 <= i < |init| && Contributes(init[i], key, t) && n == NameOf(staff, init[i].staffId);
          var i :| 0 <= i < |init| && Contributes(init[i], key, t) && n == NameOf(staff, init[i].staffId);
          assert rows[i] == init[i];
        } else {
          assert n in extra;
          assert Contributes(rows[|rows| - 1], key, t) && n == NameOf(staff, rows[|rows| - 1].staffId);
        }
      }
      forall i | 0 <= i < |rows| && Contributes(rows[i], key, t) ensures NameOf(staff, rows[i].staffId) in names {
        if i < |rows| - 1 {
          assert rows[i] == init[i];
          assert NameOf(staff, init[i].staffId) in before;
        } else {
          assert NameOf(staff, last.staffId) in extra;
        }
      }
    }
  }

  /** No row ever lists a name under OFF, and an empty schedule lists no one. */
  lemma {:induction false} NamesForOffEmpty(rows: Schedule, staff: seq<Staff>, key: Key)
    ensures NamesFor(rows, staff, key, OFF) == []
    decreases |rows|
  {
    if rows != [] {
      NamesForOffEmpty(rows[..|rows| - 1], staff, key);
    }
  }

  /** A row with no shift for the date contributes nothing: the day's lists do not change when it is added. */
  lemma NoShiftNoName(rows: Schedule, row: StaffSchedule, staff: seq<Staff>, key: Key, t: ShiftType)
    requires key !in row.shifts
    ensures NamesFor(rows + [row], staff, key, t) == NamesFor(rows, staff, key, t)
  {
    NamesForSnoc(rows, row, staff, key, t);
  }

  /** An id missing from the staff list is shown with an empty name. */
  lemma {:induction false} UnknownStaffHasEmptyName(staff: seq<Staff>, id: string)
    requires forall s :: s in staff ==> s.id != id
    ensures NameOf(staff, id) == ""
    decreases |staff|
  {
    if staff != [] {
      assert staff[0] in staff;
      assert forall s :: s in staff[1..] ==> s in staff;
      UnknownStaffHasEmptyName(staff[1..], id);
    }
  }

  /** The number of names under a type is the number of rows working it. */
  lemma {:induction false} NamesForCount(rows: Schedule, staff: seq<Staff>, key: Key, t: ShiftType)
    ensures |NamesFor(rows, staff, key, t)| == |WorkingRows(rows, key, t)|
    decreases |rows|
  {
    if rows != [] {
      var n := |rows| - 1;
      NamesForCount(rows[..n], staff, key, t);
      WorkingRowsSnoc(rows, key, t);
      assert n !in WorkingRows(rows[..n], key, t);
    }
  }

  /** The indices of the rows that work type `t` on `key`. */
  ghost function WorkingRows(rows: Schedule, key: Key, t: ShiftType): set<int> {
    set i | 0 <= i < |rows| && Contributes(rows[i], key, t)
  }

  lemma WorkingRowsSnoc(rows: Schedule, key: Key, t: ShiftType)
    requires rows != []
    ensures WorkingRows(rows, key, t) ==
      WorkingRows(rows[..|rows| - 1], key, t) + (if Contributes(rows[|rows| - 1], key, t) then {|rows| - 1} else {})
  {
    var n := |rows| - 1;
    var init := rows[..n];
    var before, after := WorkingRows(init, key, t), WorkingRows(rows, key, t);
    var last := if Contributes(rows[n], key, t) then {n} else {};
    forall i ensures i in after <==> i in before + last {
      if 0 <= i < n {
        assert init[i] == rows[i];
      }
    }
  }
}
