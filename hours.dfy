/**
 * Working time per staff member and for the ward, in integer minutes (the
 * dashboard divides each shift's minutes by 60 and shows the float).
 */
module Hours {
  import opened Wrappers
  import opened DateKey
  import opened Types
  import opened ShiftCatalogue
  import opened ScheduleStore

  /**
   * Length of one shift: 0 for OFF; otherwise end minus start, with one day
   * added when that is negative (a shift that runs past midnight).
   */
  function ShiftMinutes(s: Shift): (r: int)
    ensures s.kind == OFF ==> r == 0
    ensures s.kind != OFF ==> r == s.endTime - s.startTime || r == s.endTime - s.startTime + MinutesPerDay
    ensures s.kind != OFF && ValidTimes(s) ==> 0 <= r < MinutesPerDay && (s.startTime + r) % MinutesPerDay == s.endTime
  {
    if s.kind == OFF then 0
    else
      var diff := s.endTime - s.startTime;
      if diff < 0 then diff + MinutesPerDay else diff
  }

  /** The `reduce` over all entries of a shift map; the order of the entries does not matter (`SumRemove`). */
  ghost function SumMinutes(m: map<Key, Shift>): int
    decreases |m.Keys|
  {
    if m == map[] then 0
    else
      var k :| k in m;
      ShiftMinutes(m[k]) + SumMinutes(m - {k})
  }

  /** Any entry may be taken out first: the sum does not depend on the order of the entries. */
  lemma {:induction false} SumRemove(m: map<Key, Shift>, k: Key)
    requires k in m
    ensures SumMinutes(m) == ShiftMinutes(m[k]) + SumMinutes(m - {k})
    decreases |m.Keys|
  {
    var j :| j in m && SumMinutes(m) == ShiftMinutes(m[j]) + SumMinutes(m - {j});
    if j != k {
      var mj, mk := m - {j}, m - {k};
      assert k in mj && j in mk;
      SumRemove(mj, k);
      SumRemove(mk, j);
      assert mj - {k} == mk - {j};
    }
  }

  /** Shifts that are all OFF sum to nothing. */
  lemma {:induction false} SumAllOff(m: map<Key, Shift>)
    requires forall k :: k in m ==> m[k].kind == OFF
    ensures SumMinutes(m) == 0
    decreases |m.Keys|
  {
    if m != map[] {
      var k :| k in m;
      SumRemove(m, k);
      SumAllOff(m - {k});
    }
  }

  /** With valid times, every shift contributes less than a day. */
  lemma {:induction false} SumBounds(m: map<Key, Shift>)
    requires forall k :: k in m ==> ValidTimes(m[k])
    ensures 0 <= SumMinutes(m) <= MinutesPerDay * |m|
    decreases |m.Keys|
  {
    if m != map[] {
      var k :| k in m;
      SumRemove(m, k);
      SumBounds(m - {k});
      assert |m - {k}| == |m| - 1;
    }
  }

  /** Writing one entry changes the sum by the new shift's minutes less the old one's. */
  lemma SumUpdate(m: map<Key, Shift>, k: Key, v: Shift)
    ensures SumMinutes(m[k := v]) == SumMinutes(m) - (if k in m then ShiftMinutes(m[k]) else 0) + ShiftMinutes(v)
  {
    var m' := m[k := v];
    SumRemove(m', k);
    if k in m {
      SumRemove(m, k);
      assert m' - {k} == m - {k};
    } else {
      assert m' - {k} == m;
    }
  }

  /** Adding OFF entries (and keeping every other one) does not change the sum. */
  lemma {:induction false} SumExtendOff(m: map<Key, Shift>, m': map<Key, Shift>)
    requires Extends(m, m')
    requires forall k :: k in m' && k !in m ==> m'[k].kind == OFF
    ensures SumMinutes(m') == SumMinutes(m)
    decreases |m'.Keys|
  {
    if m'.Keys != m.Keys {
      var k :| k in m' && k !in m;
      SumRemove(m', k);
      SumExtendOff(m, m' - {k});
    } else {
      assert m' == m;
    }
  }

  /** `getStaffTotalHours`, in minutes: 0 without a row, otherwise the sum over the first row found. */
  ghost function StaffTotalMinutes(s: Schedule, id: string): (r: int)
    ensures FindIndex(s, id).None? ==> r == 0
    ensures FindIndex(s, id).Some? && (forall k :: k in s[FindIndex(s, id).value].shifts ==> ValidTimes(s[FindIndex(s, id).value].shifts[k]))
      ==> 0 <= r <= MinutesPerDay * |s[FindIndex(s, id).value].shifts|
  {
    match FindIndex(s, id)
    case None => 0
    case Some(i) =>
      if forall k :: k in s[i].shifts ==> ValidTimes(s[i].shifts[k]) then
        SumBounds(s[i].shifts); SumMinutes(s[i].shifts)
      else SumMinutes(s[i].shifts)
  }

  /** The ward total: the sum of every rostered staff member's minutes. */
  ghost function WardTotalMinutes(staff: seq<Staff>, s: Schedule): int {
    if staff == [] then 0 else StaffTotalMinutes(s, staff[0].id) + WardTotalMinutes(staff[1..], s)
  }

  /** Each non-OFF default shift of the catalogue lasts eight hours. */
  lemma DefaultShiftLengths(t: ShiftType)
    ensures ShiftMinutes(DefaultShift(t)) == if t == OFF then 0 else 480
  {
    DefaultShiftMinutes();
  }

  /** The back-fill adds only OFF shifts, so it leaves every staff member's total as it was. */
  lemma BackFillKeepsHours(s: Schedule, ids: seq<string>, dates: seq<Key>, id: string)
    ensures StaffTotalMinutes(BackFill(s, ids, dates), id) == StaffTotalMinutes(s, id)
  {
    var r := BackFill(s, ids, dates);
    BackFillGrows(s, ids, dates);
    match FindIndex(s, id)
    case Some(i) =>
      GrowsKeepsFind(s, r, id);
      SumExtendOff(s[i].shifts, r[i].shifts);
    case None =>
      FindFromAbsent(s, r, id, 0);
      match FindIndex(r, id)
      case None =>
      case Some(j) =>
        SumAllOff(r[j].shifts);
  }

  /** Nor does the back-fill change the ward total. */
  lemma {:induction false} BackFillKeepsWardHours(staff: seq<Staff>, s: Schedule, ids: seq<string>, dates: seq<Key>)
    ensures WardTotalMinutes(staff, BackFill(s, ids, dates)) == WardTotalMinutes(staff, s)
  {
    if staff != [] {
      BackFillKeepsHours(s, ids, dates, staff[0].id);
      BackFillKeepsWardHours(staff[1..], s, ids, dates);
    }
  }

  /** A single-cell write moves that staff member's total by the new shift less the old one. */
  lemma SetCellHours(s: Schedule, id: string, key: Key, shift: Shift)
    requires FindIndex(s, id).Some?
    ensures var old_ := ShiftAt(s, id, key);
      StaffTotalMinutes(SetCell(s, id, key, shift), id) ==
        StaffTotalMinutes(s, id) - (if old_.Some? then ShiftMinutes(old_.value) else 0) + ShiftMinutes(shift)
  {
    var r := SetCell(s, id, key, shift);
    var i := FindIndex(s, id).value;
    FindFromInPrefix(s, r, id, 0);
    SumUpdate(s[i].shifts, key, shift);
  }

  /** A bulk paint of a non-OFF type onto an OFF cell adds eight hours. */
  lemma BulkPaintOnOffAddsEightHours(s: Schedule, id: string, key: Key, t: ShiftType)
    requires FindIndex(s, id).Some?
    requires ShiftAt(s, id, key).None? || ShiftAt(s, id, key).value.kind == OFF
    requires t != OFF
    ensures StaffTotalMinutes(BulkPaint(s, id, key, t), id) == StaffTotalMinutes(s, id) + 480
  {
    SetCellHours(s, id, key, DefaultShift(t));
    DefaultShiftLengths(t);
  }
}
