/**
 * The dashboard's records.  Times of day are minutes since midnight (the
 * source keeps them as `HH:mm` text; module Clock relates the two), and
 * dates are `YYYY-MM-DD` keys (module DateKey).
 */
module Types {
  import opened Wrappers
  import opened DateKey

  datatype ShiftType = Morning | Afternoon | Night | OFF

  /** The four shift types in the order the toolbars list them. */
  const AllShiftTypes: seq<ShiftType> := [Morning, Afternoon, Night, OFF]

  /** Minutes since midnight. */
  type Minutes = int

  const MinutesPerDay: int := 24 * 60

  datatype Shift = Shift(kind: ShiftType, startTime: Minutes, endTime: Minutes)

  /** The shift every missing cell stands for: OFF from 00:00 to 00:00. */
  const OffShift: Shift := Shift(OFF, 0, 0)

  /**
   * Availability preferences.  `allowedShifts` is optional: records that
   * predate it lack the field, and both readers of it test for its absence.
   */
  datatype StaffPreferences = StaffPreferences(
    unavailableDays: seq<int>,
    unavailableDates: seq<Key>,
    preferredDates: seq<Key>,
    allowedShifts: Option<seq<ShiftType>>)

  datatype PresenceStatus = Online | Offline

  datatype Staff = Staff(
    id: string,
    name: string,
    role: string,
    phone: string,
    avatarUrl: string,
    status: PresenceStatus,
    preferences: Option<StaffPreferences>)

  /** One row of the schedule: a staff id and that member's shifts by date key. */
  datatype StaffSchedule = StaffSchedule(staffId: string, shifts: map<Key, Shift>)

  /** A column of the main table. `isWeekend` is absent in the day view. */
  datatype DailySchedule = DailySchedule(date: Key, dayName: string, isToday: bool, isWeekend: Option<bool>)

  datatype SwapStatus = Pending | Approved | Rejected

  datatype SwapRequest = SwapRequest(
    id: string,
    fromStaffId: string,
    toStaffId: string,
    date: Key,
    reason: string,
    status: SwapStatus)

  datatype ViewMode = Day | Week | Month | Calendar

  /** Shift times that a time input can produce: both within one day. */
  predicate ValidTimes(s: Shift) {
    0 <= s.startTime < MinutesPerDay && 0 <= s.endTime < MinutesPerDay
  }

  /** What the type comments promise of preferences: weekdays 0..6, dates as keys. */
  predicate WellFormedPreferences(p: StaffPreferences) {
    && (forall k :: k in p.unavailableDays ==> 0 <= k < 7)
    && (forall d :: d in p.unavailableDates ==> ParseIsoKey(d).Some?)
    && (forall d :: d in p.preferredDates ==> ParseIsoKey(d).Some?)
  }

  function StaffIds(staff: seq<Staff>): (ids: seq<string>)
    ensures |ids| == |staff|
    ensures forall i :: 0 <= i < |staff| ==> ids[i] == staff[i].id
  {
    if staff == [] then [] else [staff[0].id] + StaffIds(staff[1..])
  }

  /** Two rosters whose records carry the same ids in the same order have the same id list. */
  lemma SameStaffIds(a: seq<Staff>, b: seq<Staff>)
    requires |a| == |b| && forall i :: 0 <= i < |a| ==> a[i].id == b[i].id
    ensures StaffIds(a) == StaffIds(b)
  {
    var x, y := StaffIds(a), StaffIds(b);
    assert forall i :: 0 <= i < |x| ==> x[i] == y[i];
  }
}
