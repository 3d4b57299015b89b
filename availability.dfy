/**
 * What a cell of the main table shows: the availability flags read from a
 * staff member's preferences, the bulk-mode dimming, and the face of the
 * cell (the shift, or for an OFF cell the blocked / preferred / free glyph).
 */
module Availability {
  import opened Wrappers
  import opened CivilDate
  import opened DateKey
  import opened Types
  import opened ShiftCatalogue
  import opened ScheduleStore

  /** The date is in the member's `unavailableDates`. */
  predicate IsSpecificUnavailable(staff: Staff, key: Key) {
    staff.preferences.Some? && key in staff.preferences.value.unavailableDates
  }

  /** Weekday of a key as `new Date(key).getDay()`: none for a key that is not a date. */
  function KeyWeekday(key: Key): (w: Option<int>)
    ensures w.Some? ==> 0 <= w.value < 7
  {
    match ParseIsoKey(key)
    case Some(d) => if ValidDate(d) then Some(Weekday(d)) else None
    case None => None
  }

  /** The date falls on one of the member's `unavailableDays`; an unreadable key never does. */
  predicate IsWeeklyUnavailable(staff: Staff, key: Key) {
    && staff.preferences.Some?
    && KeyWeekday(key).Some?
    && KeyWeekday(key).value in staff.preferences.value.unavailableDays
  }

  /** The date is in the member's `preferredDates`. */
  predicate IsPreferred(staff: Staff, key: Key) {
    staff.preferences.Some? && key in staff.preferences.value.preferredDates
  }

  predicate IsBlocked(staff: Staff, key: Key) {
    IsSpecificUnavailable(staff, key) || IsWeeklyUnavailable(staff, key)
  }

  /**
   * `!preferences?.allowedShifts || allowedShifts.includes(selected)`: only a
   * missing list allows everything; an empty list allows nothing.
   */
  predicate IsAllowed(staff: Staff, selected: ShiftType) {
    || staff.preferences.None?
    || staff.preferences.value.allowedShifts.None?
    || selected in staff.preferences.value.allowedShifts.value
  }

  /** A cell is greyed out in bulk mode when the selected non-OFF type is not allowed. */
  predicate IsDimmed(bulkMode: bool, staff: Staff, selected: ShiftType) {
    bulkMode && !IsAllowed(staff, selected) && selected != OFF
  }

  /** What a cell shows. `RenderError` stands for the exception a render throws. */
  datatype CellFace =
    | ShiftFace(displayLabel: string, startTime: Minutes, endTime: Minutes)
    | BlockedFace
    | PreferredFace
    | FreeFace
    | RenderError

  /**
   * The cell as written: any cell whose shift is not OFF shows the label and
   * the shift's times, and that includes a cell with no shift at all, whose
   * times cannot be read.
   */
  function CellViewAsWritten(shift: Option<Shift>, blocked: bool, preferred: bool): CellFace {
    match shift
    case None => RenderError
    case Some(s) =>
      if s.kind != OFF then ShiftFace(Config(s.kind).displayLabel, s.startTime, s.endTime)
      else if blocked then BlockedFace
      else if preferred then PreferredFace
      else FreeFace
  }

  /**
   * The cell as intended: a missing shift reads as OFF, as everywhere else
   * in the dashboard (the editor opens a missing cell as OFF).
   */
  function CellView(shift: Option<Shift>, blocked: bool, preferred: bool): (f: CellFace)
    ensures f != RenderError
    ensures f.ShiftFace? <==> shift.Some? && shift.value.kind != OFF
    ensures blocked && !f.ShiftFace? ==> f == BlockedFace
    ensures f == PreferredFace ==> preferred && !blocked
  {
    CellViewAsWritten(Some(shift.GetOr(OffShift)), blocked, preferred)
  }

  /** The face of one (staff, date) cell of the table, from the schedule. */
  function CellOf(s: Schedule, staff: Staff, key: Key): CellFace {
    CellView(ShiftAt(s, staff.id, key), IsBlocked(staff, key), IsPreferred(staff, key))
  }

  // ---------------------------------------------------------------------
  // Lemmas
  // ---------------------------------------------------------------------

  /** For a key written from a date, weekly unavailability is exactly that date's weekday being listed. */
  lemma WeeklyUnavailableOfDate(staff: Staff, d: Date)
    requires ValidDate(d) && 0 <= d.year <= 9999
    ensures IsWeeklyUnavailable(staff, IsoKey(d)) <==>
      staff.preferences.Some? && Weekday(d) in staff.preferences.value.unavailableDays
  {
    ParseIsoKeyRoundTrip(d);
  }

  /** A key that is not a date never blocks by weekday. */
  lemma UnreadableKeyNotWeekly(staff: Staff, key: Key)
    requires ParseIsoKey(key).None?
    ensures !IsWeeklyUnavailable(staff, key)
  {
  }

  /** A member without preferences is never blocked, never preferred, and may take every shift. */
  lemma NoPreferencesAllowsAll(staff: Staff, key: Key, t: ShiftType)
    requires staff.preferences.None?
    ensures !IsBlocked(staff, key) && !IsPreferred(staff, key) && IsAllowed(staff, t)
    ensures forall bulk :: !IsDimmed(bulk, staff, t)
  {
  }

  /** An empty `allowedShifts` list allows no type at all. */
  lemma EmptyAllowedListAllowsNothing(staff: Staff)
    requires staff.preferences.Some? && staff.preferences.value.allowedShifts == Some([])
    ensures forall t :: !IsAllowed(staff, t)
    ensures forall t :: t != OFF ==> IsDimmed(true, staff, t)
  {
  }

  /** Selecting OFF never dims a cell, whatever the list says. */
  lemma OffNeverDimmed(bulk: bool, staff: Staff)
    ensures !IsDimmed(bulk, staff, OFF)
  {
  }

  /** The default list of the preference editor allows every working type but not OFF. */
  lemma DefaultAllowedList(staff: Staff, t: ShiftType)
    requires staff.preferences.Some? && staff.preferences.value.allowedShifts == Some([Morning, Afternoon, Night])
    ensures IsAllowed(staff, t) <==> t != OFF
    ensures !IsDimmed(true, staff, t)
  {
  }

  /** On an OFF cell a blocked date shows the blocked glyph even when it is also preferred. */
  lemma BlockedBeatsPreferred(s: Schedule, staff: Staff, key: Key)
    requires ShiftAt(s, staff.id, key).None? || ShiftAt(s, staff.id, key).value.kind == OFF
    requires IsBlocked(staff, key)
    ensures CellOf(s, staff, key) == BlockedFace
  {
  }

  /** A working shift always shows its catalogue label and its own times, whatever the preferences. */
  lemma WorkingShiftShowsTimes(s: Schedule, staff: Staff, key: Key)
    requires ShiftAt(s, staff.id, key).Some? && ShiftAt(s, staff.id, key).value.kind != OFF
    ensures var sh := ShiftAt(s, staff.id, key).value;
      CellOf(s, staff, key) == ShiftFace(Config(sh.kind).displayLabel, sh.startTime, sh.endTime)
  {
  }

  /** Where a shift exists, the cell as written and the corrected cell agree. */
  lemma CellViewAgreesOnStoredShifts(shift: Shift, blocked: bool, preferred: bool)
    ensures CellViewAsWritten(Some(shift), blocked, preferred) == CellView(Some(shift), blocked, preferred)
  {
  }

  /**
   * The cell as written fails on the very first render: the schedule starts
   * empty and is back-filled only after the table has been drawn once, so
   * the first staff member's first visible cell has no shift.
   */
  lemma FirstRenderFails(staff: Staff, key: Key)
    ensures ShiftAt([], staff.id, key).None?
    ensures CellViewAsWritten(ShiftAt([], staff.id, key), IsBlocked(staff, key), IsPreferred(staff, key)) == RenderError
    ensures CellView(ShiftAt([], staff.id, key), IsBlocked(staff, key), IsPreferred(staff, key)) != RenderError
  {
  }

  /** Once the back-fill has run, every cell of the visible window renders, as written too. */
  lemma BackFilledCellsRender(s: Schedule, staff: seq<Staff>, dates: seq<Key>, m: Staff, key: Key)
    requires NoDupIds(s)
    requires m in staff && key in dates
    ensures var r := BackFill(s, StaffIds(staff), dates);
      CellViewAsWritten(ShiftAt(r, m.id, key), IsBlocked(m, key), IsPreferred(m, key)) != RenderError
  {
    var ids := StaffIds(staff);
    var i :| 0 <= i < |staff| && staff[i] == m;
    assert ids[i] == m.id;
    BackFillOneRowEach(s, ids, dates);
  }
}
