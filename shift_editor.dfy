/**
 * The shift editor dialog: three state fields (type, start, end), loaded
 * from the cell's shift, changed by the type buttons and the two time
 * inputs, and emitted unchanged by Save.
 */
module ShiftEditor {
  import opened Types
  import opened ShiftCatalogue
  import opened Clock
  import opened ScheduleStore

  class Editor {
    var kind: ShiftType
    var startTime: Minutes
    var endTime: Minutes

    /** The shift the editor currently holds. */
    function Current(): Shift
      reads this
    {
      Shift(kind, startTime, endTime)
    }

    /** The time inputs are shown only for a working type. */
    predicate ShowsTimeInputs()
      reads this
    {
      kind != OFF
    }

    /** The initial state is the cell's shift. */
    constructor (currentShift: Shift)
      ensures Current() == currentShift
    {
      kind := currentShift.kind;
      startTime := currentShift.startTime;
      endTime := currentShift.endTime;
    }

    /** The effect that reloads all three fields whenever the cell's shift changes. */
    method Reset(currentShift: Shift)
      modifies this
      ensures Current() == currentShift
    {
      kind := currentShift.kind;
      startTime := currentShift.startTime;
      endTime := currentShift.endTime;
    }

    /**
     * `handleTypeChange`: OFF sets both times to 00:00; any other type loads
     * the two halves of its catalogue range.
     */
    method ChangeType(t: ShiftType)
      modifies this
      ensures Current() == DefaultShift(t)
      ensures t == OFF ==> startTime == 0 && endTime == 0
    {
      kind := t;
      if t == OFF {
        startTime := 0;
        endTime := 0;
      } else {
        var (start, end) := DefaultTimes(t);
        startTime := ClockMinutes(start);
        endTime := ClockMinutes(end);
      }
    }

    /** The start-time input: only the start changes, and nothing checks the value. */
    method SetStartTime(m: Minutes)
      modifies this
      ensures Current() == old(Current()).(startTime := m)
    {
      startTime := m;
    }

    /** The end-time input: only the end changes, and nothing checks the value. */
    method SetEndTime(m: Minutes)
      modifies this
      ensures Current() == old(Current()).(endTime := m)
    {
      endTime := m;
    }

    /** Save emits exactly the three fields, and changes nothing. */
    method Save() returns (s: Shift)
      ensures s.kind == kind && s.startTime == startTime && s.endTime == endTime
    {
      s := Shift(kind, startTime, endTime);
    }
  }

  /** Picking a type in the editor and saving writes the same cell value that a bulk paint of that type does. */
  lemma EditorTypeMatchesBulkPaint(s: Schedule, ctx: ShiftContext, t: ShiftType)
    ensures SaveShiftDetails(s, Wrappers.Some(ctx), DefaultShift(t)) == BulkPaint(s, ctx.staffId, ctx.date, t)
  {
  }

  /** Choosing a working type and then OFF leaves the editor as an OFF cell, 00:00 to 00:00. */
  method TypeThenOff(e: Editor, t: ShiftType)
    modifies e
    ensures e.Current() == OffShift
  {
    e.ChangeType(t);
    e.ChangeType(OFF);
  }
}
