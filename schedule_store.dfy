/**
 * The schedule: an array of rows, one per staff member, each mapping date
 * keys to shifts.  Rows are looked up with `find`, so when two rows share a
 * staff id only the first is read; the back-fill never creates such a pair.
 */
module ScheduleStore {
  import opened Wrappers
  import opened DateKey
  import opened Types
  import opened ShiftCatalogue

  type Schedule = seq<StaffSchedule>

  /** Index of the first row at or after `from` for `id`, as `find` locates it. */
  function FindFrom(s: Schedule, id: string, from: nat): (r: Option<nat>)
    requires from <= |s|
    ensures r.Some? ==> from <= r.value < |s| && s[r.value].staffId == id
    ensures r.Some? ==> forall j :: from <= j < r.value ==> s[j].staffId != id
    ensures r.None? ==> forall j :: from <= j < |s| ==> s[j].staffId != id
    decreases |s| - from
  {
    if from == |s| then None
    else if s[from].staffId == id then Some(from)
    else FindFrom(s, id, from + 1)
  }

  /** `schedule.find(s => s.staffId === id)`, as an index. */
  function FindIndex(s: Schedule, id: string): Option<nat> {
    FindFrom(s, id, 0)
  }

  /** `staffSched?.shifts[date]`: the shift stored for a staff member and date, if any. */
  function ShiftAt(s: Schedule, id: string, key: Key): Option<Shift> {
    match FindIndex(s, id)
    case None => None
    case Some(i) => if key in s[i].shifts then Some(s[i].shifts[key]) else None
  }

  /** The shift the editor opens with: the stored one, or OFF when there is none. */
  function ShiftOrOff(s: Schedule, id: string, key: Key): (r: Shift)
    ensures ShiftAt(s, id, key).None? ==> r == OffShift
    ensures ShiftAt(s, id, key).Some? ==> r == ShiftAt(s, id, key).value
  {
    ShiftAt(s, id, key).GetOr(OffShift)
  }

  /** No staff id has two rows. */
  ghost predicate NoDupIds(s: Schedule) {
    forall i, j :: 0 <= i < j < |s| ==> s[i].staffId != s[j].staffId
  }

  /** `m'` keeps every entry of `m`, with the same value. */
  ghost predicate Extends(m: map<Key, Shift>, m': map<Key, Shift>) {
    forall k :: k in m ==> k in m' && m'[k] == m[k]
  }

  /** `t` keeps every row of `s` in place, for the same staff, with no shift removed or changed. */
  ghost predicate Grows(s: Schedule, t: Schedule) {
    && |s| <= |t|
    && (forall i :: 0 <= i < |s| ==> t[i].staffId == s[i].staffId && Extends(s[i].shifts, t[i].shifts))
  }

  /** The row found for `id` holds a shift for each of `dates`. */
  ghost predicate Covers(s: Schedule, id: string, dates: seq<Key>) {
    FindIndex(s, id).Some? && forall d :: d in dates ==> d in s[FindIndex(s, id).value].shifts
  }

  // ---------------------------------------------------------------------
  // Back-fill
  // ---------------------------------------------------------------------

  /** Adds an OFF shift for every date of `dates` that `shifts` lacks; keeps every other entry. */
  function FillDates(shifts: map<Key, Shift>, dates: seq<Key>): (r: map<Key, Shift>)
    ensures r.Keys == shifts.Keys + set d | d in dates
    ensures Extends(shifts, r)
    ensures forall k :: k in r && k !in shifts ==> r[k] == OffShift
    decreases |dates|
  {
    if dates == [] then shifts
    else FillDates(if dates[0] in shifts then shifts else shifts[dates[0] := OffShift], dates[1..])
  }

  /** One staff member's turn of the back-fill: find (or append) the row, then fill its dates. */
  function FillStaff(s: Schedule, id: string, dates: seq<Key>): Schedule {
    match FindIndex(s, id)
    case Some(i) => s[i := s[i].(shifts := FillDates(s[i].shifts, dates))]
    case None => s + [StaffSchedule(id, FillDates(map[], dates))]
  }

  /** The back-fill effect: each staff id in turn, in roster order. */
  function BackFill(s: Schedule, ids: seq<string>, dates: seq<Key>): Schedule
    decreases |ids|
  {
    if ids == [] then s else BackFill(FillStaff(s, ids[0], dates), ids[1..], dates)
  }

  /**
   * The back-fill as the effect runs it: for each staff id, find its row or
   * push a new empty one, then give it an OFF shift for every visible date
   * it lacks.
   */
  method SyncSchedule(prev: Schedule, staffIds: seq<string>, dates: seq<Key>) returns (next: Schedule)
    ensures next == BackFill(prev, staffIds, dates)
  {
    next := prev;
    var i := 0;
    while i < |staffIds|
      invariant 0 <= i <= |staffIds|
      invariant BackFill(next, staffIds[i..], dates) == BackFill(prev, staffIds, dates)
    {
      var id := staffIds[i];
      var found := FindIndex(next, id);
      ghost var before := next;
      var k: nat;
      if found.None? {
        next := next + [StaffSchedule(id, map[])];
        k := |next| - 1;
      } else {
        k := found.value;
      }
      var shifts := next[k].shifts;
      var j := 0;
      while j < |dates|
        invariant 0 <= j <= |dates|
        invariant FillDates(shifts, dates[j..]) == FillDates(next[k].shifts, dates)
      {
        if dates[j] !in shifts {
          shifts := shifts[dates[j] := OffShift];
        }
        j := j + 1;
      }
      assert dates[j..] == [];
      next := next[k := next[k].(shifts := shifts)];
      assert next == FillStaff(before, id, dates);
      assert staffIds[i..][1..] == staffIds[i + 1..];
      i := i + 1;
    }
  }

  lemma FindFromInPrefix(s: Schedule, t: Schedule, id: string, from: nat)
    requires from <= |s| <= |t|
    requires forall i :: 0 <= i < |s| ==> t[i].staffId == s[i].staffId
    requires FindFrom(s, id, from).Some?
    ensures FindFrom(t, id, from) == FindFrom(s, id, from)
    decreases |s| - from
  {
    if s[from].staffId != id {
      FindFromInPrefix(s, t, id, from + 1);
    }
  }

  lemma FindFromAbsent(s: Schedule, t: Schedule, id: string, from: nat)
    requires from <= |s| <= |t|
    requires forall i :: 0 <= i < |s| ==> t[i].staffId == s[i].staffId
    requires FindFrom(s, id, from).None?
    ensures FindFrom(t, id, from) == FindFrom(t, id, |s|)
    decreases |s| - from
  {
    if from < |s| {
      FindFromAbsent(s, t, id, from + 1);
    }
  }

  /** A row that is found stays the one found, once the schedule grows. */
  lemma GrowsKeepsFind(s: Schedule, t: Schedule, id: string)
    requires Grows(s, t) && FindIndex(s, id).Some?
    ensures FindIndex(t, id) == FindIndex(s, id)
  {
    FindFromInPrefix(s, t, id, 0);
  }

  lemma GrowsTransitive(a: Schedule, b: Schedule, c: Schedule)
    requires Grows(a, b) && Grows(b, c)
    ensures Grows(a, c)
  {
  }

  lemma GrowsKeepsCover(s: Schedule, t: Schedule, id: string, dates: seq<Key>)
    requires Grows(s, t) && Covers(s, id, dates)
    ensures Covers(t, id, dates)
  {
    GrowsKeepsFind(s, t, id);
  }

  /** One turn of the back-fill only grows the schedule, covers its id, and adds only OFF shifts. */
  lemma FillStaffFacts(s: Schedule, id: string, dates: seq<Key>)
    ensures Grows(s, FillStaff(s, id, dates))
    ensures Covers(FillStaff(s, id, dates), id, dates)
    ensures NoDupIds(s) ==> NoDupIds(FillStaff(s, id, dates))
    ensures |FillStaff(s, id, dates)| <= |s| + 1
    ensures |FillStaff(s, id, dates)| == |s| + 1 ==> FindIndex(s, id).None? && FillStaff(s, id, dates)[|s|].staffId == id
  {
    var t := FillStaff(s, id, dates);
    match FindIndex(s, id)
    case Some(i) =>
      GrowsKeepsFind(s, t, id);
    case None =>
      FindFromAbsent(s, t, id, 0);
  }

  /** A turn of the back-fill changes nothing when its id is already covered. */
  lemma FillStaffCovered(s: Schedule, id: string, dates: seq<Key>)
    requires Covers(s, id, dates)
    ensures FillStaff(s, id, dates) == s
  {
    var i := FindIndex(s, id).value;
    assert FillDates(s[i].shifts, dates) == s[i].shifts;
    assert s[i := s[i].(shifts := s[i].shifts)] == s;
  }

  /**
   * The back-fill only adds: every old row stays in place for the same staff
   * member with every old shift unchanged, new rows belong to roster ids,
   * and every shift it adds is OFF.
   */
  lemma {:induction false} BackFillGrows(s: Schedule, ids: seq<string>, dates: seq<Key>)
    ensures Grows(s, BackFill(s, ids, dates))
    ensures forall i :: |s| <= i < |BackFill(s, ids, dates)| ==> BackFill(s, ids, dates)[i].staffId in ids
    ensures forall i, k ::
              (0 <= i < |BackFill(s, ids, dates)| && k in BackFill(s, ids, dates)[i].shifts && (i >= |s| || k !in s[i].shifts))
              ==> BackFill(s, ids, dates)[i].shifts[k] == OffShift
    decreases |ids|
  {
    if ids != [] {
      var s1 := FillStaff(s, ids[0], dates);
      FillStaffFacts(s, ids[0], dates);
      BackFillGrows(s1, ids[1..], dates);
      GrowsTransitive(s, s1, BackFill(s1, ids[1..], dates));
      var r := BackFill(s, ids, dates);
      forall i | |s| <= i < |r| ensures r[i].staffId in ids {
        if i < |s1| {
          assert r[i].staffId == s1[i].staffId == ids[0];
        } else {
          assert r[i].staffId in ids[1..];
        }
      }
      forall i, k | 0 <= i < |r| && k in r[i].shifts && (i >= |s| || k !in s[i].shifts)
        ensures r[i].shifts[k] == OffShift
      {
        if i < |s1| && k in s1[i].shifts {
          assert r[i].shifts[k] == s1[i].shifts[k];
          FillStaffAddsOff(s, ids[0], dates, i, k);
        }
      }
    }
  }

  /** A shift one turn of the back-fill adds, in an old row or a new one, is OFF. */
  lemma FillStaffAddsOff(s: Schedule, id: string, dates: seq<Key>, i: int, k: Key)
    requires 0 <= i < |FillStaff(s, id, dates)| && k in FillStaff(s, id, dates)[i].shifts
    requires i >= |s| || k !in s[i].shifts
    ensures FillStaff(s, id, dates)[i].shifts[k] == OffShift
  {
    FillStaffFacts(s, id, dates);
    var s1 := FillStaff(s, id, dates);
    if i < |s| {
      assert s1[i].shifts == FillDates(s[i].shifts, dates);
    } else {
      assert s1[i].shifts == FillDates(map[], dates);
    }
  }

  /** After the back-fill every roster id has a row holding a shift for every visible date. */
  lemma {:induction false} BackFillCovers(s: Schedule, ids: seq<string>, dates: seq<Key>)
    ensures forall id :: id in ids ==> Covers(BackFill(s, ids, dates), id, dates)
    decreases |ids|
  {
    if ids != [] {
      var s1 := FillStaff(s, ids[0], dates);
      FillStaffFacts(s, ids[0], dates);
      BackFillCovers(s1, ids[1..], dates);
      BackFillGrows(s1, ids[1..], dates);
      GrowsKeepsCover(s1, BackFill(s1, ids[1..], dates), ids[0], dates);
    }
  }

  /** The back-fill never gives a staff id a second row. */
  lemma {:induction false} BackFillNoDup(s: Schedule, ids: seq<string>, dates: seq<Key>)
    requires NoDupIds(s)
    ensures NoDupIds(BackFill(s, ids, dates))
    decreases |ids|
  {
    if ids != [] {
      FillStaffFacts(s, ids[0], dates);
      BackFillNoDup(FillStaff(s, ids[0], dates), ids[1..], dates);
    }
  }

  /** On a schedule that already covers every roster id, the back-fill changes nothing. */
  lemma {:induction false} BackFillCoveredIsIdentity(s: Schedule, ids: seq<string>, dates: seq<Key>)
    requires forall id :: id in ids ==> Covers(s, id, dates)
    ensures BackFill(s, ids, dates) == s
    decreases |ids|
  {
    if ids != [] {
      FillStaffCovered(s, ids[0], dates);
      BackFillCoveredIsIdentity(s, ids[1..], dates);
    }
  }

  /** Running the back-fill twice equals running it once. */
  lemma BackFillIdempotent(s: Schedule, ids: seq<string>, dates: seq<Key>)
    ensures BackFill(BackFill(s, ids, dates), ids, dates) == BackFill(s, ids, dates)
  {
    BackFillCovers(s, ids, dates);
    BackFillCoveredIsIdentity(BackFill(s, ids, dates), ids, dates);
  }

  /**
   * With one row per id beforehand, each roster id ends with exactly one row,
   * and that row holds a shift for every visible date.
   */
  lemma BackFillOneRowEach(s: Schedule, ids: seq<string>, dates: seq<Key>)
    requires NoDupIds(s)
    ensures var r := BackFill(s, ids, dates);
      forall id :: id in ids ==>
        && FindIndex(r, id).Some?
        && (forall i :: 0 <= i < |r| && r[i].staffId == id ==> i == FindIndex(r, id).value)
        && (forall d :: d in dates ==> ShiftAt(r, id, d).Some?)
  {
    BackFillCovers(s, ids, dates);
    BackFillNoDup(s, ids, dates);
  }

  // ---------------------------------------------------------------------
  // Single-cell writes
  // ---------------------------------------------------------------------

  /** `prev.map(item => item.staffId === id ? {...item, shifts: {...item.shifts, [key]: shift}} : item)`. */
  function SetCell(s: Schedule, id: string, key: Key, shift: Shift): (r: Schedule)
    ensures |r| == |s|
    ensures forall i :: 0 <= i < |s| ==> r[i].staffId == s[i].staffId
  {
    seq(|s|, i requires 0 <= i < |s| =>
      if s[i].staffId == id then s[i].(shifts := s[i].shifts[key := shift]) else s[i])
  }

  /**
   * Reading after a write: the written cell reads back the new shift (when
   * the staff member has a row), and every other cell reads as before.
   */
  lemma SetCellThenRead(s: Schedule, id: string, key: Key, shift: Shift, id': string, key': Key)
    ensures ShiftAt(SetCell(s, id, key, shift), id', key') ==
      if id' == id && key' == key && FindIndex(s, id).Some? then Some(shift) else ShiftAt(s, id', key')
  {
    var r := SetCell(s, id, key, shift);
    if FindIndex(s, id').Some? {
      FindFromInPrefix(s, r, id', 0);
    } else {
      FindFromAbsent(s, r, id', 0);
    }
  }

  /** A write touches only the rows of its staff id, and only at its key. */
  lemma SetCellFrame(s: Schedule, id: string, key: Key, shift: Shift)
    ensures var r := SetCell(s, id, key, shift);
      forall i :: 0 <= i < |s| ==>
        (s[i].staffId != id ==> r[i] == s[i]) &&
        (forall k :: k != key ==> (k in r[i].shifts <==> k in s[i].shifts)) &&
        (forall k :: k != key && k in s[i].shifts ==> r[i].shifts[k] == s[i].shifts[k])
  {
  }

  /** A write keeps one row per id. */
  lemma SetCellNoDup(s: Schedule, id: string, key: Key, shift: Shift)
    requires NoDupIds(s)
    ensures NoDupIds(SetCell(s, id, key, shift))
  {
  }

  /**
   * Bulk paint: the clicked cell gets the catalogue default of the selected
   * type (OFF as 00:00-00:00).  Availability plays no part in the write.
   */
  function BulkPaint(s: Schedule, staffId: string, key: Key, t: ShiftType): (r: Schedule)
    ensures |r| == |s|
    ensures FindIndex(s, staffId).None? ==> r == s
    ensures FindIndex(s, staffId).Some? ==>
      ShiftAt(r, staffId, key) == Some(DefaultShift(t)) && (t == OFF ==> ShiftAt(r, staffId, key) == Some(OffShift))
    ensures forall id, k :: id != staffId || k != key ==> ShiftAt(r, id, k) == ShiftAt(s, id, k)
  {
    var r := SetCell(s, staffId, key, DefaultShift(t));
    SetCellThenRead(s, staffId, key, DefaultShift(t), staffId, key);
    forall id, k | id != staffId || k != key ensures ShiftAt(r, id, k) == ShiftAt(s, id, k) {
      SetCellThenRead(s, staffId, key, DefaultShift(t), id, k);
    }
    r
  }

  /** The cell the shift editor was opened on. */
  datatype ShiftContext = ShiftContext(staffId: string, date: Key, shift: Shift, staffName: string)

  /** Saving the editor: overwrite the context's cell, or nothing when no context is active. */
  function SaveShiftDetails(s: Schedule, ctx: Option<ShiftContext>, updated: Shift): (r: Schedule)
    ensures ctx.None? ==> r == s
    ensures ctx.Some? && FindIndex(s, ctx.value.staffId).Some? ==>
      ShiftAt(r, ctx.value.staffId, ctx.value.date) == Some(updated)
    ensures ctx.Some? ==> forall id, k :: id != ctx.value.staffId || k != ctx.value.date ==> ShiftAt(r, id, k) == ShiftAt(s, id, k)
  {
    match ctx
    case None => s
    case Some(c) =>
      var r := SetCell(s, c.staffId, c.date, updated);
      SetCellThenRead(s, c.staffId, c.date, updated, c.staffId, c.date);
      forall id, k | id != c.staffId || k != c.date ensures ShiftAt(r, id, k) == ShiftAt(s, id, k) {
        SetCellThenRead(s, c.staffId, c.date, updated, id, k);
      }
      r
  }
}
