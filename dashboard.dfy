/**
 * The dashboard's own state and handlers: the roster, the schedule, the
 * swap ledger and the view, each handler a state transition built from the
 * operations of the other modules.
 */
module Dashboard {
  import opened Wrappers
  import opened CivilDate
  import opened DateKey
  import opened Types
  import opened ShiftCatalogue
  import opened ScheduleStore
  import opened ViewWindow
  import opened SwapForm

  /** The roster the dashboard starts with: the seed staff, each given the same phone number. */
  function InitialStaffList(): (staff: seq<Staff>)
    ensures |staff| == 5 && StaffIds(staff) == ["s1", "s2", "s3", "s4", "s5"]
    ensures forall i :: 0 <= i < 5 ==> staff[i] == StaffData()[i].(phone := "081-234-5678")
  {
    StaffDataIds();
    WithPhone(StaffData(), "081-234-5678")
  }

  /** Every record of `seed` given the phone number `phone`, ids and order kept. */
  function WithPhone(seed: seq<Staff>, phone: string): (staff: seq<Staff>)
    ensures |staff| == |seed| && StaffIds(staff) == StaffIds(seed)
    ensures forall i :: 0 <= i < |seed| ==> staff[i] == seed[i].(phone := phone)
  {
    var staff := seq(|seed|, i requires 0 <= i < |seed| => seed[i].(phone := phone));
    SameStaffIds(staff, seed);
    staff
  }

  /**
   * `handleSaveStaff`: while a record is being edited, every record with
   * the saved id is replaced; otherwise the record is appended.
   */
  function SaveStaff(list: seq<Staff>, editing: Option<Staff>, staff: Staff): (r: seq<Staff>)
    ensures editing.None? ==> r == list + [staff]
    ensures editing.Some? ==>
      && |r| == |list|
      && forall i :: 0 <= i < |list| ==> r[i] == if list[i].id == staff.id then staff else list[i]
  {
    if editing.Some? then seq(|list|, i requires 0 <= i < |list| => if list[i].id == staff.id then staff else list[i])
    else list + [staff]
  }

  /** `handleSwapRequest`: the request is appended, `pending`, and the earlier ones are kept. */
  function AppendSwapRequest(ledger: seq<SwapRequest>, data: SwapData, freshId: string): (r: seq<SwapRequest>)
    ensures |r| == |ledger| + 1 && r[..|ledger|] == ledger
    ensures r[|ledger|] == SwapRequest(freshId, data.fromStaff, data.toStaff, data.date, data.reason, Pending)
  {
    ledger + [SwapRequest(freshId, data.fromStaff, data.toStaff, data.date, data.reason, Pending)]
  }

  // ---------------------------------------------------------------------
  // Lemmas about the roster
  // ---------------------------------------------------------------------

  /** An edit keeps every id in place, so the back-fill sees the same roster. */
  lemma SaveStaffEditKeepsIds(list: seq<Staff>, editing: Staff, staff: Staff)
    ensures StaffIds(SaveStaff(list, Some(editing), staff)) == StaffIds(list)
  {
  }

  /** Saving an edit whose id is not on the roster changes nothing (no error is raised). */
  lemma SaveStaffEditUnknownIsNoOp(list: seq<Staff>, editing: Staff, staff: Staff)
    requires staff.id !in StaffIds(list)
    ensures SaveStaff(list, Some(editing), staff) == list
  {
    var r := SaveStaff(list, Some(editing), staff);
    forall i | 0 <= i < |list| ensures r[i] == list[i] {
      assert StaffIds(list)[i] == list[i].id;
    }
  }

  /** No two records share an id. */
  ghost predicate DistinctIds(ids: seq<string>) {
    forall i, j :: 0 <= i < j < |ids| ==> ids[i] != ids[j]
  }

  /** Adding a record keeps the roster's ids distinct exactly when the new id is fresh. */
  lemma SaveStaffAddDistinct(list: seq<Staff>, staff: Staff)
    requires DistinctIds(StaffIds(list))
    ensures DistinctIds(StaffIds(SaveStaff(list, None, staff))) <==> staff.id !in StaffIds(list)
  {
    var before := StaffIds(list);
    var ids := StaffIds(SaveStaff(list, None, staff));
    assert |ids| == |before| + 1 && ids[|before|] == staff.id;
    assert forall i :: 0 <= i < |before| ==> ids[i] == before[i];
    if staff.id in before {
      var k :| 0 <= k < |before| && before[k] == staff.id;
      assert ids[k] == ids[|before|];
      assert !DistinctIds(ids);
    } else {
      forall i, j | 0 <= i < j < |ids| ensures ids[i] != ids[j] {
        if j == |before| {
          assert ids[i] == before[i];
        }
      }
      assert DistinctIds(ids);
    }
  }

  /** An add followed by an edit of the same record leaves one copy of the edited record. */
  lemma AddThenEdit(list: seq<Staff>, added: Staff, edited: Staff)
    requires added.id == edited.id && added.id !in StaffIds(list)
    ensures SaveStaff(SaveStaff(list, None, added), Some(added), edited) == list + [edited]
  {
    var r := SaveStaff(SaveStaff(list, None, added), Some(added), edited);
    forall i | 0 <= i < |list| ensures r[i] == list[i] {
      assert StaffIds(list)[i] == list[i].id;
    }
  }

  /** The whole dashboard state, as one value. */
  datatype State = State(
    view: ViewMode,
    currentDate: Date,
    staffList: seq<Staff>,
    schedule: Schedule,
    swapRequests: seq<SwapRequest>,
    isBulkMode: bool,
    selectedBulkShift: ShiftType,
    editingStaff: Option<Staff>,
    activeShiftContext: Option<ShiftContext>,
    isShiftModalOpen: bool)

  class App {
    var view: ViewMode
    var currentDate: Date
    var staffList: seq<Staff>
    var schedule: Schedule
    var swapRequests: seq<SwapRequest>
    var isBulkMode: bool
    var selectedBulkShift: ShiftType
    var editingStaff: Option<Staff>
    var activeShiftContext: Option<ShiftContext>
    var isShiftModalOpen: bool

    function Snapshot(): State
      reads this
    {
      State(view, currentDate, staffList, schedule, swapRequests, isBulkMode, selectedBulkShift,
        editingStaff, activeShiftContext, isShiftModalOpen)
    }

    /** The pivot is a calendar date and the schedule holds at most one row per staff id. */
    ghost predicate Valid()
      reads this
    {
      ValidDate(currentDate) && NoDupIds(schedule)
    }

    /** The schedule keys of the columns on screen. */
    function VisibleKeys(): seq<Key>
      reads this
      requires Valid()
    {
      WindowKeys(view, currentDate)
    }

    /** Week view on 2023-10-17, the seed roster, an empty schedule and ledger, bulk mode off on Morning. */
    constructor ()
      ensures Valid()
      ensures Snapshot() == State(Week, Date(2023, 10, 17), InitialStaffList(), [], [], false, Morning, None, None, false)
    {
      view := Week;
      currentDate := Date(2023, 10, 17);
      staffList := InitialStaffList();
      schedule := [];
      swapRequests := [];
      isBulkMode := false;
      selectedBulkShift := Morning;
      editingStaff := None;
      activeShiftContext := None;
      isShiftModalOpen := false;
    }

    /** The back-fill effect, run after the roster or the window changes. */
    method RunBackFill()
      requires Valid()
      modifies this
      ensures Valid()
      ensures Snapshot() == old(Snapshot()).(schedule := BackFill(old(schedule), StaffIds(staffList), VisibleKeys()))
      ensures forall id :: id in StaffIds(staffList) ==> Covers(schedule, id, VisibleKeys())
      ensures forall id :: id in StaffIds(staffList) ==>
        && FindIndex(schedule, id).Some?
        && (forall i :: 0 <= i < |schedule| && schedule[i].staffId == id ==> i == FindIndex(schedule, id).value)
    {
      var ids, keys := StaffIds(staffList), VisibleKeys();
      BackFillCovers(schedule, ids, keys);
      BackFillNoDup(schedule, ids, keys);
      BackFillOneRowEach(schedule, ids, keys);
      schedule := SyncSchedule(schedule, ids, keys);
    }

    method SetView(v: ViewMode)
      requires Valid()
      modifies this
      ensures Valid()
      ensures Snapshot() == old(Snapshot()).(view := v)
    {
      view := v;
    }

    /** `navigateDate(amount)`. */
    method NavigateDate(amount: int)
      requires Valid()
      modifies this
      ensures Valid()
      ensures Snapshot() == old(Snapshot()).(currentDate := Navigate(view, old(currentDate), amount))
    {
      currentDate := Navigate(view, currentDate, amount);
    }

    method ToggleBulkMode()
      requires Valid()
      modifies this
      ensures Valid()
      ensures Snapshot() == old(Snapshot()).(isBulkMode := !old(isBulkMode))
    {
      isBulkMode := !isBulkMode;
    }

    method SelectBulkShift(t: ShiftType)
      requires Valid()
      modifies this
      ensures Valid()
      ensures Snapshot() == old(Snapshot()).(selectedBulkShift := t)
    {
      selectedBulkShift := t;
    }

    /** Opening the staff dialog, for a record (the settings button) or for a new one. */
    method OpenStaffDialog(s: Option<Staff>)
      requires Valid()
      modifies this
      ensures Valid()
      ensures Snapshot() == old(Snapshot()).(editingStaff := s)
    {
      editingStaff := s;
    }

    /** `handleSaveStaff`. */
    method SaveStaffRecord(staff: Staff)
      requires Valid()
      modifies this
      ensures Valid()
      ensures Snapshot() == old(Snapshot()).(staffList := SaveStaff(old(staffList), old(editingStaff), staff), editingStaff := None)
    {
      staffList := SaveStaff(staffList, editingStaff, staff);
      editingStaff := None;
    }

    /**
     * `handleShiftCellClick`: in bulk mode the cell is painted with the
     * selected type; otherwise the editor opens on the cell's shift, OFF
     * when it has none.
     */
    method ShiftCellClick(staff: Staff, date: Key)
      requires Valid()
      modifies this
      ensures Valid()
      ensures old(isBulkMode) ==> Snapshot() == old(Snapshot()).(schedule := BulkPaint(old(schedule), staff.id, date, selectedBulkShift))
      ensures !old(isBulkMode) ==> Snapshot() == old(Snapshot()).(
        activeShiftContext := Some(ShiftContext(staff.id, date, ShiftOrOff(old(schedule), staff.id, date), staff.name)),
        isShiftModalOpen := true)
    {
      if isBulkMode {
        SetCellNoDup(schedule, staff.id, date, DefaultShift(selectedBulkShift));
        schedule := BulkPaint(schedule, staff.id, date, selectedBulkShift);
        return;
      }
      var currentShift := ShiftOrOff(schedule, staff.id, date);
      activeShiftContext := Some(ShiftContext(staff.id, date, currentShift, staff.name));
      isShiftModalOpen := true;
    }

    /** `handleSaveShiftDetails`: nothing without an active cell; otherwise the cell is written and the editor closes. */
    method SaveShiftDetailsHandler(updated: Shift)
      requires Valid()
      modifies this
      ensures Valid()
      ensures old(activeShiftContext).None? ==> Snapshot() == old(Snapshot())
      ensures old(activeShiftContext).Some? ==> Snapshot() == old(Snapshot()).(
        schedule := SaveShiftDetails(old(schedule), old(activeShiftContext), updated),
        isShiftModalOpen := false)
    {
      if activeShiftContext.None? {
        return;
      }
      SetCellNoDup(schedule, activeShiftContext.value.staffId, activeShiftContext.value.date, updated);
      schedule := SaveShiftDetails(schedule, activeShiftContext, updated);
      isShiftModalOpen := false;
    }

    /** `handleSwapRequest`, with the `Date.now()` id passed in. */
    method SwapRequestHandler(data: SwapData, freshId: string)
      requires Valid()
      modifies this
      ensures Valid()
      ensures Snapshot() == old(Snapshot()).(swapRequests := AppendSwapRequest(old(swapRequests), data, freshId))
    {
      swapRequests := AppendSwapRequest(swapRequests, data, freshId);
    }
  }

  /**
   * The dashboard starts with an empty schedule, so its first back-fill
   * gives every roster id an OFF shift on every visible date, whatever the
   * roster and the window are.
   */
  lemma FirstBackFillIsAllOff(ids: seq<string>, dates: seq<Key>, id: string, k: Key)
    requires id in ids && k in dates
    ensures ShiftAt(BackFill([], ids, dates), id, k) == Some(OffShift)
  {
    var r := BackFill([], ids, dates);
    BackFillOneRowEach([], ids, dates);
    BackFillGrows([], ids, dates);
    var i := FindIndex(r, id).value;
    assert k in r[i].shifts;
  }
}
