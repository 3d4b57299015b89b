/**
 * The staff settings dialog: its form state, the three preference toggles,
 * the initialisation from the record being edited, the list of date keys of
 * the base month, and the record the dialog submits.
 */
module StaffForm {
  import opened Wrappers
  import opened CivilDate
  import opened DateKey
  import opened Types
  import opened Availability
  import ViewWindow

  /** `list.filter(x => x !== v)`: every element except `v`, in order. */
  function Without<T(==, !new)>(list: seq<T>, v: T): (r: seq<T>)
    ensures forall x :: x in r <==> x in list && x != v
    ensures |r| <= |list|
    decreases |list|
  {
    if list == [] then []
    else if list[0] == v then Without(list[1..], v)
    else [list[0]] + Without(list[1..], v)
  }

  /** `prev.includes(v) ? prev.filter(x => x !== v) : [...prev, v]`. */
  function Toggle<T(==, !new)>(list: seq<T>, v: T): seq<T> {
    if v in list then Without(list, v) else list + [v]
  }

  /** Whether the date grid currently marks dates as preferred or as unavailable. */
  datatype SelectionMode = Unavailable | Preferred

  datatype Form = Form(
    name: string,
    role: string,
    phone: string,
    avatarUrl: string,
    unavailableDays: seq<int>,
    unavailableDates: seq<Key>,
    preferredDates: seq<Key>,
    allowedShifts: seq<ShiftType>,
    selectionMode: SelectionMode)

  /** The working types a new record may take, as the three shift-period buttons list them. */
  const DefaultAllowedShifts: seq<ShiftType> := [Morning, Afternoon, Night]

  const DefaultAvatarUrl: string :=
    "https://images.unsplash.com/photo-1559839734-2b71ca197ec2?auto=format&fit=crop&q=80&w=100&h=100"

  function ToggleAllowedShift(f: Form, t: ShiftType): Form {
    f.(allowedShifts := Toggle(f.allowedShifts, t))
  }

  function ToggleDay(f: Form, day: int): Form {
    f.(unavailableDays := Toggle(f.unavailableDays, day))
  }

  /**
   * A click on a date of the grid: the current mode's list is toggled and
   * the date is dropped from the other list.
   */
  function ToggleDate(f: Form, date: Key): Form {
    match f.selectionMode
    case Unavailable =>
      f.(unavailableDates := Toggle(f.unavailableDates, date), preferredDates := Without(f.preferredDates, date))
    case Preferred =>
      f.(preferredDates := Toggle(f.preferredDates, date), unavailableDates := Without(f.unavailableDates, date))
  }

  /**
   * The dialog's initialisation effect: the edited record's fields, missing
   * lists read as empty and a missing `allowedShifts` as the three working
   * types; blank fields for a new record.  The selection mode is not reset.
   */
  function InitForm(editing: Option<Staff>, mode: SelectionMode): (f: Form)
    ensures f.selectionMode == mode
  {
    match editing
    case Some(s) =>
      var p := s.preferences;
      Form(s.name, s.role, s.phone, s.avatarUrl,
        if p.Some? then p.value.unavailableDays else [],
        if p.Some? then p.value.unavailableDates else [],
        if p.Some? then p.value.preferredDates else [],
        if p.Some? && p.value.allowedShifts.Some? then p.value.allowedShifts.value else DefaultAllowedShifts,
        mode)
    case None =>
      Form("", "", "", DefaultAvatarUrl, [], [], [], DefaultAllowedShifts, mode)
  }

  /** The dialog's first state: a blank form in preferred mode. */
  const InitialForm: Form := InitForm(None, Preferred)

  /**
   * Submitting: nothing while the required name or role is empty (the
   * browser refuses the form); otherwise the record, keeping the edited
   * member's id and status, or taking the fresh id and `offline` for a new
   * one, with exactly the four edited lists as its preferences.
   */
  function Submit(f: Form, editing: Option<Staff>, freshId: string): (r: Option<Staff>)
    ensures r.None? <==> f.name == "" || f.role == ""
  {
    if f.name == "" || f.role == "" then None
    else Some(Staff(
      if editing.Some? then editing.value.id else freshId,
      f.name, f.role, f.phone, f.avatarUrl,
      if editing.Some? then editing.value.status else Offline,
      Some(StaffPreferences(f.unavailableDays, f.unavailableDates, f.preferredDates, Some(f.allowedShifts)))))
  }

  /** The `YYYY-MM-DD` keys of every day of the base month, built by the dialog's loop. */
  method MonthDates(year: int, month: int) returns (dates: seq<Key>)
    requires 1 <= month <= 12
    ensures |dates| == DaysInMonth(year, month)
    ensures forall i :: 0 <= i < |dates| ==> dates[i] == TemplateKey(year, month, i + 1)
  {
    DayZeroIsLastDay(year, month);
    var daysInMonth := DayZeroOfNextMonth(year, month).day;
    dates := [];
    var i := 1;
    while i <= daysInMonth
      invariant 1 <= i <= daysInMonth + 1
      invariant dates == KeysUpTo(TemplateKey, year, month, i - 1)
    {
      dates := dates + [TemplateKey(year, month, i)];
      i := i + 1;
    }
    KeysUpToAt(TemplateKey, year, month, daysInMonth);
  }

  /** The keys `key(year, month, d)` of the days d = 1..n, in day order. */
  ghost function KeysUpTo(key: (int, int, int) -> Key, year: int, month: int, n: nat): seq<Key> {
    if n == 0 then [] else KeysUpTo(key, year, month, n - 1) + [key(year, month, n)]
  }

  lemma {:induction false} KeysUpToAt(key: (int, int, int) -> Key, year: int, month: int, n: nat)
    ensures |KeysUpTo(key, year, month, n)| == n
    ensures forall j :: 0 <= j < n ==> KeysUpTo(key, year, month, n)[j] == key(year, month, j + 1)
  {
    if n > 0 {
      KeysUpToAt(key, year, month, n - 1);
    }
  }

  // ---------------------------------------------------------------------
  // Lemmas
  // ---------------------------------------------------------------------

  /** A toggle flips the membership of its value and of no other. */
  lemma ToggleFlips<T(!new)>(list: seq<T>, v: T)
    ensures v in Toggle(list, v) <==> v !in list
    ensures forall x :: x != v ==> (x in Toggle(list, v) <==> x in list)
  {
  }

  /** Toggling twice restores membership; when the value was absent it restores the list itself. */
  lemma {:induction false} ToggleTwice<T(!new)>(list: seq<T>, v: T)
    ensures forall x :: x in Toggle(Toggle(list, v), v) <==> x in list
    ensures v !in list ==> Toggle(Toggle(list, v), v) == list
  {
    if v !in list {
      WithoutAbsent(list, v);
      WithoutAppended(list, v);
    }
  }

  lemma {:induction false} WithoutAbsent<T(!new)>(list: seq<T>, v: T)
    requires v !in list
    ensures Without(list, v) == list
    decreases |list|
  {
    if list != [] {
      WithoutAbsent(list[1..], v);
      assert list == [list[0]] + list[1..];
    }
  }

  lemma {:induction false} WithoutAppended<T(!new)>(list: seq<T>, v: T)
    ensures Without(list + [v], v) == Without(list, v)
    decreases |list|
  {
    if list == [] {
      assert [] + [v] == [v];
      assert [v][1..] == [];
    } else {
      assert (list + [v])[1..] == list[1..] + [v];
      WithoutAppended(list[1..], v);
    }
  }

  ghost predicate Distinct<T>(list: seq<T>) {
    forall i, j :: 0 <= i < j < |list| ==> list[i] != list[j]
  }

  lemma {:induction false} WithoutKeepsDistinct<T(!new)>(list: seq<T>, v: T)
    requires Distinct(list)
    ensures Distinct(Without(list, v))
    decreases |list|
  {
    if list != [] {
      var rest := Without(list[1..], v);
      WithoutKeepsDistinct(list[1..], v);
      if list[0] != v {
        assert forall k :: 0 <= k < |list[1..]| ==> list[1..][k] != list[0];
        assert list[0] !in rest;
        var r := [list[0]] + rest;
        forall i, j | 0 <= i < j < |r| ensures r[i] != r[j] {
          if i == 0 {
            assert r[j] == rest[j - 1];
          } else {
            assert r[i] == rest[i - 1] && r[j] == rest[j - 1];
          }
        }
      }
    }
  }

  /** A toggle never puts a value in twice. */
  lemma ToggleKeepsDistinct<T(!new)>(list: seq<T>, v: T)
    requires Distinct(list)
    ensures Distinct(Toggle(list, v))
  {
    if v in list {
      WithoutKeepsDistinct(list, v);
    } else {
      var r := list + [v];
      forall i, j | 0 <= i < j < |r| ensures r[i] != r[j] {
        if j == |list| {
          assert r[i] == list[i];
        }
      }
    }
  }

  ghost predicate DatesDisjoint(f: Form) {
    forall d :: d in f.unavailableDates ==> d !in f.preferredDates
  }

  /**
   * A date click in unavailable mode flips the date's unavailability and
   * clears its preference; in preferred mode the other way round.  Other
   * dates keep their marks, and the two lists stay disjoint.
   */
  lemma ToggleDateFacts(f: Form, date: Key)
    ensures var g := ToggleDate(f, date);
      && (f.selectionMode == Unavailable ==>
            (date in g.unavailableDates <==> date !in f.unavailableDates) && date !in g.preferredDates)
      && (f.selectionMode == Preferred ==>
            (date in g.preferredDates <==> date !in f.preferredDates) && date !in g.unavailableDates)
      && (forall d :: d != date ==> (d in g.unavailableDates <==> d in f.unavailableDates))
      && (forall d :: d != date ==> (d in g.preferredDates <==> d in f.preferredDates))
      && (DatesDisjoint(f) ==> DatesDisjoint(g))
      && g.(unavailableDates := f.unavailableDates, preferredDates := f.preferredDates) == f
  {
    ToggleFlips(f.unavailableDates, date);
    ToggleFlips(f.preferredDates, date);
  }

  /** The day and shift toggles flip one membership and leave every other field alone. */
  lemma OtherTogglesFlip(f: Form, day: int, t: ShiftType)
    ensures (day in ToggleDay(f, day).unavailableDays <==> day !in f.unavailableDays)
    ensures (t in ToggleAllowedShift(f, t).allowedShifts <==> t !in f.allowedShifts)
    ensures ToggleDay(f, day).(unavailableDays := f.unavailableDays) == f
    ensures ToggleAllowedShift(f, t).(allowedShifts := f.allowedShifts) == f
    ensures forall x :: x in Toggle(Toggle(f.unavailableDays, day), day) <==> x in f.unavailableDays
  {
    ToggleFlips(f.unavailableDays, day);
    ToggleFlips(f.allowedShifts, t);
    ToggleTwice(f.unavailableDays, day);
  }

  /** A new record, or one without `allowedShifts`, starts with exactly the three working types. */
  lemma InitDefaults(editing: Option<Staff>, mode: SelectionMode)
    requires editing.None? || editing.value.preferences.None? || editing.value.preferences.value.allowedShifts.None?
    ensures InitForm(editing, mode).allowedShifts == [Morning, Afternoon, Night]
  {
  }

  /** An empty `allowedShifts` list is kept by the dialog, not replaced by the default. */
  lemma InitKeepsEmptyAllowedList(s: Staff, mode: SelectionMode)
    requires s.preferences.Some? && s.preferences.value.allowedShifts == Some([])
    ensures InitForm(Some(s), mode).allowedShifts == []
  {
  }

  /** Submitting an edit keeps id and status; a new record gets the fresh id and `offline`. */
  lemma SubmitIdentity(f: Form, editing: Option<Staff>, freshId: string)
    requires f.name != "" && f.role != ""
    ensures var r := Submit(f, editing, freshId).value;
      && (editing.Some? ==> r.id == editing.value.id && r.status == editing.value.status)
      && (editing.None? ==> r.id == freshId && r.status == Offline)
      && r.preferences == Some(StaffPreferences(f.unavailableDays, f.unavailableDates, f.preferredDates, Some(f.allowedShifts)))
      && r.name == f.name && r.role == f.role && r.phone == f.phone && r.avatarUrl == f.avatarUrl
  {
  }

  /** Opening a complete record and saving it unchanged gives back the same record. */
  lemma EditRoundTrip(s: Staff, mode: SelectionMode, freshId: string)
    requires s.name != "" && s.role != ""
    requires s.preferences.Some? && s.preferences.value.allowedShifts.Some?
    ensures Submit(InitForm(Some(s), mode), Some(s), freshId) == Some(s)
  {
  }

  /** Saving a record that had no preferences gives it the defaults: no marks and the three working types. */
  lemma EditAddsDefaultPreferences(s: Staff, mode: SelectionMode, freshId: string)
    requires s.name != "" && s.role != "" && s.preferences.None?
    ensures Submit(InitForm(Some(s), mode), Some(s), freshId) ==
      Some(s.(preferences := Some(StaffPreferences([], [], [], Some([Morning, Afternoon, Night])))))
  {
  }

  /** A date marked unavailable in the dialog blocks that date's cells once the record is saved. */
  lemma MarkedUnavailableBlocks(f: Form, editing: Option<Staff>, freshId: string, date: Key)
    requires f.name != "" && f.role != ""
    requires f.selectionMode == Unavailable && date !in f.unavailableDates
    ensures var s := Submit(ToggleDate(f, date), editing, freshId).value;
      IsBlocked(s, date) && IsSpecificUnavailable(s, date) && !IsPreferred(s, date)
  {
    ToggleDateFacts(f, date);
  }

  /**
   * For four-digit years the dialog's keys are the keys of the month view:
   * marking a date in the dialog refers to the same cell the table shows.
   */
  lemma MonthDatesAreMonthViewKeys(year: int, month: int, i: int)
    requires 1000 <= year <= 9999 && 1 <= month <= 12
    requires 0 <= i < DaysInMonth(year, month)
    ensures var w := ViewWindow.WindowKeys(ViewMode.Month, Date(year, month, 1));
      |w| == DaysInMonth(year, month) && w[i] == TemplateKey(year, month, i + 1)
  {
    ViewWindow.MonthWindow(Date(year, month, 1));
    TemplateKeyIsIsoKey(Date(year, month, i + 1));
  }
}
