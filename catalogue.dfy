/**
 * The static shift catalogue (`SHIFT_CONFIG`) and the seed roster
 * (`STAFF_DATA`).  Only the fields the schedule logic reads are kept:
 * a shift type's label (`displayLabel`) and its default `timeRange` text.
 */
module ShiftCatalogue {
  import opened Wrappers
  import opened Types
  import opened Clock
  import opened Digits

  datatype ShiftConfig = ShiftConfig(displayLabel: string, timeRange: string)

  /** The catalogue entry of each shift type. */
  function Config(t: ShiftType): ShiftConfig {
    match t
    case Morning => ShiftConfig("Morning", "08:00 - 16:00")
    case Afternoon => ShiftConfig("Afternoon", "16:00 - 00:00")
    case Night => ShiftConfig("Night", "00:00 - 08:00")
    case OFF => ShiftConfig("OFF", "OFF")
  }

  /** First index at or after `from` where `sep` occurs in `s`, or -1. */
  function IndexOf(s: string, sep: string, from: nat): (r: int)
    requires |sep| > 0
    ensures r == -1 || (from <= r && r + |sep| <= |s| && s[r..r + |sep|] == sep)
    decreases |s| - from
  {
    if from + |sep| > |s| then -1
    else if s[from..from + |sep|] == sep then from
    else IndexOf(s, sep, from + 1)
  }

  /** JavaScript's `s.split(sep)` for a non-empty separator. */
  function Split(s: string, sep: string): (parts: seq<string>)
    requires |sep| > 0
    ensures |parts| >= 1
    decreases |s|
  {
    var i := IndexOf(s, sep, 0);
    if i < 0 then [s] else [s[..i]] + Split(s[i + |sep|..], sep)
  }

  lemma {:induction false} NoSeparatorStart(s: string, sep: string, from: nat)
    requires |sep| > 0
    requires forall j :: from <= j < |s| ==> s[j] != sep[0]
    ensures IndexOf(s, sep, from) == -1
    decreases |s| - from
  {
    if from + |sep| <= |s| {
      assert s[from..from + |sep|][0] == s[from];
      NoSeparatorStart(s, sep, from + 1);
    }
  }

  lemma ClockHasNoSpace(c: string)
    requires IsClockText(c)
    ensures forall j :: 0 <= j < |c| ==> c[j] != ' '
  {
    forall j | 0 <= j < |c| ensures c[j] != ' ' {
      if j == 2 { } else { assert IsDigit(c[j]); }
    }
  }

  /** A text `HH:mm - HH:mm` splits on " - " into its two times. */
  lemma SplitClockRange(a: string, b: string)
    requires IsClockText(a) && IsClockText(b)
    ensures Split(a + " - " + b, " - ") == [a, b]
  {
    var s := a + " - " + b;
    var sep := " - ";
    assert s[5..8] == sep;
    assert IndexOf(s, sep, 5) == 5;
    assert s[4..7][0] == a[4] && IsDigit(a[4]);
    assert IndexOf(s, sep, 4) == 5;
    assert s[3..6][0] == a[3] && IsDigit(a[3]);
    assert IndexOf(s, sep, 3) == 5;
    assert s[2..5][0] == ':';
    assert IndexOf(s, sep, 2) == 5;
    assert s[1..4][0] == a[1] && IsDigit(a[1]);
    assert IndexOf(s, sep, 1) == 5;
    assert s[0..3][0] == a[0] && IsDigit(a[0]);
    assert IndexOf(s, sep, 0) == 5;
    assert s[..5] == a && s[8..] == b;
    ClockHasNoSpace(b);
    NoSeparatorStart(b, sep, 0);
  }

  lemma ConfigRangeParts(t: ShiftType)
    requires t != OFF
    ensures var (a, b) := match t
              case Morning => ("08:00", "16:00")
              case Afternoon => ("16:00", "00:00")
              case _ => ("00:00", "08:00");
            IsClockText(a) && IsClockText(b) && Config(t).timeRange == a + " - " + b
  {
  }

  /**
   * For every type except OFF the catalogue range splits into exactly two
   * well-formed times; OFF's range is the single word "OFF", which is why
   * both callers special-case OFF before splitting.
   */
  lemma TimeRangeSplits(t: ShiftType)
    ensures t != OFF ==>
      var parts := Split(Config(t).timeRange, " - ");
      |parts| == 2 && IsClockText(parts[0]) && IsClockText(parts[1])
    ensures t == OFF ==> Split(Config(t).timeRange, " - ") == ["OFF"]
  {
    if t == OFF {
      NoSeparatorStart("OFF", " - ", 0);
    } else {
      ConfigRangeParts(t);
      match t
      case Morning => SplitClockRange("08:00", "16:00");
      case Afternoon => SplitClockRange("16:00", "00:00");
      case Night => SplitClockRange("00:00", "08:00");
    }
  }

  /**
   * The default start and end text of a type: "00:00"/"00:00" for OFF,
   * otherwise the two halves of its catalogue range.
   */
  function DefaultTimes(t: ShiftType): (times: (string, string))
    ensures IsClockText(times.0) && IsClockText(times.1)
  {
    if t == OFF then ("00:00", "00:00")
    else
      TimeRangeSplits(t);
      var parts := Split(Config(t).timeRange, " - ");
      (parts[0], parts[1])
  }

  /** The shift a type stands for by default, with its times read as minutes. */
  function DefaultShift(t: ShiftType): (s: Shift)
    ensures s.kind == t && ValidTimes(s)
    ensures t == OFF ==> s == OffShift
  {
    var (a, b) := DefaultTimes(t);
    Shift(t, ClockMinutes(a), ClockMinutes(b))
  }

  lemma DefaultTimesOf(t: ShiftType)
    requires t != OFF
    ensures DefaultTimes(t) == match t
              case Morning => ("08:00", "16:00")
              case Afternoon => ("16:00", "00:00")
              case _ => ("00:00", "08:00")
  {
    ConfigRangeParts(t);
    match t
    case Morning => SplitClockRange("08:00", "16:00");
    case Afternoon => SplitClockRange("16:00", "00:00");
    case Night => SplitClockRange("00:00", "08:00");
  }

  /** The default shifts in minutes: 08:00-16:00, 16:00-00:00, 00:00-08:00. */
  lemma DefaultShiftMinutes()
    ensures DefaultShift(Morning) == Shift(Morning, 480, 960)
    ensures DefaultShift(Afternoon) == Shift(Afternoon, 960, 0)
    ensures DefaultShift(Night) == Shift(Night, 0, 480)
    ensures DefaultShift(OFF) == OffShift
  {
    DefaultShiftOf(Morning, 480, 960);
    DefaultShiftOf(Afternoon, 960, 0);
    DefaultShiftOf(Night, 0, 480);
  }

  lemma DefaultShiftOf(t: ShiftType, start: int, end: int)
    requires t != OFF
    requires start == match t case Morning => 480 case Afternoon => 960 case _ => 0
    requires end == match t case Morning => 960 case Afternoon => 0 case _ => 480
    ensures DefaultShift(t) == Shift(t, start, end)
  {
    DefaultTimesOf(t);
    ClockLiterals();
  }

  lemma ClockLiterals()
    ensures ClockMinutes("08:00") == 480 && ClockMinutes("16:00") == 960 && ClockMinutes("00:00") == 0
  {
  }

  /**
   * `STAFF_DATA`: the five seeded staff.  The seed records have no phone
   * field and no preferences; their avatar URLs are not carried.  Both
   * are stated here as the empty string.
   */
  function StaffData(): (staff: seq<Staff>)
    ensures |staff| == 5
    ensures forall i :: 0 <= i < |staff| ==> staff[i].phone == "" && staff[i].avatarUrl == "" && staff[i].preferences.None?
  {
    [ Staff("s1", "K. Manee", "Senior RN", "", "", Online, None),
      Staff("s2", "S. Chaiya", "Junior RN", "", "", Offline, None),
      Staff("s3", "W. Prasert", "Nursing Assistant", "", "", Offline, None),
      Staff("s4", "T. Ananda", "RN", "", "", Offline, None),
      Staff("s5", "J. Malai", "Junior RN", "", "", Offline, None) ]
  }

  /** The seeded ids are s1..s5 and pairwise distinct. */
  lemma StaffDataIds()
    ensures StaffIds(StaffData()) == ["s1", "s2", "s3", "s4", "s5"]
    ensures forall i, j :: 0 <= i < j < |StaffData()| ==> StaffData()[i].id != StaffData()[j].id
  {
    var ids := StaffIds(StaffData());
    assert ids == ["s1", "s2", "s3", "s4", "s5"];
  }
}
