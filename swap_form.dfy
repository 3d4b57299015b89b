/**
 * The shift-swap dialog: four text fields set by their inputs, the
 * submit guard on the three required ones, and the counterpart list.
 */
module SwapForm {
  import opened Wrappers
  import opened Types

  /** What the dialog hands to its confirm callback. */
  datatype SwapData = SwapData(fromStaff: string, toStaff: string, date: string, reason: string)

  /**
   * The submit guard: nothing when the requester, the counterpart or the
   * date is empty; otherwise exactly the four entered values.  The reason
   * may be empty.
   */
  function SubmitOf(fromStaff: string, toStaff: string, date: string, reason: string): (r: Option<SwapData>)
    ensures r.None? <==> fromStaff == "" || toStaff == "" || date == ""
    ensures r.Some? ==> r.value == SwapData(fromStaff, toStaff, date, reason)
  {
    if fromStaff == "" || toStaff == "" || date == "" then None
    else Some(SwapData(fromStaff, toStaff, date, reason))
  }

  /** `staffList.filter(s => s.id !== fromStaff)`: the selectable counterparts. */
  function CounterpartOptions(staff: seq<Staff>, fromStaff: string): (r: seq<Staff>)
    ensures forall s :: s in r <==> s in staff && s.id != fromStaff
    ensures |r| <= |staff|
  {
    if staff == [] then []
    else (if staff[0].id != fromStaff then [staff[0]] else []) + CounterpartOptions(staff[1..], fromStaff)
  }

  class Form {
    var fromStaff: string
    var toStaff: string
    var date: string
    var reason: string

    constructor ()
      ensures fromStaff == "" && toStaff == "" && date == "" && reason == ""
    {
      fromStaff, toStaff, date, reason := "", "", "", "";
    }

    method SetFromStaff(v: string)
      modifies this
      ensures fromStaff == v && toStaff == old(toStaff) && date == old(date) && reason == old(reason)
    {
      fromStaff := v;
    }

    method SetToStaff(v: string)
      modifies this
      ensures toStaff == v && fromStaff == old(fromStaff) && date == old(date) && reason == old(reason)
    {
      toStaff := v;
    }

    method SetDate(v: string)
      modifies this
      ensures date == v && fromStaff == old(fromStaff) && toStaff == old(toStaff) && reason == old(reason)
    {
      date := v;
    }

    method SetReason(v: string)
      modifies this
      ensures reason == v && fromStaff == old(fromStaff) && toStaff == old(toStaff) && date == old(date)
    {
      reason := v;
    }

    /** `handleSubmit`: the guarded values of the four fields, which it leaves as they are. */
    method Submit() returns (r: Option<SwapData>)
      ensures r == SubmitOf(fromStaff, toStaff, date, reason)
    {
      if fromStaff == "" || toStaff == "" || date == "" {
        r := None;
      } else {
        r := Some(SwapData(fromStaff, toStaff, date, reason));
      }
    }
  }

  /** An empty reason never blocks a request. */
  lemma ReasonIsOptional(fromStaff: string, toStaff: string, date: string)
    requires fromStaff != "" && toStaff != "" && date != ""
    ensures SubmitOf(fromStaff, toStaff, date, "") == Some(SwapData(fromStaff, toStaff, date, ""))
  {
  }

  /**
   * The submit handler's guard does not compare the two staff ids: with both
   * fields holding the same id, it sends a self-swap.
   */
  method SelfSwapPasses() returns (r: Option<SwapData>)
    ensures r.Some? && r.value.fromStaff == r.value.toStaff
  {
    var f := new Form();
    f.SetToStaff("s1");
    f.SetFromStaff("s1");
    f.SetDate("2023-10-17");
    r := f.Submit();
  }
}
