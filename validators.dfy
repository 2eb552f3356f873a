/**
 * `validate_configuration`: the attendance count of a roster against the
 * optional `total_attendance` entry of the configuration, and how that count
 * relates to the roster the scheduler keeps.
 */
module Validators {
  import opened Wrappers
  import opened Records

  const TotalAttendanceKey := "total_attendance"

  /** The number of records whose attendance is "Y". */
  function AttendingCount(staff: seq<Staff>): (n: nat)
    ensures n <= |staff|
    ensures n == 0 <==> forall k :: 0 <= k < |staff| ==> staff[k].attendance != "Y"
    ensures n == |staff| <==> forall k :: 0 <= k < |staff| ==> staff[k].attendance == "Y"
  {
    if staff == [] then 0
    else
      var init, last := staff[..|staff| - 1], staff[|staff| - 1];
      assert forall k :: 0 <= k < |init| ==> init[k] == staff[k];
      AttendingCount(init) + (if last.attendance == "Y" then 1 else 0)
  }

  /** The required total: the configured value, `Null` when the key is absent. */
  function RequiredTotal(cfg: Config): Value {
    if TotalAttendanceKey in cfg then cfg[TotalAttendanceKey] else Null
  }

  datatype Message = NoRequirement | CountMismatch(attending: nat, required: Value) | ConfigValid

  /**
   * `validate_configuration`: no requirement passes; otherwise the configured
   * value must equal the attendance count, and a mismatch reports both.
   */
  function ValidateConfiguration(staff: seq<Staff>, cfg: Config): (r: (bool, Message))
    ensures r.0 <==> RequiredTotal(cfg).Null? || RequiredTotal(cfg) == Int(AttendingCount(staff))
    ensures RequiredTotal(cfg).Null? ==> r.1 == NoRequirement
    ensures !r.0 ==> r.1 == CountMismatch(AttendingCount(staff), RequiredTotal(cfg))
    ensures r.0 && !RequiredTotal(cfg).Null? ==> r.1 == ConfigValid
  {
    var attending := AttendingCount(staff);
    var required := RequiredTotal(cfg);
    if required.Null? then (true, NoRequirement)
    else if required != Int(attending) then (false, CountMismatch(attending, required))
    else (true, ConfigValid)
  }

  /** Counting distributes over concatenation. */
  lemma {:induction false} AttendingCountAppend(xs: seq<Staff>, ys: seq<Staff>)
    ensures AttendingCount(xs + ys) == AttendingCount(xs) + AttendingCount(ys)
  {
    if ys == [] {
      assert xs + ys == xs;
    } else {
      var init := ys[..|ys| - 1];
      AttendingCountAppend(xs, init);
      assert (xs + ys)[..|xs + ys| - 1] == xs + init;
      assert (xs + ys)[|xs + ys| - 1] == ys[|ys| - 1];
    }
  }

  /**
   * The validator counts exactly the records `parse_staff_list` keeps: the
   * attendance count of a roster of records is the size of the parsed roster.
   */
  lemma {:induction false} AttendingCountIsRosterSize(staff: seq<Staff>)
    ensures ParseStaffList(AsEntries(staff)).Ok?
    ensures AttendingCount(staff) == |ParseStaffList(AsEntries(staff)).value|
  {
    if staff != [] {
      var init, last := staff[..|staff| - 1], staff[|staff| - 1];
      AttendingCountIsRosterSize(init);
      assert AsEntries(staff) == AsEntries(init) + [Record(last)];
      ParseStaffListSingle(Record(last));
      ParseStaffListAppend(AsEntries(init), [Record(last)]);
      var kept := ParseStaffList(AsEntries(init)).value;
      var extra := if last.attendance == "Y" then [last] else [];
      assert ParseStaffList(AsEntries(staff)) == Ok(kept + extra);
      assert AttendingCount(staff) == AttendingCount(init) + |extra|;
    }
  }

  /**
   * A configuration that passes with a numeric requirement `k` leaves the
   * scheduler a roster of exactly `k` records.
   */
  lemma ValidatedRosterSize(staff: seq<Staff>, cfg: Config, k: int)
    requires RequiredTotal(cfg) == Int(k) && ValidateConfiguration(staff, cfg).0
    ensures ParseStaffList(AsEntries(staff)).Ok? && |ParseStaffList(AsEntries(staff)).value| == k
  {
    AttendingCountIsRosterSize(staff);
  }
}
