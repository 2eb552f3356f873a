/**
 * `schedule` and `generate_result_dict` as functions: the fixed-area pass, the
 * group pass, the remainder pass and the result mapping, with what a run
 * guarantees and what it does not.
 */
module Scheduling {
  import opened Wrappers
  import opened Records
  import opened Placement
  import opened Groups

  /**
   * The state of a run between staff members: the lists and the set of names
   * counted as assigned, or the lists at the moment the run gave up.
   */
  datatype Run = Running(alloc: Allocation, marked: set<string>) | Aborted(alloc: Allocation)

  /** Every name counted as assigned is on some list. */
  ghost predicate AssignedHeld(a: Allocation, marked: set<string>) {
    forall n :: n in marked ==> a.Holds(n)
  }

  /** The name is on the inbound front or inbound back list. */
  predicate InInbound(a: Allocation, name: string) {
    name in a.inboundFront || name in a.inboundBack
  }

  lemma HeldStaysHeld(a: Allocation, b: Allocation, name: string)
    requires Extends(a, b)
    ensures a.Holds(name) ==> b.Holds(name)
    ensures InInbound(a, name) ==> InInbound(b, name)
  {
    assert a.At(InboundFront) <= b.At(InboundFront) && a.At(InboundBack) <= b.At(InboundBack);
    assert a.At(OutboundFront) <= b.At(OutboundFront) && a.At(OutboundBack) <= b.At(OutboundBack);
  }

  lemma {:induction false} AssignedStaysHeld(a: Allocation, b: Allocation, marked: set<string>)
    requires Extends(a, b)
    ensures AssignedHeld(a, marked) ==> AssignedHeld(b, marked)
  {
    forall n | n in marked && a.Holds(n) ensures b.Holds(n) {
      HeldStaysHeld(a, b, n);
    }
  }

  /** A record pinned to the inbound area: a non-empty fixed area equal to the inbound string. */
  predicate PinnedInbound(env: Env, st: Staff) {
    st.fixedArea != "" && st.fixedArea == env.text.inbound
  }

  /**
   * One iteration of the fixed-area loop. The outbound test belongs to the
   * else branch of the non-empty test, so a record pinned to outbound is
   * passed over here and only reached later by team routing. A failed
   * placement ends the run.
   */
  function FixedStep(env: Env, a: Allocation, marked: set<string>, st: Staff): (r: Run)
    requires env.Ready()
    ensures Grows(env, a, r.alloc)
    ensures r.Aborted? ==> r.alloc == a
    ensures r.Running? ==> marked <= r.marked
    ensures r.Running? && AssignedHeld(a, marked) ==> AssignedHeld(r.alloc, r.marked)
    ensures PinnedInbound(env, st) ==> (r.Running? <==> PlaceInArea(env, a, Inbound, st).placed)
    ensures PinnedInbound(env, st) ==> r.alloc == PlaceInArea(env, a, Inbound, st).alloc
    ensures PinnedInbound(env, st) && r.Running? ==> InInbound(r.alloc, st.name) && r.marked == marked + {st.name}
    ensures st.fixedArea != "" && !PinnedInbound(env, st) ==> r == Running(a, marked)
    ensures st.fixedArea == "" && env.text.outbound != "" ==> r == Running(a, marked)
    ensures st.fixedArea == "" && env.text.outbound == "" ==>
              && (r.Running? <==> PlaceInArea(env, a, Outbound, st).placed)
              && r.alloc == PlaceInArea(env, a, Outbound, st).alloc
              && (r.Running? ==> r.marked == marked + {st.name})
  {
    if st.fixedArea != "" then
      if st.fixedArea == env.text.inbound then
        var p := PlaceInArea(env, a, Inbound, st);
        StepGrows(env, a, p, st.name);
        if p.placed then
          AssignedStaysHeld(a, p.alloc, marked);
          Running(p.alloc, marked + {st.name})
        else Aborted(p.alloc)
      else Running(a, marked)
    else if st.fixedArea == env.text.outbound then
      var p := PlaceInArea(env, a, Outbound, st);
      StepGrows(env, a, p, st.name);
      if p.placed then
        AssignedStaysHeld(a, p.alloc, marked);
        Running(p.alloc, marked + {st.name})
      else Aborted(p.alloc)
    else Running(a, marked)
  }

  /** The fixed-area loop of `schedule`, over the given records, starting from `a0`. */
  function FixedPass(env: Env, a0: Allocation, staff: seq<Staff>): (r: Run)
    requires env.Ready()
    ensures Grows(env, a0, r.alloc)
    ensures r.Running? ==> AssignedHeld(r.alloc, r.marked)
  {
    if staff == [] then Running(a0, {})
    else
      var p := FixedPass(env, a0, staff[..|staff| - 1]);
      if p.Aborted? then p
      else
        var r := FixedStep(env, p.alloc, p.marked, staff[|staff| - 1]);
        GrowsTransitive(env, a0, p.alloc, r.alloc);
        r
  }

  /** The fixed-area loop over one more record: a failed prefix stays failed, otherwise one more step. */
  lemma FixedPassSnoc(env: Env, a0: Allocation, staff: seq<Staff>, i: nat)
    requires env.Ready() && i < |staff|
    ensures var p := FixedPass(env, a0, staff[..i]);
            FixedPass(env, a0, staff[..i + 1]) == if p.Aborted? then p else FixedStep(env, p.alloc, p.marked, staff[i])
  {
    assert staff[..i + 1][..i] == staff[..i] && staff[..i + 1][i] == staff[i];
  }

  /** Once the fixed-area loop has given up, the remaining records change nothing. */
  lemma {:induction false} FixedPassStaysAborted(env: Env, a0: Allocation, staff: seq<Staff>, k: nat)
    requires env.Ready() && k <= |staff| && FixedPass(env, a0, staff[..k]).Aborted?
    ensures FixedPass(env, a0, staff) == FixedPass(env, a0, staff[..k])
  {
    if k < |staff| {
      var init := staff[..|staff| - 1];
      assert init[..k] == staff[..k];
      FixedPassStaysAborted(env, a0, init, k);
    } else {
      assert staff[..k] == staff;
    }
  }

  /** Every inbound-pinned record is on an inbound list of `a`. */
  ghost predicate PinsKept(env: Env, staff: seq<Staff>, a: Allocation) {
    forall k :: 0 <= k < |staff| && PinnedInbound(env, staff[k]) ==> InInbound(a, staff[k].name)
  }

  lemma PinsSnoc(env: Env, staff: seq<Staff>, a: Allocation, b: Allocation)
    requires staff != [] && PinsKept(env, staff[..|staff| - 1], a) && Extends(a, b)
    requires PinnedInbound(env, staff[|staff| - 1]) ==> InInbound(b, staff[|staff| - 1].name)
    ensures PinsKept(env, staff, b)
  {
    forall k | 0 <= k < |staff| && PinnedInbound(env, staff[k]) ensures InInbound(b, staff[k].name) {
      if k < |staff| - 1 {
        assert staff[k] == staff[..|staff| - 1][k];
        HeldStaysHeld(a, b, staff[k].name);
      }
    }
  }

  /** After a completed fixed-area loop every inbound-pinned record is on an inbound list. */
  lemma {:induction false} FixedPassPinsInbound(env: Env, a0: Allocation, staff: seq<Staff>)
    requires env.Ready() && FixedPass(env, a0, staff).Running?
    ensures PinsKept(env, staff, FixedPass(env, a0, staff).alloc)
  {
    if staff != [] {
      var init := staff[..|staff| - 1];
      FixedPassPinsInbound(env, a0, init);
      PinsSnoc(env, staff, FixedPass(env, a0, init).alloc, FixedPass(env, a0, staff).alloc);
    }
  }

  /** The loop after the group pass: adds the name of every record that is on some list. */
  function MarkPlaced(a: Allocation, marked: set<string>, staff: seq<Staff>): (r: set<string>)
    ensures marked <= r
    ensures forall n :: n in r ==> n in marked || a.Holds(n)
    ensures forall k :: 0 <= k < |staff| && a.Holds(staff[k].name) ==> staff[k].name in r
  {
    if staff == [] then marked
    else
      var init, last := staff[..|staff| - 1], staff[|staff| - 1];
      assert forall k :: 0 <= k < |init| ==> init[k] == staff[k];
      MarkPlaced(a, marked, init) + (if StaffPosition(a, last.name).Some? then {last.name} else {})
  }

  /** One iteration of the remainder loop: an unassigned record is placed by team, or the run ends. */
  function RemainderStep(env: Env, a: Allocation, marked: set<string>, st: Staff): (r: Run)
    requires env.Ready()
    ensures Grows(env, a, r.alloc)
    ensures r.Aborted? ==> r.alloc == a && st.name !in marked && !PlaceStaff(env, a, st).placed
    ensures st.name !in marked ==>
              (r.Running? <==> PlaceStaff(env, a, st).placed) && r.alloc == PlaceStaff(env, a, st).alloc
    ensures r.Running? ==> r.marked == marked + {st.name}
    ensures r.Running? && AssignedHeld(a, marked) ==> AssignedHeld(r.alloc, r.marked)
    ensures st.name in marked ==> r == Running(a, marked)
  {
    if st.name in marked then Running(a, marked)
    else
      var p := PlaceStaff(env, a, st);
      StepGrows(env, a, p, st.name);
      if p.placed then
        AssignedStaysHeld(a, p.alloc, marked);
        Running(p.alloc, marked + {st.name})
      else Aborted(p.alloc)
  }

  /** The remainder loop of `schedule`, starting from the lists `a` and the marked names `marked`. */
  function RemainderPass(env: Env, a: Allocation, marked: set<string>, staff: seq<Staff>): (r: Run)
    requires env.Ready()
    ensures Grows(env, a, r.alloc)
    ensures r.Running? ==> marked <= r.marked
    ensures r.Running? && AssignedHeld(a, marked) ==> AssignedHeld(r.alloc, r.marked)
  {
    if staff == [] then Running(a, marked)
    else
      var p := RemainderPass(env, a, marked, staff[..|staff| - 1]);
      if p.Aborted? then p
      else
        var r := RemainderStep(env, p.alloc, p.marked, staff[|staff| - 1]);
        GrowsTransitive(env, a, p.alloc, r.alloc);
        r
  }

  /** Every record's name is in `m`. */
  ghost predicate AllMarked(staff: seq<Staff>, m: set<string>) {
    forall k :: 0 <= k < |staff| ==> staff[k].name in m
  }

  lemma MarkedSnoc(staff: seq<Staff>, m: set<string>, m2: set<string>)
    requires staff != [] && AllMarked(staff[..|staff| - 1], m) && m2 == m + {staff[|staff| - 1].name}
    ensures AllMarked(staff, m2)
  {
    forall k | 0 <= k < |staff| ensures staff[k].name in m2 {
      if k < |staff| - 1 {
        assert staff[k] == staff[..|staff| - 1][k];
      }
    }
  }

  /** A completed remainder loop has marked every record's name. */
  lemma {:induction false} RemainderPassMarksAll(env: Env, a: Allocation, marked: set<string>, staff: seq<Staff>)
    requires env.Ready() && RemainderPass(env, a, marked, staff).Running?
    ensures AllMarked(staff, RemainderPass(env, a, marked, staff).marked)
  {
    if staff != [] {
      var init := staff[..|staff| - 1];
      RemainderPassMarksAll(env, a, marked, init);
      MarkedSnoc(staff, RemainderPass(env, a, marked, init).marked, RemainderPass(env, a, marked, staff).marked);
    }
  }

  /** The remainder loop over one more record: a failed prefix stays failed, otherwise one more step. */
  lemma RemainderPassSnoc(env: Env, a: Allocation, marked: set<string>, staff: seq<Staff>, i: nat)
    requires env.Ready() && i < |staff|
    ensures var p := RemainderPass(env, a, marked, staff[..i]);
            RemainderPass(env, a, marked, staff[..i + 1])
            == if p.Aborted? then p else RemainderStep(env, p.alloc, p.marked, staff[i])
  {
    assert staff[..i + 1][..i] == staff[..i] && staff[..i + 1][i] == staff[i];
  }

  /** Once the remainder loop has given up, the remaining records change nothing. */
  lemma {:induction false} RemainderPassStaysAborted(env: Env, a: Allocation, marked: set<string>, staff: seq<Staff>, k: nat)
    requires env.Ready() && k <= |staff| && RemainderPass(env, a, marked, staff[..k]).Aborted?
    ensures RemainderPass(env, a, marked, staff) == RemainderPass(env, a, marked, staff[..k])
  {
    if k < |staff| {
      var init := staff[..|staff| - 1];
      assert init[..k] == staff[..k];
      RemainderPassStaysAborted(env, a, marked, init, k);
    } else {
      assert staff[..k] == staff;
    }
  }

  /**
   * `schedule`: the fixed-area pass, the group pass, the marking of every record
   * already on a list, then the remainder pass. `Running` is success, with the
   * final lists; `Aborted` carries the lists as the run left them.
   */
  function ScheduleRun(env: Env, a0: Allocation, staff: seq<Staff>): (r: Run)
    requires env.Ready()
    ensures Grows(env, a0, r.alloc)
  {
    var p := FixedPass(env, a0, staff);
    if p.Aborted? then p
    else
      var g := GroupPass(env, p.alloc, staff);
      var r := RemainderPass(env, g, MarkPlaced(g, p.marked, staff), staff);
      GrowsTransitive(env, a0, p.alloc, g);
      GrowsTransitive(env, a0, g, r.alloc);
      r
  }

  /** Per-section limits hold for every run from empty lists, successful or not. */
  lemma ScheduleKeepsSectionLimits(env: Env, staff: seq<Staff>)
    requires env.Ready()
    ensures WithinLimits(env, ScheduleRun(env, Empty, staff).alloc)
  {
    assert WithinLimits(env, Empty);
  }

  /** A successful run places every attending record: each name is on some list. */
  lemma {:induction false} SchedulePlacesEveryone(env: Env, a0: Allocation, staff: seq<Staff>)
    requires env.Ready() && ScheduleRun(env, a0, staff).Running?
    ensures forall k :: 0 <= k < |staff| ==> ScheduleRun(env, a0, staff).alloc.Holds(staff[k].name)
  {
    var p := FixedPass(env, a0, staff);
    var g := GroupPass(env, p.alloc, staff);
    var marked := MarkPlaced(g, p.marked, staff);
    AssignedStaysHeld(p.alloc, g, p.marked);
    assert AssignedHeld(g, marked);
    var r := RemainderPass(env, g, marked, staff);
    assert r == ScheduleRun(env, a0, staff);
    RemainderPassMarksAll(env, g, marked, staff);
    forall k | 0 <= k < |staff| ensures r.alloc.Holds(staff[k].name) {
      assert staff[k].name in r.marked;
    }
  }

  /** A successful run keeps every inbound-pinned record on an inbound list. */
  lemma {:induction false} ScheduleHonoursInboundPins(env: Env, a0: Allocation, staff: seq<Staff>)
    requires env.Ready() && ScheduleRun(env, a0, staff).Running?
    ensures forall k :: 0 <= k < |staff| && PinnedInbound(env, staff[k])
              ==> InInbound(ScheduleRun(env, a0, staff).alloc, staff[k].name)
  {
    var p := FixedPass(env, a0, staff);
    FixedPassPinsInbound(env, a0, staff);
    var r := ScheduleRun(env, a0, staff);
    forall k | 0 <= k < |staff| && PinnedInbound(env, staff[k])
      ensures InInbound(r.alloc, staff[k].name)
    {
      HeldStaysHeld(p.alloc, r.alloc, staff[k].name);
    }
  }

  type ResultMap = map<string, map<string, seq<string>>>

  /** `generate_result_dict`: area string to section string to list, keyed by the vocabulary. */
  function ResultDict(text: Vocabulary, a: Allocation): (r: ResultMap)
    ensures text.Distinct() ==> r.Keys == {text.inbound, text.outbound}
    ensures text.Distinct() ==> r[text.inbound].Keys == {text.front, text.back} == r[text.outbound].Keys
    ensures text.Distinct() ==> r[text.inbound][text.front] == a.inboundFront && r[text.inbound][text.back] == a.inboundBack
    ensures text.Distinct() ==> r[text.outbound][text.front] == a.outboundFront && r[text.outbound][text.back] == a.outboundBack
  {
    map[text.inbound := map[text.front := a.inboundFront, text.back := a.inboundBack],
        text.outbound := map[text.front := a.outboundFront, text.back := a.outboundBack]]
  }
}
