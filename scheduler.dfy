/**
 * The `Scheduler` object: the parsed configuration and roster, and the four
 * section lists its methods append to in place. Every method is proved to do
 * what the corresponding function of `Placement`, `Groups` or `Scheduling`
 * says, starting from the lists as they were on entry.
 */
module SchedulerClass {
  import opened Wrappers
  import opened Records
  import opened Placement
  import opened Groups
  import opened Scheduling

  class Scheduler {
    const areaConfig: Config
    const staffList: seq<Staff>
    const text: Vocabulary
    var inboundFront: seq<string>
    var inboundBack: seq<string>
    var outboundFront: seq<string>
    var outboundBack: seq<string>

    /** The configuration and vocabulary the placement rules read. */
    function Context(): Env {
      Env(areaConfig, text)
    }

    /** The four section lists as one value. */
    function State(): Allocation
      reads this
    {
      Allocation(inboundFront, inboundBack, outboundFront, outboundBack)
    }

    /** The limits are numbers, the team keys are present and the vocabulary strings differ. */
    predicate Valid() {
      Context().Ready()
    }

    constructor (config: Config, staff: seq<Staff>, text: Vocabulary)
      ensures areaConfig == config && staffList == staff && this.text == text
      ensures State() == Empty
    {
      areaConfig := config;
      staffList := staff;
      this.text := text;
      inboundFront, inboundBack, outboundFront, outboundBack := [], [], [], [];
    }

    /**
     * `__init__`: check the configuration, then filter the roster; a missing
     * capacity key or a malformed entry is an error and no scheduler is built.
     */
    static method Create(rawConfig: Config, entries: seq<Entry>, text: Vocabulary) returns (r: Result<Scheduler, Error>)
      ensures Records.ParseAreaConfig(rawConfig).Err? ==> r == Err(Records.ParseAreaConfig(rawConfig).error)
      ensures (Records.ParseAreaConfig(rawConfig).Ok? && Records.ParseStaffList(entries).Err?)
        ==> r == Err(Records.ParseStaffList(entries).error)
      ensures r.Ok? ==> && fresh(r.value)
                        && r.value.areaConfig == rawConfig
                        && r.value.staffList == Records.ParseStaffList(entries).value
                        && r.value.text == text && r.value.State() == Empty
      ensures r.Ok? <==> Records.ParseAreaConfig(rawConfig).Ok? && Records.ParseStaffList(entries).Ok?
    {
      var config := ParseAreaConfig(rawConfig);
      if config.Err? {
        return Err(config.error);
      }
      var staff := ParseStaffList(entries);
      if staff.Err? {
        return Err(staff.error);
      }
      var s := new Scheduler(config.value, staff.value, text);
      return Ok(s);
    }

    /** `parse_area_config`: the key check, one required key at a time. */
    static method ParseAreaConfig(raw: Config) returns (r: Result<Config, Error>)
      ensures r == Records.ParseAreaConfig(raw)
    {
      var i := 0;
      while i < |RequiredKeys|
        invariant 0 <= i <= |RequiredKeys|
        invariant forall j :: 0 <= j < i ==> RequiredKeys[j] in raw
      {
        if RequiredKeys[i] !in raw {
          return Err(MissingKey(RequiredKeys[i]));
        }
        i := i + 1;
      }
      return Ok(raw);
    }

    /** `parse_staff_list`: the filtering loop over the raw roster. */
    static method ParseStaffList(entries: seq<Entry>) returns (r: Result<seq<Staff>, Error>)
      ensures r == Records.ParseStaffList(entries)
    {
      var parsed: seq<Staff> := [];
      var i := 0;
      while i < |entries|
        invariant 0 <= i <= |entries|
        invariant Records.ParseStaffList(entries[..i]) == Ok(parsed)
      {
        assert entries[..i + 1][..i] == entries[..i];
        match entries[i]
        case NotRecord =>
          FirstErrorStays(entries, i + 1);
          return Err(MalformedStaffEntry(i));
        case Record(s) =>
          if s.attendance == "Y" {
            parsed := parsed + [s];
          }
        i := i + 1;
      }
      assert entries[..i] == entries;
      return Ok(parsed);
    }

    /** `generate_result_dict`. */
    method GenerateResultDict() returns (r: ResultMap)
      ensures r == ResultDict(text, State())
    {
      r := map[text.inbound := map[text.front := inboundFront, text.back := inboundBack],
               text.outbound := map[text.front := outboundFront, text.back := outboundBack]];
    }

    /** `get_staff_position`. */
    method GetStaffPosition(st: Staff) returns (pos: Option<Section>)
      ensures pos == StaffPosition(State(), st.name)
    {
      if st.name in inboundFront {
        pos := Some(InboundFront);
      } else if st.name in inboundBack {
        pos := Some(InboundBack);
      } else if st.name in outboundFront {
        pos := Some(OutboundFront);
      } else if st.name in outboundBack {
        pos := Some(OutboundBack);
      } else {
        pos := None;
      }
    }

    /** Append to section `s` iff it is below its limit. */
    method AppendIfRoom(s: Section, name: string) returns (ok: bool)
      requires Valid()
      modifies this
      ensures Outcome(ok, State()) == PlaceSection(Context(), old(State()), s, name)
    {
      ok := false;
      match s
      case InboundFront =>
        if |inboundFront| < areaConfig[InboundFrontKey].i {
          inboundFront := inboundFront + [name];
          ok := true;
        }
      case InboundBack =>
        if |inboundBack| < areaConfig[InboundBackKey].i {
          inboundBack := inboundBack + [name];
          ok := true;
        }
      case OutboundFront =>
        if |outboundFront| < areaConfig[OutboundFrontKey].i {
          outboundFront := outboundFront + [name];
          ok := true;
        }
      case OutboundBack =>
        if |outboundBack| < areaConfig[OutboundBackKey].i {
          outboundBack := outboundBack + [name];
          ok := true;
        }
    }

    /** `assign_to_leader_position`: no position places nothing. */
    method AssignToLeaderPosition(st: Staff, pos: Option<Section>) returns (ok: bool)
      requires Valid()
      modifies this
      ensures Outcome(ok, State()) == PlaceAtLeader(Context(), old(State()), st.name, pos)
    {
      if pos.None? {
        return false;
      }
      ok := AppendIfRoom(pos.value, st.name);
    }

    /** `assign_front`: the outbound string is tested before the inbound one. */
    method AssignFront(st: Staff, area: string) returns (ok: bool)
      requires Valid()
      modifies this
      ensures Outcome(ok, State()) == PlaceFront(Context(), old(State()), area, st.name)
    {
      if area == text.outbound {
        ok := AppendIfRoom(OutboundFront, st.name);
      } else if area == text.inbound {
        ok := AppendIfRoom(InboundFront, st.name);
      } else {
        ok := false;
      }
    }

    /** `assign_back`. */
    method AssignBack(st: Staff, area: string) returns (ok: bool)
      requires Valid()
      modifies this
      ensures Outcome(ok, State()) == PlaceBack(Context(), old(State()), area, st.name)
    {
      if area == text.outbound {
        ok := AppendIfRoom(OutboundBack, st.name);
      } else if area == text.inbound {
        ok := AppendIfRoom(InboundBack, st.name);
      } else {
        ok := false;
      }
    }

    /** `assign_inbound`. */
    method AssignInbound(st: Staff) returns (ok: bool)
      requires Valid()
      modifies this
      ensures Outcome(ok, State()) == PlaceInArea(Context(), old(State()), Inbound, st)
    {
      if |inboundFront| + |inboundBack| >= areaConfig[InboundTotalKey].i {
        return false;
      }
      var area := text.inbound;
      var frontVacancy := areaConfig[InboundFrontKey].i - |inboundFront|;
      var backVacancy := areaConfig[InboundBackKey].i - |inboundBack|;
      if st.preferredSection == text.front && frontVacancy > 0 {
        ok := AssignFront(st, area);
      } else if st.preferredSection == text.back && backVacancy > 0 {
        ok := AssignBack(st, area);
      } else if frontVacancy > 0 && backVacancy > 0 {
        if frontVacancy > backVacancy {
          ok := AssignFront(st, area);
        } else {
          ok := AssignBack(st, area);
        }
      } else if frontVacancy > 0 {
        ok := AssignFront(st, area);
      } else if backVacancy > 0 {
        ok := AssignBack(st, area);
      } else {
        ok := false;
      }
    }

    /** `assign_outbound`. */
    method AssignOutbound(st: Staff) returns (ok: bool)
      requires Valid()
      modifies this
      ensures Outcome(ok, State()) == PlaceInArea(Context(), old(State()), Outbound, st)
    {
      if |outboundFront| + |outboundBack| >= areaConfig[OutboundTotalKey].i {
        return false;
      }
      var area := text.outbound;
      var frontVacancy := areaConfig[OutboundFrontKey].i - |outboundFront|;
      var backVacancy := areaConfig[OutboundBackKey].i - |outboundBack|;
      if st.preferredSection == text.front && frontVacancy > 0 {
        ok := AssignFront(st, area);
      } else if st.preferredSection == text.back && backVacancy > 0 {
        ok := AssignBack(st, area);
      } else if frontVacancy > 0 && backVacancy > 0 {
        if frontVacancy > backVacancy {
          ok := AssignFront(st, area);
        } else {
          ok := AssignBack(st, area);
        }
      } else if frontVacancy > 0 {
        ok := AssignFront(st, area);
      } else if backVacancy > 0 {
        ok := AssignBack(st, area);
      } else {
        ok := false;
      }
    }

    /** `assign_mobile`. */
    method AssignMobile(st: Staff) returns (ok: bool)
      requires Valid()
      modifies this
      ensures Outcome(ok, State()) == PlaceMobile(Context(), old(State()), st)
    {
      if st.preferredArea == text.inbound {
        ok := AssignInbound(st);
        if ok {
          return;
        }
      } else if st.preferredArea == text.outbound {
        ok := AssignOutbound(st);
        if ok {
          return;
        }
      }
      var inboundVacancy := areaConfig[InboundTotalKey].i - (|inboundFront| + |inboundBack|);
      var outboundVacancy := areaConfig[OutboundTotalKey].i - (|outboundFront| + |outboundBack|);
      if inboundVacancy > 0 && outboundVacancy > 0 {
        if inboundVacancy > outboundVacancy {
          ok := AssignInbound(st);
        } else {
          ok := AssignOutbound(st);
        }
      } else if inboundVacancy > 0 {
        ok := AssignInbound(st);
      } else if outboundVacancy > 0 {
        ok := AssignOutbound(st);
      } else {
        ok := false;
      }
    }

    /** `assign_staff`: dispatch on the team name. */
    method AssignStaff(st: Staff) returns (ok: bool)
      requires Valid()
      modifies this
      ensures Outcome(ok, State()) == PlaceStaff(Context(), old(State()), st)
    {
      if areaConfig[InboundTeamKey] == Str(st.teamName) {
        ok := AssignInbound(st);
      } else if areaConfig[OutboundTeamKey] == Str(st.teamName) {
        ok := AssignOutbound(st);
      } else if areaConfig[MobileTeamKey] == Str(st.teamName) {
        ok := AssignMobile(st);
      } else {
        ok := false;
      }
    }

    /**
     * `assign_group`, step 2: the groups in order of first appearance (the
     * insertion order of `group_mapping`) and, for each, its records in roster
     * order. Records with neither group key are skipped.
     */
    method CollectGroups() returns (order: seq<string>, mapping: map<string, seq<Staff>>)
      ensures order == GroupNames(staffList)
      ensures forall g :: g in mapping <==> g in order
      ensures forall g :: g in mapping ==> mapping[g] == Members(staffList, g)
    {
      order, mapping := [], map[];
      var i := 0;
      while i < |staffList|
        invariant 0 <= i <= |staffList|
        invariant Collected(staffList[..i], order, mapping)
      {
        var st := staffList[i];
        assert staffList[..i + 1] == staffList[..i] + [st];
        CollectStep(staffList[..i], st, order, mapping);
        if st.groupLeader.Some? || st.groupMember.Some? {
          var group := if st.groupLeader.Some? then NormalizeGroupName(st.groupLeader.value)
                       else NormalizeGroupName(st.groupMember.value);
          var members := if group in mapping then mapping[group] else [];
          if group !in mapping {
            order := order + [group];
          }
          mapping := mapping[group := members + [st]];
        }
        i := i + 1;
      }
      assert staffList[..i] == staffList;
    }

    /** `assign_group`: collect the groups, then place them one after another. */
    method AssignGroup()
      requires Valid()
      modifies this
      ensures State() == GroupPass(Context(), old(State()), staffList)
    {
      var order, mapping := CollectGroups();
      ghost var env, a0 := Context(), old(State());
      var j := 0;
      while j < |order|
        invariant 0 <= j <= |order|
        invariant State() == PlaceGroups(env, a0, order[..j], staffList)
      {
        var members := mapping[order[j]];
        assert members == Members(staffList, order[j]);
        PlaceGroupsSnoc(env, a0, order, staffList, j);
        PlaceOneGroup(members);
        j := j + 1;
      }
      assert order[..j] == order;
    }

    /**
     * `assign_group`, steps 3 and 4 for one group: its first leader is placed
     * by team and, if that succeeds, the other records go to the leader's position.
     */
    method PlaceOneGroup(members: seq<Staff>)
      requires Valid()
      modifies this
      ensures State() == PlaceGroup(Context(), old(State()), members)
    {
      var leader := FirstLeader(members);
      if leader.None? {
        return;
      }
      var ok := AssignStaff(leader.value);
      if ok {
        var pos := GetStaffPosition(leader.value);
        PlaceAtPosition(members, leader.value, pos);
      }
    }

    /** `assign_group`, step 4: every record other than the leader goes to `pos`. */
    method PlaceAtPosition(members: seq<Staff>, leader: Staff, pos: Option<Section>)
      requires Valid()
      modifies this
      ensures State() == PlaceMembers(Context(), old(State()), members, leader, pos)
    {
      ghost var b := State();
      var k := 0;
      while k < |members|
        invariant 0 <= k <= |members|
        invariant State() == PlaceMembers(Context(), b, members[..k], leader, pos)
      {
        assert members[..k + 1][..k] == members[..k] && members[..k + 1][k] == members[k];
        if members[k] != leader {
          var placed := AssignToLeaderPosition(members[k], pos);
        }
        k := k + 1;
      }
      assert members[..k] == members;
    }

    /**
     * One iteration of the fixed-area loop of `schedule`. The outbound test is
     * the `else` of the non-empty test. The failure log of this loop reads the
     * keys `Inbound_Total` and `Outbound_Total`, which differ from the checked
     * `Inbound_total` and `Outbound_total`; the failure is modelled as a plain
     * failed step.
     */
    method FixedAreaStep(st: Staff, marked: set<string>) returns (ok: bool, marked': set<string>)
      requires Valid()
      modifies this
      ensures var r := FixedStep(Context(), old(State()), marked, st);
              ok == r.Running? && State() == r.alloc && (ok ==> marked' == r.marked)
    {
      ok, marked' := true, marked;
      if st.fixedArea != "" {
        if st.fixedArea == text.inbound {
          var placed := AssignInbound(st);
          if placed {
            marked' := marked + {st.name};
          } else {
            ok := false;
          }
        }
      } else if st.fixedArea == text.outbound {
        var placed := AssignOutbound(st);
        if placed {
          marked' := marked + {st.name};
        } else {
          ok := false;
        }
      }
    }

    /** The fixed-area loop of `schedule`, which stops at its first failure. */
    method AssignFixedAreas() returns (ok: bool, marked: set<string>)
      requires Valid()
      modifies this
      ensures var r := FixedPass(Context(), old(State()), staffList);
              ok == r.Running? && State() == r.alloc && (ok ==> marked == r.marked)
    {
      ghost var env, a0 := Context(), old(State());
      marked := {};
      var i := 0;
      while i < |staffList|
        invariant 0 <= i <= |staffList|
        invariant FixedPass(env, a0, staffList[..i]) == Running(State(), marked)
      {
        FixedPassSnoc(env, a0, staffList, i);
        ok, marked := FixedAreaStep(staffList[i], marked);
        if !ok {
          FixedPassStaysAborted(env, a0, staffList, i + 1);
          return;
        }
        i := i + 1;
      }
      assert staffList[..i] == staffList;
      ok := true;
    }

    /** The loop after `assign_group` that marks every record already on a list. */
    method MarkPlacedStaff(marked: set<string>) returns (marked': set<string>)
      ensures marked' == MarkPlaced(State(), marked, staffList)
    {
      marked' := marked;
      var i := 0;
      while i < |staffList|
        invariant 0 <= i <= |staffList|
        invariant marked' == MarkPlaced(State(), marked, staffList[..i])
      {
        assert staffList[..i + 1][..i] == staffList[..i] && staffList[..i + 1][i] == staffList[i];
        var pos := GetStaffPosition(staffList[i]);
        if pos.Some? {
          marked' := marked' + {staffList[i].name};
        }
        i := i + 1;
      }
      assert staffList[..i] == staffList;
    }

    /** One iteration of the remainder loop of `schedule`. */
    method RemainderAreaStep(st: Staff, marked: set<string>) returns (ok: bool, marked': set<string>)
      requires Valid()
      modifies this
      ensures var r := RemainderStep(Context(), old(State()), marked, st);
              ok == r.Running? && State() == r.alloc && (ok ==> marked' == r.marked)
    {
      ok, marked' := true, marked;
      if st.name !in marked {
        var placed := AssignStaff(st);
        if placed {
          marked' := marked + {st.name};
        } else {
          ok := false;
        }
      }
    }

    /** The remainder loop of `schedule`, which stops at its first failure. */
    method AssignRemaining(marked: set<string>) returns (ok: bool)
      requires Valid()
      modifies this
      ensures var r := RemainderPass(Context(), old(State()), marked, staffList);
              ok == r.Running? && State() == r.alloc
    {
      ghost var env, a0 := Context(), old(State());
      var current := marked;
      var i := 0;
      while i < |staffList|
        invariant 0 <= i <= |staffList|
        invariant RemainderPass(env, a0, marked, staffList[..i]) == Running(State(), current)
      {
        RemainderPassSnoc(env, a0, marked, staffList, i);
        ok, current := RemainderAreaStep(staffList[i], current);
        if !ok {
          RemainderPassStaysAborted(env, a0, marked, staffList, i + 1);
          return;
        }
        i := i + 1;
      }
      assert staffList[..i] == staffList;
      ok := true;
    }

    /**
     * `schedule`: returns whether every attending record was placed and, if so,
     * the result mapping.
     */
    method Schedule() returns (ok: bool, result: Option<ResultMap>)
      requires Valid()
      modifies this
      ensures var r := ScheduleRun(Context(), old(State()), staffList);
              && ok == r.Running?
              && State() == r.alloc
              && result == (if ok then Some(ResultDict(text, r.alloc)) else None)
    {
      var marked;
      ok, marked := AssignFixedAreas();
      if !ok {
        return false, None;
      }
      AssignGroup();
      marked := MarkPlacedStaff(marked);
      ok := AssignRemaining(marked);
      if !ok {
        return false, None;
      }
      var dict := GenerateResultDict();
      return true, Some(dict);
    }
  }

  /** Once `parse_staff_list` has failed on a prefix, it fails the same way on the whole roster. */
  lemma {:induction false} FirstErrorStays(entries: seq<Entry>, k: nat)
    requires k <= |entries| && Records.ParseStaffList(entries[..k]).Err?
    ensures Records.ParseStaffList(entries) == Records.ParseStaffList(entries[..k])
  {
    if k < |entries| {
      var init := entries[..|entries| - 1];
      assert init[..k] == entries[..k];
      FirstErrorStays(init, k);
    } else {
      assert entries[..k] == entries;
    }
  }

  /**
   * `order` lists the groups of `prefix` in first-appearance order and
   * `mapping` holds, for each of them and no other name, its records in order.
   */
  ghost predicate Collected(prefix: seq<Staff>, order: seq<string>, mapping: map<string, seq<Staff>>) {
    && order == GroupNames(prefix)
    && (forall g :: g in mapping <==> g in order)
    && (forall g :: g in mapping ==> mapping[g] == Members(prefix, g))
  }

  /** One iteration of the mapping loop keeps `Collected`. */
  lemma CollectStep(prefix: seq<Staff>, st: Staff, order: seq<string>, mapping: map<string, seq<Staff>>)
    requires Collected(prefix, order, mapping)
    ensures GroupKey(st).None? ==> Collected(prefix + [st], order, mapping)
    ensures GroupKey(st).Some? ==>
              var g := GroupKey(st).value;
              Collected(prefix + [st], if g in mapping then order else order + [g],
                        mapping[g := (if g in mapping then mapping[g] else []) + [st]])
  {
    match GroupKey(st)
    case None => CollectSkip(prefix, st, order, mapping);
    case Some(g) => CollectAdd(prefix, st, g, order, mapping);
  }

  /** A record without a group key changes neither the order nor the mapping. */
  lemma CollectSkip(prefix: seq<Staff>, st: Staff, order: seq<string>, mapping: map<string, seq<Staff>>)
    requires Collected(prefix, order, mapping) && GroupKey(st).None?
    ensures Collected(prefix + [st], order, mapping)
  {
    GroupNamesSnoc(prefix, st);
    forall g | g in mapping ensures mapping[g] == Members(prefix + [st], g) {
      MembersSnoc(prefix, st, g);
      assert Members(prefix, g) + [] == Members(prefix, g);
    }
  }

  /** A record of group `g0` appends `g0` to the order if new, and itself to `g0`'s records. */
  lemma CollectAdd(prefix: seq<Staff>, st: Staff, g0: string, order: seq<string>, mapping: map<string, seq<Staff>>)
    requires Collected(prefix, order, mapping) && GroupKey(st) == Some(g0)
    ensures Collected(prefix + [st], if g0 in mapping then order else order + [g0],
                      mapping[g0 := (if g0 in mapping then mapping[g0] else []) + [st]])
  {
    var order' := if g0 in mapping then order else order + [g0];
    var mapping' := mapping[g0 := (if g0 in mapping then mapping[g0] else []) + [st]];
    CollectAddOrder(prefix, st, g0, order, mapping);
    CollectAddMembers(prefix, st, g0, order, mapping);
    assert Collected(prefix + [st], order', mapping');
  }

  /** The order part of `CollectAdd`: the group joins the order iff it is new. */
  lemma CollectAddOrder(prefix: seq<Staff>, st: Staff, g0: string, order: seq<string>, mapping: map<string, seq<Staff>>)
    requires Collected(prefix, order, mapping) && GroupKey(st) == Some(g0)
    ensures var order' := if g0 in mapping then order else order + [g0];
            && order' == GroupNames(prefix + [st])
            && forall g :: g in mapping[g0 := []] <==> g in order'
  {
    GroupNamesSnoc(prefix, st);
    assert mapping[g0 := []].Keys == mapping.Keys + {g0};
    assert forall g :: g in order + [g0] <==> g in order || g == g0;
  }

  /** The mapping part of `CollectAdd`: only `g0`'s records change, gaining the new record. */
  lemma CollectAddMembers(prefix: seq<Staff>, st: Staff, g0: string, order: seq<string>, mapping: map<string, seq<Staff>>)
    requires Collected(prefix, order, mapping) && GroupKey(st) == Some(g0)
    ensures var mapping' := mapping[g0 := (if g0 in mapping then mapping[g0] else []) + [st]];
            forall g :: g in mapping' ==> mapping'[g] == Members(prefix + [st], g)
  {
    var old0 := if g0 in mapping then mapping[g0] else [];
    var mapping' := mapping[g0 := old0 + [st]];
    if g0 !in mapping {
      MembersOfNewGroup(prefix, g0);
    }
    forall g | g in mapping' ensures mapping'[g] == Members(prefix + [st], g) {
      MembersSnoc(prefix, st, g);
      if g != g0 {
        assert Members(prefix, g) + [] == Members(prefix, g);
      }
    }
  }

  /** One more record adds its group to the group names if the group is new. */
  lemma GroupNamesSnoc(prefix: seq<Staff>, st: Staff)
    ensures GroupNames(prefix + [st])
            == match GroupKey(st)
               case None => GroupNames(prefix)
               case Some(g) => if g in GroupNames(prefix) then GroupNames(prefix) else GroupNames(prefix) + [g]
  {
    assert (prefix + [st])[..|prefix|] == prefix;
  }

  /** One more record joins the records of its own group only. */
  lemma MembersSnoc(prefix: seq<Staff>, st: Staff, g: string)
    ensures Members(prefix + [st], g) == Members(prefix, g) + (if GroupKey(st) == Some(g) then [st] else [])
  {
    assert (prefix + [st])[..|prefix|] == prefix;
  }
}
