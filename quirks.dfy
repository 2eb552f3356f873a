/**
 * Concrete runs that show what `schedule` does not guarantee: the group pass
 * places a leader again even when the fixed-area pass already placed it, and
 * co-location at the leader's position ignores the area total.
 */
module Quirks {
  import opened Wrappers
  import opened Records
  import opened Placement
  import opened Groups
  import opened Scheduling

  const Text := Vocabulary("in", "out", "front", "back")

  /** Inbound team "A", outbound team "B", mobile team "C", with the given inbound limits. */
  function Setting(inFront: int, inBack: int, inTotal: int): (env: Env)
    ensures env.Ready()
    ensures env.Limit(InboundFront) == inFront && env.Limit(InboundBack) == inBack && env.Total(Inbound) == inTotal
    ensures env.text == Text && env.config[InboundTeamKey] == Str("A")
  {
    Env(map[InboundFrontKey := Int(inFront), InboundBackKey := Int(inBack),
            OutboundFrontKey := Int(1), OutboundBackKey := Int(1),
            InboundTotalKey := Int(inTotal), OutboundTotalKey := Int(2),
            InboundTeamKey := Str("A"), OutboundTeamKey := Str("B"), MobileTeamKey := Str("C")],
        Text)
  }

  /** An inbound-team group leader pinned to inbound. */
  const PinnedLeader := Staff("Li", "Y", "in", "", "", "A", Some("g"), None)

  /** An inbound-team group leader with no pin, and a member who spells the group " G". */
  const Leader := Staff("Li", "Y", "", "", "", "A", Some("g"), None)
  const Member := Staff("Mo", "Y", "", "", "", "A", None, Some(" G"))

  lemma StripLeftPlain()
    ensures StripLeft("g") == "g"
  {
  }

  lemma StripRightPlain()
    ensures StripRight("g") == "g"
  {
  }

  lemma StripLeftSpaced()
    ensures StripLeft(" g") == "g"
  {
    assert " g"[1..] == "g";
    StripLeftPlain();
  }

  lemma LowerPlain()
    ensures Lower("g") == "g"
  {
    assert Lower("g")[0] == 'g';
  }

  lemma LowerSpaced()
    ensures Lower(" G") == " g"
  {
    assert Lower(" G")[0] == ' ' && Lower(" G")[1] == 'g';
  }

  lemma PlainSpelling()
    ensures NormalizeGroupName("g") == "g"
  {
    LowerPlain();
    StripLeftPlain();
    StripRightPlain();
  }

  lemma SpacedSpelling()
    ensures NormalizeGroupName(" G") == "g"
  {
    LowerSpaced();
    StripLeftSpaced();
    StripRightPlain();
  }

  /** All three records belong to group "g", whichever way they spell it. */
  lemma GroupKeys()
    ensures GroupKey(PinnedLeader) == Some("g") && GroupKey(Leader) == Some("g") && GroupKey(Member) == Some("g")
  {
    PlainSpelling();
    SpacedSpelling();
  }

  /** A roster of one record forms one group. */
  lemma SingleGroup(st: Staff, g: string)
    requires GroupKey(st) == Some(g)
    ensures GroupNames([st]) == [g] && Members([st], g) == [st]
  {
    assert [st][..0] == [];
  }

  /** Two records with the same group form one group, in roster order. */
  lemma PairGroup(x: Staff, y: Staff, g: string)
    requires GroupKey(x) == Some(g) && GroupKey(y) == Some(g)
    ensures GroupNames([x, y]) == [g] && Members([x, y], g) == [x, y]
  {
    SingleGroup(x, g);
    assert [x, y][..1] == [x];
  }

  lemma PairNonLeaders(x: Staff, y: Staff)
    requires x != y
    ensures NonLeaderNames([x, y], x) == [y.name]
  {
    assert [x, y][..1] == [x] && [x][..0] == [];
    assert NonLeaderNames([x], x) == [] + [];
  }

  lemma PinnedLeaderAlone()
    ensures GroupNames([PinnedLeader]) == ["g"] && Members([PinnedLeader], "g") == [PinnedLeader]
  {
    GroupKeys();
    SingleGroup(PinnedLeader, "g");
  }

  lemma LeaderAndMember()
    ensures GroupNames([Leader, Member]) == ["g"] && Members([Leader, Member], "g") == [Leader, Member]
    ensures NonLeaderNames([Leader, Member], Leader) == ["Mo"]
  {
    GroupKeys();
    PairGroup(Leader, Member, "g");
    PairNonLeaders(Leader, Member);
  }

  lemma DoubleBookingFixedPass()
    ensures FixedPass(Setting(2, 2, 4), Empty, [PinnedLeader]) == Running(Allocation([], ["Li"], [], []), {"Li"})
  {
    var env := Setting(2, 2, 4);
    assert [PinnedLeader][..0] == [];
    assert !PreferenceUsable(env, Empty, Inbound, PinnedLeader);
    assert PlaceInArea(env, Empty, Inbound, PinnedLeader) == Outcome(true, Empty.Append(InboundBack, "Li"));
  }

  lemma DoubleBookingLeaderAgain()
    ensures PlaceStaff(Setting(2, 2, 4), Allocation([], ["Li"], [], []), PinnedLeader)
            == Outcome(true, Allocation(["Li"], ["Li"], [], []))
  {
    var env := Setting(2, 2, 4);
    var a1 := Allocation([], ["Li"], [], []);
    assert !PreferenceUsable(env, a1, Inbound, PinnedLeader);
    assert PlaceInArea(env, a1, Inbound, PinnedLeader) == Outcome(true, a1.Append(InboundFront, "Li"));
  }

  lemma DoubleBookingGroup()
    ensures PlaceGroup(Setting(2, 2, 4), Allocation([], ["Li"], [], []), [PinnedLeader])
            == Allocation(["Li"], ["Li"], [], [])
  {
    var env := Setting(2, 2, 4);
    var a2 := Allocation(["Li"], ["Li"], [], []);
    assert FirstLeader([PinnedLeader]) == Some(PinnedLeader);
    DoubleBookingLeaderAgain();
    assert StaffPosition(a2, "Li") == Some(InboundFront);
    assert [PinnedLeader][..0] == [];
    assert PlaceMembers(env, a2, [PinnedLeader], PinnedLeader, Some(InboundFront)) == a2;
  }

  lemma DoubleBookingGroupPass()
    ensures GroupPass(Setting(2, 2, 4), Allocation([], ["Li"], [], []), [PinnedLeader])
            == Allocation(["Li"], ["Li"], [], [])
  {
    var env := Setting(2, 2, 4);
    var a1 := Allocation([], ["Li"], [], []);
    var staff := [PinnedLeader];
    PinnedLeaderAlone();
    DoubleBookingGroup();
    var names := GroupNames(staff);
    assert names[..0] == [] && names[0] == "g";
    assert PlaceGroups(env, a1, names[..0], staff) == a1;
    assert PlaceGroups(env, a1, names, staff) == PlaceGroup(env, a1, Members(staff, "g"));
  }

  lemma DoubleBookingRemainderPass()
    ensures var a2 := Allocation(["Li"], ["Li"], [], []);
            RemainderPass(Setting(2, 2, 4), a2, MarkPlaced(a2, {"Li"}, [PinnedLeader]), [PinnedLeader])
            == Running(a2, {"Li"})
  {
    var a2 := Allocation(["Li"], ["Li"], [], []);
    assert [PinnedLeader][..0] == [];
    assert MarkPlaced(a2, {"Li"}, [PinnedLeader]) == {"Li"};
  }

  /**
   * No double-booking is not guaranteed: a leader pinned to inbound is placed
   * by the fixed-area pass (inbound back, the tie going to back) and again by
   * the group pass (inbound front), and the run succeeds.
   */
  lemma DoubleBooking()
    ensures ScheduleRun(Setting(2, 2, 4), Empty, [PinnedLeader])
            == Running(Allocation(["Li"], ["Li"], [], []), {"Li"})
  {
    DoubleBookingFixedPass();
    DoubleBookingGroupPass();
    DoubleBookingRemainderPass();
  }

  lemma AreaTotalFixedPass()
    ensures FixedPass(Setting(2, 0, 1), Empty, [Leader, Member]) == Running(Empty, {})
  {
    var env := Setting(2, 0, 1);
    assert [Leader, Member][..1] == [Leader] && [Leader][..0] == [];
    assert FixedPass(env, Empty, [Leader]) == Running(Empty, {});
  }

  lemma AreaTotalLeaderFirst()
    ensures PlaceStaff(Setting(2, 0, 1), Empty, Leader) == Outcome(true, Allocation(["Li"], [], [], []))
  {
    var env := Setting(2, 0, 1);
    assert !PreferenceUsable(env, Empty, Inbound, Leader);
    assert PlaceInArea(env, Empty, Inbound, Leader) == Outcome(true, Empty.Append(InboundFront, "Li"));
  }

  lemma AreaTotalRoom()
    ensures Room(Setting(2, 0, 1), Allocation(["Li"], [], [], []), InboundFront) == 1
  {
  }

  lemma AreaTotalColocated()
    ensures PlaceMembers(Setting(2, 0, 1), Allocation(["Li"], [], [], []), [Leader, Member], Leader, Some(InboundFront)).At(InboundFront)
            == ["Li", "Mo"]
  {
    var env := Setting(2, 0, 1);
    var a1 := Allocation(["Li"], [], [], []);
    assert NonLeaderNames([Leader, Member], Leader) == ["Mo"] by { LeaderAndMember(); }
    AreaTotalRoom();
    assert Take(["Mo"], 1) == ["Mo"];
    PlaceMembersColocates(env, a1, [Leader, Member], Leader, InboundFront);
  }

  lemma AreaTotalMembers()
    ensures PlaceMembers(Setting(2, 0, 1), Allocation(["Li"], [], [], []), [Leader, Member], Leader, Some(InboundFront))
            == Allocation(["Li", "Mo"], [], [], [])
  {
    var b := PlaceMembers(Setting(2, 0, 1), Allocation(["Li"], [], [], []), [Leader, Member], Leader, Some(InboundFront));
    AreaTotalColocated();
    assert b.inboundFront == b.At(InboundFront);
    assert b.inboundBack == b.At(InboundBack) == [];
    assert b.outboundFront == b.At(OutboundFront) == [];
    assert b.outboundBack == b.At(OutboundBack) == [];
  }

  lemma AreaTotalGroup()
    ensures PlaceGroup(Setting(2, 0, 1), Empty, [Leader, Member]) == Allocation(["Li", "Mo"], [], [], [])
  {
    var a1 := Allocation(["Li"], [], [], []);
    assert FirstLeader([Leader, Member]) == Some(Leader);
    AreaTotalLeaderFirst();
    assert StaffPosition(a1, "Li") == Some(InboundFront);
    AreaTotalMembers();
  }

  lemma AreaTotalGroupPass()
    ensures GroupPass(Setting(2, 0, 1), Empty, [Leader, Member]) == Allocation(["Li", "Mo"], [], [], [])
  {
    var env := Setting(2, 0, 1);
    var staff := [Leader, Member];
    LeaderAndMember();
    AreaTotalGroup();
    var names := GroupNames(staff);
    assert names[..0] == [] && names[0] == "g";
    assert PlaceGroups(env, Empty, names[..0], staff) == Empty;
    assert PlaceGroups(env, Empty, names, staff) == PlaceGroup(env, Empty, Members(staff, "g"));
  }

  lemma AreaTotalRemainderPass()
    ensures var a2 := Allocation(["Li", "Mo"], [], [], []);
            RemainderPass(Setting(2, 0, 1), a2, MarkPlaced(a2, {}, [Leader, Member]), [Leader, Member])
            == Running(a2, {"Li", "Mo"})
  {
    var a2 := Allocation(["Li", "Mo"], [], [], []);
    var staff := [Leader, Member];
    assert staff[..1] == [Leader] && [Leader][..0] == [];
    assert MarkPlaced(a2, {}, [Leader]) == {"Li"};
    assert MarkPlaced(a2, {}, staff) == {"Li", "Mo"};
    assert RemainderPass(Setting(2, 0, 1), a2, {"Li", "Mo"}, [Leader]) == Running(a2, {"Li", "Mo"});
  }

  /**
   * The area total is not guaranteed: with an inbound total of 1, the leader
   * takes the only inbound place and the member, whose group is spelled " G",
   * is still appended to the leader's section, which has room under its own
   * limit of 2.
   */
  lemma AreaTotalExceeded()
    ensures var r := ScheduleRun(Setting(2, 0, 1), Empty, [Leader, Member]);
            && r == Running(Allocation(["Li", "Mo"], [], [], []), {"Li", "Mo"})
            && r.alloc.Occupancy(Inbound) > Setting(2, 0, 1).Total(Inbound)
  {
    AreaTotalFixedPass();
    AreaTotalGroupPass();
    AreaTotalRemainderPass();
  }

  /** An outbound-team group leader pinned to inbound, and an outbound-team member of its group. */
  const MovedLeader := Staff("Li", "Y", "in", "", "", "B", Some("g"), None)
  const MovedMember := Staff("Mo", "Y", "", "", "", "B", None, Some("g"))

  lemma MovedPair()
    ensures GroupNames([MovedLeader, MovedMember]) == ["g"]
    ensures Members([MovedLeader, MovedMember], "g") == [MovedLeader, MovedMember]
    ensures NonLeaderNames([MovedLeader, MovedMember], MovedLeader) == ["Mo"]
  {
    PlainSpelling();
    PairGroup(MovedLeader, MovedMember, "g");
    PairNonLeaders(MovedLeader, MovedMember);
  }

  lemma MovedLeaderPinned()
    ensures FixedPass(Setting(2, 2, 4), Empty, [MovedLeader]) == Running(Allocation([], ["Li"], [], []), {"Li"})
  {
    var env := Setting(2, 2, 4);
    assert [MovedLeader][..0] == [];
    assert !PreferenceUsable(env, Empty, Inbound, MovedLeader);
    assert PlaceInArea(env, Empty, Inbound, MovedLeader) == Outcome(true, Empty.Append(InboundBack, "Li"));
  }

  lemma MovedFixedPass()
    ensures FixedPass(Setting(2, 2, 4), Empty, [MovedLeader, MovedMember])
            == Running(Allocation([], ["Li"], [], []), {"Li"})
  {
    assert [MovedLeader, MovedMember][..1] == [MovedLeader];
    MovedLeaderPinned();
  }

  lemma MovedLeaderAgain()
    ensures PlaceStaff(Setting(2, 2, 4), Allocation([], ["Li"], [], []), MovedLeader)
            == Outcome(true, Allocation([], ["Li"], [], ["Li"]))
  {
    var env := Setting(2, 2, 4);
    var a1 := Allocation([], ["Li"], [], []);
    assert !PreferenceUsable(env, a1, Outbound, MovedLeader);
    assert PlaceInArea(env, a1, Outbound, MovedLeader) == Outcome(true, a1.Append(OutboundBack, "Li"));
  }

  lemma MovedColocated()
    ensures PlaceMembers(Setting(2, 2, 4), Allocation([], ["Li"], [], ["Li"]), [MovedLeader, MovedMember], MovedLeader, Some(InboundBack)).At(InboundBack)
            == ["Li", "Mo"]
  {
    var env := Setting(2, 2, 4);
    var a2 := Allocation([], ["Li"], [], ["Li"]);
    assert NonLeaderNames([MovedLeader, MovedMember], MovedLeader) == ["Mo"] by { MovedPair(); }
    assert Room(env, a2, InboundBack) == 1;
    assert Take(["Mo"], 1) == ["Mo"];
    PlaceMembersColocates(env, a2, [MovedLeader, MovedMember], MovedLeader, InboundBack);
  }

  lemma MovedMembers()
    ensures PlaceMembers(Setting(2, 2, 4), Allocation([], ["Li"], [], ["Li"]), [MovedLeader, MovedMember], MovedLeader, Some(InboundBack))
            == Allocation([], ["Li", "Mo"], [], ["Li"])
  {
    var b := PlaceMembers(Setting(2, 2, 4), Allocation([], ["Li"], [], ["Li"]), [MovedLeader, MovedMember], MovedLeader, Some(InboundBack));
    MovedColocated();
    assert b.inboundBack == b.At(InboundBack);
    assert b.inboundFront == b.At(InboundFront) == [];
    assert b.outboundFront == b.At(OutboundFront) == [];
    assert b.outboundBack == b.At(OutboundBack) == ["Li"];
  }

  lemma MovedGroup()
    ensures PlaceGroup(Setting(2, 2, 4), Allocation([], ["Li"], [], []), [MovedLeader, MovedMember])
            == Allocation([], ["Li", "Mo"], [], ["Li"])
  {
    var a2 := Allocation([], ["Li"], [], ["Li"]);
    assert FirstLeader([MovedLeader, MovedMember]) == Some(MovedLeader);
    MovedLeaderAgain();
    assert StaffPosition(a2, "Li") == Some(InboundBack);
    MovedMembers();
  }

  lemma MovedGroupPass()
    ensures GroupPass(Setting(2, 2, 4), Allocation([], ["Li"], [], []), [MovedLeader, MovedMember])
            == Allocation([], ["Li", "Mo"], [], ["Li"])
  {
    var env := Setting(2, 2, 4);
    var a1 := Allocation([], ["Li"], [], []);
    var staff := [MovedLeader, MovedMember];
    MovedPair();
    MovedGroup();
    var names := GroupNames(staff);
    assert names[..0] == [] && names[0] == "g";
    assert PlaceGroups(env, a1, names[..0], staff) == a1;
    assert PlaceGroups(env, a1, names, staff) == PlaceGroup(env, a1, Members(staff, "g"));
  }

  lemma MovedRemainderPass()
    ensures var a3 := Allocation([], ["Li", "Mo"], [], ["Li"]);
            RemainderPass(Setting(2, 2, 4), a3, MarkPlaced(a3, {"Li"}, [MovedLeader, MovedMember]), [MovedLeader, MovedMember])
            == Running(a3, {"Li", "Mo"})
  {
    var a3 := Allocation([], ["Li", "Mo"], [], ["Li"]);
    var staff := [MovedLeader, MovedMember];
    assert staff[..1] == [MovedLeader] && [MovedLeader][..0] == [];
    assert MarkPlaced(a3, {"Li"}, [MovedLeader]) == {"Li"};
    assert MarkPlaced(a3, {"Li"}, staff) == {"Li", "Mo"};
    assert RemainderPass(Setting(2, 2, 4), a3, {"Li", "Mo"}, [MovedLeader]) == Running(a3, {"Li", "Mo"});
  }

  /**
   * Members follow the leader's first list, not its new section: the leader,
   * pinned to inbound, is on inbound back after the fixed-area pass; the
   * group pass places it again by its outbound team, on outbound back; the
   * position lookup still finds inbound back first, so the outbound-team
   * member joins inbound back, and the run succeeds.
   */
  lemma MembersFollowFirstList()
    ensures ScheduleRun(Setting(2, 2, 4), Empty, [MovedLeader, MovedMember])
            == Running(Allocation([], ["Li", "Mo"], [], ["Li"]), {"Li", "Mo"})
  {
    MovedFixedPass();
    MovedGroupPass();
    MovedRemainderPass();
  }

  const First := Staff("Al", "Y", "", "", "", "A", None, None)
  const Second := Staff("Bo", "Y", "", "", "", "A", None, None)
  const Third := Staff("Cy", "Y", "", "", "", "A", None, None)

  /** With equal vacancies the first inbound-team record goes to back, the next to front. */
  lemma TieGoesToBack()
    ensures PlaceStaff(Setting(1, 1, 2), Empty, First) == Outcome(true, Allocation([], ["Al"], [], []))
    ensures PlaceStaff(Setting(1, 1, 2), Allocation([], ["Al"], [], []), Second)
            == Outcome(true, Allocation(["Bo"], ["Al"], [], []))
  {
    var env := Setting(1, 1, 2);
    assert !PreferenceUsable(env, Empty, Inbound, First);
    assert PlaceInArea(env, Empty, Inbound, First) == Outcome(true, Empty.Append(InboundBack, "Al"));
    var a1 := Allocation([], ["Al"], [], []);
    assert !PreferenceUsable(env, a1, Inbound, Second);
    assert PlaceInArea(env, a1, Inbound, Second) == Outcome(true, a1.Append(InboundFront, "Bo"));
  }

  /** A third inbound-team record finds the inbound total reached and is not placed. */
  lemma TotalStopsThird()
    ensures PlaceStaff(Setting(1, 1, 2), Allocation(["Bo"], ["Al"], [], []), Third)
            == Outcome(false, Allocation(["Bo"], ["Al"], [], []))
  {
    var env := Setting(1, 1, 2);
    assert !AreaOpen(env, Allocation(["Bo"], ["Al"], [], []), Inbound);
  }
}
