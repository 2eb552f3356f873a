/**
 * The group pass of the scheduler (`assign_group`, `normalize_group_name`):
 * staff are partitioned by normalised group name in order of first
 * appearance; in each group the first member carrying a leader key is placed
 * by the ordinary team rules, and every other member is then appended to the
 * leader's section while that section is below its limit.
 */
module Groups {
  import opened Wrappers
  import opened Records
  import opened Placement

  /** ASCII upper-case letters become lower-case; every other character is kept. */
  function LowerChar(c: char): char {
    if 'A' <= c <= 'Z' then (c as int + 32) as char else c
  }

  function Lower(s: string): (r: string)
    ensures |r| == |s|
    ensures forall i :: 0 <= i < |s| ==> r[i] == LowerChar(s[i])
  {
    seq(|s|, i requires 0 <= i < |s| => LowerChar(s[i]))
  }

  /** The characters `str.strip()` removes (those `str.isspace()` accepts). */
  predicate IsSpace(c: char) {
    var n := c as int;
    || n == 0x20 || 0x09 <= n <= 0x0D || 0x1C <= n <= 0x1F || n == 0x85 || n == 0xA0
    || n == 0x1680 || 0x2000 <= n <= 0x200A || n == 0x2028 || n == 0x2029
    || n == 0x202F || n == 0x205F || n == 0x3000
  }

  /** `str.lstrip()`: drops leading white space. */
  function StripLeft(s: string): string {
    if s != [] && IsSpace(s[0]) then StripLeft(s[1..]) else s
  }

  /** `str.rstrip()`: drops trailing white space. */
  function StripRight(s: string): string {
    if s != [] && IsSpace(s[|s| - 1]) then StripRight(s[..|s| - 1]) else s
  }

  /** Stripping on the left removes exactly the leading white space: what is left is a suffix starting with a non-space. */
  lemma {:induction false} StripLeftSpec(s: string)
    ensures |StripLeft(s)| <= |s| && StripLeft(s) == s[|s| - |StripLeft(s)|..]
    ensures StripLeft(s) == [] || !IsSpace(StripLeft(s)[0])
    ensures forall i :: 0 <= i < |s| - |StripLeft(s)| ==> IsSpace(s[i])
  {
    if s != [] && IsSpace(s[0]) {
      StripLeftSpec(s[1..]);
      forall i | 1 <= i < |s| - |StripLeft(s)| ensures IsSpace(s[i]) {
        assert s[i] == s[1..][i - 1];
      }
    }
  }

  /** Stripping on the right removes exactly the trailing white space: what is left is a prefix ending with a non-space. */
  lemma {:induction false} StripRightSpec(s: string)
    ensures |StripRight(s)| <= |s| && StripRight(s) == s[..|StripRight(s)|]
    ensures StripRight(s) == [] || !IsSpace(StripRight(s)[|StripRight(s)| - 1])
    ensures forall i :: |StripRight(s)| <= i < |s| ==> IsSpace(s[i])
  {
    if s != [] && IsSpace(s[|s| - 1]) {
      StripRightSpec(s[..|s| - 1]);
      forall i | |StripRight(s)| <= i < |s| - 1 ensures IsSpace(s[i]) {
        assert s[i] == s[..|s| - 1][i];
      }
    }
  }

  /** `normalize_group_name`: lower-case, then strip surrounding white space. */
  function NormalizeGroupName(g: string): string {
    StripRight(StripLeft(Lower(g)))
  }

  /** A normalised name neither starts nor ends with white space. */
  lemma NormalizedIsTrimmed(g: string)
    ensures var r := NormalizeGroupName(g);
            r == [] || (!IsSpace(r[0]) && !IsSpace(r[|r| - 1]))
  {
    var u := StripLeft(Lower(g));
    StripLeftSpec(Lower(g));
    StripRightSpec(u);
    var r := StripRight(u);
    assert r != [] ==> r[0] == u[0];
  }

  lemma LowerCharIdempotent(c: char)
    ensures LowerChar(LowerChar(c)) == LowerChar(c)
  {
  }

  /** Every character of `s` is already lower-case. */
  ghost predicate Lowered(s: string) {
    forall i :: 0 <= i < |s| ==> LowerChar(s[i]) == s[i]
  }

  lemma LowerIsLowered(g: string)
    ensures Lowered(Lower(g))
  {
    forall i | 0 <= i < |g| ensures LowerChar(Lower(g)[i]) == Lower(g)[i] {
      LowerCharIdempotent(g[i]);
    }
  }

  lemma LoweredSlice(s: string, a: nat, b: nat)
    requires Lowered(s) && a <= b <= |s|
    ensures Lowered(s[a..b])
  {
    forall i | 0 <= i < b - a ensures LowerChar(s[a..b][i]) == s[a..b][i] {
      assert s[a..b][i] == s[a + i];
    }
  }

  /** A normalised name holds no upper-case letter, so lower-casing it again changes nothing. */
  lemma NormalizedIsLower(g: string)
    ensures Lower(NormalizeGroupName(g)) == NormalizeGroupName(g)
  {
    var l := Lower(g);
    var u := StripLeft(l);
    var r := StripRight(u);
    StripLeftSpec(l);
    StripRightSpec(u);
    LowerIsLowered(g);
    LoweredSlice(l, |l| - |u|, |l|);
    LoweredSlice(u, 0, |r|);
    assert Lower(r) == r;
  }

  /** Normalising a normalised name changes nothing. */
  lemma {:induction false} NormalizeIdempotent(g: string)
    ensures NormalizeGroupName(NormalizeGroupName(g)) == NormalizeGroupName(g)
  {
    var t := NormalizeGroupName(g);
    NormalizedIsLower(g);
    NormalizedIsTrimmed(g);
    if t != [] {
      assert StripLeft(t) == t;
      assert StripRight(t) == t;
    }
  }

  /**
   * The group a record belongs to: its leader key if it has one, otherwise its
   * member key, normalised; `None` for a record with neither.
   */
  function GroupKey(st: Staff): Option<string> {
    if st.groupLeader.Some? then Some(NormalizeGroupName(st.groupLeader.value))
    else if st.groupMember.Some? then Some(NormalizeGroupName(st.groupMember.value))
    else None
  }

  /** The keys of `group_mapping` in insertion order: each group once, by first appearance. */
  function GroupNames(staff: seq<Staff>): (r: seq<string>)
    ensures forall i, j :: 0 <= i < j < |r| ==> r[i] != r[j]
  {
    if staff == [] then []
    else
      var names := GroupNames(staff[..|staff| - 1]);
      match GroupKey(staff[|staff| - 1])
      case None => names
      case Some(g) => if g in names then names else names + [g]
  }

  /**
   * The list `group_mapping` holds for group `g`: its records in roster order.
   * `MembersExact` states which records these are.
   */
  function Members(staff: seq<Staff>, g: string): seq<Staff> {
    if staff == [] then []
    else
      var last := staff[|staff| - 1];
      Members(staff[..|staff| - 1], g) + (if GroupKey(last) == Some(g) then [last] else [])
  }

  /** A group's list holds exactly the records whose key is that group. */
  lemma {:induction false} MembersExact(staff: seq<Staff>, g: string)
    ensures forall m :: m in Members(staff, g) <==> m in staff && GroupKey(m) == Some(g)
  {
    if staff != [] {
      var init, last := staff[..|staff| - 1], staff[|staff| - 1];
      assert staff == init + [last];
      MembersExact(init, g);
    }
  }

  /** Every record with a group key has its group among the group names. */
  lemma {:induction false} GroupNamesComplete(staff: seq<Staff>, k: nat)
    requires k < |staff| && GroupKey(staff[k]).Some?
    ensures GroupKey(staff[k]).value in GroupNames(staff)
  {
    var init := staff[..|staff| - 1];
    if k < |staff| - 1 {
      assert init[k] == staff[k];
      GroupNamesComplete(init, k);
    }
  }

  /** Every group name is the group of some record: no group is empty. */
  lemma {:induction false} GroupNamesSound(staff: seq<Staff>, g: string)
    requires g in GroupNames(staff)
    ensures Members(staff, g) != []
  {
    var init, last := staff[..|staff| - 1], staff[|staff| - 1];
    if g in GroupNames(init) {
      GroupNamesSound(init, g);
    } else {
      assert GroupKey(last) == Some(g);
    }
  }

  /** Every group name is the key of some record. */
  lemma {:induction false} GroupNamesWitness(staff: seq<Staff>, g: string)
    requires g in GroupNames(staff)
    ensures exists k :: 0 <= k < |staff| && GroupKey(staff[k]) == Some(g)
  {
    var init := staff[..|staff| - 1];
    if g in GroupNames(init) {
      GroupNamesWitness(init, g);
      var k :| 0 <= k < |init| && GroupKey(init[k]) == Some(g);
      assert staff[k] == init[k];
    } else {
      assert GroupKey(staff[|staff| - 1]) == Some(g);
    }
  }

  /**
   * The group names are in order of first appearance: any record of a later
   * name comes after some record of an earlier name.
   */
  lemma {:induction false} GroupNamesInFirstAppearanceOrder(staff: seq<Staff>, i: nat, j: nat)
    requires i < j < |GroupNames(staff)|
    ensures forall k :: 0 <= k < |staff| && GroupKey(staff[k]) == Some(GroupNames(staff)[j]) ==>
              exists k' :: 0 <= k' < k && GroupKey(staff[k']) == Some(GroupNames(staff)[i])
  {
    var names := GroupNames(staff);
    var init := staff[..|staff| - 1];
    var names0 := GroupNames(init);
    assert names[..|names0|] == names0;
    assert names[i] in names0 && names[i] == names0[i];
    forall k | 0 <= k < |staff| && GroupKey(staff[k]) == Some(names[j])
      ensures exists k' :: 0 <= k' < k && GroupKey(staff[k']) == Some(names[i])
    {
      if k < |init| {
        assert init[k] == staff[k];
        if j < |names0| {
          GroupNamesInFirstAppearanceOrder(init, i, j);
          var k' :| 0 <= k' < k && GroupKey(init[k']) == Some(names0[i]);
          assert staff[k'] == init[k'];
        } else {
          GroupNamesComplete(init, k);
        }
      } else {
        GroupNamesWitness(init, names[i]);
        var k' :| 0 <= k' < |init| && GroupKey(init[k']) == Some(names[i]);
        assert staff[k'] == init[k'];
      }
    }
  }

  /** A group name not yet seen has no members so far. */
  lemma {:induction false} MembersOfNewGroup(staff: seq<Staff>, g: string)
    requires g !in GroupNames(staff)
    ensures Members(staff, g) == []
  {
    if staff != [] {
      var init, last := staff[..|staff| - 1], staff[|staff| - 1];
      assert g !in GroupNames(init) && GroupKey(last) != Some(g);
      MembersOfNewGroup(init, g);
    }
  }

  /** The leader of a group: its first record carrying a leader key. */
  function FirstLeader(members: seq<Staff>): (r: Option<Staff>)
    ensures r.None? <==> forall m :: m in members ==> m.groupLeader.None?
    ensures r.Some? ==> r.value in members && r.value.groupLeader.Some?
    ensures r.Some? ==> exists k :: 0 <= k < |members| && members[k] == r.value
                                    && forall j :: 0 <= j < k ==> members[j].groupLeader.None?
  {
    if members == [] then None
    else if members[0].groupLeader.Some? then
      assert members[0] == members[0];
      Some(members[0])
    else
      var r := FirstLeader(members[1..]);
      assert forall m :: m in members ==> m == members[0] || m in members[1..];
      if r.Some? then
        var k :| 0 <= k < |members[1..]| && members[1..][k] == r.value
                 && forall j :: 0 <= j < k ==> members[1..][j].groupLeader.None?;
        assert members[k + 1] == r.value;
        r
      else r
  }

  /** The names of the members other than the leader, in order. */
  function NonLeaderNames(members: seq<Staff>, leader: Staff): seq<string> {
    if members == [] then []
    else
      var last := members[|members| - 1];
      NonLeaderNames(members[..|members| - 1], leader) + (if last != leader then [last.name] else [])
  }

  /** The names are those of the members other than the leader, one per member, in member order. */
  lemma {:induction false} NonLeaderNamesExact(members: seq<Staff>, leader: Staff)
    ensures |NonLeaderNames(members, leader)| <= |members|
    ensures forall n :: n in NonLeaderNames(members, leader) <==> exists m :: m in members && m != leader && m.name == n
  {
    if members != [] {
      var init, last := members[..|members| - 1], members[|members| - 1];
      assert members == init + [last];
      NonLeaderNamesExact(init, leader);
    }
  }

  /** The inner loop of `assign_group`: each member other than the leader goes to the leader's position. */
  function PlaceMembers(env: Env, a: Allocation, members: seq<Staff>, leader: Staff, pos: Option<Section>): (b: Allocation)
    requires env.Ready()
    ensures Grows(env, a, b)
    ensures pos.None? ==> b == a
    ensures pos.Some? ==> forall t :: t != pos.value ==> b.At(t) == a.At(t)
  {
    if members == [] then a
    else
      var b := PlaceMembers(env, a, members[..|members| - 1], leader, pos);
      var m := members[|members| - 1];
      if m != leader then
        var r := PlaceAtLeader(env, b, m.name, pos);
        StepGrows(env, b, r, m.name);
        GrowsTransitive(env, a, b, r.alloc);
        r.alloc
      else b
  }

  /** Free places left in a section, never negative. */
  function Room(env: Env, a: Allocation, s: Section): nat
    requires env.Ready()
  {
    if env.Limit(s) - |a.At(s)| < 0 then 0 else env.Limit(s) - |a.At(s)|
  }

  /** At most the first `n` elements. */
  function Take(xs: seq<string>, n: nat): (r: seq<string>)
    ensures |r| <= n && r <= xs
  {
    if |xs| <= n then xs else xs[..n]
  }

  /**
   * Co-location is first come, first served: the leader's section receives the
   * non-leader members in order until it reaches its limit, and no one else.
   */
  lemma {:induction false} PlaceMembersColocates(env: Env, a: Allocation, members: seq<Staff>, leader: Staff, s: Section)
    requires env.Ready()
    ensures PlaceMembers(env, a, members, leader, Some(s)).At(s)
            == a.At(s) + Take(NonLeaderNames(members, leader), Room(env, a, s))
  {
    var room := Room(env, a, s);
    if members == [] {
      assert a.At(s) + [] == a.At(s);
    } else {
      var init, m := members[..|members| - 1], members[|members| - 1];
      PlaceMembersColocates(env, a, init, leader, s);
      var c := PlaceMembers(env, a, init, leader, Some(s));
      var n0 := NonLeaderNames(init, leader);
      if m != leader {
        var r := PlaceAtLeader(env, c, m.name, Some(s));
        assert r.alloc.At(s) == if |c.At(s)| < env.Limit(s) then c.At(s) + [m.name] else c.At(s);
        assert NonLeaderNames(members, leader) == n0 + [m.name];
        ColocateStep(a.At(s), c.At(s), n0, m.name, env.Limit(s), room);
      } else {
        assert NonLeaderNames(members, leader) == n0 + [];
      }
    }
  }

  /**
   * The sequence arithmetic of one co-location step: a list holding `before`
   * and the first `room` names of `n0` takes one more name iff it is below
   * `limit`, which keeps it equal to `before` and the first `room` names of
   * the longer list.
   */
  lemma ColocateStep(before: seq<string>, c: seq<string>, n0: seq<string>, x: string, limit: int, room: nat)
    requires c == before + Take(n0, room)
    requires room == if limit - |before| < 0 then 0 else limit - |before|
    ensures (if |c| < limit then c + [x] else c) == before + Take(n0 + [x], room)
  {
    if |n0| < room {
      assert Take(n0 + [x], room) == n0 + [x];
      assert before + n0 + [x] == before + (n0 + [x]);
    } else {
      assert (n0 + [x])[..room] == n0[..room];
    }
  }

  /** One group: place the leader by team, then the other members at the leader's position. */
  function PlaceGroup(env: Env, a: Allocation, members: seq<Staff>): (b: Allocation)
    requires env.Ready()
    ensures Grows(env, a, b)
    ensures FirstLeader(members).None? ==> b == a
    ensures FirstLeader(members).Some? && !PlaceStaff(env, a, FirstLeader(members).value).placed ==> b == a
  {
    match FirstLeader(members)
    case None => a
    case Some(leader) =>
      var r := PlaceStaff(env, a, leader);
      if r.placed then
        var b := PlaceMembers(env, r.alloc, members, leader, StaffPosition(r.alloc, leader.name));
        StepGrows(env, a, r, leader.name);
        GrowsTransitive(env, a, r.alloc, b);
        b
      else a
  }

  /**
   * Where the members go: once the leader is placed, the section where the
   * lists then first hold the leader's name gains as many non-leader members
   * as it has room for, in order, and every other section keeps what it held
   * after the leader's placement.
   */
  lemma GroupFollowsLeader(env: Env, a: Allocation, members: seq<Staff>)
    requires env.Ready()
    requires FirstLeader(members).Some?
    requires PlaceStaff(env, a, FirstLeader(members).value).placed
    ensures var leader := FirstLeader(members).value;
            var r := PlaceStaff(env, a, leader);
            var p := StaffPosition(r.alloc, leader.name);
            var b := PlaceGroup(env, a, members);
            && p.Some?
            && b.At(p.value) == r.alloc.At(p.value) + Take(NonLeaderNames(members, leader), Room(env, r.alloc, p.value))
            && forall t :: t != p.value ==> b.At(t) == r.alloc.At(t)
  {
    var leader := FirstLeader(members).value;
    var r := PlaceStaff(env, a, leader);
    var s :| GuardedAppend(env, a, r.alloc, leader.name, s);
    assert leader.name in r.alloc.At(s);
    assert r.alloc.Holds(leader.name) by {
      match s
      case InboundFront =>
      case InboundBack =>
      case OutboundFront =>
      case OutboundBack =>
    }
    var p := StaffPosition(r.alloc, leader.name).value;
    assert PlaceGroup(env, a, members) == PlaceMembers(env, r.alloc, members, leader, Some(p));
    PlaceMembersColocates(env, r.alloc, members, leader, p);
  }

  /**
   * Group co-location: when the leader was not yet on any list and is placed,
   * the leader's section is the one it was just appended to, that section gains
   * the leader followed by as many non-leader members as it has room for, and
   * the other sections are unchanged.
   */
  lemma {:induction false} GroupColocation(env: Env, a: Allocation, members: seq<Staff>)
    requires env.Ready()
    requires FirstLeader(members).Some?
    requires !a.Holds(FirstLeader(members).value.name)
    requires PlaceStaff(env, a, FirstLeader(members).value).placed
    ensures var leader := FirstLeader(members).value;
            var r := PlaceStaff(env, a, leader);
            var b := PlaceGroup(env, a, members);
            exists s: Section ::
              && r.alloc == a.Append(s, leader.name)
              && b.At(s) == a.At(s) + [leader.name] + Take(NonLeaderNames(members, leader), Room(env, r.alloc, s))
              && forall t :: t != s ==> b.At(t) == a.At(t)
  {
    var leader := FirstLeader(members).value;
    var r := PlaceStaff(env, a, leader);
    var s :| GuardedAppend(env, a, r.alloc, leader.name, s);
    PositionAfterAppend(a, s, leader.name);
    var b := PlaceMembers(env, r.alloc, members, leader, Some(s));
    assert PlaceGroup(env, a, members) == b;
    PlaceMembersColocates(env, r.alloc, members, leader, s);
    assert r.alloc.At(s) == a.At(s) + [leader.name];
    assert forall t :: t != s ==> b.At(t) == r.alloc.At(t) == a.At(t);
  }

  /** The outer loop of `assign_group`, over the given group names. */
  function PlaceGroups(env: Env, a: Allocation, names: seq<string>, staff: seq<Staff>): (b: Allocation)
    requires env.Ready()
    ensures Grows(env, a, b)
  {
    if names == [] then a
    else
      var b := PlaceGroups(env, a, names[..|names| - 1], staff);
      var c := PlaceGroup(env, b, Members(staff, names[|names| - 1]));
      GrowsTransitive(env, a, b, c);
      c
  }

  /** One more group name places that group's records after the earlier groups. */
  lemma PlaceGroupsSnoc(env: Env, a: Allocation, names: seq<string>, staff: seq<Staff>, j: nat)
    requires env.Ready() && j < |names|
    ensures PlaceGroups(env, a, names[..j + 1], staff)
            == PlaceGroup(env, PlaceGroups(env, a, names[..j], staff), Members(staff, names[j]))
  {
    assert names[..j + 1][..j] == names[..j] && names[..j + 1][j] == names[j];
  }

  /** `assign_group`: every group of the roster, in order of first appearance. */
  function GroupPass(env: Env, a: Allocation, staff: seq<Staff>): (b: Allocation)
    requires env.Ready()
    ensures Grows(env, a, b)
  {
    PlaceGroups(env, a, GroupNames(staff), staff)
  }
}
