/**
 * The placement rules of the scheduler as functions on the four section lists:
 * one append guarded by a section limit (`assign_front`, `assign_back`,
 * `assign_to_leader_position`), the per-area rule (`assign_inbound`,
 * `assign_outbound`), mobile routing (`assign_mobile`), team dispatch
 * (`assign_staff`) and the position lookup (`get_staff_position`).
 * Every function returns whether it placed the staff member and the lists
 * afterwards; a failed placement never changes the lists.
 */
module Placement {
  import opened Wrappers
  import opened Records

  datatype Area = Inbound | Outbound

  datatype Section = InboundFront | InboundBack | OutboundFront | OutboundBack

  function FrontOf(area: Area): Section {
    if area == Inbound then InboundFront else OutboundFront
  }

  function BackOf(area: Area): Section {
    if area == Inbound then InboundBack else OutboundBack
  }

  /** The configuration key holding a section's limit. */
  function LimitKey(s: Section): string {
    match s
    case InboundFront => InboundFrontKey
    case InboundBack => InboundBackKey
    case OutboundFront => OutboundFrontKey
    case OutboundBack => OutboundBackKey
  }

  /** The configuration key holding an area's total limit. */
  function TotalKey(area: Area): string {
    if area == Inbound then InboundTotalKey else OutboundTotalKey
  }

  /** The order in which `get_staff_position` looks at the sections. */
  function Rank(s: Section): nat {
    match s
    case InboundFront => 0
    case InboundBack => 1
    case OutboundFront => 2
    case OutboundBack => 3
  }

  /** The scheduler's state: the occupants of each section, in placement order. */
  datatype Allocation = Allocation(
    inboundFront: seq<string>,
    inboundBack: seq<string>,
    outboundFront: seq<string>,
    outboundBack: seq<string>)
  {
    function At(s: Section): seq<string> {
      match s
      case InboundFront => inboundFront
      case InboundBack => inboundBack
      case OutboundFront => outboundFront
      case OutboundBack => outboundBack
    }

    /** The lists with `name` appended to section `s` and nothing else changed. */
    function Append(s: Section, name: string): (b: Allocation)
      ensures b.At(s) == At(s) + [name]
      ensures forall t :: t != s ==> b.At(t) == At(t)
    {
      match s
      case InboundFront => this.(inboundFront := inboundFront + [name])
      case InboundBack => this.(inboundBack := inboundBack + [name])
      case OutboundFront => this.(outboundFront := outboundFront + [name])
      case OutboundBack => this.(outboundBack := outboundBack + [name])
    }

    /** Occupancy of an area: front count plus back count. */
    function Occupancy(area: Area): int {
      |At(FrontOf(area))| + |At(BackOf(area))|
    }

    /** The name occurs in one of the four lists. */
    predicate Holds(name: string) {
      name in inboundFront || name in inboundBack || name in outboundFront || name in outboundBack
    }
  }

  const Empty := Allocation([], [], [], [])

  predicate IsNumber(cfg: Config, key: string) {
    key in cfg && cfg[key].Int?
  }

  /**
   * What the scheduler reads besides its lists: the configuration and the
   * vocabulary. `Ready` is what the source relies on when it reads them: the
   * six limits are numbers, the three team keys are present, and the four
   * vocabulary strings are distinct.
   */
  datatype Env = Env(config: Config, text: Vocabulary) {
    predicate Ready() {
      && IsNumber(config, InboundFrontKey) && IsNumber(config, InboundBackKey)
      && IsNumber(config, OutboundFrontKey) && IsNumber(config, OutboundBackKey)
      && IsNumber(config, InboundTotalKey) && IsNumber(config, OutboundTotalKey)
      && InboundTeamKey in config && OutboundTeamKey in config && MobileTeamKey in config
      && text.Distinct()
    }

    function Limit(s: Section): int
      requires Ready()
    {
      config[LimitKey(s)].i
    }

    function Total(area: Area): int
      requires Ready()
    {
      config[TotalKey(area)].i
    }

    /** The largest length a section list can reach: its limit, or 0 if the limit is negative. */
    function Cap(s: Section): nat
      requires Ready()
    {
      if Limit(s) < 0 then 0 else Limit(s)
    }

    /** The display string of an area. */
    function AreaName(area: Area): string {
      if area == Inbound then text.inbound else text.outbound
    }

    /** Which area a display string denotes; the outbound string is tested first. */
    function AreaNamed(area: string): (r: Option<Area>)
      ensures text.Distinct() ==> (r == Some(Inbound) <==> area == text.inbound)
      ensures text.Distinct() ==> (r == Some(Outbound) <==> area == text.outbound)
    {
      if area == text.outbound then Some(Outbound)
      else if area == text.inbound then Some(Inbound)
      else None
    }
  }

  /** No section holds more names than its limit allows. */
  ghost predicate WithinLimits(env: Env, a: Allocation)
    requires env.Ready()
  {
    forall s: Section :: |a.At(s)| <= env.Cap(s)
  }

  /** `b` is `a` with names appended: every list of `a` is a prefix of `b`'s. */
  ghost predicate Extends(a: Allocation, b: Allocation) {
    forall s: Section :: a.At(s) <= b.At(s)
  }

  /** `b` only appends to `a` and keeps the section limits if `a` kept them. */
  ghost predicate Grows(env: Env, a: Allocation, b: Allocation)
    requires env.Ready()
  {
    Extends(a, b) && (WithinLimits(env, a) ==> WithinLimits(env, b))
  }

  /** Whether a placement succeeded, and the lists afterwards. */
  datatype Outcome = Outcome(placed: bool, alloc: Allocation)

  /** `b` is `a` with `name` appended to section `s`, which was below its limit. */
  ghost predicate GuardedAppend(env: Env, a: Allocation, b: Allocation, name: string, s: Section)
    requires env.Ready()
  {
    |a.At(s)| < env.Limit(s) && b == a.Append(s, name)
  }

  /** A placement attempt: success is one guarded append of `name`, failure changes nothing. */
  ghost predicate Step(env: Env, a: Allocation, r: Outcome, name: string)
    requires env.Ready()
  {
    if r.placed then exists s :: GuardedAppend(env, a, r.alloc, name, s) else r.alloc == a
  }

  /** Every placement only appends and never takes a section past its limit. */
  lemma {:induction false} StepGrows(env: Env, a: Allocation, r: Outcome, name: string)
    requires env.Ready() && Step(env, a, r, name)
    ensures Grows(env, a, r.alloc)
  {
    if r.placed {
      var s :| GuardedAppend(env, a, r.alloc, name, s);
      forall t: Section
        ensures a.At(t) <= r.alloc.At(t)
        ensures WithinLimits(env, a) ==> |r.alloc.At(t)| <= env.Cap(t)
      {
        if t == s {
          assert a.At(t) <= a.At(t) + [name];
        }
      }
    }
  }

  lemma {:induction false} GrowsTransitive(env: Env, a: Allocation, b: Allocation, c: Allocation)
    requires env.Ready() && Grows(env, a, b) && Grows(env, b, c)
    ensures Grows(env, a, c)
  {
    forall s: Section ensures a.At(s) <= c.At(s) {
      assert a.At(s) <= b.At(s) && b.At(s) <= c.At(s);
    }
  }

  /**
   * The append both section placements and leader co-location perform: the
   * name goes to section `s` exactly when the list is below its limit.
   */
  function PlaceSection(env: Env, a: Allocation, s: Section, name: string): (r: Outcome)
    requires env.Ready()
    ensures r.placed <==> |a.At(s)| < env.Limit(s)
    ensures r.placed ==> r.alloc.At(s) == a.At(s) + [name] && GuardedAppend(env, a, r.alloc, name, s)
    ensures Step(env, a, r, name)
  {
    if |a.At(s)| < env.Limit(s) then
      assert GuardedAppend(env, a, a.Append(s, name), name, s);
      Outcome(true, a.Append(s, name))
    else Outcome(false, a)
  }

  /**
   * `assign_front`: append to the front list of the named area iff it is below
   * its limit; an unknown area string places nothing.
   */
  function PlaceFront(env: Env, a: Allocation, area: string, name: string): (r: Outcome)
    requires env.Ready()
    ensures env.AreaNamed(area).None? ==> r == Outcome(false, a)
    ensures env.AreaNamed(area).Some? ==>
              var s := FrontOf(env.AreaNamed(area).value);
              && (r.placed <==> |a.At(s)| < env.Limit(s))
              && r.alloc == (if r.placed then a.Append(s, name) else a)
    ensures Step(env, a, r, name)
  {
    match env.AreaNamed(area)
    case None => Outcome(false, a)
    case Some(ar) => PlaceSection(env, a, FrontOf(ar), name)
  }

  /** `assign_back`: as `PlaceFront`, for the back list. */
  function PlaceBack(env: Env, a: Allocation, area: string, name: string): (r: Outcome)
    requires env.Ready()
    ensures env.AreaNamed(area).None? ==> r == Outcome(false, a)
    ensures env.AreaNamed(area).Some? ==>
              var s := BackOf(env.AreaNamed(area).value);
              && (r.placed <==> |a.At(s)| < env.Limit(s))
              && r.alloc == (if r.placed then a.Append(s, name) else a)
    ensures Step(env, a, r, name)
  {
    match env.AreaNamed(area)
    case None => Outcome(false, a)
    case Some(ar) => PlaceSection(env, a, BackOf(ar), name)
  }

  /** Free places in a section; negative when a list is over a (lowered) limit. */
  function Vacancy(env: Env, a: Allocation, s: Section): int
    requires env.Ready()
  {
    env.Limit(s) - |a.At(s)|
  }

  /** The area is below its total limit, so the section rule applies. */
  predicate AreaOpen(env: Env, a: Allocation, area: Area)
    requires env.Ready()
  {
    a.Occupancy(area) < env.Total(area)
  }

  /** The staff member prefers a section of the area that has a free place. */
  predicate PreferenceUsable(env: Env, a: Allocation, area: Area, st: Staff)
    requires env.Ready()
  {
    || (st.preferredSection == env.text.front && Vacancy(env, a, FrontOf(area)) > 0)
    || (st.preferredSection == env.text.back && Vacancy(env, a, BackOf(area)) > 0)
  }

  /**
   * `assign_inbound` / `assign_outbound`: the area-total guard first, then the
   * preferred section if it has a free place, then the section with the larger
   * vacancy, ties going to back.
   */
  function PlaceInArea(env: Env, a: Allocation, area: Area, st: Staff): (r: Outcome)
    requires env.Ready()
    ensures Step(env, a, r, st.name)
    ensures !AreaOpen(env, a, area) ==> r == Outcome(false, a)
    ensures r.placed <==>
              AreaOpen(env, a, area) && (Vacancy(env, a, FrontOf(area)) > 0 || Vacancy(env, a, BackOf(area)) > 0)
    ensures r.placed ==> r.alloc == a.Append(FrontOf(area), st.name) || r.alloc == a.Append(BackOf(area), st.name)
    ensures (AreaOpen(env, a, area) && st.preferredSection == env.text.front && Vacancy(env, a, FrontOf(area)) > 0)
      ==> r == Outcome(true, a.Append(FrontOf(area), st.name))
    ensures (AreaOpen(env, a, area) && st.preferredSection == env.text.back && Vacancy(env, a, BackOf(area)) > 0)
      ==> r == Outcome(true, a.Append(BackOf(area), st.name))
    ensures AreaOpen(env, a, area) && !PreferenceUsable(env, a, area, st) ==>
              var fv, bv := Vacancy(env, a, FrontOf(area)), Vacancy(env, a, BackOf(area));
              r == if fv > 0 && fv > bv then Outcome(true, a.Append(FrontOf(area), st.name))
                   else if bv > 0 && bv >= fv then Outcome(true, a.Append(BackOf(area), st.name))
                   else Outcome(false, a)
  {
    if a.Occupancy(area) >= env.Total(area) then Outcome(false, a)
    else
      var name := env.AreaName(area);
      var fv := Vacancy(env, a, FrontOf(area));
      var bv := Vacancy(env, a, BackOf(area));
      if st.preferredSection == env.text.front && fv > 0 then PlaceFront(env, a, name, st.name)
      else if st.preferredSection == env.text.back && bv > 0 then PlaceBack(env, a, name, st.name)
      else if fv > 0 && bv > 0 then
        if fv > bv then PlaceFront(env, a, name, st.name) else PlaceBack(env, a, name, st.name)
      else if fv > 0 then PlaceFront(env, a, name, st.name)
      else if bv > 0 then PlaceBack(env, a, name, st.name)
      else Outcome(false, a)
  }

  /** Free places left under an area's total limit. */
  function AreaVacancy(env: Env, a: Allocation, area: Area): int
    requires env.Ready()
  {
    env.Total(area) - a.Occupancy(area)
  }

  /** The preferred area, when the staff member names one and placement there succeeds. */
  predicate PreferredAreaTaken(env: Env, a: Allocation, st: Staff)
    requires env.Ready()
  {
    || (st.preferredArea == env.text.inbound && PlaceInArea(env, a, Inbound, st).placed)
    || (st.preferredArea == env.text.outbound && PlaceInArea(env, a, Outbound, st).placed)
  }

  /**
   * `assign_mobile`: the preferred area if placement there succeeds; otherwise
   * the area with the larger total vacancy, ties going to outbound, with no
   * retry in the other area when that one attempt fails.
   */
  function PlaceMobile(env: Env, a: Allocation, st: Staff): (r: Outcome)
    requires env.Ready()
    ensures Step(env, a, r, st.name)
    ensures (st.preferredArea == env.text.inbound && PlaceInArea(env, a, Inbound, st).placed)
      ==> r == PlaceInArea(env, a, Inbound, st)
    ensures (st.preferredArea == env.text.outbound && PlaceInArea(env, a, Outbound, st).placed)
      ==> r == PlaceInArea(env, a, Outbound, st)
    ensures !PreferredAreaTaken(env, a, st) ==>
              var iv, ov := AreaVacancy(env, a, Inbound), AreaVacancy(env, a, Outbound);
              r == if iv > 0 && iv > ov then PlaceInArea(env, a, Inbound, st)
                   else if ov > 0 && ov >= iv then PlaceInArea(env, a, Outbound, st)
                   else Outcome(false, a)
  {
    var first :=
      if st.preferredArea == env.text.inbound then PlaceInArea(env, a, Inbound, st)
      else if st.preferredArea == env.text.outbound then PlaceInArea(env, a, Outbound, st)
      else Outcome(false, a);
    if first.placed then first
    else
      var b := first.alloc;
      var iv := AreaVacancy(env, b, Inbound);
      var ov := AreaVacancy(env, b, Outbound);
      if iv > 0 && ov > 0 then
        if iv > ov then PlaceInArea(env, b, Inbound, st) else PlaceInArea(env, b, Outbound, st)
      else if iv > 0 then PlaceInArea(env, b, Inbound, st)
      else if ov > 0 then PlaceInArea(env, b, Outbound, st)
      else Outcome(false, b)
  }

  /** The staff member's team is the configured team under `key`. */
  predicate OnTeam(env: Env, st: Staff, key: string)
    requires env.Ready() && key in env.config
  {
    env.config[key] == Str(st.teamName)
  }

  /**
   * `assign_staff`: the inbound team goes to inbound, else the outbound team to
   * outbound, else the mobile team through mobile routing; any other team name
   * places nothing.
   */
  function PlaceStaff(env: Env, a: Allocation, st: Staff): (r: Outcome)
    requires env.Ready()
    ensures Step(env, a, r, st.name)
    ensures OnTeam(env, st, InboundTeamKey) ==> r == PlaceInArea(env, a, Inbound, st)
    ensures (!OnTeam(env, st, InboundTeamKey) && OnTeam(env, st, OutboundTeamKey))
      ==> r == PlaceInArea(env, a, Outbound, st)
    ensures (!OnTeam(env, st, InboundTeamKey) && !OnTeam(env, st, OutboundTeamKey) && OnTeam(env, st, MobileTeamKey))
      ==> r == PlaceMobile(env, a, st)
    ensures (!OnTeam(env, st, InboundTeamKey) && !OnTeam(env, st, OutboundTeamKey) && !OnTeam(env, st, MobileTeamKey))
      ==> r == Outcome(false, a)
  {
    if env.config[InboundTeamKey] == Str(st.teamName) then PlaceInArea(env, a, Inbound, st)
    else if env.config[OutboundTeamKey] == Str(st.teamName) then PlaceInArea(env, a, Outbound, st)
    else if env.config[MobileTeamKey] == Str(st.teamName) then PlaceMobile(env, a, st)
    else Outcome(false, a)
  }

  /**
   * `get_staff_position`: the first section, in the order inbound front,
   * inbound back, outbound front, outbound back, whose list holds the name.
   */
  function StaffPosition(a: Allocation, name: string): (r: Option<Section>)
    ensures r.None? <==> !a.Holds(name)
    ensures r.Some? ==> name in a.At(r.value)
    ensures r.Some? ==> forall t: Section :: Rank(t) < Rank(r.value) ==> name !in a.At(t)
  {
    if name in a.inboundFront then Some(InboundFront)
    else if name in a.inboundBack then Some(InboundBack)
    else if name in a.outboundFront then Some(OutboundFront)
    else if name in a.outboundBack then Some(OutboundBack)
    else None
  }

  /** A name held nowhere and then appended to one section is found in that section. */
  lemma PositionAfterAppend(a: Allocation, s: Section, name: string)
    requires !a.Holds(name)
    ensures StaffPosition(a.Append(s, name), name) == Some(s)
  {
    var b := a.Append(s, name);
    assert name in b.At(s);
    forall t: Section | t != s ensures name !in b.At(t) {
      assert b.At(t) == a.At(t);
    }
  }

  /**
   * `assign_to_leader_position`: append to the leader's section iff that list is
   * below its limit. The area total is not consulted; no position places nothing.
   */
  function PlaceAtLeader(env: Env, a: Allocation, name: string, pos: Option<Section>): (r: Outcome)
    requires env.Ready()
    ensures pos.None? ==> r == Outcome(false, a)
    ensures pos.Some? ==> (r.placed <==> |a.At(pos.value)| < env.Limit(pos.value))
    ensures pos.Some? && r.placed ==> r.alloc == a.Append(pos.value, name)
    ensures Step(env, a, r, name)
  {
    match pos
    case None => Outcome(false, a)
    case Some(s) => PlaceSection(env, a, s, name)
  }
}
