/**
 * The inputs of the scheduler: staff records, the area-capacity configuration,
 * the display vocabulary for areas and sections, and the two input checks the
 * scheduler runs on construction (`parse_area_config`, `parse_staff_list`).
 */
module Records {
  import opened Wrappers

  /** A value stored in the area-capacity configuration mapping. */
  datatype Value = Int(i: int) | Str(s: string) | Null

  /** The area-capacity configuration: a key-value mapping. */
  type Config = map<string, Value>

  const InboundFrontKey := "Inbound_Front"
  const InboundBackKey := "Inbound_back"
  const OutboundFrontKey := "Outbound_Front"
  const OutboundBackKey := "Outbound_back"
  const InboundTotalKey := "Inbound_total"
  const OutboundTotalKey := "Outbound_total"
  const InboundTeamKey := "Inbound_team"
  const OutboundTeamKey := "Outbound_team"
  const MobileTeamKey := "Mobile_team"

  /** The six capacity keys `parse_area_config` insists on, in the order it checks them. */
  const RequiredKeys: seq<string> :=
    [InboundFrontKey, InboundBackKey, OutboundFrontKey, OutboundBackKey, InboundTotalKey, OutboundTotalKey]

  /**
   * The display strings the caller uses for the two areas and the two sections
   * (the `scheduler_key` table); staff records carry these strings in their
   * fixed-area, preferred-area and preferred-section fields.
   */
  datatype Vocabulary = Vocabulary(inbound: string, outbound: string, front: string, back: string) {
    predicate Distinct() {
      && inbound != outbound && inbound != front && inbound != back
      && outbound != front && outbound != back && front != back
    }
  }

  /**
   * One staff record. A key the record lacks is read as "" where the source
   * uses `get(key, '')` or compares the missing value against "Y", and as
   * `None` for the two group keys, whose presence is what the source tests.
   */
  datatype Staff = Staff(
    name: string,
    attendance: string,
    fixedArea: string,
    preferredArea: string,
    preferredSection: string,
    teamName: string,
    groupLeader: Option<string>,
    groupMember: Option<string>)

  /** An entry of the raw roster: a record, or anything that is not one. */
  datatype Entry = Record(staff: Staff) | NotRecord

  datatype Error = MissingKey(key: string) | MalformedStaffEntry(index: nat)

  /** The index of the first of `keys` absent from `cfg`, if any. */
  function FirstMissing(keys: seq<string>, cfg: Config): (r: Option<nat>)
    ensures r.None? <==> forall i :: 0 <= i < |keys| ==> keys[i] in cfg
    ensures r.Some? ==> r.value < |keys| && keys[r.value] !in cfg
    ensures r.Some? ==> forall j :: 0 <= j < r.value ==> keys[j] in cfg
  {
    if keys == [] then None
    else if keys[0] !in cfg then Some(0)
    else match FirstMissing(keys[1..], cfg)
      case None => None
      case Some(i) => Some(i + 1)
  }

  /**
   * `parse_area_config`: fails naming the first missing capacity key, and
   * otherwise hands the configuration back unchanged. Values are not checked.
   */
  function ParseAreaConfig(raw: Config): (r: Result<Config, Error>)
    ensures r.Ok? <==> forall i :: 0 <= i < |RequiredKeys| ==> RequiredKeys[i] in raw
    ensures r.Ok? ==> r.value == raw
    ensures r.Err? ==> exists i :: 0 <= i < |RequiredKeys| && r.error == MissingKey(RequiredKeys[i])
                                   && RequiredKeys[i] !in raw
                                   && forall j :: 0 <= j < i ==> RequiredKeys[j] in raw
  {
    match FirstMissing(RequiredKeys, raw)
    case None => Ok(raw)
    case Some(i) => Err(MissingKey(RequiredKeys[i]))
  }

  /**
   * `parse_staff_list`: fails at the first entry that is not a record, and
   * otherwise keeps the records whose attendance is "Y". What it promises is
   * stated by `ParseStaffListFailsAtFirst` and `ParseStaffListKeepsAttending`.
   */
  function ParseStaffList(entries: seq<Entry>): Result<seq<Staff>, Error> {
    if entries == [] then Ok([])
    else
      match ParseStaffList(entries[..|entries| - 1])
      case Err(e) => Err(e)
      case Ok(kept) =>
        match entries[|entries| - 1]
        case NotRecord => Err(MalformedStaffEntry(|entries| - 1))
        case Record(s) => Ok(if s.attendance == "Y" then kept + [s] else kept)
  }

  /** The filter fails iff some entry is not a record, and then at the first such entry. */
  lemma {:induction false} ParseStaffListFailsAtFirst(entries: seq<Entry>)
    ensures ParseStaffList(entries).Err? <==> exists i :: 0 <= i < |entries| && entries[i].NotRecord?
    ensures ParseStaffList(entries).Err? ==> ParseStaffList(entries).error.MalformedStaffEntry?
    ensures ParseStaffList(entries).Err? && ParseStaffList(entries).error.MalformedStaffEntry? ==>
              var i := ParseStaffList(entries).error.index;
              && i < |entries| && entries[i].NotRecord?
              && forall j :: 0 <= j < i ==> entries[j].Record?
  {
    if entries != [] {
      var init := entries[..|entries| - 1];
      ParseStaffListFailsAtFirst(init);
      assert forall j :: 0 <= j < |init| ==> init[j] == entries[j];
      if ParseStaffList(init).Ok? && entries[|entries| - 1].Record? {
        forall i | 0 <= i < |entries| ensures entries[i].Record? {
          if i < |init| {
            assert entries[i] == init[i];
          }
        }
      }
    }
  }

  /** On success the filter keeps exactly the attending records of the roster. */
  lemma {:induction false} ParseStaffListKeepsAttending(entries: seq<Entry>)
    requires ParseStaffList(entries).Ok?
    ensures forall s :: s in ParseStaffList(entries).value <==> Record(s) in entries && s.attendance == "Y"
  {
    if entries != [] {
      var init, last := entries[..|entries| - 1], entries[|entries| - 1];
      assert entries == init + [last];
      ParseStaffListKeepsAttending(init);
    }
  }

  /** The raw roster made only of the given records. */
  function AsEntries(staff: seq<Staff>): (r: seq<Entry>)
    ensures |r| == |staff|
    ensures forall i :: 0 <= i < |staff| ==> r[i] == Record(staff[i])
  {
    seq(|staff|, i requires 0 <= i < |staff| => Record(staff[i]))
  }

  /**
   * The filter keeps order: filtering a concatenation is the concatenation of
   * the filtered parts, so the kept records appear as they did in the roster.
   */
  lemma {:induction false} ParseStaffListAppend(xs: seq<Entry>, ys: seq<Entry>)
    requires ParseStaffList(xs).Ok? && ParseStaffList(ys).Ok?
    ensures ParseStaffList(xs + ys) == Ok(ParseStaffList(xs).value + ParseStaffList(ys).value)
  {
    if ys == [] {
      assert xs + ys == xs;
      assert ParseStaffList(xs).value + [] == ParseStaffList(xs).value;
    } else {
      var init, last := ys[..|ys| - 1], ys[|ys| - 1];
      ParseStaffListAppend(xs, init);
      var vx, vi := ParseStaffList(xs).value, ParseStaffList(init).value;
      var extra := if last.staff.attendance == "Y" then [last.staff] else [];
      var zs := xs + ys;
      assert zs[..|zs| - 1] == xs + init && zs[|zs| - 1] == last;
      ParseStaffListLast(zs);
      ParseStaffListLast(ys);
      assert (vx + vi) + extra == vx + (vi + extra);
    }
  }

  /** A roster whose entries before the last pass keeps its last entry iff that is an attending record. */
  lemma ParseStaffListLast(zs: seq<Entry>)
    requires zs != [] && ParseStaffList(zs[..|zs| - 1]).Ok? && zs[|zs| - 1].Record?
    ensures var s := zs[|zs| - 1].staff;
            ParseStaffList(zs) == Ok(ParseStaffList(zs[..|zs| - 1]).value + (if s.attendance == "Y" then [s] else []))
  {
    assert ParseStaffList(zs[..|zs| - 1]).value + [] == ParseStaffList(zs[..|zs| - 1]).value;
  }

  /** A single entry: a non-record fails at index 0, a record is kept iff it attends. */
  lemma ParseStaffListSingle(e: Entry)
    ensures e.NotRecord? ==> ParseStaffList([e]) == Err(MalformedStaffEntry(0))
    ensures e.Record? ==> ParseStaffList([e]) == Ok(if e.staff.attendance == "Y" then [e.staff] else [])
  {
    assert [e][..0] == [];
    assert ParseStaffList([e][..0]) == Ok([]);
    if e.Record? {
      assert [] + [e.staff] == [e.staff];
    }
  }
}
