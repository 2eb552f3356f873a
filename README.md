# Staff scheduler allocation engine, in Dafny

This project models the allocation engine of a staff scheduling system: the
`Scheduler` class of `models/scheduler.py` and the attendance check
`validate_configuration` of `utils/vaildators.py`. It proves properties of that model.

The scheduler takes a roster of staff records, an area-capacity configuration
and a display vocabulary. It fills four lists in place: inbound front,
inbound back, outbound front and outbound back. It makes one greedy pass in
three stages and never backtracks:

1. Staff pinned to the inbound area are placed.
2. Groups are placed: the leader goes by team, and the other members go to the
   leader's section.
3. Everyone not yet placed is routed by team.

The run stops with a failure at the first record it cannot place.

The model has two layers.

- **Specification functions** over an `Allocation` value, which holds the four lists:
  - `Records`: the inputs and the two input checks.
  - `Placement`: section, area, mobile and team placement, and the position lookup.
  - `Groups`: group-name normalisation, grouping and co-location.
  - `Scheduling`: the three loops of `schedule` and the result mapping.
  - `Validators`: the attendance check.
- **The `Scheduler` class** (`SchedulerClass`). It has the configuration, the
  roster and the vocabulary as constants, and the four lists as `seq<string>`
  fields. Each method updates the fields in place, as the source does. Each
  method's `ensures` says its outcome and new lists are what the matching
  function computes from the lists on entry. The loops of `assign_group` and
  `schedule` carry invariants that tie the lists to those functions over the
  prefix already processed.

The vocabulary, which the source loads from a JSON file, is a parameter
(`Vocabulary`). A missing optional key of a staff record is read as `""`. The
two group keys are `Option`s, because the source tests for their presence.

The scheduler's methods require `Valid()`. It holds when:
- the six limits are integers;
- the three team keys are present;
- the four vocabulary strings are distinct.

These conditions are what the model assumes, not what the source checks:
- A limit that is not a number makes the source raise `TypeError` at its first comparison. A float limit compares like a number and raises nothing.
- A missing team key raises `KeyError` only when `assign_staff` reads it (models/scheduler.py:342), so a run that never reaches it does not fail.
- Equal vocabulary strings raise nothing; they misroute. With equal inbound and outbound strings, the outbound test in `assign_front` (models/scheduler.py:184) matches first, so an inbound placement lands on the outbound front list.

What the model shows the code guarantees:
- Every append is guarded by its section's limit, so no section list ever passes its limit (`StepGrows`, `ScheduleKeepsSectionLimits`).
- A successful run places every attending record (`SchedulePlacesEveryone`).
- A successful run keeps every inbound-pinned record in the inbound area (`ScheduleHonoursInboundPins`).

What one might expect of the code but it does not guarantee:
- **No double-booking.** The group pass places a leader again even when the fixed-area pass already placed them (models/scheduler.py:127). `Quirks.DoubleBooking` exhibits a successful run with the same name on two lists.
- **The area total.** Co-located members are checked only against the section limit (models/scheduler.py:69-86). `Quirks.AreaTotalExceeded` exhibits a successful run whose inbound occupancy exceeds the inbound total.
- **Members follow the leader's first list.** When the group pass places an already placed leader again, `get_staff_position` (models/scheduler.py:88-98) returns the first list in rank order that holds the leader, not the section the leader was just added to. `Quirks.MembersFollowFirstList` exhibits a successful run in which the leader is on inbound back and outbound back, and the outbound-team member joins inbound back.
- **Pinning to outbound.** The outbound test at models/scheduler.py:154 belongs to the `else` of the non-empty test at line 144, not to the inbound test at line 145. So a record whose fixed area is the outbound string is passed over in the first loop and only reached later by team routing. The model follows the code (`Scheduling.FixedStep`).

Two other points:
- A record of an unknown team places nothing, as in the code.
- The table editor (ui/staff_table.py) stores group columns under keys that differ from the `group_leader` and `group_member` keys the scheduler tests. The model takes the scheduler's view: a record either carries a group key or it does not.

## Model

| member | source | states |
|---|---|---|
| Records.FirstMissing | models/scheduler.py:37-40 | the index of the first required key absent from the configuration, and none exactly when all are present |
| Records.ParseAreaConfig | models/scheduler.py:36-42 | succeeds iff all six capacity keys are present, returning the configuration unchanged; otherwise fails naming the first missing key in check order |
| Records.ParseStaffListFailsAtFirst | models/scheduler.py:44-54 | the filter fails iff some entry is not a record, and then names the first such index |
| Records.ParseStaffListKeepsAttending | models/scheduler.py:44-54 | on success the filter keeps exactly the records whose attendance is "Y" |
| Records.ParseStaffListAppend | models/scheduler.py:45-52 | the filter of a concatenation is the concatenation of the filters, so kept records stay in roster order |
| Records.ParseStaffListSingle | models/scheduler.py:46-52 | a single non-record fails at index 0; a single record is kept iff it attends |
| Placement.Env.AreaNamed | models/scheduler.py:184-192 | maps the outbound string to Outbound and the inbound string to Inbound, and nothing else to an area |
| Placement.StepGrows | models/scheduler.py:194-197 | a placement only appends, and keeps every section within its limit if it was |
| Placement.PlaceSection | models/scheduler.py:71-85 | appends the name to the section iff the list is below its limit, changing nothing else |
| Placement.PlaceFront | models/scheduler.py:183-200 | an unknown area places nothing; otherwise appends to that area's front list iff it is below its limit |
| Placement.PlaceBack | models/scheduler.py:202-219 | an unknown area places nothing; otherwise appends to that area's back list iff it is below its limit |
| Placement.PlaceInArea | models/scheduler.py:221-293 | no change when front plus back reaches the area total; placed iff the area is open and some section has vacancy; a usable preferred section wins; otherwise front only on a strictly larger vacancy, ties to back; one name added to that area only |
| Placement.PlaceMobile | models/scheduler.py:296-328 | a successful placement in the preferred area is kept; otherwise inbound only on strictly larger total vacancy, ties to outbound, failure when neither has vacancy, and no retry elsewhere |
| Placement.PlaceStaff | models/scheduler.py:337-384 | inbound team first, then outbound team, then mobile team; an unknown team changes nothing and fails |
| Placement.StaffPosition | models/scheduler.py:88-98 | the first section in the order inbound front, inbound back, outbound front, outbound back holding the name; none iff no list holds it |
| Placement.PositionAfterAppend | models/scheduler.py:88-98 | a name held nowhere and then appended to a section is found in that section |
| Placement.PlaceAtLeader | models/scheduler.py:69-86 | with a position, appends iff that section is below its limit, whatever the area total; without one, places nothing |
| Groups.StripLeftSpec | models/scheduler.py:137 | stripping on the left removes exactly the leading whitespace and leaves a suffix starting with a non-space |
| Groups.StripRightSpec | models/scheduler.py:137 | stripping on the right removes exactly the trailing whitespace and leaves a prefix ending with a non-space |
| Groups.NormalizedIsTrimmed | models/scheduler.py:134-137 | a normalised name neither starts nor ends with whitespace |
| Groups.NormalizedIsLower | models/scheduler.py:134-137 | the normalised name is already lower-case |
| Groups.NormalizeIdempotent | models/scheduler.py:134-137 | normalising twice equals normalising once |
| Groups.GroupNames | models/scheduler.py:110-122 | each group name appears once |
| Groups.GroupNamesInFirstAppearanceOrder | models/scheduler.py:110-122 | the group names are in order of first appearance: every record of a later name comes after some record of an earlier name |
| Groups.GroupNamesWitness | models/scheduler.py:111-120 | every group name is the key of some record |
| Groups.GroupNamesComplete | models/scheduler.py:111-119 | every record with a group key has its normalised group among the names |
| Groups.GroupNamesSound | models/scheduler.py:119-122 | every group name has at least one record |
| Groups.MembersOfNewGroup | models/scheduler.py:119-120 | a group not yet seen has no records so far |
| Groups.MembersExact | models/scheduler.py:111-122 | a group's list holds exactly the records whose normalised key is that group |
| Groups.FirstLeader | models/scheduler.py:126 | the first record of the group carrying a leader key, and none iff no record carries one |
| Groups.NonLeaderNamesExact | models/scheduler.py:130-131 | the names co-located are those of the members other than the leader, at most one per member |
| Groups.PlaceMembers | models/scheduler.py:130-132 | only the leader's section can change, and nothing changes without a position |
| Groups.PlaceMembersColocates | models/scheduler.py:130-132 | the leader's section gains the non-leader members in order, as many as it has room for |
| Groups.PlaceGroup | models/scheduler.py:125-132 | the lists only grow within their limits; a group without a leader, or whose leader cannot be placed, changes nothing |
| Groups.GroupFollowsLeader | models/scheduler.py:126-132 | once the leader is placed, the first section holding the leader's name gains the non-leader members in order, as many as fit, and every other section keeps what it held after the leader's placement |
| Groups.GroupColocation | models/scheduler.py:125-132 | a fresh leader who is placed lands in one section, which then gains the leader and the members that fit, while the other sections stay unchanged |
| Groups.PlaceGroups | models/scheduler.py:125-132 | placing groups one after another only appends within the section limits |
| Groups.GroupPass | models/scheduler.py:100-132 | the group pass only appends within the section limits |
| Scheduling.FixedStep | models/scheduler.py:143-162 | an inbound-pinned record continues the run iff inbound placement succeeds, with the lists of that placement, and is then in inbound and marked; a non-empty non-inbound fixed area is passed over; an empty fixed area is passed over unless the outbound string is empty too, in which case it is placed in outbound |
| Scheduling.FixedPass | models/scheduler.py:142-162 | the first loop only appends within limits, and every name it marks is on a list |
| Scheduling.FixedPassStaysAborted | models/scheduler.py:149-153 | after the first failure the loop's outcome is fixed |
| Scheduling.FixedPassPinsInbound | models/scheduler.py:143-147 | after a completed first loop every inbound-pinned record is in inbound |
| Scheduling.MarkPlaced | models/scheduler.py:166-168 | marks exactly the records found on a list, keeping earlier marks |
| Scheduling.RemainderStep | models/scheduler.py:171-177 | a marked name is skipped; otherwise the run continues iff team placement succeeds, with that placement's lists and the name marked, and fails with nothing changed otherwise |
| Scheduling.RemainderPass | models/scheduler.py:170-177 | the last loop only appends within limits and keeps the marked names on lists |
| Scheduling.RemainderPassMarksAll | models/scheduler.py:171-174 | a completed last loop has marked every record |
| Scheduling.RemainderPassStaysAborted | models/scheduler.py:175-177 | after the first failure the loop's outcome is fixed |
| Scheduling.ScheduleRun | models/scheduler.py:139-181 | a run only appends to the lists it starts from, within the section limits |
| Scheduling.ScheduleKeepsSectionLimits | models/scheduler.py:139-181 | every run from empty lists, successful or not, keeps each section within its limit |
| Scheduling.SchedulePlacesEveryone | models/scheduler.py:139-181 | in a successful run every record's name is on some list |
| Scheduling.ScheduleHonoursInboundPins | models/scheduler.py:143-147 | in a successful run every inbound-pinned record is in inbound |
| Scheduling.ResultDict | models/scheduler.py:56-67 | the result maps the two area strings to the two section strings and those to exactly the four lists |
| Quirks.DoubleBooking | models/scheduler.py:127 | a successful run can hold an inbound-pinned leader on two lists |
| Quirks.MembersFollowFirstList | models/scheduler.py:125-132 | a successful run in which a re-placed leader is on two lists and its member joins the leader's first list, not its new section |
| Quirks.AreaTotalExceeded | models/scheduler.py:69-86 | a successful run can put the inbound area above its total |
| Quirks.TieGoesToBack | models/scheduler.py:241-246 | with equal vacancies the first record goes to back and the next to front |
| Quirks.TotalStopsThird | models/scheduler.py:223-225 | a record arriving when the inbound total is reached is not placed |
| SchedulerClass.Scheduler.Create | models/scheduler.py:11-33 | construction fails with the configuration error first, then the roster error; otherwise starts with empty lists and the parsed roster |
| SchedulerClass.Scheduler.ParseAreaConfig | models/scheduler.py:36-42 | the key-check loop returns what `Records.ParseAreaConfig` states |
| SchedulerClass.Scheduler.ParseStaffList | models/scheduler.py:44-54 | the filter loop returns what `Records.ParseStaffList` states |
| SchedulerClass.FirstErrorStays | models/scheduler.py:46-48 | once the filter has failed on a prefix it fails the same way on the whole roster |
| SchedulerClass.Scheduler.GenerateResultDict | models/scheduler.py:56-67 | the result mapping of the current lists |
| SchedulerClass.Scheduler.GetStaffPosition | models/scheduler.py:88-98 | the position `Placement.StaffPosition` gives for the current lists |
| SchedulerClass.Scheduler.AppendIfRoom | models/scheduler.py:71-85 | the in-place guarded append of `Placement.PlaceSection` |
| SchedulerClass.Scheduler.AssignToLeaderPosition | models/scheduler.py:69-86 | outcome and new lists as `Placement.PlaceAtLeader` |
| SchedulerClass.Scheduler.AssignFront | models/scheduler.py:183-200 | outcome and new lists as `Placement.PlaceFront` |
| SchedulerClass.Scheduler.AssignBack | models/scheduler.py:202-219 | outcome and new lists as `Placement.PlaceBack` |
| SchedulerClass.Scheduler.AssignInbound | models/scheduler.py:221-256 | outcome and new lists as `Placement.PlaceInArea` for inbound |
| SchedulerClass.Scheduler.AssignOutbound | models/scheduler.py:258-293 | outcome and new lists as `Placement.PlaceInArea` for outbound |
| SchedulerClass.Scheduler.AssignMobile | models/scheduler.py:296-328 | outcome and new lists as `Placement.PlaceMobile` |
| SchedulerClass.Scheduler.AssignStaff | models/scheduler.py:337-384 | outcome and new lists as `Placement.PlaceStaff` |
| SchedulerClass.Scheduler.CollectGroups | models/scheduler.py:110-122 | the mapping loop yields the group names in first-appearance order and, for each, exactly its records in roster order |
| SchedulerClass.CollectStep | models/scheduler.py:111-122 | one more record adds its group to the order if new and joins that group's records; a record without a group key changes nothing |
| SchedulerClass.Scheduler.AssignGroup | models/scheduler.py:100-132 | new lists as `Groups.GroupPass` |
| SchedulerClass.Scheduler.PlaceOneGroup | models/scheduler.py:125-132 | new lists as `Groups.PlaceGroup` for one group |
| SchedulerClass.Scheduler.PlaceAtPosition | models/scheduler.py:130-132 | new lists as `Groups.PlaceMembers` |
| SchedulerClass.Scheduler.FixedAreaStep | models/scheduler.py:143-162 | outcome, marks and new lists as `Scheduling.FixedStep` for one record |
| SchedulerClass.Scheduler.AssignFixedAreas | models/scheduler.py:142-162 | the first loop ends as `Scheduling.FixedPass` over the roster |
| SchedulerClass.Scheduler.MarkPlacedStaff | models/scheduler.py:166-168 | the marks `Scheduling.MarkPlaced` gives for the current lists |
| SchedulerClass.Scheduler.RemainderAreaStep | models/scheduler.py:171-177 | outcome, marks and new lists as `Scheduling.RemainderStep` for one record |
| SchedulerClass.Scheduler.AssignRemaining | models/scheduler.py:170-177 | the last loop ends as `Scheduling.RemainderPass` over the roster |
| SchedulerClass.Scheduler.Schedule | models/scheduler.py:139-181 | succeeds iff `Scheduling.ScheduleRun` does, leaves its lists, and returns the result mapping on success and nothing on failure |
| Validators.AttendingCount | utils/vaildators.py:4 | the number of attending records: at most the roster size, zero iff none attends, the roster size iff all attend |
| Validators.AttendingCountAppend | utils/vaildators.py:4 | the count of a concatenation is the sum of the counts |
| Validators.AttendingCountIsRosterSize | utils/vaildators.py:4 | the count equals the size of the roster the scheduler keeps after filtering |
| Validators.ValidateConfiguration | utils/vaildators.py:1-16 | valid iff the required total is absent or equals the count; the message says no requirement, a mismatch with both values, or valid |
| Validators.ValidatedRosterSize | utils/vaildators.py:13-16 | a configuration that passes with a numeric total leaves the scheduler a roster of exactly that size |

## Left out

- Logging and `Log_assignment_error` only produce output, so they are not modelled.
- The JSON file read in the constructor is file I/O; the vocabulary is a parameter instead.
- The unused `all_groups` set, `mobile_team`, `inbound_count` and `outbound_count` are not modelled, because nothing reads them.
- SchedulerClass.Scheduler.Schedule: the failure branch of the fixed-area loop models a plain failed run. Its log line reads the keys `Inbound_Total` and `Outbound_Total`, which the configuration check does not require, so the source raises `KeyError` there unless those keys happen to be present.
- Scheduler methods require `Valid()`: integer limits and all three team keys. A non-numeric limit makes the source raise `TypeError`, and a missing team key raises `KeyError` once `assign_staff` reads it; neither path is modelled. Float limits are not modelled either.
- The four vocabulary strings are assumed distinct (`Valid()`). With equal strings the source misroutes placements, and that behaviour is not modelled.
- Groups.NonLeaderNames: `member != leader` (models/scheduler.py:131) compares whole records, including columns the model does not carry. The model compares the eight modelled fields, so two records that differ only in other columns count as the same record.
- A staff record without `name`, `fixed_area` or `team_name` makes the source raise `KeyError`. The model reads such a record as having "".
- Groups.Lower: only ASCII letters are lower-cased. Python's Unicode case mapping is not modelled; whitespace follows `str.strip`'s set of code points.
- A group key whose value is not a string makes `normalize_group_name` raise; such a value is not modelled.
- Python truthiness of `if leader` is modelled as "a leader was found", since a record is a non-empty mapping.
- Dictionary insertion order of `group_mapping` is modelled by a sequence of group names beside the mapping.
- A staff list entry that is not a record is modelled by `NotRecord`. In `validate_configuration` such an entry would make `get` fail, so the validator takes a sequence of records.
- Validators.ValidateConfiguration: a `total_attendance` stored as a Python value that compares equal to an integer without being one (a boolean or a float) is read as a mismatch.
