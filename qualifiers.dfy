/**
 * Qualifier selection (find_qualifiers.py): for every swimmer, the best time per short-course
 * event since the earliest PB date, preferring a swim from a meet that is not level 4, compared
 * against the boys' or girls' standard for the swimmer's age.
 */
module Qualifiers {
  import opened Wrappers
  import opened Collaborators
  import opened Scans
  import opened Tokens
  import opened Swims
  import opened Swimmers
  import opened SwimList
  import opened QualifyingTimes

  /** The script's settings and the two parsed standard tables. */
  datatype QualifierConfig = QualifierConfig(
    catalog: Catalog,
    conv: Conversions,
    boys: Table,
    girls: Table,
    ageOnDate: Date,
    earliestPbDate: Date,
    maximumAge: int,
    level4Meets: set<string>,
    excludedSwimmers: set<string>)
  {
    /** What the tables built by _parse_spreadsheet_data guarantee: one slot per event, full rows. */
    ghost predicate Valid() {
      && catalog.Valid()
      && |boys| == catalog.numEvents && WellShaped(boys)
      && |girls| == catalog.numEvents && WellShaped(girls)
    }
  }

  /** A swim with the two attributes process_swimmer sets on it. */
  datatype QualSwim = QualSwim(swim: Swim, convertedTime: real, qualifies: bool)

  /** Truncation to a tenth of a second: the largest multiple of 0.1 not above x. */
  function FloorTenths(x: real): (r: real)
    ensures r <= x < r + 0.1
    ensures (r * 10.0).Floor as real == r * 10.0
  {
    ((x * 10.0).Floor as real) / 10.0
  }

  /** A swim's time is converted and truncated unless its event is long course, which is kept as swum. */
  function ConvertedTime(catalog: Catalog, s: Swim): (r: real)
    ensures catalog.isLongCourse(s.event) ==> r == s.raceTime
    ensures !catalog.isLongCourse(s.event) ==>
              r <= catalog.convertTime(s.event, s.raceTime) < r + 0.1
  {
    if !catalog.isLongCourse(s.event) then FloorTenths(catalog.convertTime(s.event, s.raceTime))
    else s.raceTime
  }

  /** The swim counts for qualifying exactly when its meet is not a level-4 meet. */
  function Annotate(cfg: QualifierConfig, s: Swim): (q: QualSwim)
    ensures q.swim == s
    ensures q.qualifies <==> s.meet !in cfg.level4Meets
    ensures q.convertedTime == ConvertedTime(cfg.catalog, s)
  {
    QualSwim(s, ConvertedTime(cfg.catalog, s), s.meet !in cfg.level4Meets)
  }

  /** The swims the running minimum of event e considers: in the window, and qualifying if asked. */
  function Candidate(cfg: QualifierConfig, e: nat, qualOnly: bool): Swim -> bool {
    (s: Swim) => s.date >= cfg.earliestPbDate && cfg.catalog.shortCourseCode(s.event) == e
                 && (!qualOnly || s.meet !in cfg.level4Meets)
  }

  function Converted(cfg: QualifierConfig): Swim -> real {
    (s: Swim) => ConvertedTime(cfg.catalog, s)
  }

  /** pb_by_event[e] (qualOnly false) and qual_pb_by_event[e] (qualOnly true) after the scan. */
  function Best(cfg: QualifierConfig, swims: seq<Swim>, e: nat, qualOnly: bool): Option<QualSwim> {
    var k := FirstMin(swims, Candidate(cfg, e, qualOnly), Converted(cfg));
    if k.None? then None else Some(Annotate(cfg, swims[k.value]))
  }

  /** The best swim is a window swim of its event with the least converted time, the first one seen. */
  lemma BestIsFirstMinimum(cfg: QualifierConfig, swims: seq<Swim>, e: nat, qualOnly: bool)
    ensures var b := Best(cfg, swims, e, qualOnly);
      b.None? <==> forall j :: 0 <= j < |swims| ==> !Candidate(cfg, e, qualOnly)(swims[j])
    ensures var b := Best(cfg, swims, e, qualOnly);
      b.Some? ==> exists k :: && 0 <= k < |swims| && b.value == Annotate(cfg, swims[k])
                             && Candidate(cfg, e, qualOnly)(swims[k])
                             && (forall j :: 0 <= j < |swims| && Candidate(cfg, e, qualOnly)(swims[j]) ==>
                                   b.value.convertedTime <= ConvertedTime(cfg.catalog, swims[j]))
                             && (forall j :: 0 <= j < k && Candidate(cfg, e, qualOnly)(swims[j]) ==>
                                   b.value.convertedTime < ConvertedTime(cfg.catalog, swims[j]))
  {
    var k := FirstMin(swims, Candidate(cfg, e, qualOnly), Converted(cfg));
    if k.Some? {
      assert IsFirstMin(swims, Candidate(cfg, e, qualOnly), Converted(cfg), k.value);
    }
  }

  /** Only swims on or after the earliest PB date take part: the scan ignores everything before it. */
  lemma BestIgnoresEarlySwims(cfg: QualifierConfig, swims: seq<Swim>, e: nat, qualOnly: bool)
    ensures var b := Best(cfg, swims, e, qualOnly);
      b.Some? ==> b.value.swim.date >= cfg.earliestPbDate && cfg.catalog.shortCourseCode(b.value.swim.event) == e
  {
    var k := FirstMin(swims, Candidate(cfg, e, qualOnly), Converted(cfg));
    if k.Some? {
      assert Candidate(cfg, e, qualOnly)(swims[k.value]);
    }
  }

  /** The overall PB is never slower than the qualifying PB, and exists whenever that one does. */
  lemma PbNoSlowerThanQualPb(cfg: QualifierConfig, swims: seq<Swim>, e: nat)
    requires Best(cfg, swims, e, true).Some?
    ensures Best(cfg, swims, e, false).Some?
    ensures Best(cfg, swims, e, false).value.convertedTime <= Best(cfg, swims, e, true).value.convertedTime
  {
    forall j | 0 <= j < |swims| && Candidate(cfg, e, true)(swims[j]) ensures Candidate(cfg, e, false)(swims[j]) {
    }
    FirstMinNarrower(swims, Candidate(cfg, e, false), Candidate(cfg, e, true), Converted(cfg));
  }

  /** The qualifying PB is from a meet that is not level 4. */
  lemma QualPbQualifies(cfg: QualifierConfig, swims: seq<Swim>, e: nat)
    ensures Best(cfg, swims, e, true).Some? ==> Best(cfg, swims, e, true).value.qualifies
  {
    var k := FirstMin(swims, Candidate(cfg, e, true), Converted(cfg));
    if k.Some? {
      assert Candidate(cfg, e, true)(swims[k.value]);
    }
  }

  /**
   * One swim seen by one of the running minima: the slot of its event is replaced when the
   * swim is a candidate and strictly faster, or the slot is empty.
   */
  lemma BestStep(cfg: QualifierConfig, swims: seq<Swim>, i: nat, qualOnly: bool, best: seq<Option<QualSwim>>, updated: seq<Option<QualSwim>>)
    requires i < |swims| && |best| == cfg.catalog.numEvents && cfg.catalog.Valid()
    requires forall e :: 0 <= e < cfg.catalog.numEvents ==> best[e] == Best(cfg, swims[..i], e, qualOnly)
    requires var s := swims[i];
      var code := cfg.catalog.shortCourseCode(s.event);
      var q := Annotate(cfg, s);
      updated == if Candidate(cfg, code, qualOnly)(s) && (best[code].None? || q.convertedTime < best[code].value.convertedTime)
                 then best[code := Some(q)] else best
    ensures |updated| == cfg.catalog.numEvents
    ensures forall e :: 0 <= e < cfg.catalog.numEvents ==> updated[e] == Best(cfg, swims[..i + 1], e, qualOnly)
  {
    forall e | 0 <= e < cfg.catalog.numEvents
      ensures updated[e] == Best(cfg, swims[..i + 1], e, qualOnly)
    {
      FirstMinStep(swims, Candidate(cfg, e, qualOnly), Converted(cfg), i);
      var r := FirstMin(swims[..i], Candidate(cfg, e, qualOnly), Converted(cfg));
      if r.Some? {
        assert swims[..i][r.value] == swims[r.value];
      }
      assert swims[..i + 1][i] == swims[i];
    }
  }

  /** The loop over the swims that fills pb_by_event and qual_pb_by_event. */
  method BestByEvent(cfg: QualifierConfig, swims: seq<Swim>) returns (pbs: seq<Option<QualSwim>>, qualPbs: seq<Option<QualSwim>>)
    requires cfg.catalog.Valid()
    ensures |pbs| == cfg.catalog.numEvents && |qualPbs| == cfg.catalog.numEvents
    ensures forall e :: 0 <= e < cfg.catalog.numEvents ==> pbs[e] == Best(cfg, swims, e, false)
    ensures forall e :: 0 <= e < cfg.catalog.numEvents ==> qualPbs[e] == Best(cfg, swims, e, true)
  {
    pbs := seq(cfg.catalog.numEvents, _ => None);
    qualPbs := seq(cfg.catalog.numEvents, _ => None);
    for i := 0 to |swims|
      invariant |pbs| == cfg.catalog.numEvents && |qualPbs| == cfg.catalog.numEvents
      invariant forall e :: 0 <= e < cfg.catalog.numEvents ==> pbs[e] == Best(cfg, swims[..i], e, false)
      invariant forall e :: 0 <= e < cfg.catalog.numEvents ==> qualPbs[e] == Best(cfg, swims[..i], e, true)
    {
      var swim := swims[i];
      var newPbs, newQualPbs := pbs, qualPbs;
      if swim.date >= cfg.earliestPbDate {
        var code := cfg.catalog.shortCourseCode(swim.event);
        var q := Annotate(cfg, swim);
        var pb := pbs[code];
        var qualPb := qualPbs[code];
        if q.qualifies && (qualPb.None? || q.convertedTime < qualPb.value.convertedTime) {
          newQualPbs := qualPbs[code := Some(q)];
        }
        if pb.None? || q.convertedTime < pb.value.convertedTime {
          newPbs := pbs[code := Some(q)];
        }
      }
      BestStep(cfg, swims, i, false, pbs, newPbs);
      BestStep(cfg, swims, i, true, qualPbs, newQualPbs);
      pbs, qualPbs := newPbs, newQualPbs;
    }
    assert swims[..|swims|] == swims;
  }

  /** The swim reported from the two slots of an event: the qualifying PB if there is one. */
  function Prefer(pb: Option<QualSwim>, qualPb: Option<QualSwim>): Option<QualSwim> {
    if qualPb.Some? then qualPb else pb
  }

  /** The swim reported for an event: the qualifying PB if there is one, else the overall PB. */
  function Chosen(cfg: QualifierConfig, swims: seq<Swim>, e: nat): (c: Option<QualSwim>)
    ensures Best(cfg, swims, e, true).Some? ==> c == Best(cfg, swims, e, true)
    ensures Best(cfg, swims, e, true).None? ==> c == Best(cfg, swims, e, false)
    ensures c.None? <==> Best(cfg, swims, e, false).None?
  {
    if Best(cfg, swims, e, true).Some? then
      PbNoSlowerThanQualPb(cfg, swims, e);
      Prefer(Best(cfg, swims, e, false), Best(cfg, swims, e, true))
    else Prefer(Best(cfg, swims, e, false), Best(cfg, swims, e, true))
  }

  /** A reported swim differs from the overall PB only by being a qualifying one at least as slow. */
  lemma ChosenAgainstPb(cfg: QualifierConfig, swims: seq<Swim>, e: nat)
    requires Chosen(cfg, swims, e).Some?
    ensures Best(cfg, swims, e, false).Some?
    ensures Best(cfg, swims, e, false).value.convertedTime <= Chosen(cfg, swims, e).value.convertedTime
    ensures !Chosen(cfg, swims, e).value.qualifies ==> Chosen(cfg, swims, e) == Best(cfg, swims, e, false)
  {
    QualPbQualifies(cfg, swims, e);
    if Best(cfg, swims, e, true).Some? {
      PbNoSlowerThanQualPb(cfg, swims, e);
    }
  }

  /** One line of the qualifiers report; qualified is false for the "not-qualified" tag. */
  datatype Row = Row(event: nat, swim: Swim, time: real, qualified: bool)

  /** The standard a swimmer of this gender and age is held to in event e. */
  function Standard(cfg: QualifierConfig, e: nat, isMale: bool, age: int): Option<real>
    requires cfg.Valid() && e < cfg.catalog.numEvents
  {
    GetQualifyingTime(cfg.boys, cfg.girls, e, isMale, age)
  }

  /** The row written for event e, if any: there must be a swim and a standard it meets. */
  function RowFor(cfg: QualifierConfig, chosen: Option<QualSwim>, e: nat, isMale: bool, age: int): (r: Option<Row>)
    requires cfg.Valid() && e < cfg.catalog.numEvents
    ensures r.Some? <==> && chosen.Some? && Standard(cfg, e, isMale, age).Some?
                         && chosen.value.convertedTime <= Standard(cfg, e, isMale, age).value
    ensures r.Some? ==> && r.value.event == e && r.value.swim == chosen.value.swim
                        && r.value.time == chosen.value.convertedTime
                        && (r.value.qualified <==> chosen.value.qualifies)
  {
    if chosen.None? then None
    else
      var qt := Standard(cfg, e, isMale, age);
      if qt.None? then None
      else if chosen.value.convertedTime <= qt.value then
        Some(Row(e, chosen.value.swim, chosen.value.convertedTime, chosen.value.qualifies))
      else None
  }

  /** The row, if any, of each event, from the two per-event slots. */
  ghost function SlotRow(cfg: QualifierConfig, pbs: seq<Option<QualSwim>>, qualPbs: seq<Option<QualSwim>>, isMale: bool, age: int): nat -> Option<Row> {
    (e: nat) =>
      if cfg.Valid() && e < cfg.catalog.numEvents && e < |pbs| && e < |qualPbs|
      then RowFor(cfg, Prefer(pbs[e], qualPbs[e]), e, isMale, age)
      else None
  }

  /** All slots of one running minimum after the scan. */
  ghost function AllBest(cfg: QualifierConfig, swims: seq<Swim>, qualOnly: bool): seq<Option<QualSwim>> {
    seq(cfg.catalog.numEvents, (e: int) requires 0 <= e => Best(cfg, swims, e, qualOnly))
  }

  /** The swimmer is reported on at all: not excluded by name and not too old. */
  predicate Considered(cfg: QualifierConfig, swimmer: Swimmer) {
    && FullName(swimmer) !in cfg.excludedSwimmers
    && cfg.conv.calcAge(swimmer.dateOfBirth, cfg.ageOnDate) <= cfg.maximumAge
  }

  /** All rows written for a swimmer, in event order. */
  ghost function QualifierRows(cfg: QualifierConfig, swimmer: Swimmer, swims: seq<Swim>): seq<Row> {
    if !Considered(cfg, swimmer) then []
    else
      var age := cfg.conv.calcAge(swimmer.dateOfBirth, cfg.ageOnDate);
      Gather(SlotRow(cfg, AllBest(cfg, swims, false), AllBest(cfg, swims, true), swimmer.isMale, age), cfg.catalog.numEvents)
  }

  /**
   * The rows are exactly the events whose chosen swim meets an existing standard: each row is
   * the row of its event, the events increase strictly, and no such event is missed.
   */
  lemma RowsAreQualifyingEvents(cfg: QualifierConfig, swimmer: Swimmer, swims: seq<Swim>)
    requires cfg.Valid() && Considered(cfg, swimmer)
    ensures var rows := QualifierRows(cfg, swimmer, swims);
      var age := cfg.conv.calcAge(swimmer.dateOfBirth, cfg.ageOnDate);
      forall k :: 0 <= k < |rows| ==>
        rows[k].event < cfg.catalog.numEvents && RowFor(cfg, Chosen(cfg, swims, rows[k].event), rows[k].event, swimmer.isMale, age) == Some(rows[k])
    ensures var rows := QualifierRows(cfg, swimmer, swims);
      forall k, l :: 0 <= k < l < |rows| ==> rows[k].event < rows[l].event
    ensures var rows := QualifierRows(cfg, swimmer, swims);
      var age := cfg.conv.calcAge(swimmer.dateOfBirth, cfg.ageOnDate);
      forall e :: 0 <= e < cfg.catalog.numEvents && RowFor(cfg, Chosen(cfg, swims, e), e, swimmer.isMale, age).Some? ==>
        exists k :: 0 <= k < |rows| && rows[k].event == e
  {
    var age := cfg.conv.calcAge(swimmer.dateOfBirth, cfg.ageOnDate);
    var f := SlotRow(cfg, AllBest(cfg, swims, false), AllBest(cfg, swims, true), swimmer.isMale, age);
    var key := (r: Row) => r.event;
    GatherExactly(f, key, cfg.catalog.numEvents);
    var rows := QualifierRows(cfg, swimmer, swims);
    assert rows == Gather(f, cfg.catalog.numEvents);
    forall k | 0 <= k < |rows|
      ensures rows[k].event < cfg.catalog.numEvents
      ensures RowFor(cfg, Chosen(cfg, swims, rows[k].event), rows[k].event, swimmer.isMale, age) == Some(rows[k])
    {
      assert key(rows[k]) == rows[k].event;
      ChosenSlot(cfg, swims, rows[k].event);
    }
    forall e | 0 <= e < cfg.catalog.numEvents && RowFor(cfg, Chosen(cfg, swims, e), e, swimmer.isMale, age).Some?
      ensures exists k :: 0 <= k < |rows| && rows[k].event == e
    {
      ChosenSlot(cfg, swims, e);
      assert f(e).Some?;
      var k :| 0 <= k < |rows| && rows[k] == f(e).value;
    }
  }

  /**
   * What a report row promises: a standard exists for the swimmer, the reported time meets it,
   * and the row is tagged "not-qualified" exactly when its swim is from a level-4 meet.
   */
  lemma RowsMeetStandards(cfg: QualifierConfig, swimmer: Swimmer, swims: seq<Swim>)
    requires cfg.Valid()
    ensures var rows := QualifierRows(cfg, swimmer, swims);
      var age := cfg.conv.calcAge(swimmer.dateOfBirth, cfg.ageOnDate);
      forall k :: 0 <= k < |rows| ==>
        && rows[k].event < cfg.catalog.numEvents
        && Standard(cfg, rows[k].event, swimmer.isMale, age).Some?
        && rows[k].time <= Standard(cfg, rows[k].event, swimmer.isMale, age).value
        && rows[k].swim.date >= cfg.earliestPbDate
        && (rows[k].qualified <==> rows[k].swim.meet !in cfg.level4Meets)
  {
    var rows := QualifierRows(cfg, swimmer, swims);
    var age := cfg.conv.calcAge(swimmer.dateOfBirth, cfg.ageOnDate);
    if Considered(cfg, swimmer) {
      RowsAreQualifyingEvents(cfg, swimmer, swims);
      forall k | 0 <= k < |rows|
        ensures rows[k].swim.date >= cfg.earliestPbDate
        ensures rows[k].qualified <==> rows[k].swim.meet !in cfg.level4Meets
      {
        var e := rows[k].event;
        assert RowFor(cfg, Chosen(cfg, swims, e), e, swimmer.isMale, age) == Some(rows[k]);
        BestIgnoresEarlySwims(cfg, swims, e, true);
        BestIgnoresEarlySwims(cfg, swims, e, false);
      }
    }
  }

  /** The header "Full Name (age)" and the rows under it; no header when no row is written. */
  datatype Report = Report(fullName: string, age: int, rows: seq<Row>)

  /** The slots of the two running minima give the chosen swim of every event. */
  lemma ChosenSlot(cfg: QualifierConfig, swims: seq<Swim>, e: nat)
    requires e < cfg.catalog.numEvents
    ensures Prefer(AllBest(cfg, swims, false)[e], AllBest(cfg, swims, true)[e]) == Chosen(cfg, swims, e)
  {
  }

  /** The per-event output loop, with the printed_name flag that writes the header once. */
  method WriteRows(cfg: QualifierConfig, pbs: seq<Option<QualSwim>>, qualPbs: seq<Option<QualSwim>>, isMale: bool, age: int)
    returns (printedName: bool, rows: seq<Row>)
    requires cfg.Valid() && |pbs| == cfg.catalog.numEvents && |qualPbs| == cfg.catalog.numEvents
    ensures rows == Gather(SlotRow(cfg, pbs, qualPbs, isMale, age), cfg.catalog.numEvents)
    ensures printedName <==> rows != []
  {
    printedName := false;
    rows := [];
    for i := 0 to cfg.catalog.numEvents
      invariant rows == Gather(SlotRow(cfg, pbs, qualPbs, isMale, age), i)
      invariant printedName <==> rows != []
    {
      var pb := qualPbs[i];
      if pb.None? {
        pb := pbs[i];
      }
      assert SlotRow(cfg, pbs, qualPbs, isMale, age)(i) == RowFor(cfg, pb, i, isMale, age);
      if pb.Some? {
        var qt := GetQualifyingTime(cfg.boys, cfg.girls, i, isMale, age);
        if qt.Some? {
          var raceTime := pb.value.convertedTime;
          if raceTime <= qt.value {
            if !printedName {
              printedName := true;
            }
            rows := rows + [Row(i, pb.value.swim, raceTime, pb.value.qualifies)];
          }
        }
      }
    }
  }

  /** process_swimmer: None when the swimmer is excluded or nothing is written for them. */
  method ProcessSwimmer(cfg: QualifierConfig, swimmer: Swimmer, swims: seq<Swim>) returns (report: Option<Report>)
    requires cfg.Valid()
    ensures report == ReportOf(cfg, swimmer, swims)
  {
    var age := cfg.conv.calcAge(swimmer.dateOfBirth, cfg.ageOnDate);
    var fullName := FullName(swimmer);
    if fullName in cfg.excludedSwimmers {
      return None;
    }
    if age > cfg.maximumAge {
      return None;
    }
    var pbs, qualPbs := BestByEvent(cfg, swims);
    assert pbs == AllBest(cfg, swims, false) && qualPbs == AllBest(cfg, swims, true);
    var printedName, rows := WriteRows(cfg, pbs, qualPbs, swimmer.isMale, age);
    if printedName {
      report := Some(Report(fullName, age, rows));
    } else {
      report := None;
    }
  }

  /** The report of one swimmer: the header is written once, and only above at least one row. */
  ghost function ReportOf(cfg: QualifierConfig, swimmer: Swimmer, swims: seq<Swim>): (r: Option<Report>)
    requires cfg.Valid()
    ensures r.None? <==> QualifierRows(cfg, swimmer, swims) == []
    ensures !Considered(cfg, swimmer) ==> r.None?
    ensures r.Some? ==> && r.value.fullName == FullName(swimmer)
                        && r.value.age == cfg.conv.calcAge(swimmer.dateOfBirth, cfg.ageOnDate)
                        && r.value.rows == QualifierRows(cfg, swimmer, swims)
  {
    var rows := QualifierRows(cfg, swimmer, swims);
    if rows == [] then None
    else Some(Report(FullName(swimmer), cfg.conv.calcAge(swimmer.dateOfBirth, cfg.ageOnDate), rows))
  }

  /** The reports of the blocks, in file order; every block parses. */
  ghost function ReportBlocks(cfg: QualifierConfig, blocks: seq<Block>): seq<Report>
    requires cfg.Valid()
    requires forall k :: 0 <= k < |blocks| ==> ParseBlock(blocks[k], cfg.catalog, cfg.conv).Ok?
    decreases |blocks|
  {
    if blocks == [] then []
    else
      var parsed := ParseBlock(blocks[|blocks| - 1], cfg.catalog, cfg.conv).value;
      var r := ReportOf(cfg, parsed.0, parsed.1);
      ReportBlocks(cfg, blocks[..|blocks| - 1]) + (if r.Some? then [r.value] else [])
  }

  lemma ReportBlocksStep(cfg: QualifierConfig, blocks: seq<Block>, i: nat)
    requires cfg.Valid() && i < |blocks|
    requires forall k :: 0 <= k <= i ==> ParseBlock(blocks[k], cfg.catalog, cfg.conv).Ok?
    ensures var parsed := ParseBlock(blocks[i], cfg.catalog, cfg.conv).value;
      var r := ReportOf(cfg, parsed.0, parsed.1);
      ReportBlocks(cfg, blocks[..i + 1]) == ReportBlocks(cfg, blocks[..i]) + (if r.Some? then [r.value] else [])
  {
    assert blocks[..i + 1][..i] == blocks[..i];
  }

  /**
   * process_swimmer on the blocks in order. A block that does not parse stops the script with
   * the error of its first bad line; the reports of the blocks before it are already written.
   */
  method ProcessBlocks(cfg: QualifierConfig, blocks: seq<Block>) returns (reports: seq<Report>, err: Option<ParseError>)
    requires cfg.Valid()
    ensures err.None? <==> forall k :: 0 <= k < |blocks| ==> ParseBlock(blocks[k], cfg.catalog, cfg.conv).Ok?
    ensures err.None? ==> reports == ReportBlocks(cfg, blocks)
    ensures err.Some? ==> exists k :: && 0 <= k < |blocks|
                                      && ParseBlock(blocks[k], cfg.catalog, cfg.conv) == Err(err.value)
                                      && (forall j :: 0 <= j < k ==> ParseBlock(blocks[j], cfg.catalog, cfg.conv).Ok?)
                                      && reports == ReportBlocks(cfg, blocks[..k])
  {
    reports := [];
    for i := 0 to |blocks|
      invariant forall j :: 0 <= j < i ==> ParseBlock(blocks[j], cfg.catalog, cfg.conv).Ok?
      invariant reports == ReportBlocks(cfg, blocks[..i])
    {
      var parsed := ParseBlock(blocks[i], cfg.catalog, cfg.conv);
      if parsed.Err? {
        return reports, Some(parsed.error);
      }
      ReportBlocksStep(cfg, blocks, i);
      var report := ProcessSwimmer(cfg, parsed.value.0, parsed.value.1);
      if report.Some? {
        reports := reports + [report.value];
      }
    }
    assert blocks[..|blocks|] == blocks;
    err := None;
  }

  /** The reader loop of find_qualifiers.py with process_swimmer on every block it closes, the last one included. */
  method FindQualifiers(cfg: QualifierConfig, lines: seq<string>) returns (reports: seq<Report>, err: Option<ParseError>)
    requires cfg.Valid()
    ensures exists blocks ::
      && Flatten(blocks) == lines && WellFormed(blocks)
      && (err.None? <==> forall k :: 0 <= k < |blocks| ==> ParseBlock(blocks[k], cfg.catalog, cfg.conv).Ok?)
      && (err.None? ==> reports == ReportBlocks(cfg, blocks))
      && (err.Some? ==> exists k :: && 0 <= k < |blocks|
                                    && ParseBlock(blocks[k], cfg.catalog, cfg.conv) == Err(err.value)
                                    && (forall j :: 0 <= j < k ==> ParseBlock(blocks[j], cfg.catalog, cfg.conv).Ok?)
                                    && reports == ReportBlocks(cfg, blocks[..k]))
  {
    var blocks := ReadBlocks(lines);
    reports, err := ProcessBlocks(cfg, blocks);
  }
}
