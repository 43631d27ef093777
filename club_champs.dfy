/**
 * Club-championship extraction (extract_club_champs_times.py): for every entered swimmer, the
 * swim of each short-course event from the championship meet within its dates, the last such
 * swim winning; the race times are listed as swum, and entrants never processed are reported.
 */
module ClubChamps {
  import opened Wrappers
  import opened Collaborators
  import opened Scans
  import opened Tokens
  import opened Swims
  import opened Swimmers
  import opened SwimList
  import opened EntryList

  /** The script's settings: the meet name, its first and last day, and the age limit. */
  datatype ChampsConfig = ChampsConfig(
    catalog: Catalog,
    conv: Conversions,
    meetName: string,
    startDate: Date,
    endDate: Date,
    maximumAge: int)

  /** A swim of the championships: the named meet, dated within both bounds inclusive. */
  predicate IsChampsSwim(cfg: ChampsConfig, s: Swim) {
    s.meet == cfg.meetName && s.date >= cfg.startDate && s.date <= cfg.endDate
  }

  function InSlot(cfg: ChampsConfig, e: nat): Swim -> bool {
    (s: Swim) => IsChampsSwim(cfg, s) && cfg.catalog.shortCourseCode(s.event) == e
  }

  /** swim_by_event[e] after the loop: the last championship swim whose short-course code is e. */
  function Slot(cfg: ChampsConfig, swims: seq<Swim>, e: nat): Option<Swim> {
    var k := LastMatch(swims, InSlot(cfg, e));
    if k.None? then None else Some(swims[k.value])
  }

  /**
   * A slot is empty exactly when no championship swim has that event, and otherwise holds such
   * a swim with no other one after it.
   */
  lemma SlotIsLastChampsSwim(cfg: ChampsConfig, swims: seq<Swim>, e: nat)
    ensures Slot(cfg, swims, e).None? <==>
            forall j :: 0 <= j < |swims| ==> !(IsChampsSwim(cfg, swims[j]) && cfg.catalog.shortCourseCode(swims[j].event) == e)
    ensures Slot(cfg, swims, e).Some? ==>
            exists k :: && 0 <= k < |swims| && swims[k] == Slot(cfg, swims, e).value
                        && IsChampsSwim(cfg, swims[k]) && cfg.catalog.shortCourseCode(swims[k].event) == e
                        && forall j :: k < j < |swims| ==> !(IsChampsSwim(cfg, swims[j]) && cfg.catalog.shortCourseCode(swims[j].event) == e)
  {
    var k := LastMatch(swims, InSlot(cfg, e));
    if k.None? {
      forall j | 0 <= j < |swims| ensures !(IsChampsSwim(cfg, swims[j]) && cfg.catalog.shortCourseCode(swims[j].event) == e) {
        assert !InSlot(cfg, e)(swims[j]);
      }
    } else {
      assert InSlot(cfg, e)(swims[k.value]);
      forall j | k.value < j < |swims| ensures !(IsChampsSwim(cfg, swims[j]) && cfg.catalog.shortCourseCode(swims[j].event) == e) {
        assert !InSlot(cfg, e)(swims[j]);
      }
    }
  }

  /** One swim seen by the loop: it overwrites the slot of its event when it is a championship swim. */
  lemma SlotStep(cfg: ChampsConfig, swims: seq<Swim>, i: nat, slots: seq<Option<Swim>>, updated: seq<Option<Swim>>)
    requires i < |swims| && |slots| == cfg.catalog.numEvents && cfg.catalog.Valid()
    requires forall e :: 0 <= e < cfg.catalog.numEvents ==> slots[e] == Slot(cfg, swims[..i], e)
    requires updated == if IsChampsSwim(cfg, swims[i]) then slots[cfg.catalog.shortCourseCode(swims[i].event) := Some(swims[i])] else slots
    ensures |updated| == cfg.catalog.numEvents
    ensures forall e :: 0 <= e < cfg.catalog.numEvents ==> updated[e] == Slot(cfg, swims[..i + 1], e)
  {
    var prefix := swims[..i + 1];
    assert prefix[..i] == swims[..i];
    assert prefix[i] == swims[i];
    forall e | 0 <= e < cfg.catalog.numEvents ensures updated[e] == Slot(cfg, prefix, e) {
      var k := LastMatch(swims[..i], InSlot(cfg, e));
      if k.Some? {
        assert prefix[k.value] == swims[..i][k.value];
      }
    }
  }

  /** The categorising loop: one slot per event, each overwritten by every matching swim. */
  method SlotsByEvent(cfg: ChampsConfig, swims: seq<Swim>) returns (slots: seq<Option<Swim>>)
    requires cfg.catalog.Valid()
    ensures |slots| == cfg.catalog.numEvents
    ensures forall e :: 0 <= e < cfg.catalog.numEvents ==> slots[e] == Slot(cfg, swims, e)
  {
    slots := seq(cfg.catalog.numEvents, _ => None);
    for i := 0 to |swims|
      invariant |slots| == cfg.catalog.numEvents
      invariant forall e :: 0 <= e < cfg.catalog.numEvents ==> slots[e] == Slot(cfg, swims[..i], e)
    {
      var swim := swims[i];
      var updated := slots;
      if swim.meet == cfg.meetName && swim.date >= cfg.startDate && swim.date <= cfg.endDate {
        updated := slots[cfg.catalog.shortCourseCode(swim.event) := Some(swim)];
      }
      SlotStep(cfg, swims, i, slots, updated);
      slots := updated;
    }
    assert swims[..|swims|] == swims;
  }

  /** All slots of a swimmer after the loop. */
  function AllSlots(cfg: ChampsConfig, swims: seq<Swim>): seq<Option<Swim>> {
    seq(cfg.catalog.numEvents, (e: int) requires 0 <= e => Slot(cfg, swims, e))
  }

  /** The SwimmerTimes record of this script: the swimmer, the entry name and the slots. */
  datatype ChampsTimes = ChampsTimes(swimmer: Swimmer, fullName: string, swimByEvent: seq<Option<Swim>>)

  function Names(times: seq<ChampsTimes>): set<string> {
    set j | 0 <= j < |times| :: times[j].fullName
  }

  lemma NamesAppend(times: seq<ChampsTimes>, t: ChampsTimes)
    ensures Names(times + [t]) == Names(times) + {t.fullName}
  {
    var ts := times + [t];
    assert ts[|times|] == t;
    forall n | n in Names(times) ensures n in Names(ts) {
      var j :| 0 <= j < |times| && times[j].fullName == n;
      assert ts[j] == times[j];
    }
  }

  /** The age limit is applied at the last day of the championships. */
  function Age(cfg: ChampsConfig, s: Swimmer): int {
    cfg.conv.calcAge(s.dateOfBirth, cfg.endDate)
  }

  /**
   * process_swimmer on the entries and all_swimmer_times: the swimmer is taken under the first
   * of their two names that is entered, and only if no older than the maximum age on the last
   * day; taking them sets that entry and appends their slots.
   */
  function Step(cfg: ChampsConfig, entries: map<string, bool>, times: seq<ChampsTimes>, swimmer: Swimmer, swims: seq<Swim>): (r: (map<string, bool>, seq<ChampsTimes>))
    ensures var name := ResolveName(entries, swimmer);
      var admitted := name.Some? && Age(cfg, swimmer) <= cfg.maximumAge;
      && (admitted <==> |r.1| == |times| + 1)
      && (!admitted ==> r == (entries, times))
      && (admitted ==> && r.0 == entries[name.value := true]
                       && r.1[..|times|] == times
                       && r.1[|times|].swimmer == swimmer
                       && r.1[|times|].fullName == name.value
                       && |r.1[|times|].swimByEvent| == cfg.catalog.numEvents
                       && forall e :: 0 <= e < cfg.catalog.numEvents ==> r.1[|times|].swimByEvent[e] == Slot(cfg, swims, e))
  {
    var name := ResolveName(entries, swimmer);
    if name.None? || Age(cfg, swimmer) > cfg.maximumAge then (entries, times)
    else
      var r := (entries[name.value := true], times + [ChampsTimes(swimmer, name.value, AllSlots(cfg, swims))]);
      assert r.1[..|times|] == times;
      r
  }

  /** An entry is True exactly when a swimmer was processed under it. */
  ghost predicate Consistent(entries: map<string, bool>, times: seq<ChampsTimes>) {
    Tracks(entries, Names(times))
  }

  lemma StepConsistent(cfg: ChampsConfig, entries: map<string, bool>, times: seq<ChampsTimes>, swimmer: Swimmer, swims: seq<Swim>)
    requires Consistent(entries, times)
    ensures var r := Step(cfg, entries, times, swimmer, swims); Consistent(r.0, r.1)
  {
    var r := Step(cfg, entries, times, swimmer, swims);
    if |r.1| == |times| + 1 {
      assert r.1 == times + [r.1[|times|]];
      NamesAppend(times, r.1[|times|]);
      MarkTracks(entries, Names(times), r.1[|times|].fullName);
    }
  }

  /** The blocks of the swim list processed in order; every block parses. */
  function RunBlocks(cfg: ChampsConfig, entries: map<string, bool>, times: seq<ChampsTimes>, blocks: seq<Block>): (map<string, bool>, seq<ChampsTimes>)
    requires forall k :: 0 <= k < |blocks| ==> ParseBlock(blocks[k], cfg.catalog, cfg.conv).Ok?
    decreases |blocks|
  {
    if blocks == [] then (entries, times)
    else
      var r := RunBlocks(cfg, entries, times, blocks[..|blocks| - 1]);
      var parsed := ParseBlock(blocks[|blocks| - 1], cfg.catalog, cfg.conv).value;
      Step(cfg, r.0, r.1, parsed.0, parsed.1)
  }

  lemma RunBlocksStep(cfg: ChampsConfig, entries: map<string, bool>, times: seq<ChampsTimes>, blocks: seq<Block>, i: nat)
    requires i < |blocks|
    requires forall k :: 0 <= k <= i ==> ParseBlock(blocks[k], cfg.catalog, cfg.conv).Ok?
    ensures var r := RunBlocks(cfg, entries, times, blocks[..i]);
      var parsed := ParseBlock(blocks[i], cfg.catalog, cfg.conv).value;
      RunBlocks(cfg, entries, times, blocks[..i + 1]) == Step(cfg, r.0, r.1, parsed.0, parsed.1)
  {
    assert blocks[..i + 1][..i] == blocks[..i];
  }

  /** One line of the race-times file: the slot's event, the swim's own event and its race time as swum. */
  datatype TimeLine = TimeLine(slot: nat, event: int, raceTime: real)

  /** The line written for slot e, if it holds a swim. */
  function SlotLine(slots: seq<Option<Swim>>): nat -> Option<TimeLine> {
    (e: nat) => if e < |slots| && slots[e].Some? then Some(TimeLine(e, slots[e].value.event, slots[e].value.raceTime)) else None
  }

  /** The lines written under one swimmer, slot by slot. */
  function TimeLines(t: ChampsTimes): seq<TimeLine> {
    Gather(SlotLine(t.swimByEvent), |t.swimByEvent|)
  }

  /**
   * A line is written for every filled slot and no other, in slot order, and it carries the
   * raw race time of that slot's swim, not a converted one.
   */
  lemma TimeLinesAreFilledSlots(t: ChampsTimes)
    ensures var lines := TimeLines(t);
      forall k :: 0 <= k < |lines| ==>
        && lines[k].slot < |t.swimByEvent| && t.swimByEvent[lines[k].slot].Some?
        && lines[k].event == t.swimByEvent[lines[k].slot].value.event
        && lines[k].raceTime == t.swimByEvent[lines[k].slot].value.raceTime
    ensures var lines := TimeLines(t);
      forall k, l :: 0 <= k < l < |lines| ==> lines[k].slot < lines[l].slot
    ensures var lines := TimeLines(t);
      forall e :: 0 <= e < |t.swimByEvent| && t.swimByEvent[e].Some? ==> exists k :: 0 <= k < |lines| && lines[k].slot == e
  {
    var f := SlotLine(t.swimByEvent);
    var key := (l: TimeLine) => l.slot;
    GatherExactly(f, key, |t.swimByEvent|);
    var lines := TimeLines(t);
    assert lines == Gather(f, |t.swimByEvent|);
    forall k | 0 <= k < |lines|
      ensures lines[k].slot < |t.swimByEvent| && t.swimByEvent[lines[k].slot].Some?
      ensures lines[k].event == t.swimByEvent[lines[k].slot].value.event
      ensures lines[k].raceTime == t.swimByEvent[lines[k].slot].value.raceTime
    {
      assert key(lines[k]) == lines[k].slot;
      assert f(lines[k].slot) == Some(lines[k]);
    }
    forall e | 0 <= e < |t.swimByEvent| && t.swimByEvent[e].Some?
      ensures exists k :: 0 <= k < |lines| && lines[k].slot == e
    {
      assert f(e).Some?;
      var k :| 0 <= k < |lines| && lines[k] == f(e).value;
    }
  }

  /** The script's global state: the shared entries dictionary and all_swimmer_times. */
  class ChampsRun {
    const cfg: ChampsConfig
    const book: EntryBook
    var allSwimmerTimes: seq<ChampsTimes>

    ghost predicate Valid()
      reads this, book
    {
      Consistent(book.entries, allSwimmerTimes)
    }

    /** Starts after the entry list is read, when no entry is processed yet. */
    constructor (cfg: ChampsConfig, book: EntryBook)
      requires forall k :: k in book.entries ==> !book.entries[k]
      ensures this.cfg == cfg && this.book == book && allSwimmerTimes == []
      ensures Valid()
    {
      this.cfg := cfg;
      this.book := book;
      allSwimmerTimes := [];
      NothingProcessedYet(book.entries);
    }

    method ProcessSwimmer(swimmer: Swimmer, swims: seq<Swim>)
      requires Valid() && cfg.catalog.Valid()
      modifies this, book
      ensures Valid()
      ensures (book.entries, allSwimmerTimes) == Step(cfg, old(book.entries), old(allSwimmerTimes), swimmer, swims)
    {
      StepConsistent(cfg, book.entries, allSwimmerTimes, swimmer, swims);
      var age := cfg.conv.calcAge(swimmer.dateOfBirth, cfg.endDate);
      var fullName := FullName(swimmer);
      if fullName !in book.entries {
        fullName := AlternateName(swimmer);
        if fullName !in book.entries {
          return;
        }
      }
      if age > cfg.maximumAge {
        return;
      }
      book.MarkProcessed(fullName);
      var slots := SlotsByEvent(cfg, swims);
      assert slots == AllSlots(cfg, swims);
      allSwimmerTimes := allSwimmerTimes + [ChampsTimes(swimmer, fullName, slots)];
    }

    /**
     * Parses and processes the blocks in order. A block that does not parse stops the run with
     * the error of its first bad line, after the blocks before it were processed.
     */
    method ProcessBlocks(blocks: seq<Block>) returns (err: Option<ParseError>)
      requires Valid() && cfg.catalog.Valid()
      modifies this, book
      ensures Valid()
      ensures err.None? <==> forall k :: 0 <= k < |blocks| ==> ParseBlock(blocks[k], cfg.catalog, cfg.conv).Ok?
      ensures err.None? ==> (book.entries, allSwimmerTimes) == RunBlocks(cfg, old(book.entries), old(allSwimmerTimes), blocks)
      ensures err.Some? ==> exists k :: && 0 <= k < |blocks|
                                        && ParseBlock(blocks[k], cfg.catalog, cfg.conv) == Err(err.value)
                                        && (forall j :: 0 <= j < k ==> ParseBlock(blocks[j], cfg.catalog, cfg.conv).Ok?)
                                        && (book.entries, allSwimmerTimes) == RunBlocks(cfg, old(book.entries), old(allSwimmerTimes), blocks[..k])
    {
      ghost var entries0, times0 := book.entries, allSwimmerTimes;
      for i := 0 to |blocks|
        invariant Valid()
        invariant forall j :: 0 <= j < i ==> ParseBlock(blocks[j], cfg.catalog, cfg.conv).Ok?
        invariant (book.entries, allSwimmerTimes) == RunBlocks(cfg, entries0, times0, blocks[..i])
      {
        var parsed := ParseBlock(blocks[i], cfg.catalog, cfg.conv);
        if parsed.Err? {
          return Some(parsed.error);
        }
        RunBlocksStep(cfg, entries0, times0, blocks, i);
        ProcessSwimmer(parsed.value.0, parsed.value.1);
      }
      assert blocks[..|blocks|] == blocks;
      return None;
    }

    /** The reader loop followed by process_swimmer for every block it closes, the last one included. */
    method ProcessSwimList(lines: seq<string>) returns (err: Option<ParseError>)
      requires Valid() && cfg.catalog.Valid()
      modifies this, book
      ensures Valid()
      ensures exists blocks :: && Flatten(blocks) == lines && WellFormed(blocks)
                               && (err.None? <==> forall k :: 0 <= k < |blocks| ==> ParseBlock(blocks[k], cfg.catalog, cfg.conv).Ok?)
                               && (err.None? ==> (book.entries, allSwimmerTimes) == RunBlocks(cfg, old(book.entries), old(allSwimmerTimes), blocks))
                               && (err.Some? ==> exists k :: && 0 <= k < |blocks|
                                                             && ParseBlock(blocks[k], cfg.catalog, cfg.conv) == Err(err.value)
                                                             && (forall j :: 0 <= j < k ==> ParseBlock(blocks[j], cfg.catalog, cfg.conv).Ok?)
                                                             && (book.entries, allSwimmerTimes) == RunBlocks(cfg, old(book.entries), old(allSwimmerTimes), blocks[..k]))
    {
      var blocks := ReadBlocks(lines);
      err := ProcessBlocks(blocks);
    }

    /** The entries left False, written to the missing-entries file. */
    function MissingEntries(): (m: set<string>)
      reads this, book
      requires Valid()
      ensures m == book.entries.Keys - Names(allSwimmerTimes)
    {
      MissingEntriesExactly(book.entries, Names(allSwimmerTimes));
      Unprocessed(book.entries)
    }
  }
}
