/**
 * make_consideration_times.py: for every entered swimmer, one scoring consideration time per
 * short-course event, taken from the PB set on or before the consideration date, interpolated
 * towards the first faster swim after it, or looked up in the NT table when there is no PB.
 */
module ConsiderationTimes {
  import opened Wrappers
  import opened Collaborators
  import opened Scans
  import opened Tokens
  import opened Swims
  import opened Swimmers
  import opened SwimList
  import opened EntryList
  import opened Buckets

  /** Where a consideration time came from; the script writes this out as a sentence. */
  datatype Reason =
    | NoPbNoNt
    | NoPbFromNt
    | FromPb(meet: string, date: Date)
    | Interpolated(pbMeet: string, pbDate: Date, pbTime: real, interpMeet: string, interpDate: Date, interpTime: real)

  /** event is the short-course event code; time is None when there is neither a PB nor an NT time. */
  datatype ConsiderationTime = ConsiderationTime(event: nat, time: Option<real>, reason: Reason)

  datatype SwimmerTimes = SwimmerTimes(swimmer: Swimmer, fullName: string, considerationTimes: seq<ConsiderationTime>)

  /**
   * The script's settings: the event catalogue, the token conversions, get_nt_consideration_time,
   * the club-championship date (ages are taken on it), the consideration date (the same day a
   * year earlier) and the maximum age.
   */
  datatype Config = Config(
    catalog: Catalog,
    conv: Conversions,
    ntTime: (nat, bool, int) -> Option<real>,
    clubChampsDate: Date,
    considerationDate: Date,
    maximumAge: int)

  function PreDate(cutoff: Date): Swim -> bool {
    (s: Swim) => s.date <= cutoff
  }

  function ScTime(): Swim -> real {
    (s: Swim) => s.shortCourseRaceTime
  }

  /** A swim after the cutoff that is strictly faster than bar. */
  function Improves(cutoff: Date, bar: real): Swim -> bool {
    (s: Swim) => s.date > cutoff && s.shortCourseRaceTime < bar
  }

  /** The PB: the first-seen fastest swim dated on or before the cutoff. */
  function PbIndex(s: seq<Swim>, cutoff: Date): Option<nat> {
    FirstMin(s, PreDate(cutoff), ScTime())
  }

  /** The first swim after the cutoff that beats the PB; none without a PB. */
  function InterpIndex(s: seq<Swim>, cutoff: Date): Option<nat> {
    var pb := PbIndex(s, cutoff);
    if pb.None? then None else FirstMatch(s, Improves(cutoff, s[pb.value].shortCourseRaceTime))
  }

  /** A list sorted by date has no swim on or before the cutoff after one past it. */
  lemma SortedAfter(s: seq<Swim>, cutoff: Date, i: nat)
    requires SortedByDate(s) && i < |s| && s[i].date > cutoff
    ensures forall j :: i <= j < |s| ==> !PreDate(cutoff)(s[j])
  {
  }

  /** The scan stopped at swim i, past the cutoff: the PB so far is the PB of the whole list. */
  lemma ScanStopped(s: seq<Swim>, cutoff: Date, i: nat)
    requires SortedByDate(s) && i < |s| && s[i].date > cutoff
    ensures PbIndex(s, cutoff) == FirstMin(s[..i], PreDate(cutoff), ScTime())
  {
    SortedAfter(s, cutoff, i);
    FirstMinPrefix(s, PreDate(cutoff), ScTime(), i);
  }

  /** Stopping at the first swim past the cutoff when there is no PB yet: no PB and no interpolation. */
  lemma StopWithoutPb(s: seq<Swim>, cutoff: Date, i: nat)
    requires i < |s| && s[i].date > cutoff
    requires FirstMin(s[..i], PreDate(cutoff), ScTime()).None?
    ensures SortedByDate(s) ==> PbIndex(s, cutoff).None? && InterpIndex(s, cutoff).None?
  {
    if SortedByDate(s) {
      ScanStopped(s, cutoff, i);
    }
  }

  /** Stopping at the first later swim that beats the PB: it is the interpolation swim. */
  lemma StopAtImprovement(s: seq<Swim>, cutoff: Date, i: nat, pb: nat)
    requires i < |s| && s[i].date > cutoff
    requires FirstMin(s[..i], PreDate(cutoff), ScTime()) == Some(pb) && pb < |s|
    requires s[i].shortCourseRaceTime < s[pb].shortCourseRaceTime
    requires SortedByDate(s) ==> forall j :: 0 <= j < i && s[j].date > cutoff ==> s[j].shortCourseRaceTime >= s[pb].shortCourseRaceTime
    ensures SortedByDate(s) ==> PbIndex(s, cutoff) == Some(pb) && InterpIndex(s, cutoff) == Some(i)
  {
    if SortedByDate(s) {
      ScanStopped(s, cutoff, i);
      NoEarlierImprovement(s, cutoff, s[pb].shortCourseRaceTime, i);
      assert Improves(cutoff, s[pb].shortCourseRaceTime)(s[i]);
    }
  }

  /** Reaching the end with a PB and no later swim beating it: no interpolation. */
  lemma EndOfScan(s: seq<Swim>, cutoff: Date, pb: Option<nat>)
    requires pb == FirstMin(s[..|s|], PreDate(cutoff), ScTime())
    requires pb.Some? && SortedByDate(s) ==> forall j :: 0 <= j < |s| && s[j].date > cutoff ==> s[j].shortCourseRaceTime >= s[pb.value].shortCourseRaceTime
    ensures SortedByDate(s) ==> pb == PbIndex(s, cutoff) && InterpIndex(s, cutoff).None?
  {
    assert s[..|s|] == s;
    if SortedByDate(s) && pb.Some? {
      NoEarlierImprovement(s, cutoff, s[pb.value].shortCourseRaceTime, |s|);
    }
  }

  /** No swim before i improves on the bar: those before the cutoff cannot, those after did not. */
  lemma NoEarlierImprovement(s: seq<Swim>, cutoff: Date, bar: real, i: nat)
    requires i <= |s|
    requires forall j :: 0 <= j < i && s[j].date > cutoff ==> s[j].shortCourseRaceTime >= bar
    ensures forall j :: 0 <= j < i ==> !Improves(cutoff, bar)(s[j])
  {
  }

  /** In a sorted list, a swim on or before the cutoff comes after only such swims. */
  lemma SortedBefore(s: seq<Swim>, cutoff: Date, i: nat)
    requires i < |s| && s[i].date <= cutoff
    ensures SortedByDate(s) ==> forall j :: 0 <= j < i ==> s[j].date <= cutoff
  {
  }

  /**
   * The scan over one event's swims, with its two early exits; it answers the PB swim and the
   * interpolation swim. Whatever the order, a PB is dated on or before the cutoff and an
   * interpolation swim is a later, faster swim; on a date-sorted list the PB is the first-seen
   * minimum before the cutoff and the interpolation swim is the first later swim that beats it.
   */
  method ScanEvent(s: seq<Swim>, cutoff: Date) returns (pb: Option<Swim>, interp: Option<Swim>)
    ensures pb.Some? ==> pb.value in s && pb.value.date <= cutoff
    ensures interp.Some? ==> && pb.Some? && interp.value in s && interp.value.date > cutoff
                             && interp.value.shortCourseRaceTime < pb.value.shortCourseRaceTime
    ensures SortedByDate(s) ==> pb == Pick(s, PbIndex(s, cutoff)) && interp == Pick(s, InterpIndex(s, cutoff))
  {
    var pbAt: Option<nat> := None;
    var interpAt: Option<nat> := None;
    var i := 0;
    while i < |s|
      invariant 0 <= i <= |s|
      invariant pbAt == FirstMin(s[..i], PreDate(cutoff), ScTime())
      invariant pbAt.Some? ==> pbAt.value < i && s[pbAt.value].date <= cutoff
      invariant pbAt.Some? && SortedByDate(s) ==> forall j :: 0 <= j < i && s[j].date > cutoff ==>
                  s[j].shortCourseRaceTime >= s[pbAt.value].shortCourseRaceTime
    {
      var swim := s[i];
      FirstMinStep(s, PreDate(cutoff), ScTime(), i);
      if swim.date <= cutoff {
        SortedBefore(s, cutoff, i);
        if pbAt.None? || swim.shortCourseRaceTime < s[pbAt.value].shortCourseRaceTime {
          pbAt := Some(i);
        }
      } else if pbAt.None? {
        StopWithoutPb(s, cutoff, i);
        break;
      } else if swim.shortCourseRaceTime < s[pbAt.value].shortCourseRaceTime {
        StopAtImprovement(s, cutoff, i, pbAt.value);
        interpAt := Some(i);
        break;
      }
      i := i + 1;
    }
    if i == |s| {
      EndOfScan(s, cutoff, pbAt);
    }
    pb := Pick(s, pbAt);
    interp := Pick(s, interpAt);
  }

  /** The share of the gap between the PB and the interpolation swim that the cutoff has covered. */
  function InterpolationFactor(pbDate: Date, interpDate: Date, cutoff: Date): (f: real)
    requires pbDate != interpDate
    ensures pbDate <= cutoff < interpDate ==> 0.0 <= f < 1.0
  {
    (cutoff - pbDate) as real / (interpDate - pbDate) as real
  }

  lemma ProductBelow(d: real, f: real)
    requires d > 0.0 && 0.0 <= f < 1.0
    ensures 0.0 <= d * f
    ensures d * f < d
  {
  }

  /** The linear interpolation between the PB time (f = 0) and the later, faster time (f = 1). */
  function Interpolate(pbTime: real, interpTime: real, f: real): (r: real)
    ensures f == 0.0 ==> r == pbTime
  {
    interpTime * f + pbTime * (1.0 - f)
  }

  /** Short of f = 1 the interpolated time is slower than the later swim and no slower than the PB. */
  lemma InterpolateBetween(pbTime: real, interpTime: real, f: real)
    requires interpTime < pbTime && 0.0 <= f < 1.0
    ensures interpTime < Interpolate(pbTime, interpTime, f) <= pbTime
  {
    var d := pbTime - interpTime;
    ProductBelow(d, f);
    calc {
      Interpolate(pbTime, interpTime, f);
    ==
      interpTime * f + (interpTime + d) * (1.0 - f);
    ==
      interpTime + d * (1.0 - f);
    ==
      interpTime + d - d * f;
    >
      interpTime;
    }
    calc {
      Interpolate(pbTime, interpTime, f);
    ==
      interpTime * f + (interpTime + d) * (1.0 - f);
    ==
      pbTime - d * f;
    <=
      pbTime;
    }
  }

  /** The three routes to a consideration time, given the scan's outcome and the NT-table time. */
  function ConsiderationFrom(event: nat, pb: Option<Swim>, interp: Option<Swim>, cutoff: Date, nt: Option<real>): (c: ConsiderationTime)
    requires interp.Some? ==> pb.Some? && pb.value.date != interp.value.date
    ensures c.event == event
    ensures c.time.None? <==> pb.None? && nt.None?
    ensures pb.None? ==> c.time == nt && c.reason == (if nt.None? then NoPbNoNt else NoPbFromNt)
    ensures pb.Some? && interp.None? ==>
              c.time == Some(pb.value.shortCourseRaceTime) && c.reason == FromPb(pb.value.meet, pb.value.date)
    ensures pb.Some? && interp.Some? ==>
              && c.time == Some(Interpolate(pb.value.shortCourseRaceTime, interp.value.shortCourseRaceTime,
                                            InterpolationFactor(pb.value.date, interp.value.date, cutoff)))
              && c.reason == Interpolated(pb.value.meet, pb.value.date, pb.value.shortCourseRaceTime,
                                          interp.value.meet, interp.value.date, interp.value.shortCourseRaceTime)
    ensures pb.Some? && interp.Some? && pb.value.date <= cutoff < interp.value.date
            && interp.value.shortCourseRaceTime < pb.value.shortCourseRaceTime ==>
              c.time.Some? && interp.value.shortCourseRaceTime < c.time.value <= pb.value.shortCourseRaceTime
  {
    if pb.None? then
      ConsiderationTime(event, nt, if nt.None? then NoPbNoNt else NoPbFromNt)
    else
      var p := pb.value;
      if interp.Some? then
        var q := interp.value;
        var f := InterpolationFactor(p.date, q.date, cutoff);
        var t := Interpolate(p.shortCourseRaceTime, q.shortCourseRaceTime, f);
        assert p.date <= cutoff < q.date && q.shortCourseRaceTime < p.shortCourseRaceTime ==>
               q.shortCourseRaceTime < t <= p.shortCourseRaceTime by {
          if p.date <= cutoff < q.date && q.shortCourseRaceTime < p.shortCourseRaceTime {
            InterpolateBetween(p.shortCourseRaceTime, q.shortCourseRaceTime, f);
          }
        }
        ConsiderationTime(event, Some(t),
          Interpolated(p.meet, p.date, p.shortCourseRaceTime, q.meet, q.date, q.shortCourseRaceTime))
      else
        ConsiderationTime(event, Some(p.shortCourseRaceTime), FromPb(p.meet, p.date))
  }

  /**
   * The consideration time of one event's swim list. There is no time only when nothing was swum
   * by the cutoff and the NT table has none; with nothing swum by the cutoff the NT-table time is
   * used; otherwise the time is no slower than any swim on or before the cutoff.
   */
  function ConsiderationOf(bucket: seq<Swim>, event: nat, cutoff: Date, nt: Option<real>): (c: ConsiderationTime)
    ensures c.event == event
    ensures c.time.None? <==> nt.None? && forall j :: 0 <= j < |bucket| ==> bucket[j].date > cutoff
    ensures (forall j :: 0 <= j < |bucket| ==> bucket[j].date > cutoff) ==> c.time == nt
    ensures forall j :: 0 <= j < |bucket| && bucket[j].date <= cutoff ==>
              c.time.Some? && c.time.value <= bucket[j].shortCourseRaceTime
  {
    var pb := PbIndex(bucket, cutoff);
    var interp := InterpIndex(bucket, cutoff);
    assert forall j :: 0 <= j < |bucket| ==> (PreDate(cutoff)(bucket[j]) <==> bucket[j].date <= cutoff);
    if pb.Some? && interp.Some? then
      assert Improves(cutoff, bucket[pb.value].shortCourseRaceTime)(bucket[interp.value]);
      ConsiderationFrom(event, Pick(bucket, pb), Pick(bucket, interp), cutoff, nt)
    else
      ConsiderationFrom(event, Pick(bucket, pb), Pick(bucket, interp), cutoff, nt)
  }

  /** One consideration time per event, in event-code order, from the sorted list of its swims. */
  function TimesFor(cfg: Config, swimmer: Swimmer, swims: seq<Swim>, age: int): (r: seq<ConsiderationTime>)
    ensures |r| == cfg.catalog.numEvents
    ensures forall e :: 0 <= e < |r| ==> r[e].event == e
  {
    var r := seq(cfg.catalog.numEvents, e requires 0 <= e < cfg.catalog.numEvents =>
      ConsiderationOf(SortByDate(Bucket(swims, cfg.catalog, e)), e, cfg.considerationDate, cfg.ntTime(e, swimmer.isMale, age)));
    assert forall e :: 0 <= e < |r| ==>
      r[e] == ConsiderationOf(SortByDate(Bucket(swims, cfg.catalog, e)), e, cfg.considerationDate, cfg.ntTime(e, swimmer.isMale, age));
    r
  }

  /** The consideration time of event e: its date-sorted bucket, through ConsiderationOf. */
  lemma TimesForAt(cfg: Config, swimmer: Swimmer, swims: seq<Swim>, age: int, e: nat)
    requires e < cfg.catalog.numEvents
    ensures TimesFor(cfg, swimmer, swims, age)[e] ==
            ConsiderationOf(SortByDate(Bucket(swims, cfg.catalog, e)), e, cfg.considerationDate, cfg.ntTime(e, swimmer.isMale, age))
  {
  }

  /** The PB and interpolation swims the scan picks give the event's consideration time. */
  lemma FromScan(bucket: seq<Swim>, event: nat, cutoff: Date, nt: Option<real>, pb: Option<Swim>, interp: Option<Swim>)
    requires pb == Pick(bucket, PbIndex(bucket, cutoff)) && interp == Pick(bucket, InterpIndex(bucket, cutoff))
    requires interp.Some? ==> pb.Some? && pb.value.date != interp.value.date
    ensures ConsiderationFrom(event, pb, interp, cutoff, nt) == ConsiderationOf(bucket, event, cutoff, nt)
  {
  }

  /** The body of the per-event loop: scan the date-sorted swims, then pick the route. */
  method EventTime(bucket: seq<Swim>, event: nat, cutoff: Date, nt: Option<real>) returns (c: ConsiderationTime)
    requires SortedByDate(bucket)
    ensures c == ConsiderationOf(bucket, event, cutoff, nt)
  {
    var pb, interp := ScanEvent(bucket, cutoff);
    FromScan(bucket, event, cutoff, nt, pb, interp);
    c := ConsiderationFrom(event, pb, interp, cutoff, nt);
  }

  /** The sorting loop: every list sorted by date. */
  method SortBuckets(buckets: seq<seq<Swim>>) returns (sorted: seq<seq<Swim>>)
    ensures |sorted| == |buckets|
    ensures forall e :: 0 <= e < |buckets| ==> sorted[e] == SortByDate(buckets[e])
  {
    sorted := buckets;
    for i := 0 to |buckets|
      invariant |sorted| == |buckets|
      invariant forall e :: 0 <= e < i ==> sorted[e] == SortByDate(buckets[e])
      invariant forall e :: i <= e < |buckets| ==> sorted[e] == buckets[e]
    {
      sorted := sorted[i := SortByDate(sorted[i])];
    }
  }

  lemma PrefixStep<T>(s: seq<T>, i: nat)
    requires i < |s|
    ensures s[..i + 1] == s[..i] + [s[i]]
  {
  }

  /** The bucketing, sorting and per-event loops of process_swimmer. */
  method ComputeTimes(cfg: Config, swimmer: Swimmer, swims: seq<Swim>, age: int) returns (cts: seq<ConsiderationTime>)
    requires cfg.catalog.Valid()
    ensures cts == TimesFor(cfg, swimmer, swims, age)
  {
    var buckets := BucketByEvent(swims, cfg.catalog);
    buckets := SortBuckets(buckets);
    cts := [];
    ghost var all := TimesFor(cfg, swimmer, swims, age);
    for i := 0 to cfg.catalog.numEvents
      invariant cts == all[..i]
    {
      var c := EventTime(buckets[i], i, cfg.considerationDate, cfg.ntTime(i, swimmer.isMale, age));
      TimesForAt(cfg, swimmer, swims, age, i);
      PrefixStep(all, i);
      cts := cts + [c];
    }
    assert all[..|all|] == all;
  }

  /** The names of the swimmers processed so far. */
  function Names(times: seq<SwimmerTimes>): set<string> {
    set j | 0 <= j < |times| :: times[j].fullName
  }

  lemma NamesAppend(times: seq<SwimmerTimes>, t: SwimmerTimes)
    ensures Names(times + [t]) == Names(times) + {t.fullName}
  {
    var ts := times + [t];
    assert ts[|times|] == t;
    forall n | n in Names(times) ensures n in Names(ts) {
      var j :| 0 <= j < |times| && times[j].fullName == n;
      assert ts[j] == times[j];
    }
  }

  /** An entry is True exactly when a swimmer was processed under it, and no one is processed unlisted. */
  ghost predicate Consistent(entries: map<string, bool>, times: seq<SwimmerTimes>) {
    Tracks(entries, Names(times))
  }

  /**
   * process_swimmer on the entries and the list of processed swimmers: a swimmer is taken under
   * the first of their two names that is entered, and only if no older than the maximum age;
   * taking them sets that entry and appends their times.
   */
  function Step(cfg: Config, entries: map<string, bool>, times: seq<SwimmerTimes>, swimmer: Swimmer, swims: seq<Swim>): (r: (map<string, bool>, seq<SwimmerTimes>))
    requires cfg.catalog.Valid()
    ensures var name := ResolveName(entries, swimmer);
      var admitted := name.Some? && cfg.conv.calcAge(swimmer.dateOfBirth, cfg.clubChampsDate) <= cfg.maximumAge;
      && (admitted <==> |r.1| == |times| + 1)
      && (!admitted ==> r == (entries, times))
      && (admitted ==> && r.0 == entries[name.value := true]
                       && r.1[..|times|] == times
                       && r.1[|times|].swimmer == swimmer
                       && r.1[|times|].fullName == name.value
                       && r.1[|times|].considerationTimes ==
                            TimesFor(cfg, swimmer, swims, cfg.conv.calcAge(swimmer.dateOfBirth, cfg.clubChampsDate)))
  {
    var age := cfg.conv.calcAge(swimmer.dateOfBirth, cfg.clubChampsDate);
    var name := ResolveName(entries, swimmer);
    if name.None? || age > cfg.maximumAge then (entries, times)
    else
      var r := (entries[name.value := true], times + [SwimmerTimes(swimmer, name.value, TimesFor(cfg, swimmer, swims, age))]);
      assert r.1[..|times|] == times;
      r
  }

  lemma StepConsistent(cfg: Config, entries: map<string, bool>, times: seq<SwimmerTimes>, swimmer: Swimmer, swims: seq<Swim>)
    requires cfg.catalog.Valid() && Consistent(entries, times)
    ensures var r := Step(cfg, entries, times, swimmer, swims); Consistent(r.0, r.1)
  {
    var r := Step(cfg, entries, times, swimmer, swims);
    if |r.1| == |times| + 1 {
      assert r.1 == times + [r.1[|times|]];
      NamesAppend(times, r.1[|times|]);
    }
  }

  /** The blocks of the swim list processed in order; every block parses. */
  function RunBlocks(cfg: Config, entries: map<string, bool>, times: seq<SwimmerTimes>, blocks: seq<Block>): (map<string, bool>, seq<SwimmerTimes>)
    requires cfg.catalog.Valid()
    requires forall k :: 0 <= k < |blocks| ==> ParseBlock(blocks[k], cfg.catalog, cfg.conv).Ok?
    decreases |blocks|
  {
    if blocks == [] then (entries, times)
    else
      var r := RunBlocks(cfg, entries, times, blocks[..|blocks| - 1]);
      var parsed := ParseBlock(blocks[|blocks| - 1], cfg.catalog, cfg.conv).value;
      Step(cfg, r.0, r.1, parsed.0, parsed.1)
  }

  lemma RunBlocksStep(cfg: Config, entries: map<string, bool>, times: seq<SwimmerTimes>, blocks: seq<Block>, i: nat)
    requires cfg.catalog.Valid() && i < |blocks|
    requires forall k :: 0 <= k <= i ==> ParseBlock(blocks[k], cfg.catalog, cfg.conv).Ok?
    ensures var r := RunBlocks(cfg, entries, times, blocks[..i]);
      var parsed := ParseBlock(blocks[i], cfg.catalog, cfg.conv).value;
      RunBlocks(cfg, entries, times, blocks[..i + 1]) == Step(cfg, r.0, r.1, parsed.0, parsed.1)
  {
    assert blocks[..i + 1][..i] == blocks[..i];
  }

  lemma {:induction false} RunBlocksConsistent(cfg: Config, entries: map<string, bool>, times: seq<SwimmerTimes>, blocks: seq<Block>)
    requires cfg.catalog.Valid() && Consistent(entries, times)
    requires forall k :: 0 <= k < |blocks| ==> ParseBlock(blocks[k], cfg.catalog, cfg.conv).Ok?
    ensures var r := RunBlocks(cfg, entries, times, blocks); Consistent(r.0, r.1)
    decreases |blocks|
  {
    if blocks != [] {
      RunBlocksConsistent(cfg, entries, times, blocks[..|blocks| - 1]);
      var r := RunBlocks(cfg, entries, times, blocks[..|blocks| - 1]);
      var parsed := ParseBlock(blocks[|blocks| - 1], cfg.catalog, cfg.conv).value;
      StepConsistent(cfg, r.0, r.1, parsed.0, parsed.1);
    }
  }

  /** The script's global state: the shared entries dictionary and all_swimmer_times. */
  class ConsiderationRun {
    const cfg: Config
    const book: EntryBook
    var allSwimmerTimes: seq<SwimmerTimes>

    ghost predicate Valid()
      reads this, book
    {
      Consistent(book.entries, allSwimmerTimes)
    }

    /** Starts after the entry list is read, when no entry is processed yet. */
    constructor (cfg: Config, book: EntryBook)
      requires forall k :: k in book.entries ==> !book.entries[k]
      ensures this.cfg == cfg && this.book == book && allSwimmerTimes == []
      ensures Valid()
    {
      this.cfg := cfg;
      this.book := book;
      allSwimmerTimes := [];
    }

    method ProcessSwimmer(swimmer: Swimmer, swims: seq<Swim>)
      requires Valid() && cfg.catalog.Valid()
      modifies this, book
      ensures Valid()
      ensures (book.entries, allSwimmerTimes) == Step(cfg, old(book.entries), old(allSwimmerTimes), swimmer, swims)
    {
      StepConsistent(cfg, book.entries, allSwimmerTimes, swimmer, swims);
      var age := cfg.conv.calcAge(swimmer.dateOfBirth, cfg.clubChampsDate);
      var fullName := FullName(swimmer);
      if fullName !in book.entries {
        fullName := AlternateName(swimmer);
        if fullName !in book.entries {
          return;
        }
      }
      if age > cfg.maximumAge {
        return;
      }
      book.MarkProcessed(fullName);
      var cts := ComputeTimes(cfg, swimmer, swims, age);
      allSwimmerTimes := allSwimmerTimes + [SwimmerTimes(swimmer, fullName, cts)];
    }

    /**
     * Parses and processes the blocks in order. A block that does not parse stops the run with
     * the error of its first bad line, after the blocks before it were processed.
     */
    method ProcessBlocks(blocks: seq<Block>) returns (err: Option<ParseError>)
      requires Valid() && cfg.catalog.Valid()
      modifies this, book
      ensures Valid()
      ensures err.None? <==> forall k :: 0 <= k < |blocks| ==> ParseBlock(blocks[k], cfg.catalog, cfg.conv).Ok?
      ensures err.None? ==> (book.entries, allSwimmerTimes) == RunBlocks(cfg, old(book.entries), old(allSwimmerTimes), blocks)
      ensures err.Some? ==> exists k :: && 0 <= k < |blocks|
                                        && ParseBlock(blocks[k], cfg.catalog, cfg.conv) == Err(err.value)
                                        && (forall j :: 0 <= j < k ==> ParseBlock(blocks[j], cfg.catalog, cfg.conv).Ok?)
                                        && (book.entries, allSwimmerTimes) == RunBlocks(cfg, old(book.entries), old(allSwimmerTimes), blocks[..k])
    {
      ghost var entries0, times0 := book.entries, allSwimmerTimes;
      for i := 0 to |blocks|
        invariant Valid()
        invariant forall j :: 0 <= j < i ==> ParseBlock(blocks[j], cfg.catalog, cfg.conv).Ok?
        invariant (book.entries, allSwimmerTimes) == RunBlocks(cfg, entries0, times0, blocks[..i])
      {
        var parsed := ParseBlock(blocks[i], cfg.catalog, cfg.conv);
        if parsed.Err? {
          return Some(parsed.error);
        }
        RunBlocksStep(cfg, entries0, times0, blocks, i);
        ProcessSwimmer(parsed.value.0, parsed.value.1);
      }
      assert blocks[..|blocks|] == blocks;
      return None;
    }

    /** The reader loop followed by process_swimmer for every block it closes, the last one included. */
    method ProcessSwimList(lines: seq<string>) returns (err: Option<ParseError>)
      requires Valid() && cfg.catalog.Valid()
      modifies this, book
      ensures Valid()
      ensures exists blocks :: && Flatten(blocks) == lines && WellFormed(blocks)
                               && (err.None? <==> forall k :: 0 <= k < |blocks| ==> ParseBlock(blocks[k], cfg.catalog, cfg.conv).Ok?)
                               && (err.None? ==> (book.entries, allSwimmerTimes) == RunBlocks(cfg, old(book.entries), old(allSwimmerTimes), blocks))
                               && (err.Some? ==> exists k :: && 0 <= k < |blocks|
                                                             && ParseBlock(blocks[k], cfg.catalog, cfg.conv) == Err(err.value)
                                                             && (forall j :: 0 <= j < k ==> ParseBlock(blocks[j], cfg.catalog, cfg.conv).Ok?)
                                                             && (book.entries, allSwimmerTimes) == RunBlocks(cfg, old(book.entries), old(allSwimmerTimes), blocks[..k]))
    {
      var blocks := ReadBlocks(lines);
      err := ProcessBlocks(blocks);
    }

    /** The entries left False, written to the missing-entries file. */
    function MissingEntries(): (m: set<string>)
      reads this, book
      requires Valid()
      ensures m == book.entries.Keys - Names(allSwimmerTimes)
    {
      MissingEntriesExactly(book.entries, Names(allSwimmerTimes));
      Unprocessed(book.entries)
    }
  }
}
