/** One race result, parsed from a version-tagged '|'-separated line (swim.py). */
module Swims {
  import opened Wrappers
  import opened Text
  import opened Collaborators
  import opened Tokens

  datatype Swim = Swim(
    asaNumber: int,
    event: int,
    date: Date,
    meet: string,
    asaSwimId: int,
    isLicensed: bool,
    raceTime: real,
    shortCourseRaceTime: real)

  /** The record version: the number after a leading 'V' of the first field, otherwise 0. */
  function Version(tag: string, conv: Conversions): Result<int, ParseError>
  {
    if |tag| > 0 && tag[0] == 'V' then
      match conv.parseInt(tag[1..])
      case Some(v) => Ok(v)
      case None => Err(BadField(0))
    else
      Ok(0)
  }

  /**
   * Swim.__init__. Only version 1 is understood; its fields are asa number, event code, date,
   * meet, swim id, splits (never read), licensed flag and race time.
   */
  function ParseSwim(line: string, catalog: Catalog, conv: Conversions): (r: Result<Swim, ParseError>)
    // a line without a version tag, or with a version other than 1, is refused
    ensures var tokens := Split(line, {'|'});
      !(|tokens[0]| > 0 && tokens[0][0] == 'V') ==> r == Err(UnhandledVersion)
    ensures var v := Version(Split(line, {'|'})[0], conv);
      v.Ok? && v.value != 1 ==> r == Err(UnhandledVersion)
    // exactly the version-1 lines with nine fields whose numbers and date parse are accepted
    ensures var tokens := Split(line, {'|'});
      r.Ok? <==>
        && Version(tokens[0], conv) == Ok(1)
        && |tokens| >= 9
        && conv.parseInt(tokens[1]).Some?
        && conv.parseInt(tokens[2]).Some?
        && conv.parseDate(tokens[3]).Some?
        && conv.parseInt(tokens[5]).Some?
        && conv.parseFloat(tokens[8]).Some?
    // the field mapping
    ensures var tokens := Split(line, {'|'});
      r.Ok? ==>
        && Some(r.value.asaNumber) == conv.parseInt(tokens[1])
        && Some(r.value.event) == conv.parseInt(tokens[2])
        && Some(r.value.date) == conv.parseDate(tokens[3])
        && r.value.meet == tokens[4]
        && Some(r.value.asaSwimId) == conv.parseInt(tokens[5])
        && (r.value.isLicensed <==> tokens[7] != "n")
        && Some(r.value.raceTime) == conv.parseFloat(tokens[8])
    // the short-course time is the race time, converted when the event is long course
    ensures r.Ok? ==>
      r.value.shortCourseRaceTime ==
        if catalog.isLongCourse(r.value.event) then catalog.convertTime(r.value.event, r.value.raceTime)
        else r.value.raceTime
  {
    var tokens := Split(line, {'|'});
    var version :- Version(tokens[0], conv);
    if version != 1 then Err(UnhandledVersion)
    else
      var asaNumber :- IntAt(tokens, 1, conv);
      var event :- IntAt(tokens, 2, conv);
      var date :- DateAt(tokens, 3, conv);
      var meet :- At(tokens, 4);
      var asaSwimId :- IntAt(tokens, 5, conv);
      var licensed :- At(tokens, 7);
      var raceTime :- FloatAt(tokens, 8, conv);
      var shortCourseRaceTime :=
        if catalog.isLongCourse(event) then catalog.convertTime(event, raceTime) else raceTime;
      Ok(Swim(asaNumber, event, date, meet, asaSwimId, licensed != "n", raceTime, shortCourseRaceTime))
  }

  /** get_asa_swim_id: the id -1 stands for "no id". */
  function AsaSwimId(s: Swim): (r: Option<int>)
    ensures r.None? <==> s.asaSwimId == -1
    ensures r.Some? ==> r.value == s.asaSwimId
  {
    if s.asaSwimId == -1 then None else Some(s.asaSwimId)
  }
}
