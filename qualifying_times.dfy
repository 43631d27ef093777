/**
 * The age-banded qualifying-time tables (qualifying_times.py): one tab-separated row per event,
 * its name and then one cell per age from MinAge to MaxAge; an empty cell means no standard for
 * that age.
 */
module QualifyingTimes {
  import opened Wrappers
  import opened Text
  import opened Collaborators
  import opened Scans

  const MinAge: int := 12
  const MaxAge: int := 17
  /** The event name plus one column per age. */
  const ExpectedColumns: int := MaxAge - MinAge + 2
  const NumAges: int := MaxAge - MinAge + 1

  /** The standards of one event, by age from MinAge up; None where no standard is defined. */
  type Standards = seq<Option<real>>

  /** One slot per short-course event code; None for an event with no row. */
  type Table = seq<Option<Standards>>

  /** What _parse_spreadsheet_data raises on. */
  datatype TableError =
    | UnknownEvent     // Event.create_from_str does not know the name
    | WrongColumnCount // RuntimeError("Unexpected number of columns in spreadsheet data")
    | EventOutOfRange  // IndexError: the code does not index qt_by_event
    | BadTime          // RaceTime does not parse the cell

  ghost predicate WellShaped(t: Table) {
    forall e :: 0 <= e < |t| && t[e].Some? ==> |t[e].value| == NumAges
  }

  /** An empty cell is "no standard", never a zero time; any other cell is a race time. */
  function ParseCell(cell: string, conv: Conversions): (r: Result<Option<real>, TableError>)
    ensures cell == "" ==> r == Ok(None)
    ensures cell != "" ==> (r.Ok? <==> conv.parseRaceTime(cell).Some?)
    ensures cell != "" && r.Ok? ==> r.value.Some? && r.value == conv.parseRaceTime(cell)
    ensures r.Err? ==> r.error == BadTime
  {
    if |cell| == 0 then Ok(None)
    else
      match conv.parseRaceTime(cell)
      case Some(t) => Ok(Some(t))
      case None => Err(BadTime)
  }

  function ParseCells(cells: seq<string>, conv: Conversions): (r: Result<Standards, TableError>)
    ensures r.Ok? <==> forall j :: 0 <= j < |cells| ==> ParseCell(cells[j], conv).Ok?
    ensures r.Ok? ==> |r.value| == |cells| && forall j :: 0 <= j < |cells| ==> ParseCell(cells[j], conv) == Ok(r.value[j])
    ensures r.Err? ==> r.error == BadTime
    decreases |cells|
  {
    if cells == [] then Ok([])
    else
      var init :- ParseCells(cells[..|cells| - 1], conv);
      var last :- ParseCell(cells[|cells| - 1], conv);
      Ok(init + [last])
  }

  function Columns(row: string): seq<string> {
    Split(row, {'\t'})
  }

  /**
   * One row of the spreadsheet: the event is looked up first, then the column count is checked,
   * then the code is used as an index, and then the cells are parsed from the youngest age up.
   */
  function ParseRow(row: string, catalog: Catalog, conv: Conversions): (r: Result<(nat, Standards), TableError>)
    ensures catalog.codeFromName(Columns(row)[0]).None? ==> r == Err(UnknownEvent)
    ensures catalog.codeFromName(Columns(row)[0]).Some? && |Columns(row)| != ExpectedColumns ==> r == Err(WrongColumnCount)
    ensures r.Ok? ==> && |Columns(row)| == ExpectedColumns
                      && catalog.codeFromName(Columns(row)[0]) == Some(r.value.0)
                      && r.value.0 < catalog.numEvents
    ensures r.Ok? ==> |r.value.1| == NumAges
                      && forall j :: 0 <= j < NumAges ==> ParseCell(Columns(row)[j + 1], conv) == Ok(r.value.1[j])
  {
    var columns := Columns(row);
    match catalog.codeFromName(columns[0])
    case None => Err(UnknownEvent)
    case Some(code) =>
      if |columns| != ExpectedColumns then Err(WrongColumnCount)
      else if code >= catalog.numEvents then Err(EventOutOfRange)
      else
        var standards :- ParseCells(columns[1..ExpectedColumns], conv);
        Ok((code, standards))
  }

  /**
   * The rows ParseRow accepts are exactly those with a known event whose code is in range, seven
   * columns and cells that all parse; a known code out of range and a bad cell give their errors.
   */
  lemma ParseRowExactly(row: string, catalog: Catalog, conv: Conversions)
    ensures var c := Columns(row);
      ParseRow(row, catalog, conv).Ok? <==>
        (&& catalog.codeFromName(c[0]).Some? && |c| == ExpectedColumns
         && catalog.codeFromName(c[0]).value < catalog.numEvents
         && forall j :: 1 <= j < ExpectedColumns ==> ParseCell(c[j], conv).Ok?)
    ensures var c := Columns(row);
      (catalog.codeFromName(c[0]).Some? && |c| == ExpectedColumns && catalog.codeFromName(c[0]).value >= catalog.numEvents)
      ==> ParseRow(row, catalog, conv) == Err(EventOutOfRange)
    ensures var c := Columns(row);
      (&& catalog.codeFromName(c[0]).Some? && |c| == ExpectedColumns && catalog.codeFromName(c[0]).value < catalog.numEvents
       && exists j :: 1 <= j < ExpectedColumns && ParseCell(c[j], conv).Err?)
      ==> ParseRow(row, catalog, conv) == Err(BadTime)
  {
    var c := Columns(row);
    if catalog.codeFromName(c[0]).Some? && |c| == ExpectedColumns && catalog.codeFromName(c[0]).value < catalog.numEvents {
      var cells := c[1..ExpectedColumns];
      assert forall j :: 1 <= j < ExpectedColumns ==> c[j] == cells[j - 1];
    }
  }

  /** The row parses and is for event e. */
  function HasCode(catalog: Catalog, conv: Conversions, e: nat): string -> bool {
    row => ParseRow(row, catalog, conv).Ok? && ParseRow(row, catalog, conv).value.0 == e
  }

  /** What the table holds for event e after all rows are read: the standards of its last row. */
  function LastStandards(rows: seq<string>, catalog: Catalog, conv: Conversions, e: nat): Option<Standards> {
    var k := LastMatch(rows, HasCode(catalog, conv, e));
    if k.None? then None else Some(ParseRow(rows[k.value], catalog, conv).value.1)
  }

  /** The rows of the spreadsheet text, one per line. */
  function Rows(data: string): (r: seq<string>)
    ensures |r| >= 1
  {
    Split(data, {'\n'})
  }

  /** The body of the row loop of _parse_spreadsheet_data, for one row. */
  method ReadRow(row: string, catalog: Catalog, conv: Conversions) returns (r: Result<(nat, Standards), TableError>)
    ensures r == ParseRow(row, catalog, conv)
  {
    var columns := Split(row, {'\t'});
    assert columns == Columns(row);
    var code := catalog.codeFromName(columns[0]);
    if code.None? {
      return Err(UnknownEvent);
    }
    if |columns| != ExpectedColumns {
      return Err(WrongColumnCount);
    }
    if code.value >= catalog.numEvents {
      return Err(EventOutOfRange);
    }
    var cells := columns[1..ExpectedColumns];
    var standards: Standards := [];
    for i := 1 to ExpectedColumns
      invariant |standards| == i - 1
      invariant forall j :: 0 <= j < i - 1 ==> ParseCell(cells[j], conv) == Ok(standards[j])
    {
      assert cells[i - 1] == columns[i];
      if |columns[i]| == 0 {
        standards := standards + [None];
      } else {
        var t := conv.parseRaceTime(columns[i]);
        if t.None? {
          assert ParseCell(cells[i - 1], conv).Err?;
          return Err(BadTime);
        }
        standards := standards + [Some(t.value)];
      }
    }
    assert ParseCells(cells, conv).Ok?;
    assert ParseCells(cells, conv).value == standards;
    r := Ok((code.value, standards));
  }

  /** _parse_spreadsheet_data: a table with one slot per event, filled row by row. */
  method ParseTable(data: string, catalog: Catalog, conv: Conversions) returns (r: Result<Table, TableError>)
    ensures r.Ok? <==> forall k :: 0 <= k < |Rows(data)| ==> ParseRow(Rows(data)[k], catalog, conv).Ok?
    ensures r.Err? ==> exists k :: 0 <= k < |Rows(data)| && ParseRow(Rows(data)[k], catalog, conv) == Err(r.error)
                                   && forall j :: 0 <= j < k ==> ParseRow(Rows(data)[j], catalog, conv).Ok?
    ensures r.Ok? ==> |r.value| == catalog.numEvents && WellShaped(r.value)
    ensures r.Ok? ==> forall e :: 0 <= e < catalog.numEvents ==> r.value[e] == LastStandards(Rows(data), catalog, conv, e)
  {
    r := FillTable(Rows(data), catalog, conv);
  }

  /** The row loop of _parse_spreadsheet_data: stops at the first row that does not parse. */
  method FillTable(rows: seq<string>, catalog: Catalog, conv: Conversions) returns (r: Result<Table, TableError>)
    ensures r.Ok? <==> forall k :: 0 <= k < |rows| ==> ParseRow(rows[k], catalog, conv).Ok?
    ensures r.Err? ==> exists k :: 0 <= k < |rows| && ParseRow(rows[k], catalog, conv) == Err(r.error)
                                   && forall j :: 0 <= j < k ==> ParseRow(rows[j], catalog, conv).Ok?
    ensures r.Ok? ==> TableOf(r.value, rows, catalog, conv)
  {
    var table: Table := seq(catalog.numEvents, _ => None);
    for k := 0 to |rows|
      invariant forall j :: 0 <= j < k ==> ParseRow(rows[j], catalog, conv).Ok?
      invariant TableOf(table, rows[..k], catalog, conv)
    {
      var next := StoreRow(table, rows, k, catalog, conv);
      if next.Err? {
        return Err(next.error);
      }
      table := next.value;
    }
    assert rows[..|rows|] == rows;
    r := Ok(table);
  }

  /** One pass of the row loop: the row's standards go into its event's slot. */
  method StoreRow(table: Table, rows: seq<string>, k: nat, catalog: Catalog, conv: Conversions)
    returns (r: Result<Table, TableError>)
    requires k < |rows| && TableOf(table, rows[..k], catalog, conv)
    ensures r.Err? <==> !ParseRow(rows[k], catalog, conv).Ok?
    ensures r.Err? ==> ParseRow(rows[k], catalog, conv) == Err(r.error)
    ensures r.Ok? ==> TableOf(r.value, rows[..k + 1], catalog, conv)
  {
    var parsed := ReadRow(rows[k], catalog, conv);
    if parsed.Err? {
      return Err(parsed.error);
    }
    var updated := table[parsed.value.0 := Some(parsed.value.1)];
    TableStep(table, updated, rows, k, catalog, conv);
    r := Ok(updated);
  }

  /** The table holds, for every event, the standards of its last row among rows. */
  ghost predicate TableOf(table: Table, rows: seq<string>, catalog: Catalog, conv: Conversions) {
    && |table| == catalog.numEvents && WellShaped(table)
    && forall e :: 0 <= e < catalog.numEvents ==> table[e] == LastStandards(rows, catalog, conv, e)
  }

  /** Reading one more row replaces the slot of that row's event and no other. */
  lemma LastStandardsStep(rows: seq<string>, k: nat, catalog: Catalog, conv: Conversions, e: nat)
    requires k < |rows| && ParseRow(rows[k], catalog, conv).Ok?
    ensures var row := ParseRow(rows[k], catalog, conv).value;
      LastStandards(rows[..k + 1], catalog, conv, e) ==
      if e == row.0 then Some(row.1) else LastStandards(rows[..k], catalog, conv, e)
  {
    var prefix := rows[..k + 1];
    assert prefix[..k] == rows[..k];
    assert prefix[k] == rows[k];
    assert HasCode(catalog, conv, e)(rows[k]) <==> e == ParseRow(rows[k], catalog, conv).value.0;
  }

  /** Storing a row in its event's slot turns the table of k rows into the table of k + 1. */
  lemma TableStep(table: Table, updated: Table, rows: seq<string>, k: nat, catalog: Catalog, conv: Conversions)
    requires k < |rows| && ParseRow(rows[k], catalog, conv).Ok?
    requires TableOf(table, rows[..k], catalog, conv)
    requires var row := ParseRow(rows[k], catalog, conv).value;
      row.0 < |table| && updated == table[row.0 := Some(row.1)]
    ensures TableOf(updated, rows[..k + 1], catalog, conv)
  {
    forall e | 0 <= e < catalog.numEvents
      ensures updated[e] == LastStandards(rows[..k + 1], catalog, conv, e)
    {
      LastStandardsStep(rows, k, catalog, conv, e);
    }
  }

  /** Ages below and above the table's range use its youngest and oldest band. */
  function ClampAge(age: int): (a: int)
    ensures MinAge <= a <= MaxAge
  {
    var a := if age < MinAge then MinAge else age;
    if age > MaxAge then MaxAge else a
  }

  /** get_qualifying_time: the boys' or girls' standard for the event at the clamped age. */
  function GetQualifyingTime(boys: Table, girls: Table, eventCode: nat, isMale: bool, age: int): (r: Option<real>)
    requires eventCode < |boys| && eventCode < |girls| && WellShaped(boys) && WellShaped(girls)
    ensures var t := if isMale then boys else girls;
      t[eventCode].None? ==> r.None?
    ensures var t := if isMale then boys else girls;
      t[eventCode].Some? && MinAge <= age <= MaxAge ==> r == t[eventCode].value[age - MinAge]
    ensures var t := if isMale then boys else girls;
      t[eventCode].Some? && age < MinAge ==> r == t[eventCode].value[0]
    ensures var t := if isMale then boys else girls;
      t[eventCode].Some? && age > MaxAge ==> r == t[eventCode].value[NumAges - 1]
  {
    var standards := if isMale then boys[eventCode] else girls[eventCode];
    if standards.None? then None else standards.value[ClampAge(age) - MinAge]
  }

  /** A swimmer younger than the table's youngest band is held to that band's standard. */
  lemma ClampedBelow(boys: Table, girls: Table, eventCode: nat, isMale: bool, age: int)
    requires eventCode < |boys| && eventCode < |girls| && WellShaped(boys) && WellShaped(girls)
    requires age < MinAge
    ensures GetQualifyingTime(boys, girls, eventCode, isMale, age) == GetQualifyingTime(boys, girls, eventCode, isMale, MinAge)
  {
  }

  /** A swimmer older than the table's oldest band is held to that band's standard. */
  lemma ClampedAbove(boys: Table, girls: Table, eventCode: nat, isMale: bool, age: int)
    requires eventCode < |boys| && eventCode < |girls| && WellShaped(boys) && WellShaped(girls)
    requires age > MaxAge
    ensures GetQualifyingTime(boys, girls, eventCode, isMale, age) == GetQualifyingTime(boys, girls, eventCode, isMale, MaxAge)
  {
  }
}
