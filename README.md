# Club championship times and qualifiers, in Dafny

This project models the offline scripts of the Winsford ASC club-championship tooling:

- **make_consideration_times.py** gives every entered swimmer one scoring consideration time per short-course event. The time comes from one of three places:
  - the PB set on or before the consideration date;
  - a linear interpolation between that PB and the first later swim that beats it;
  - the NT table, when there is no PB.
- **find_qualifiers.py** finds, per swimmer and event, the best converted time since the earliest PB date. It prefers a swim from a meet that is not level 4, and reports the events where that time meets the age- and gender-banded qualifying standard.
- **extract_club_champs_times.py** keeps, per event, the last swim from the championship meet within its dates. It also reports the entrants for whom no swimmer was processed.
- **qualifying_times.py** parses the qualifying-time tables and looks up a standard with the age clamped to the table's range.
- **swim.py and swimmer.py** parse the '|'-separated swim and swimmer records, and print a swimmer back.

Dates are day numbers (`Collaborators.Date`) and times are `real`. The code these scripts call but that is not part of this model enters as parameters:
- event.py: the event catalogue, course conversion, short-course codes and event lookup by name;
- race_time.py: race-time parsing;
- helpers.py: date parsing and printing, and `CalcAge`;
- nt_consideration_times.py: the NT table;
- Python's own `int()` and `float()`.

In the model these are the `Catalog` and `Conversions` records and the `ntTime` field of `ConsiderationTimes.Config`. A parser answers `None` where the Python function raises.

The module-level globals `entries` and `all_swimmer_times` are held by classes:
- `EntryList.EntryBook`, the entries dictionary, shared by two scripts;
- `ConsiderationTimes.ConsiderationRun`;
- `ClubChamps.ChampsRun`.

Their methods are proved against functions on values (`Step`, `RunBlocks`). The invariant they keep (`Tracks`) says each entry's flag is True exactly for the names processed so far. `find_qualifiers.py` keeps no state between swimmers, so it is modelled as methods that return the rows they would write.

The reader loop of the swim list appears in all three scripts. It is modelled once, as `SwimList.ReadBlocks`, which cuts the file into swimmer blocks and loses no line. Each script then parses and processes the blocks in order and stops at the first block that does not parse. Reading the blocks cannot fail, so processing them after the whole file is read writes the same output, in the same order, as the scripts' interleaving of reading and processing. `find_qualifiers.py` writes as it goes: when a block does not parse, the opening of the table and the reports of the blocks before it have already been written. `Qualifiers.FindQualifiers` returns those reports together with the error.

One place where the code is followed rather than the apparent design: find_qualifiers.py:97 converts the time of swims whose event is NOT long course, and keeps long-course times as swum. `Qualifiers.ConvertedTime` does the same.

## Model

| member | source | states |
|---|---|---|
| Text.Split | swim.py:41 | a split always yields at least one field, and no field contains a separator |
| Text.SplitSingleField | make_consideration_times.py:145-147 | a split yields exactly one field iff the string holds no separator |
| Text.SplitJoin | swimmer.py:50-54 | splitting fields joined by a separator that no field contains gives back the fields |
| Text.JoinSplit | swimmer.py:27-28 | joining the fields of a split by the same separator gives back the line |
| Tokens.At | swim.py:50-59 | a field is read iff its index is in range; otherwise the error is a missing field at that index |
| Tokens.IntAt | swim.py:50 | an integer field is read iff it exists and int() accepts it, with the parsed value |
| Tokens.DateAt | swim.py:52 | a date field is read iff it exists and the date parser accepts it, with the parsed value |
| Tokens.FloatAt | swim.py:59 | a float field is read iff it exists and float() accepts it, with the parsed value |
| Swims.ParseSwim | swim.py:40-67 | no 'V' tag (version 0), or any version other than 1, is refused. Exactly the version-1 lines with at least nine fields whose numbers and date parse are accepted. Fields 1-5 and 8 map to asa number, event, date, meet, swim id and race time; field 6 is ignored. Licensed is false iff field 7 is exactly "n". The short-course time is the race time, converted for a long-course event |
| Swims.AsaSwimId | swim.py:70-73 | None iff the id is -1, otherwise the id unchanged |
| Swimmers.ParseSwimmer | swimmer.py:27-37 | accepted iff there are at least six fields and the number and birth date parse. Fields 0-5 map to asa number, last, first, known-as, male iff exactly "M", and birth date. A line with fewer than five fields fails on the gender field |
| Swimmers.AlternateNameDiffers | swimmer.py:39-43 | the full and alternate names coincide iff the first and known-as names do |
| Swimmers.SerialiseIsJoin | swimmer.py:50-54 | the printed swimmer is six fields joined by the bar character, in the order asa, last, first, known-as, M/F, birth date |
| Swimmers.ParseSerialise | swimmer.py:27-54 | parsing a printed swimmer gives back every field, when no field contains the bar character and the number and date printers round-trip |
| Swimmers.SerialiseParsed | swimmer.py:30-32 | printing a parsed swimmer echoes the names and writes any gender token other than "M" as "F"; a line already in printed form comes back unchanged |
| SwimList.ReadBlocks | make_consideration_times.py:151-175 | the blocks flatten back to exactly the file's lines. A swimmer line starts a block, and swim lines are never blank. A line of length at most 1 closes a block. Only the last block may be unclosed, so the final swimmer is kept without a trailing blank line |
| SwimList.ParseSwims | make_consideration_times.py:161-164 | on success, each swim is the parse of its line, in order; on failure, the error is that of the first line that does not parse |
| SwimList.ParseBlock | make_consideration_times.py:165-168 | a block parses iff its swimmer line and all its swim lines do; the swimmer line's error comes first |
| EntryList.EntryKeyOfLine | make_consideration_times.py:142-148 | an entry line "Last,First", followed by a separator or nothing, is filed under "First Last" |
| EntryList.EntryKeyMissing | make_consideration_times.py:145-147 | a line has no key (names[1] raises) iff it holds none of ',', '\n', ' ' |
| EntryList.ResolveName | make_consideration_times.py:73-78 | the full name if entered, else the alternate name if entered, else none; a result is always an entered key |
| EntryList.MarkTracks | make_consideration_times.py:84 | setting an entered name's flag to True records that name as processed |
| EntryList.MissingEntriesExactly | make_consideration_times.py:246-248 | the entries still False are exactly the entered keys no swimmer was processed for |
| EntryList.NothingProcessedYet | make_consideration_times.py:148 | when every flag is False, no name is processed yet |
| EntryList.EntryBook.constructor | make_consideration_times.py:68 | the entries dictionary starts empty |
| EntryList.EntryBook.ReadEntryList | make_consideration_times.py:142-148 | stops exactly at the first line without a key. Otherwise every listed key is present and False, no other key is added, and unlisted keys keep their flags |
| EntryList.EntryBook.MarkProcessed | make_consideration_times.py:84 | the new dictionary is the old one with that entry set to True |
| Buckets.BucketCount | make_consideration_times.py:87-92 | every swim is in the list of its own short-course code as often as it occurs, and in no other list |
| Buckets.BucketByEvent | make_consideration_times.py:87-92 | one list per event, each holding the swims of that short-course code in input order |
| Buckets.Insert | make_consideration_times.py:96 | inserting adds exactly the one swim (multiset) |
| Buckets.SortByDate | make_consideration_times.py:94-96 | the result is sorted by date and a permutation of the input |
| Buckets.SortStable | make_consideration_times.py:96 | the sort is stable: the swims of any one date keep their input order |
| ConsiderationTimes.SortBuckets | make_consideration_times.py:94-96 | every list is replaced by its date-sorted version |
| ConsiderationTimes.ScanEvent | make_consideration_times.py:105-121 | a PB is dated on or before the cutoff, and an interpolation swim is a later swim strictly faster than it. On date-sorted swims, the PB is the first-seen minimum before the cutoff, a swim on the cutoff included. With no PB, the scan stops at the first later swim without interpolation. Otherwise the interpolation swim is the first later swim strictly faster than the PB |
| Scans.FirstMin | make_consideration_times.py:107-112 | none iff nothing matches; otherwise a matching position with the least key, strictly smaller than the key of every earlier match (ties keep the earlier one) |
| Scans.FirstMinUnique | make_consideration_times.py:111 | the first-seen minimum is unique |
| Scans.FirstMinPrefix | make_consideration_times.py:113-116 | swims after the point where the scan stops, none of them pre-cutoff, leave the PB unchanged |
| Scans.FirstMatch | make_consideration_times.py:117-121 | none iff nothing matches; otherwise the first matching position |
| Scans.LastMatch | extract_club_champs_times.py:90-94 | none iff nothing matches; otherwise the last matching position |
| Scans.FirstMinNarrower | find_qualifiers.py:102-107 | narrowing the filter of a running minimum can only raise the minimum |
| Scans.GatherExactly | find_qualifiers.py:110-127 | a loop that appends the present per-event values gives exactly those values, each at its own event, with events strictly increasing and none missed |
| ConsiderationTimes.InterpolationFactor | make_consideration_times.py:133 | the share of the day gap between the PB and the later swim that the cutoff has covered: 0 <= f < 1 when the PB is on or before the cutoff and the later swim after it |
| ConsiderationTimes.Interpolate | make_consideration_times.py:134 | at f = 0 the interpolated time is the PB time |
| ConsiderationTimes.InterpolateBetween | make_consideration_times.py:133-134 | for 0 <= f < 1, the interpolated time lies in (later time, PB time] |
| ConsiderationTimes.ConsiderationFrom | make_consideration_times.py:122-137 | there is no time iff there is no PB and no NT time. With no PB, the NT-table time is used, with one of the two NT reasons. With a PB and no interpolation swim, it is the PB's short-course time, from that meet and date. With both, the time is the PB time interpolated towards the later swim's time by the factor the two dates and the cutoff give. It lies strictly between the later time and the PB time, the PB allowed. The reason names both swims' meets, dates and times |
| ConsiderationTimes.ConsiderationOf | make_consideration_times.py:105-137 | for one event's swims, there is no time iff nothing was swum by the cutoff and the NT table has none. A bucket with nothing by the cutoff gets the NT time. Otherwise the time is no slower than any swim by the cutoff |
| ConsiderationTimes.TimesFor | make_consideration_times.py:102-138 | one consideration time per event, in event-code order |
| ConsiderationTimes.EventTime | make_consideration_times.py:103-138 | the loop body for one event: scanning a date-sorted list gives that list's consideration time |
| ConsiderationTimes.ComputeTimes | make_consideration_times.py:86-138 | bucketing, sorting and the per-event loop produce, for each event in order, the consideration time of its date-sorted bucket |
| ConsiderationTimes.Step | make_consideration_times.py:70-138 | a swimmer is taken iff one of their two names is entered and their age on the championship date is at most the maximum. Taking them sets that entry True and appends exactly one record: the swimmer, the name and their times. Otherwise nothing changes |
| ConsiderationTimes.StepConsistent | make_consideration_times.py:74-84 | processing a swimmer keeps each flag True exactly for the processed names |
| ConsiderationTimes.RunBlocksConsistent | make_consideration_times.py:151-175 | processing any sequence of blocks keeps the flags in step with the processed names |
| ConsiderationTimes.ConsiderationRun.constructor | make_consideration_times.py:67-68 | an empty list of processed swimmers over an entry book with every flag False |
| ConsiderationTimes.ConsiderationRun.ProcessSwimmer | make_consideration_times.py:70-138 | the new entries and swimmer list are Step of the old ones; the flags stay in step |
| ConsiderationTimes.ConsiderationRun.ProcessBlocks | make_consideration_times.py:154-175 | every block is processed in order when all parse. Otherwise the run stops with the first bad block's error, after processing the blocks before it |
| ConsiderationTimes.ConsiderationRun.ProcessSwimList | make_consideration_times.py:151-175 | the reader's blocks cover the file exactly, and they are processed as ProcessBlocks states |
| ConsiderationTimes.ConsiderationRun.MissingEntries | make_consideration_times.py:246-248 | the missing entries are exactly the entered keys no swimmer was processed under |
| QualifyingTimes.ParseCell | qualifying_times.py:79-82 | an empty cell is "no standard", never a time. Any other cell is accepted iff it parses as a race time, giving that time |
| QualifyingTimes.ParseCells | qualifying_times.py:78-82 | all cells parse, in order, or the row fails with a bad time |
| QualifyingTimes.ParseRow | qualifying_times.py:71-82 | an unknown event name fails first, then a column count other than 7. An accepted row has its event's code in range and exactly six cells, parsed in ascending age order |
| QualifyingTimes.Rows | qualifying_times.py:64 | the table text yields at least one row |
| QualifyingTimes.ReadRow | qualifying_times.py:71-82 | the loop over one row's cells computes ParseRow |
| QualifyingTimes.ParseRowExactly | qualifying_times.py:71-82 | a row is accepted iff its event is known, its code is in range, it has seven columns and every cell parses. A known event whose code is out of range gives EventOutOfRange, and a cell that does not parse gives BadTime |
| QualifyingTimes.ParseTable | qualifying_times.py:63-83 | succeeds iff every row parses; otherwise fails with the first bad row's error. The table has one slot per event, and every filled slot holds six cells. Each slot holds the standards of that event's last row, and None with no row |
| QualifyingTimes.FillTable | qualifying_times.py:66-83 | the row loop succeeds iff every row parses; otherwise it fails with the first bad row's error. The table it yields holds each event's last row |
| QualifyingTimes.StoreRow | qualifying_times.py:70-82 | one row fails iff it does not parse, with ParseRow's error. Otherwise its standards go into its event's slot, which turns the table of the rows before it into the table of the rows up to it |
| QualifyingTimes.ClampAge | qualifying_times.py:96-100 | the clamped age is always within 12..17 |
| QualifyingTimes.GetQualifyingTime | qualifying_times.py:88-101 | the boys' table if male, else the girls'. None for an event with no row. Column age-12 for ages 12..17, the first column below and the last above |
| QualifyingTimes.ClampedBelow | qualifying_times.py:97-98 | below 12 the standard is the age-12 standard |
| QualifyingTimes.ClampedAbove | qualifying_times.py:99-100 | above 17 the standard is the age-17 standard |
| Qualifiers.FloorTenths | find_qualifiers.py:99-100 | the truncation is a whole number of tenths, at most the input and within 0.1 of it |
| Qualifiers.ConvertedTime | find_qualifiers.py:95-100 | a long-course time is kept as swum; any other is converted, then truncated to at most the converted value and within 0.1 of it |
| Qualifiers.Annotate | find_qualifiers.py:95-100 | a swim qualifies iff its meet is not level 4, and carries its converted time |
| Qualifiers.BestIsFirstMinimum | find_qualifiers.py:102-107 | an event's slot is empty iff no window swim (qualifying, for the second slot) has that event. Otherwise it holds such a swim with the least converted time, strictly faster than every earlier one |
| Qualifiers.BestIgnoresEarlySwims | find_qualifiers.py:93 | a slot only ever holds a swim dated on or after the earliest PB date, of that event |
| Qualifiers.PbNoSlowerThanQualPb | find_qualifiers.py:102-107 | whenever a qualifying PB exists, an overall PB exists and is no slower |
| Qualifiers.QualPbQualifies | find_qualifiers.py:104-105 | the qualifying PB is never from a level-4 meet |
| Qualifiers.BestByEvent | find_qualifiers.py:87-107 | the two running minima end as the overall and the qualifying first-seen minima of every event |
| Qualifiers.Chosen | find_qualifiers.py:111-113 | the qualifying PB if there is one, else the overall PB; none iff there is no overall PB |
| Qualifiers.ChosenAgainstPb | find_qualifiers.py:111-121 | the chosen swim is never faster than the overall PB, and a non-qualifying choice is the overall PB |
| Qualifiers.RowFor | find_qualifiers.py:114-121 | a row is written iff there is a chosen swim and a standard that its converted time meets. The row carries that time, and it is tagged qualified iff the swim qualifies |
| Qualifiers.RowsAreQualifyingEvents | find_qualifiers.py:109-127 | a considered swimmer's rows are exactly the rows of the events that pass RowFor, in strictly increasing event order, with none missed |
| Qualifiers.RowsMeetStandards | find_qualifiers.py:114-121 | every row has a standard that its time meets and a swim in the window, and it is "not-qualified" iff the swim is from a level-4 meet |
| Qualifiers.WriteRows | find_qualifiers.py:109-127 | the output loop writes exactly the gathered rows, and the name is printed iff a row is written |
| Qualifiers.ReportOf | find_qualifiers.py:76-129 | excluded or over-age swimmers get no report. A header with the full name and age is written exactly when there is at least one row, above all the rows |
| Qualifiers.ProcessSwimmer | find_qualifiers.py:76-129 | the swimmer's output is ReportOf |
| Qualifiers.ProcessBlocks | find_qualifiers.py:137-158 | with every block parsing, the reports of all blocks are written in order. Otherwise the script stops with the first bad block's error, after writing the reports before it |
| Qualifiers.FindQualifiers | find_qualifiers.py:134-158 | the reader's blocks cover the file exactly, and the reports are those of ProcessBlocks |
| ClubChamps.SlotIsLastChampsSwim | extract_club_champs_times.py:87-94 | a slot is empty iff no swim of the championship meet within both inclusive date bounds has that event. Otherwise it holds the last such swim |
| ClubChamps.SlotsByEvent | extract_club_champs_times.py:87-94 | exactly one slot per event, each holding the last championship swim of that event |
| ClubChamps.Step | extract_club_champs_times.py:70-98 | a swimmer is taken iff one of their two names is entered and their age on the last day is at most the maximum. Taking them sets that entry True and appends their slots. Otherwise nothing changes and the entry stays False |
| ClubChamps.StepConsistent | extract_club_champs_times.py:74-84 | processing a swimmer keeps each flag True exactly for the processed names |
| ClubChamps.TimeLinesAreFilledSlots | extract_club_champs_times.py:148-150 | one line per filled slot, in slot order, carrying the raw race time of that slot's swim |
| ClubChamps.ChampsRun.constructor | extract_club_champs_times.py:67-68 | no swimmer processed, over an entry book with every flag False |
| ClubChamps.ChampsRun.ProcessSwimmer | extract_club_champs_times.py:70-98 | the new entries and swimmer list are Step of the old ones; the flags stay in step |
| ClubChamps.ChampsRun.ProcessBlocks | extract_club_champs_times.py:116-137 | every block is processed in order when all parse. Otherwise the run stops with the first bad block's error, after processing the blocks before it |
| ClubChamps.ChampsRun.ProcessSwimList | extract_club_champs_times.py:113-137 | the reader's blocks cover the file exactly, and they are processed as ProcessBlocks states |
| ClubChamps.ChampsRun.MissingEntries | extract_club_champs_times.py:155-157 | the missing entries are exactly the entered keys never set True |

## Left out

- File output and rendering are not modelled: the text, verbose and HTML files and `print`. The model states which records and rows are produced, not how they are formatted.
- event.py, race_time.py, helpers.py and nt_consideration_times.py are not part of this model. Their functions are parameters, and no property of the course conversion (such as a round trip) is assumed.
- Floating point is not modelled. Times are exact reals, so the division at make_consideration_times.py:133 is exact. `math.floor(x * 10) * 0.1` at find_qualifiers.py:100 is an exact floor to tenths.
- Calendar arithmetic is not modelled: dates are day numbers, and the consideration date (a year before the championships) is a parameter.
- Reason strings are not modelled: a consideration time's reason is the `Reason` variant, not the built sentence.
- The embedded table data of qualifying_times.py is not modelled: the two tables are parameters of `Qualifiers.QualifierConfig`.
- The commented-out output block of find_qualifiers.py and the Python 2 `iteritems` iteration are not modelled.
- Qualifiers.Annotate: the script stores `converted_time` and `qualifies` on the swim object itself. The model returns them in a separate `QualSwim` record, because no other code reads the mutated swims.
- ConsiderationTimes.ScanEvent: its result is tied to the first-minimum and first-match definitions only for a date-sorted list, the only kind the script passes. For any list it states just that the PB is pre-cutoff and the interpolation swim is a later, faster swim.
- SwimList.ReadBlocks: reading the file is separated from processing it. A parse error is reported for the first bad block, after processing the blocks before it, just as the script would raise.
- Python's negative list indices are not modelled: event codes are natural numbers below the number of events (`Collaborators.Catalog.Valid`).
