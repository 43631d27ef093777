/**
 * The collaborators of the core whose code is not part of this model: the event catalogue
 * (event.py), race-time and date parsing and printing (race_time.py, helpers.py), and Python's
 * own int() and float(). They enter the model as parameters, so nothing is assumed of them
 * beyond what a member states in its own requires clause.
 */
module Collaborators {
  import opened Wrappers

  /** A calendar date, as a day number. */
  type Date = int

  /**
   * What the scripts use of event.py: the number of short-course events, whether an event code
   * is long course, the short-course code of an event, the course conversion, and the lookup of
   * a short-course event by its spreadsheet name (Event.create_from_str(name, 'S')).
   */
  datatype Catalog = Catalog(
    numEvents: nat,
    isLongCourse: int -> bool,
    shortCourseCode: int -> nat,
    convertTime: (int, real) -> real,
    codeFromName: string -> Option<nat>)
  {
    /** Every event has a short-course code that indexes the per-event lists. */
    ghost predicate Valid() {
      forall e: int :: shortCourseCode(e) < numEvents
    }
  }

  /**
   * Token conversions: int() and str() on integers, ParseDate_dmY and strftime('%d/%m/%Y'),
   * float(), RaceTime parsing, and CalcAge (age of a swimmer born on the first date, on the
   * second). A parser answers None where the Python function raises.
   */
  datatype Conversions = Conversions(
    parseInt: string -> Option<int>,
    showInt: int -> string,
    parseDate: string -> Option<Date>,
    showDate: Date -> string,
    parseFloat: string -> Option<real>,
    parseRaceTime: string -> Option<real>,
    calcAge: (Date, Date) -> int)
}
