/**
 * The per-event lists of make_consideration_times.process_swimmer: a swimmer's swims are
 * appended to the list of their short-course event code, and each list is then sorted by date
 * with Python's stable list.sort.
 */
module Buckets {
  import opened Collaborators
  import opened Swims

  /** The swims filed under short-course event e, in input order. */
  function Bucket(swims: seq<Swim>, catalog: Catalog, e: nat): seq<Swim>
    decreases |swims|
  {
    if swims == [] then []
    else
      var last := swims[|swims| - 1];
      Bucket(swims[..|swims| - 1], catalog, e) + (if catalog.shortCourseCode(last.event) == e then [last] else [])
  }

  /** Every swim is in exactly one list, the one for its own short-course code, as often as it occurs. */
  lemma {:induction false} BucketCount(swims: seq<Swim>, catalog: Catalog, e: nat, x: Swim)
    ensures multiset(Bucket(swims, catalog, e))[x] ==
            if catalog.shortCourseCode(x.event) == e then multiset(swims)[x] else 0
    decreases |swims|
  {
    if swims != [] {
      var init := swims[..|swims| - 1];
      BucketCount(init, catalog, e, x);
      assert swims == init + [swims[|swims| - 1]];
    }
  }

  /** The bucketing loop: one list per event, each swim appended to its own event's list. */
  method BucketByEvent(swims: seq<Swim>, catalog: Catalog) returns (buckets: seq<seq<Swim>>)
    requires catalog.Valid()
    ensures |buckets| == catalog.numEvents
    ensures forall e :: 0 <= e < catalog.numEvents ==> buckets[e] == Bucket(swims, catalog, e)
  {
    buckets := seq(catalog.numEvents, _ => []);
    for i := 0 to |swims|
      invariant |buckets| == catalog.numEvents
      invariant forall e :: 0 <= e < catalog.numEvents ==> buckets[e] == Bucket(swims[..i], catalog, e)
    {
      var swim := swims[i];
      assert swims[..i + 1][..i] == swims[..i];
      var code := catalog.shortCourseCode(swim.event);
      buckets := buckets[code := buckets[code] + [swim]];
    }
    assert swims[..|swims|] == swims;
  }

  ghost predicate SortedByDate(s: seq<Swim>) {
    forall i, j :: 0 <= i < j < |s| ==> s[i].date <= s[j].date
  }

  /** Places x after every element dated no later than it, so equal dates keep their order. */
  function Insert(t: seq<Swim>, x: Swim): (r: seq<Swim>)
    ensures multiset(r) == multiset(t) + multiset{x}
    decreases |t|
  {
    if t == [] then [x]
    else
      var last := t[|t| - 1];
      if last.date <= x.date then t + [x]
      else
        var init := t[..|t| - 1];
        assert t == init + [last];
        Insert(init, x) + [last]
  }

  /** Inserting keeps every date at or below a bound that t and x both respect. */
  lemma {:induction false} InsertBelow(t: seq<Swim>, x: Swim, bound: Date)
    requires forall i :: 0 <= i < |t| ==> t[i].date <= bound
    requires x.date <= bound
    ensures forall i :: 0 <= i < |Insert(t, x)| ==> Insert(t, x)[i].date <= bound
    decreases |t|
  {
    if t != [] && t[|t| - 1].date > x.date {
      var init := t[..|t| - 1];
      InsertBelow(init, x, bound);
    }
  }

  lemma {:induction false} InsertSorted(t: seq<Swim>, x: Swim)
    requires SortedByDate(t)
    ensures SortedByDate(Insert(t, x))
    decreases |t|
  {
    if t != [] {
      var last := t[|t| - 1];
      var init := t[..|t| - 1];
      if last.date > x.date {
        InsertSorted(init, x);
        InsertBelow(init, x, last.date);
        assert Insert(t, x) == Insert(init, x) + [last];
      }
    }
  }

  /** list.sort(key=attrgetter('date')): sorted by date and a permutation of its input. */
  function SortByDate(s: seq<Swim>): (r: seq<Swim>)
    ensures SortedByDate(r)
    ensures multiset(r) == multiset(s)
    decreases |s|
  {
    if s == [] then []
    else
      var init := s[..|s| - 1];
      assert s == init + [s[|s| - 1]];
      InsertSorted(SortByDate(init), s[|s| - 1]);
      Insert(SortByDate(init), s[|s| - 1])
  }

  /** The swims on date d, in their order in s. */
  function OnDate(s: seq<Swim>, d: Date): seq<Swim>
    decreases |s|
  {
    if s == [] then []
    else OnDate(s[..|s| - 1], d) + (if s[|s| - 1].date == d then [s[|s| - 1]] else [])
  }

  lemma OnDateAppend(s: seq<Swim>, x: Swim, d: Date)
    ensures OnDate(s + [x], d) == OnDate(s, d) + (if x.date == d then [x] else [])
  {
    assert (s + [x])[..|s|] == s;
  }

  lemma {:induction false} InsertOnDate(t: seq<Swim>, x: Swim, d: Date)
    requires SortedByDate(t)
    ensures OnDate(Insert(t, x), d) == OnDate(t, d) + (if x.date == d then [x] else [])
    decreases |t|
  {
    if t != [] {
      var last := t[|t| - 1];
      var init := t[..|t| - 1];
      assert t == init + [last];
      if last.date <= x.date {
        OnDateAppend(t, x, d);
      } else {
        InsertOnDate(init, x, d);
        OnDateAppend(Insert(init, x), last, d);
        OnDateAppend(init, last, d);
      }
    }
  }

  /** The sort is stable: the swims of any one date keep their input order. */
  lemma {:induction false} SortStable(s: seq<Swim>, d: Date)
    ensures OnDate(SortByDate(s), d) == OnDate(s, d)
    decreases |s|
  {
    if s != [] {
      var init := s[..|s| - 1];
      SortStable(init, d);
      InsertOnDate(SortByDate(init), s[|s| - 1], d);
    }
  }
}
