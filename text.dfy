/**
 * Splitting a line into fields and joining fields into a line. Split models Python's
 * str.split(c) for one separator and re.split('[...]', s) for a class of single characters:
 * the result always has at least one field, an empty string splits into one empty field, and two
 * adjacent separators give an empty field between them.
 */
module Text {

  /** No character of s is one of the separators. */
  predicate NoneOf(s: string, seps: set<char>) {
    forall k :: 0 <= k < |s| ==> s[k] !in seps
  }

  function Split(s: string, seps: set<char>): (r: seq<string>)
    ensures |r| >= 1
    ensures forall i :: 0 <= i < |r| ==> NoneOf(r[i], seps)
  {
    if s == [] then [""]
    else
      var rest := Split(s[1..], seps);
      if s[0] in seps then [""] + rest
      else [[s[0]] + rest[0]] + rest[1..]
  }

  /** The fields with sep between each two neighbours ("|".join(fields) in Python). */
  function Join(fields: seq<string>, sep: char): string
    requires |fields| >= 1
    decreases |fields|
  {
    if |fields| == 1 then fields[0] else fields[0] + [sep] + Join(fields[1..], sep)
  }

  /** Joining a field in front of at least one more field. */
  lemma JoinCons(x: string, rest: seq<string>, sep: char)
    requires |rest| >= 1
    ensures Join([x] + rest, sep) == x + [sep] + Join(rest, sep)
  {
    assert ([x] + rest)[1..] == rest;
  }

  /** A string without separators is a single field. */
  lemma {:induction false} SplitWithoutSeparator(a: string, seps: set<char>)
    requires NoneOf(a, seps)
    ensures Split(a, seps) == [a]
  {
    if a != [] {
      SplitWithoutSeparator(a[1..], seps);
      assert a[0] !in seps;
      assert [a[0]] + a[1..] == a;
    }
  }

  /** A split finds exactly one field when there is no separator in the string. */
  lemma {:induction false} SplitSingleField(s: string, seps: set<char>)
    ensures |Split(s, seps)| == 1 <==> NoneOf(s, seps)
  {
    if s != [] {
      SplitSingleField(s[1..], seps);
    } else {
      SplitWithoutSeparator(s, seps);
    }
  }

  /** The first field ends at the first separator. */
  lemma {:induction false} SplitAfterField(a: string, c: char, b: string, seps: set<char>)
    requires NoneOf(a, seps) && c in seps
    ensures Split(a + [c] + b, seps) == [a] + Split(b, seps)
  {
    if a == [] {
      assert a + [c] + b == [c] + b;
    } else {
      assert (a + [c] + b)[1..] == a[1..] + [c] + b;
      SplitAfterField(a[1..], c, b, seps);
      assert [a[0]] + a[1..] == a;
    }
  }

  /** When a separator (or the end) follows a, a is the first field. */
  lemma {:induction false} SplitFirstField(a: string, b: string, seps: set<char>)
    requires NoneOf(a, seps)
    requires b == [] || b[0] in seps
    ensures Split(a + b, seps)[0] == a
  {
    if a == [] {
      assert a + b == b;
    } else {
      assert (a + b)[1..] == a[1..] + b;
      SplitFirstField(a[1..], b, seps);
      assert [a[0]] + a[1..] == a;
    }
  }

  /** Splitting a joined line gives back the fields, when no field contains the separator. */
  lemma {:induction false} SplitJoin(fields: seq<string>, sep: char)
    requires |fields| >= 1
    requires forall i :: 0 <= i < |fields| ==> NoneOf(fields[i], {sep})
    ensures Split(Join(fields, sep), {sep}) == fields
  {
    if |fields| == 1 {
      SplitWithoutSeparator(fields[0], {sep});
    } else {
      SplitJoin(fields[1..], sep);
      SplitAfterField(fields[0], sep, Join(fields[1..], sep), {sep});
      assert [fields[0]] + fields[1..] == fields;
    }
  }

  /** Joining the fields of a split gives back the line. */
  lemma {:induction false} JoinSplit(s: string, sep: char)
    ensures Join(Split(s, {sep}), sep) == s
  {
    if s != [] {
      JoinSplit(s[1..], sep);
      var rest := Split(s[1..], {sep});
      if s[0] == sep {
        assert Split(s, {sep}) == [""] + rest;
        assert ([""] + rest)[1..] == rest;
        assert [s[0]] + s[1..] == s;
      } else {
        var r := Split(s, {sep});
        assert r == [[s[0]] + rest[0]] + rest[1..];
        if |rest| == 1 {
          assert r == [[s[0]] + rest[0]];
          assert [s[0]] + s[1..] == s;
        } else {
          assert r[1..] == rest[1..];
          assert Join(rest, sep) == rest[0] + [sep] + Join(rest[1..], sep);
          assert [s[0]] + s[1..] == s;
        }
      }
    }
  }
}
