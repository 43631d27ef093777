/**
 * The entry list of the consideration-time and club-championship scripts: one "Last,First" line
 * per entrant, filed under "First Last", with a flag saying whether a swimmer was processed for
 * that key.
 */
module EntryList {
  import opened Wrappers
  import opened Text
  import opened Swimmers

  /** The characters re.split('[,\n ]', line) splits at. */
  const Separators: set<char> := {',', '\n', ' '}

  /** The key of an entry-list line: the second name, a space and the first; None where names[1] raises. */
  function EntryKey(line: string): Option<string> {
    var names := Split(line, Separators);
    if |names| < 2 then None else Some(names[1] + " " + names[0])
  }

  /** "Last,First" (followed by a newline or nothing) is filed as "First Last". */
  lemma EntryKeyOfLine(last: string, first: string, rest: string)
    requires NoneOf(last, Separators) && NoneOf(first, Separators)
    requires rest == [] || rest[0] in Separators
    ensures EntryKey(last + "," + first + rest) == Some(first + " " + last)
  {
    assert last + "," + first + rest == last + [','] + (first + rest);
    SplitAfterField(last, ',', first + rest, Separators);
    SplitFirstField(first, rest, Separators);
  }

  /** A line has no key exactly when it holds no separator at all. */
  lemma EntryKeyMissing(line: string)
    ensures EntryKey(line).None? <==> NoneOf(line, Separators)
  {
    SplitSingleField(line, Separators);
  }

  /** The entry a swimmer is matched to: the full name if entered, else the known-as name if entered. */
  function ResolveName(entries: map<string, bool>, s: Swimmer): (r: Option<string>)
    ensures r.None? <==> FullName(s) !in entries && AlternateName(s) !in entries
    ensures r.Some? ==> r.value in entries
    ensures r.Some? ==> r.value == FullName(s) || (FullName(s) !in entries && r.value == AlternateName(s))
  {
    if FullName(s) in entries then Some(FullName(s))
    else if AlternateName(s) in entries then Some(AlternateName(s))
    else None
  }

  /** Some line of the list is filed under key k. */
  ghost predicate Listed(lines: seq<string>, k: string) {
    exists j :: 0 <= j < |lines| && EntryKey(lines[j]) == Some(k)
  }

  /** One more line lists exactly its own key in addition. */
  lemma ListedStep(lines: seq<string>, i: nat)
    requires i < |lines| && EntryKey(lines[i]).Some?
    ensures forall k :: Listed(lines[..i + 1], k) <==> Listed(lines[..i], k) || k == EntryKey(lines[i]).value
  {
    var key := EntryKey(lines[i]).value;
    forall k ensures Listed(lines[..i + 1], k) <==> Listed(lines[..i], k) || k == key {
      if Listed(lines[..i + 1], k) {
        var j :| 0 <= j < i + 1 && EntryKey(lines[..i + 1][j]) == Some(k);
        if j < i {
          assert lines[..i][j] == lines[..i + 1][j];
        }
      }
      if k == key {
        assert lines[..i + 1][i] == lines[i];
      }
      if Listed(lines[..i], k) {
        var j :| 0 <= j < i && EntryKey(lines[..i][j]) == Some(k);
        assert lines[..i + 1][j] == lines[..i][j];
      }
    }
  }

  /** The keys whose flag is still False, written to the missing-entries file. */
  function Unprocessed(entries: map<string, bool>): set<string> {
    set k | k in entries && !entries[k]
  }

  /** The flags agree with the names processed so far: True exactly for those, each of them entered. */
  ghost predicate Tracks(entries: map<string, bool>, processed: set<string>) {
    && (forall k :: k in entries ==> (entries[k] <==> k in processed))
    && processed <= entries.Keys
  }

  /** Setting an entered name's flag records it as processed. */
  lemma MarkTracks(entries: map<string, bool>, processed: set<string>, name: string)
    requires Tracks(entries, processed) && name in entries
    ensures Tracks(entries[name := true], processed + {name})
  {
  }

  /** The missing-entries file: exactly the entries no swimmer was processed for. */
  lemma MissingEntriesExactly(entries: map<string, bool>, processed: set<string>)
    requires Tracks(entries, processed)
    ensures Unprocessed(entries) == entries.Keys - processed
  {
  }

  /** Before any swimmer is processed every flag is False. */
  lemma NothingProcessedYet(entries: map<string, bool>)
    requires forall k :: k in entries ==> !entries[k]
    ensures Tracks(entries, {})
  {
  }

  /** The global entries dictionary. */
  class EntryBook {
    var entries: map<string, bool>

    constructor ()
      ensures entries == map[]
    {
      entries := map[];
    }

    /**
     * The entry-list loop: every line's key is set to False. It stops (Python raises) at the
     * first line without a separator.
     */
    method ReadEntryList(lines: seq<string>) returns (ok: bool)
      modifies this
      ensures ok <==> forall i :: 0 <= i < |lines| ==> EntryKey(lines[i]).Some?
      ensures ok ==> forall k :: k in entries <==> k in old(entries) || Listed(lines, k)
      ensures ok ==> forall k :: Listed(lines, k) ==> k in entries && !entries[k]
      ensures ok ==> forall k :: k in old(entries) && !Listed(lines, k) ==> entries[k] == old(entries)[k]
    {
      for i := 0 to |lines|
        invariant forall j :: 0 <= j < i ==> EntryKey(lines[j]).Some?
        invariant forall k :: k in entries <==> k in old(entries) || Listed(lines[..i], k)
        invariant forall k :: Listed(lines[..i], k) ==> k in entries && !entries[k]
        invariant forall k :: k in old(entries) && !Listed(lines[..i], k) ==> entries[k] == old(entries)[k]
      {
        var key := EntryKey(lines[i]);
        if key.None? {
          return false;
        }
        ListedStep(lines, i);
        entries := entries[key.value := false];
      }
      assert lines[..|lines|] == lines;
      ok := true;
    }

    /** entries[name] = True. */
    method MarkProcessed(name: string)
      requires name in entries
      modifies this
      ensures entries == old(entries)[name := true]
    {
      entries := entries[name := true];
    }
  }
}
