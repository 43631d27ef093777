/** A swimmer, parsed from and printed to a '|'-separated line (swimmer.py). */
module Swimmers {
  import opened Wrappers
  import opened Text
  import opened Collaborators
  import opened Tokens

  datatype Swimmer = Swimmer(
    asaNumber: int,
    lastName: string,
    firstName: string,
    knownAs: string,
    isMale: bool,
    dateOfBirth: Date)

  /** Swimmer.__init__: fields asa number, last name, first name, known-as name, gender, birth date. */
  function ParseSwimmer(line: string, conv: Conversions): (r: Result<Swimmer, ParseError>)
    ensures var tokens := Split(line, {'|'});
      r.Ok? <==> |tokens| >= 6 && conv.parseInt(tokens[0]).Some? && conv.parseDate(tokens[5]).Some?
    ensures var tokens := Split(line, {'|'});
      r.Ok? ==>
        && Some(r.value.asaNumber) == conv.parseInt(tokens[0])
        && r.value.lastName == tokens[1]
        && r.value.firstName == tokens[2]
        && r.value.knownAs == tokens[3]
        && (r.value.isMale <==> tokens[4] == "M")
        && Some(r.value.dateOfBirth) == conv.parseDate(tokens[5])
    // the gender field is the first one read
    ensures |Split(line, {'|'})| < 5 ==> r == Err(MissingField(4))
  {
    var tokens := Split(line, {'|'});
    var gender :- At(tokens, 4);
    var asaNumber :- IntAt(tokens, 0, conv);
    var dateOfBirth :- DateAt(tokens, 5, conv);
    Ok(Swimmer(asaNumber, tokens[1], tokens[2], tokens[3], gender == "M", dateOfBirth))
  }

  function FullName(s: Swimmer): string {
    s.firstName + " " + s.lastName
  }

  function AlternateName(s: Swimmer): string {
    s.knownAs + " " + s.lastName
  }

  /** The two names a swimmer may be entered under differ exactly when the known-as name does. */
  lemma AlternateNameDiffers(s: Swimmer)
    ensures FullName(s) == AlternateName(s) <==> s.firstName == s.knownAs
  {
    if FullName(s) == AlternateName(s) {
      assert |s.firstName| == |s.knownAs|;
      assert FullName(s)[..|s.firstName|] == s.firstName;
      assert AlternateName(s)[..|s.knownAs|] == s.knownAs;
    }
  }

  function GenderToken(s: Swimmer): string {
    if s.isMale then "M" else "F"
  }

  /** Swimmer.__str__. */
  function Serialise(s: Swimmer, conv: Conversions): string {
    conv.showInt(s.asaNumber) + "|" + s.lastName + "|" + s.firstName + "|" + s.knownAs + "|"
      + GenderToken(s) + "|" + conv.showDate(s.dateOfBirth)
  }

  function Fields(s: Swimmer, conv: Conversions): seq<string> {
    [conv.showInt(s.asaNumber), s.lastName, s.firstName, s.knownAs, GenderToken(s), conv.showDate(s.dateOfBirth)]
  }

  /** The printed line is the six fields joined by '|'. */
  lemma SerialiseIsJoin(s: Swimmer, conv: Conversions)
    ensures Serialise(s, conv) == Join(Fields(s, conv), '|')
  {
    var a, l, fi, k, g, d := conv.showInt(s.asaNumber), s.lastName, s.firstName, s.knownAs, GenderToken(s), conv.showDate(s.dateOfBirth);
    JoinCons(g, [d], '|');
    JoinCons(k, [g, d], '|');
    JoinCons(fi, [k, g, d], '|');
    JoinCons(l, [fi, k, g, d], '|');
    JoinCons(a, [l, fi, k, g, d], '|');
  }

  /**
   * Parsing a printed swimmer gives the swimmer back, when no name contains '|' and the integer
   * and date printers are inverted by the parsers.
   */
  lemma ParseSerialise(s: Swimmer, conv: Conversions)
    requires NoneOf(s.lastName, {'|'}) && NoneOf(s.firstName, {'|'}) && NoneOf(s.knownAs, {'|'})
    requires NoneOf(conv.showInt(s.asaNumber), {'|'}) && conv.parseInt(conv.showInt(s.asaNumber)) == Some(s.asaNumber)
    requires NoneOf(conv.showDate(s.dateOfBirth), {'|'}) && conv.parseDate(conv.showDate(s.dateOfBirth)) == Some(s.dateOfBirth)
    ensures ParseSwimmer(Serialise(s, conv), conv) == Ok(s)
  {
    var f := Fields(s, conv);
    SerialiseIsJoin(s, conv);
    assert NoneOf(GenderToken(s), {'|'});
    assert forall i :: 0 <= i < |f| ==> NoneOf(f[i], {'|'});
    SplitJoin(f, '|');
  }

  /**
   * Printing a parsed swimmer echoes the name fields and writes any gender other than "M" as "F";
   * a line already in printed form, with gender "M" or "F", is reproduced exactly.
   */
  lemma SerialiseParsed(line: string, conv: Conversions)
    requires ParseSwimmer(line, conv).Ok?
    ensures var s := ParseSwimmer(line, conv).value;
      var tokens := Split(line, {'|'});
      Serialise(s, conv) == Join([conv.showInt(s.asaNumber), tokens[1], tokens[2], tokens[3],
                                  if tokens[4] == "M" then "M" else "F", conv.showDate(s.dateOfBirth)], '|')
    ensures var s := ParseSwimmer(line, conv).value;
      var tokens := Split(line, {'|'});
      |tokens| == 6 && tokens[0] == conv.showInt(s.asaNumber) && tokens[5] == conv.showDate(s.dateOfBirth)
        && (tokens[4] == "M" || tokens[4] == "F")
      ==> Serialise(s, conv) == line
  {
    var s := ParseSwimmer(line, conv).value;
    var tokens := Split(line, {'|'});
    SerialiseIsJoin(s, conv);
    if |tokens| == 6 && tokens[0] == conv.showInt(s.asaNumber) && tokens[5] == conv.showDate(s.dateOfBirth)
      && (tokens[4] == "M" || tokens[4] == "F")
    {
      assert Fields(s, conv) == tokens;
      JoinSplit(line, '|');
    }
  }
}
