/** Access to the fields of a '|'-separated record line, with the exceptions Python would raise. */
module Tokens {
  import opened Wrappers
  import opened Collaborators

  /** Why a record line was not accepted: the exception the Python constructor raises. */
  datatype ParseError =
    | UnhandledVersion        // RuntimeError("Unhandled swim version")
    | MissingField(index: nat) // IndexError: the line has too few fields
    | BadField(index: nat)     // ValueError: int(), float() or the date parser refused the field

  function At(tokens: seq<string>, i: nat): (r: Result<string, ParseError>)
    ensures r.Ok? <==> i < |tokens|
    ensures r.Ok? ==> r.value == tokens[i]
    ensures r.Err? ==> r.error == MissingField(i)
  {
    if i < |tokens| then Ok(tokens[i]) else Err(MissingField(i))
  }

  function IntAt(tokens: seq<string>, i: nat, conv: Conversions): (r: Result<int, ParseError>)
    ensures r.Ok? <==> i < |tokens| && conv.parseInt(tokens[i]).Some?
    ensures r.Ok? ==> Some(r.value) == conv.parseInt(tokens[i])
  {
    var t :- At(tokens, i);
    match conv.parseInt(t)
    case Some(n) => Ok(n)
    case None => Err(BadField(i))
  }

  function DateAt(tokens: seq<string>, i: nat, conv: Conversions): (r: Result<Date, ParseError>)
    ensures r.Ok? <==> i < |tokens| && conv.parseDate(tokens[i]).Some?
    ensures r.Ok? ==> Some(r.value) == conv.parseDate(tokens[i])
  {
    var t :- At(tokens, i);
    match conv.parseDate(t)
    case Some(d) => Ok(d)
    case None => Err(BadField(i))
  }

  function FloatAt(tokens: seq<string>, i: nat, conv: Conversions): (r: Result<real, ParseError>)
    ensures r.Ok? <==> i < |tokens| && conv.parseFloat(tokens[i]).Some?
    ensures r.Ok? ==> Some(r.value) == conv.parseFloat(tokens[i])
  {
    var t :- At(tokens, i);
    match conv.parseFloat(t)
    case Some(x) => Ok(x)
    case None => Err(BadField(i))
  }
}
