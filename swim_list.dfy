/**
 * The swim-list file, read the same way by all three scripts: a swimmer line, then that
 * swimmer's swim lines, closed by a line of at most one character; the last block may end at
 * the end of the file instead.
 */
module SwimList {
  import opened Wrappers
  import opened Collaborators
  import opened Tokens
  import opened Swims
  import opened Swimmers

  /** A line that closes a swimmer's block: len(line) <= 1, so an empty line or a lone newline. */
  predicate IsBlank(line: string) {
    |line| <= 1
  }

  /** One swimmer's lines: the swimmer line, the swim lines and the closing line, if any. */
  datatype Block = Block(header: string, swimLines: seq<string>, closer: Option<string>)

  function Lines(b: Block): seq<string> {
    [b.header] + b.swimLines + (if b.closer.Some? then [b.closer.value] else [])
  }

  function Flatten(bs: seq<Block>): seq<string>
    decreases |bs|
  {
    if bs == [] then [] else Flatten(bs[..|bs| - 1]) + Lines(bs[|bs| - 1])
  }

  /** No swim line is blank and a closing line is. */
  ghost predicate BlockOk(b: Block) {
    && (forall j :: 0 <= j < |b.swimLines| ==> !IsBlank(b.swimLines[j]))
    && (b.closer.Some? ==> IsBlank(b.closer.value))
  }

  /** Every block is well formed and only the last block may be unclosed. */
  ghost predicate WellFormed(bs: seq<Block>) {
    forall k :: 0 <= k < |bs| ==> BlockOk(bs[k]) && (k < |bs| - 1 ==> bs[k].closer.Some?)
  }

  /** A well-formed block may follow closed blocks. */
  lemma AppendBlock(bs: seq<Block>, b: Block)
    requires WellFormed(bs) && (bs != [] ==> bs[|bs| - 1].closer.Some?) && BlockOk(b)
    ensures WellFormed(bs + [b])
  {
    var bs' := bs + [b];
    assert bs'[..|bs|] == bs;
    forall k | 0 <= k < |bs'|
      ensures BlockOk(bs'[k]) && (k < |bs'| - 1 ==> bs'[k].closer.Some?)
    {
      if k < |bs| {
        assert bs'[k] == bs[k];
      }
    }
  }

  lemma FlattenAppend(bs: seq<Block>, b: Block)
    ensures Flatten(bs + [b]) == Flatten(bs) + Lines(b)
  {
    assert (bs + [b])[..|bs|] == bs;
  }

  /** Closing or ending a block after closed blocks keeps the list well formed and in order. */
  lemma AddBlock(blocks: seq<Block>, header: string, swims: seq<string>, closer: Option<string>)
    requires WellFormed(blocks) && (blocks != [] ==> blocks[|blocks| - 1].closer.Some?)
    requires forall j :: 0 <= j < |swims| ==> !IsBlank(swims[j])
    requires closer.Some? ==> IsBlank(closer.value)
    ensures WellFormed(blocks + [Block(header, swims, closer)])
    ensures Flatten(blocks + [Block(header, swims, closer)]) ==
            Flatten(blocks) + [header] + swims + (if closer.Some? then [closer.value] else [])
  {
    var b := Block(header, swims, closer);
    AppendBlock(blocks, b);
    FlattenAppend(blocks, b);
    var tail := if closer.Some? then [closer.value] else [];
    assert Lines(b) == [header] + swims + tail;
    Regroup(Flatten(blocks), [header], swims, tail);
  }

  lemma Regroup<T>(a: seq<T>, b: seq<T>, c: seq<T>, d: seq<T>)
    ensures a + (b + c + d) == a + b + c + d
    ensures a + b + c + d == a + (b + c) + d
  {
  }

  /**
   * The reader loop with its reading_swims flag. Every line of the file ends up in exactly one
   * block, in order, so the final swimmer is kept even without a closing blank line.
   */
  method ReadBlocks(lines: seq<string>) returns (blocks: seq<Block>)
    ensures Flatten(blocks) == lines
    ensures WellFormed(blocks)
  {
    var readingSwims := false;
    var header := "";
    var swims: seq<string> := [];
    blocks := [];
    for i := 0 to |lines|
      invariant WellFormed(blocks)
      invariant blocks != [] ==> blocks[|blocks| - 1].closer.Some?
      invariant forall j :: 0 <= j < |swims| ==> !IsBlank(swims[j])
      invariant !readingSwims ==> swims == [] && Flatten(blocks) == lines[..i]
      invariant readingSwims ==> Flatten(blocks) + [header] + swims == lines[..i]
    {
      var line := lines[i];
      assert lines[..i + 1] == lines[..i] + [line];
      if readingSwims {
        if IsBlank(line) {
          readingSwims := false;
          AddBlock(blocks, header, swims, Some(line));
          blocks := blocks + [Block(header, swims, Some(line))];
          swims := [];
        } else {
          Regroup(Flatten(blocks) + [header], swims, [line], []);
          swims := swims + [line];
        }
      } else {
        header := line;
        readingSwims := true;
      }
    }
    assert lines[..|lines|] == lines;
    if readingSwims {
      AddBlock(blocks, header, swims, None);
      blocks := blocks + [Block(header, swims, None)];
    }
  }

  /** Parses swim lines in order; the first line that does not parse decides the error. */
  function ParseSwims(lines: seq<string>, catalog: Catalog, conv: Conversions): (r: Result<seq<Swim>, ParseError>)
    ensures r.Ok? ==> |r.value| == |lines| && forall j :: 0 <= j < |lines| ==> ParseSwim(lines[j], catalog, conv) == Ok(r.value[j])
    ensures r.Err? ==> exists j :: 0 <= j < |lines| && ParseSwim(lines[j], catalog, conv) == Err(r.error)
                                 && forall k :: 0 <= k < j ==> ParseSwim(lines[k], catalog, conv).Ok?
    decreases |lines|
  {
    if lines == [] then Ok([])
    else
      var pre := lines[..|lines| - 1];
      assert forall k :: 0 <= k < |pre| ==> pre[k] == lines[k];
      match ParseSwims(pre, catalog, conv)
      case Err(e) => Err(e)
      case Ok(init) =>
        match ParseSwim(lines[|lines| - 1], catalog, conv)
        case Err(e) => Err(e)
        case Ok(last) => Ok(init + [last])
  }

  /** The swimmer line is parsed before the swim lines that follow it. */
  function ParseBlock(b: Block, catalog: Catalog, conv: Conversions): (r: Result<(Swimmer, seq<Swim>), ParseError>)
    ensures r.Ok? <==> ParseSwimmer(b.header, conv).Ok? && ParseSwims(b.swimLines, catalog, conv).Ok?
    ensures r.Ok? ==> r.value == (ParseSwimmer(b.header, conv).value, ParseSwims(b.swimLines, catalog, conv).value)
    ensures ParseSwimmer(b.header, conv).Err? ==> r == Err(ParseSwimmer(b.header, conv).error)
  {
    var swimmer :- ParseSwimmer(b.header, conv);
    var swims :- ParseSwims(b.swimLines, catalog, conv);
    Ok((swimmer, swims))
  }
}
