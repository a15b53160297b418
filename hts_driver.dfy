// The inner loop of `hts_parse_execute` (net/net-http-server.c:241-551) on
// the record object: dispatch on `parse_state` to the arm methods of
// `HtsData` until the block is used up or the header is complete. Each turn
// is proved to do what `HtsParse.Step` does, so the loop computes
// `HtsParse.RunBlock`.
module HtsDriver {
  import opened HtsTypes
  import opened HtsRecord
  import opened HtsParse
  import opened HtsServer

  /** One turn of the inner loop stays in the block, makes progress, and leaves the loop's result unchanged. */
  lemma StepAdvances(d: Hts, blk: seq<byte>, q: nat)
    requires q < |blk| && d.parseState != Done && d.parseState != Closed
    ensures var s := HtsParse.Step(d, blk, q);
      && q <= s.p <= |blk| && s.d.parseState != Closed && (s.p > q || Rank(s.d) < Rank(d))
      && HtsParse.RunBlock(s.d, blk, s.p) == HtsParse.RunBlock(d, blk, q)
  {
    StepMoves(d, blk, q);
  }

  /** One iteration of the inner loop: the `switch` on `parse_state`. */
  method Step(d: HtsData, blk: seq<byte>, p: nat) returns (q: nat)
    requires p < |blk| && d.parseState != Done && d.parseState != Closed
    modifies d
    ensures At(d.Model(), q) == HtsParse.Step(old(d.Model()), blk, p)
  {
    match d.parseState
    case Start =>
      d.Restart();
      ghost var d1 := d.Model();
      assert HtsParse.Step(d1, blk, p) == ReadToSpaceArm(d1, blk, p);
      q := d.ReadWord(blk, p);
    case ReadToSpace => q := d.ReadWord(blk, p);
    case SkipSpc => q := d.SkipBlanks(blk, p);
    case SkipSpcToEoln => q := d.SkipBlanks(blk, p);
    case ReadToColon => q := d.ReadName(blk, p);
    case ReadInt => q := d.ReadLength(blk, p);
    case SkipToEoln => q := d.SkipToLineEnd(blk, p);
    case Eoln => q := d.LineEnd(blk, p);
    case WantLf => q := d.LineFeed(blk, p);
    case LineStart => q := d.NewLine(blk, p);
    case WantLastLf => q := d.LastLineFeed(blk, p);
    case Fatal =>
      d.Abort();
      q := p;
  }

  /**
   * The inner loop over one block: run the `switch` until the block is
   * used up or the header is complete. It ends where `HtsParse.RunBlock`
   * does, with the same record.
   */
  method RunBlock(d: HtsData, blk: seq<byte>) returns (q: nat)
    requires d.parseState != Closed
    modifies d
    ensures At(d.Model(), q) == HtsParse.RunBlock(old(d.Model()), blk, 0)
  {
    q := 0;
    while q < |blk| && d.parseState != Done
      invariant q <= |blk| && d.parseState != Closed
      invariant HtsParse.RunBlock(d.Model(), blk, q) == HtsParse.RunBlock(old(d.Model()), blk, 0)
      decreases |blk| - q, Rank(d.Model())
    {
      StepAdvances(d.Model(), blk, q);
      q := Step(d, blk, q);
    }
  }
}
