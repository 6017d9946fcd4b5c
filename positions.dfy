/** Positions: the (block, run, offset) addresses that carets and range
    boundaries resolve to, and their document order. */
module Positions {
  import opened Slices
  import opened Runs
  import opened Blocks

  /** Block index, run index within that block, character offset within
      that run. Positions are plain values; they are re-derived after
      every edit. */
  datatype Position = Position(block: nat, run: nat, offset: nat)

  /** `p` addresses an existing run and an offset inside its text. */
  predicate ValidPosition(bs: seq<Block>, p: Position)
  {
    p.block < |bs| && p.run < Size(bs[p.block]) && p.offset <= |bs[p.block].runs[p.run].text|
  }

  /** Document order: lexicographic on block, then run, then offset. */
  predicate Le(p: Position, q: Position)
  {
    || p.block < q.block
    || (p.block == q.block && p.run < q.run)
    || (p.block == q.block && p.run == q.run && p.offset <= q.offset)
  }

  /** The run a valid position points into. */
  function RunAt(bs: seq<Block>, p: Position): Run
    requires ValidPosition(bs, p)
  {
    bs[p.block].runs[p.run]
  }

  /** The characters of the document that come before `p`. */
  function TextBefore(bs: seq<Block>, p: Position): string
    requires ValidPosition(bs, p)
  {
    BlocksText(bs[..p.block]) + RunsText(bs[p.block].runs[..p.run]) + RunAt(bs, p).text[..p.offset]
  }

  /** The characters of the document that come after `p`. */
  function TextAfter(bs: seq<Block>, p: Position): string
    requires ValidPosition(bs, p)
  {
    RunAt(bs, p).text[p.offset..] + RunsText(bs[p.block].runs[p.run + 1..]) + BlocksText(bs[p.block + 1..])
  }

  /** A position cuts the text of the document in two: what comes before
      it and what comes after it, with nothing lost or repeated. */
  lemma TextAroundPosition(bs: seq<Block>, p: Position)
    requires ValidPosition(bs, p)
    ensures TextBefore(bs, p) + TextAfter(bs, p) == BlocksText(bs)
  {
    var runs, t := bs[p.block].runs, RunAt(bs, p).text;
    BlocksTextAround(bs, p.block);
    RunsTextAround(runs, p.run);
    assert t[..p.offset] + t[p.offset..] == t;
    RegroupAtSeam(BlocksText(bs[..p.block]), RunsText(runs[..p.run]), t[..p.offset],
                  t[p.offset..], RunsText(runs[p.run + 1..]), BlocksText(bs[p.block + 1..]));
  }
}
