/** The range delete of `RangeUtils.remove`: everything between two
    positions goes, and the tree is stitched back together. */
module Selection {
  import opened Slices
  import opened Runs
  import opened Blocks
  import opened Positions

  /** One range of a selection, its boundaries in document order. */
  datatype Range = Range(start: Position, end: Position)

  /** Both boundaries address the document and `start` does not come after
      `end` (DOM range boundary points are always in document order). */
  predicate ValidRange(bs: seq<Block>, s: Position, e: Position)
  {
    ValidPosition(bs, s) && ValidPosition(bs, e) && Le(s, e)
  }

  /** What deleting from `s` to `e` leaves, stated once for all three cases
      of `RangeUtils.remove`: the blocks before `s.block` and after
      `e.block`; in between, one block of `s.block`'s kind made of the runs
      before `s.run`, the start run cut at `s.offset` joined (fused iff
      their styles match) with the end run cut at `e.offset`, and the runs
      after `e.run`. */
  function DeleteRange(bs: seq<Block>, s: Position, e: Position): (bs': seq<Block>)
    requires ValidRange(bs, s, e)
    ensures |bs'| == |bs| - (e.block - s.block)
    ensures bs'[..s.block] == bs[..s.block] && bs'[s.block + 1..] == bs[e.block + 1..]
    ensures bs'[s.block].kind == bs[s.block].kind
    ensures bs[s.block].runs[..s.run] <= bs'[s.block].runs
    ensures IsSuffix(bs[e.block].runs[e.run + 1..], bs'[s.block].runs)
  {
    var first, last := bs[s.block], bs[e.block];
    var left, right := first.runs[..s.run], last.runs[e.run + 1..];
    var seam := Join(RemoveFrom(first.runs[s.run], s.offset), RemoveBefore(last.runs[e.run], e.offset));
    var kept := left + seam + right;
    assert kept[..s.run] == left;
    assert kept[|kept| - |right|..] == right;
    bs[..s.block] + [Block(first.kind, kept)] + bs[e.block + 1..]
  }

  /** After the delete, the document's text is the text before `start`
      followed by the text after `end`. */
  lemma DeleteRangeText(bs: seq<Block>, s: Position, e: Position)
    requires ValidRange(bs, s, e)
    ensures BlocksText(DeleteRange(bs, s, e)) == TextBefore(bs, s) + TextAfter(bs, e)
  {
    var first, last := bs[s.block], bs[e.block];
    var left, right := first.runs[..s.run], last.runs[e.run + 1..];
    var a, b := RemoveFrom(first.runs[s.run], s.offset), RemoveBefore(last.runs[e.run], e.offset);
    var kept := left + Join(a, b) + right;
    BlocksTextSplice(bs[..s.block], Block(first.kind, kept), bs[e.block + 1..]);
    RunsTextThree(left, Join(a, b), right);
    RegroupAtSeam(BlocksText(bs[..s.block]), RunsText(left), a.text, b.text, RunsText(right), BlocksText(bs[e.block + 1..]));
  }

  /** The cross-block case is a block combine: cut the start block after
      `s`, cut the end block before `e`, drop the blocks between them, and
      combining the two that meet gives exactly `DeleteRange`. */
  lemma CrossBlockIsCombine(bs: seq<Block>, s: Position, e: Position)
    requires ValidRange(bs, s, e) && s.block < e.block
    ensures var first, last := bs[s.block], bs[e.block];
      var a, z := RemoveFrom(first.runs[s.run], s.offset), RemoveBefore(last.runs[e.run], e.offset);
      DeleteRange(bs, s, e)
        == CombineBlocksAt(bs[..s.block] + [Block(first.kind, first.runs[..s.run] + [a]), Block(last.kind, [z] + last.runs[e.run + 1..])] + bs[e.block + 1..], s.block)
  {
    var first, last := bs[s.block], bs[e.block];
    var a, z := RemoveFrom(first.runs[s.run], s.offset), RemoveBefore(last.runs[e.run], e.offset);
    var left, right := first.runs[..s.run], last.runs[e.run + 1..];
    var t := bs[..s.block] + [Block(first.kind, left + [a]), Block(last.kind, [z] + right)] + bs[e.block + 1..];
    assert t[s.block].runs + t[s.block + 1].runs == left + [a, z] + right;
    CombineAtSeam(left, a, z, right);
    assert t[..s.block] == bs[..s.block] && t[s.block + 2..] == bs[e.block + 1..];
  }

  /** Same-run case: the run loses exactly the characters [s.offset,
      e.offset) and nothing else in the document changes. */
  lemma DeleteWithinRun(bs: seq<Block>, s: Position, e: Position)
    requires ValidRange(bs, s, e) && s.block == e.block && s.run == e.run
    ensures var runs := bs[s.block].runs;
      DeleteRange(bs, s, e) == WithRuns(bs, s.block, runs[s.run := RemoveBetween(runs[s.run], s.offset, e.offset)])
  {
    var runs, t := bs[s.block].runs, RunAt(bs, s).text;
    var cut := RemoveBetween(runs[s.run], s.offset, e.offset);
    assert cut.text == t[..s.offset] + t[e.offset..];
    var kept := runs[..s.run] + [cut] + runs[s.run + 1..];
    assert kept == runs[s.run := cut];
    var d, w := DeleteRange(bs, s, e), WithRuns(bs, s.block, kept);
    assert d[s.block] == w[s.block];
    SpliceOne(d, s.block);
    SpliceOne(w, s.block);
  }

  /** Two runs of one style, "Hello" and "World": deleting from offset 3 of
      the first to offset 2 of the second leaves the single run "Helrld". */
  lemma DeleteAcrossRunsExample()
    ensures DeleteRange([Block(Paragraph, [Run(Normal, "Hello"), Run(Normal, "World")])], Position(0, 0, 3), Position(0, 1, 2))
         == [Block(Paragraph, [Run(Normal, "Helrld")])]
  {
    var h, w := "Hello", "World";
    assert h[..3] == "Hel" && w[2..] == "rld" && "Hel" + "rld" == "Helrld";
    var bs := [Block(Paragraph, [Run(Normal, h), Run(Normal, w)])];
    var d := DeleteRange(bs, Position(0, 0, 3), Position(0, 1, 2));
    assert d[0].runs == [Run(Normal, "Helrld")];
  }

  /** `[P("AB"), P("CD")]`: deleting from offset 1 of the first block to
      offset 1 of the second leaves the single block `P("AD")`. */
  lemma DeleteAcrossBlocksExample()
    ensures DeleteRange([Block(Paragraph, [Run(Normal, "AB")]), Block(Paragraph, [Run(Normal, "CD")])], Position(0, 0, 1), Position(1, 0, 1))
         == [Block(Paragraph, [Run(Normal, "AD")])]
  {
    var ab, cd := "AB", "CD";
    assert ab[..1] == "A" && cd[1..] == "D" && "A" + "D" == "AD";
    var bs := [Block(Paragraph, [Run(Normal, ab)]), Block(Paragraph, [Run(Normal, cd)])];
    var d := DeleteRange(bs, Position(0, 0, 1), Position(1, 0, 1));
    assert d[0].runs == [Run(Normal, "AD")];
  }

  // ---- A selection of several ranges ----

  /** Each range addresses the document as the earlier ranges left it. */
  predicate Applicable(bs: seq<Block>, ranges: seq<Range>)
    decreases |ranges|
  {
    ranges == [] ||
    (ValidRange(bs, ranges[0].start, ranges[0].end) &&
     Applicable(DeleteRange(bs, ranges[0].start, ranges[0].end), ranges[1..]))
  }

  /** `SelectionUtils.remove`: the ranges deleted one after another. A
      non-empty selection never deletes the last block: the document keeps
      at least one block, and never gains any. */
  function DeleteAll(bs: seq<Block>, ranges: seq<Range>): (bs': seq<Block>)
    requires Applicable(bs, ranges)
    ensures |bs'| <= |bs|
    ensures ranges != [] ==> |bs'| >= 1
    decreases |ranges|
  {
    if ranges == [] then bs
    else DeleteAll(DeleteRange(bs, ranges[0].start, ranges[0].end), ranges[1..])
  }
}
