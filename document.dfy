/** The document tree as the editor mutates it in place. Every edit of the
    source (on a subcomponent, a component or the editor) changes the one
    tree under the editor element, so all of them are methods of
    `Document`, each proved to leave the blocks that the matching function
    of `Runs`, `Blocks`, `Editor` or `Selection` describes. A subcomponent
    or component is addressed by its indices: the source never stores a
    parent or an index, it looks them up again on every use. */
module Documents {
  import opened Slices
  import opened Runs
  import opened Blocks
  import opened Positions
  import opened Editor
  import opened Selection

  class Document {
    /** The blocks under the editor element, in order. */
    var blocks: seq<Block>

    constructor (blocks: seq<Block>)
      ensures this.blocks == blocks
    {
      this.blocks := blocks;
    }

    // ---- Subcomponent (subcomponent.ts) ----

    /** The `text` setter of run `r` of block `b`. */
    method SetText(b: nat, r: nat, text: string)
      requires b < |blocks| && r < Size(blocks[b])
      modifies this
      ensures blocks == WithRuns(old(blocks), b, old(blocks)[b].runs[r := Run(old(blocks)[b].runs[r].style, text)])
    {
      var runs := blocks[b].runs;
      blocks := WithRuns(blocks, b, runs[r := Run(runs[r].style, text)]);
    }

    /** `split(k)` of run `r` of block `b`; returns where the new run is. */
    method SplitRun(b: nat, r: nat, k: nat) returns (q: Position)
      requires b < |blocks| && r < Size(blocks[b]) && k <= |blocks[b].runs[r].text|
      modifies this
      ensures blocks == WithRuns(old(blocks), b, SplitRunAt(old(blocks)[b].runs, r, k))
      ensures q == Position(b, r + 1, 0) && ValidPosition(blocks, q)
    {
      var run := blocks[b].runs[r];
      var before, after := run.text[..k], run.text[k..];
      SetText(b, r, before);
      var runs := blocks[b].runs;
      // insert the new run right after the receiver
      blocks := WithRuns(blocks, b, runs[..r + 1] + [Run(run.style, after)] + runs[r + 1..]);
      q := Position(b, r + 1, 0);
      ghost var was := old(blocks)[b].runs;
      ghost var halves := Split(run, k);
      assert runs[..r + 1] == was[..r] + [halves.0];
      assert runs[r + 1..] == was[r + 1..];
      assert was[..r] + [halves.0] + [halves.1] == was[..r] + [halves.0, halves.1];
    }

    /** `remove` of run `r` of block `b`. */
    method RemoveRun(b: nat, r: nat)
      requires b < |blocks| && r < Size(blocks[b])
      modifies this
      ensures blocks == WithRuns(old(blocks), b, CutBetween(old(blocks)[b].runs, r, r + 1))
    {
      blocks := WithRuns(blocks, b, CutBetween(blocks[b].runs, r, r + 1));
    }

    /** `combine` of run `r` of block `b` with its next sibling. */
    method CombineRun(b: nat, r: nat)
      requires b < |blocks| && r + 1 < Size(blocks[b])
      modifies this
      ensures blocks == WithRuns(old(blocks), b, CombineRunsAt(old(blocks)[b].runs, r))
    {
      var self, other := blocks[b].runs[r], blocks[b].runs[r + 1];
      if self.style == other.style {
        SetText(b, r, self.text + other.text);
        RemoveRun(b, r + 1);
        ghost var was := old(blocks)[b].runs;
        assert blocks[b].runs == was[..r] + [Run(self.style, self.text + other.text)] + was[r + 2..];
      }
    }

    /** `remove_before(i)` of run `r` of block `b`. */
    method RemoveTextBefore(b: nat, r: nat, i: nat)
      requires b < |blocks| && r < Size(blocks[b]) && i <= |blocks[b].runs[r].text|
      modifies this
      ensures blocks == WithRuns(old(blocks), b, old(blocks)[b].runs[r := RemoveBefore(old(blocks)[b].runs[r], i)])
    {
      SetText(b, r, blocks[b].runs[r].text[i..]);
    }

    /** `remove_from(i)` of run `r` of block `b`. */
    method RemoveTextFrom(b: nat, r: nat, i: nat)
      requires b < |blocks| && r < Size(blocks[b]) && i <= |blocks[b].runs[r].text|
      modifies this
      ensures blocks == WithRuns(old(blocks), b, old(blocks)[b].runs[r := RemoveFrom(old(blocks)[b].runs[r], i)])
    {
      SetText(b, r, blocks[b].runs[r].text[..i]);
    }

    /** `remove_between(i, j)` of run `r` of block `b`. */
    method RemoveTextBetween(b: nat, r: nat, i: nat, j: nat)
      requires b < |blocks| && r < Size(blocks[b]) && (i <= j ==> j <= |blocks[b].runs[r].text|)
      modifies this
      ensures blocks == WithRuns(old(blocks), b, old(blocks)[b].runs[r := RemoveBetween(old(blocks)[b].runs[r], i, j)])
    {
      if i <= j {
        var text := blocks[b].runs[r].text;
        SetText(b, r, text[..i] + text[j..]);
      } else {
        assert blocks[b].runs[r := blocks[b].runs[r]] == blocks[b].runs;
      }
    }

    // ---- Component (component.ts) ----

    /** `remove` of block `b`. */
    method RemoveBlock(b: nat)
      requires b < |blocks|
      modifies this
      ensures blocks == CutBetween(old(blocks), b, b + 1)
    {
      blocks := CutBetween(blocks, b, b + 1);
    }

    /** `split(k)` of block `b`: moves runs [k, size) one by one into a new
        Paragraph, which is then inserted after the block. Returns the
        index of the new block. */
    method SplitBlock(b: nat, k: nat) returns (nb: nat)
      requires b < |blocks| && k <= Size(blocks[b])
      modifies this
      ensures blocks == SplitBlockAt(old(blocks), b, k)
      ensures nb == b + 1
    {
      ghost var kept := blocks[b].runs[..k];
      var moving := blocks[b].runs[k..];
      var created := Block(Paragraph, []);
      var j := 0;
      assert kept + moving == blocks[b].runs;
      while j < |moving|
        invariant j <= |moving|
        invariant created == Block(Paragraph, moving[..j])
        invariant blocks == WithRuns(old(blocks), b, kept + moving[j..])
      {
        // appendChild takes the run out of this block and appends it to the new one
        RemoveRun(b, k);
        assert CutBetween(kept + moving[j..], k, k + 1) == kept + moving[j + 1..];
        created := Block(Paragraph, created.runs + [moving[j]]);
        assert moving[..j] + [moving[j]] == moving[..j + 1];
        j := j + 1;
      }
      assert kept + moving[|moving|..] == kept;
      WithRunsSplice(old(blocks), b, kept);
      blocks := blocks[..b + 1] + [created] + blocks[b + 1..];
      nb := b + 1;
      assert moving[..|moving|] == moving;
      assert [Block(old(blocks)[b].kind, kept)] + [created] == [Block(old(blocks)[b].kind, kept), created];
    }

    /** `combine` of block `b` with its next sibling: moves every run of the
        other block, in order, to the end of this one, combines the run
        that was last here with the one that was first there, and removes
        the other block. */
    method CombineBlock(b: nat)
      requires b + 1 < |blocks| && Size(blocks[b]) > 0 && Size(blocks[b + 1]) > 0
      modifies this
      ensures blocks == CombineBlocksAt(old(blocks), b)
    {
      var last := Size(blocks[b]) - 1;
      // the two runs that will meet at the seam
      var lastRun, firstRun := NthRun(blocks[b], last), NthRun(blocks[b + 1], 0);
      var moving := blocks[b + 1].runs;
      ghost var self := blocks[b];
      ghost var other := blocks[b + 1];
      var j := 0;
      while j < |moving|
        invariant j <= |moving|
        invariant |blocks| == |old(blocks)|
        invariant blocks[..b] == old(blocks)[..b] && blocks[b + 2..] == old(blocks)[b + 2..]
        invariant blocks[b] == Block(self.kind, self.runs + moving[..j])
        invariant blocks[b + 1] == Block(other.kind, moving[j..])
      {
        RemoveRun(b + 1, 0);
        blocks := WithRuns(blocks, b, blocks[b].runs + [moving[j]]);
        assert moving[..j] + [moving[j]] == moving[..j + 1];
        assert moving[j..][1..] == moving[j + 1..];
        j := j + 1;
      }
      assert moving[..|moving|] == moving;
      assert NthRun(blocks[b], last) == lastRun && NthRun(blocks[b], last + 1) == firstRun;
      CombineRun(b, last);
      RemoveBlock(b + 1);
      assert blocks[..b] == old(blocks)[..b] && blocks[b + 1..] == old(blocks)[b + 2..];
      assert blocks[b] == CombineBlocksAt(old(blocks), b)[b];
      SpliceOne(blocks, b);
      SpliceOne(CombineBlocksAt(old(blocks), b), b);
    }

    /** `remove_before(i)` of block `b`: removes its first `i` runs one by one. */
    method RemoveRunsBefore(b: nat, i: nat)
      requires b < |blocks| && i <= Size(blocks[b])
      modifies this
      ensures blocks == old(blocks)[b := Blocks.RemoveRunsBefore(old(blocks)[b], i)]
    {
      ghost var runs := blocks[b].runs;
      var k := 0;
      while k < i
        invariant k <= i
        invariant blocks == WithRuns(old(blocks), b, runs[k..])
      {
        RemoveRun(b, 0);
        assert runs[k..][1..] == runs[k + 1..];
        k := k + 1;
      }
    }

    /** `remove_from(i)` of block `b`: removes its runs from index `i` on,
        one by one. */
    method RemoveRunsFrom(b: nat, i: nat)
      requires b < |blocks| && i <= Size(blocks[b])
      modifies this
      ensures blocks == old(blocks)[b := Blocks.RemoveRunsFrom(old(blocks)[b], i)]
    {
      var runs := blocks[b].runs;
      var k := i;
      assert runs[..i] + runs[i..] == runs;
      assert WithRuns(old(blocks), b, runs) == old(blocks);
      while k < |runs|
        invariant i <= k <= |runs|
        invariant blocks == WithRuns(old(blocks), b, runs[..i] + runs[k..])
      {
        RemoveRun(b, i);
        assert CutBetween(runs[..i] + runs[k..], i, i + 1) == runs[..i] + runs[k + 1..];
        k := k + 1;
      }
      assert runs[..i] + runs[|runs|..] == runs[..i];
    }

    /** `remove_between(i, j)` of block `b`: removes runs [i, j) one by one,
        or nothing when i > j. */
    method RemoveRunsBetween(b: nat, i: nat, j: nat)
      requires b < |blocks| && (i <= j ==> j <= Size(blocks[b]))
      modifies this
      ensures blocks == old(blocks)[b := Blocks.RemoveRunsBetween(old(blocks)[b], i, j)]
    {
      if i <= j {
        ghost var runs := blocks[b].runs;
        var k := i;
        assert runs[..i] + runs[i..] == runs;
        assert WithRuns(old(blocks), b, runs) == old(blocks);
        while k < j
          invariant i <= k <= j
          invariant blocks == WithRuns(old(blocks), b, runs[..i] + runs[k..])
        {
          RemoveRun(b, i);
          assert CutBetween(runs[..i] + runs[k..], i, i + 1) == runs[..i] + runs[k + 1..];
          k := k + 1;
        }
      } else {
        assert old(blocks)[b := old(blocks)[b]] == old(blocks);
      }
    }

    // ---- Editor (editor.ts) ----

    /** The document-level `remove_between(i, j)`: removes blocks [i, j)
        one by one, or nothing when i > j. */
    method RemoveBlocksBetween(i: nat, j: nat)
      requires i <= j ==> j <= |blocks|
      modifies this
      ensures blocks == Editor.RemoveBlocksBetween(old(blocks), i, j)
    {
      if i <= j {
        var k := i;
        while k < j
          invariant i <= k <= j
          invariant blocks == old(blocks)[..i] + old(blocks)[k..]
        {
          RemoveBlock(i);
          assert CutBetween(old(blocks)[..i] + old(blocks)[k..], i, i + 1) == old(blocks)[..i] + old(blocks)[k + 1..];
          k := k + 1;
        }
      }
    }

    /** `insert_new_line` at caret `p`: splits the caret's run at the caret,
        then splits its block right after that run; returns the new caret,
        at offset 0 of the run created by the first split. */
    method InsertNewLine(p: Position) returns (q: Position)
      requires ValidPosition(blocks, p)
      modifies this
      ensures blocks == InsertLineAt(old(blocks), p)
      ensures q == Position(p.block + 1, 0, 0) && ValidPosition(blocks, q)
    {
      var created := SplitRun(p.block, p.run, p.offset);
      // the caret's run keeps its index, so the block splits after it
      var nb := SplitBlock(p.block, p.run + 1);
      // the created run is now the first run of the new block
      q := Position(nb, created.run - (p.run + 1), 0);
    }

    // ---- RangeUtils / SelectionUtils (selection_utils.ts) ----

    /** `RangeUtils.remove` from `s` to `e`, case by case as the source does
        it: different blocks, different runs of one block, or one run. */
    method DeleteRange(s: Position, e: Position)
      requires ValidRange(blocks, s, e)
      modifies this
      ensures blocks == Selection.DeleteRange(old(blocks), s, e)
    {
      if s.block != e.block {
        DeleteAcrossBlocks(s, e);
      } else if s.run != e.run {
        DeleteAcrossRuns(s, e);
      } else {
        RemoveTextBetween(s.block, s.run, s.offset, e.offset);
        DeleteWithinRun(old(blocks), s, e);
      }
    }

    /** The cross-block case: the start and end blocks are trimmed at the
        range's ends and the blocks between them dropped, then the two
        blocks that now meet are combined. */
    method DeleteAcrossBlocks(s: Position, e: Position)
      requires ValidRange(blocks, s, e) && s.block < e.block
      modifies this
      ensures blocks == Selection.DeleteRange(old(blocks), s, e)
    {
      TrimAcrossBlocks(s, e);
      CombineBlock(s.block);
      CrossBlockIsCombine(old(blocks), s, e);
    }

    /** The first steps of the cross-block case: the blocks strictly
        between go, the start block loses its runs after `s.run` and the
        end block its runs before `e.run`, and both boundary runs are cut. */
    method TrimAcrossBlocks(s: Position, e: Position)
      requires ValidRange(blocks, s, e) && s.block < e.block
      modifies this
      ensures var first, last := old(blocks)[s.block], old(blocks)[e.block];
        var a, z := RemoveFrom(first.runs[s.run], s.offset), RemoveBefore(last.runs[e.run], e.offset);
        blocks == old(blocks)[..s.block] + [Block(first.kind, first.runs[..s.run] + [a]), Block(last.kind, [z] + last.runs[e.run + 1..])] + old(blocks)[e.block + 1..]
    {
      ghost var bs := blocks;
      ghost var before, after := bs[..s.block], bs[e.block + 1..];
      ghost var first, last := bs[s.block], bs[e.block];
      RemoveBlocksBetween(s.block + 1, e.block);
      // the end block now sits right after the start block
      assert blocks == before + [first, last] + after by {
        assert blocks[..s.block + 1] == bs[..s.block + 1] == before + [first];
        assert blocks[s.block + 1..] == bs[e.block..] == [last] + after;
        assert blocks == blocks[..s.block + 1] + blocks[s.block + 1..];
      }
      ghost var first' := Blocks.RemoveRunsFrom(first, s.run + 1);
      RemoveRunsFrom(s.block, s.run + 1);
      ReplaceFirstOfPair(before, first, last, after, first');
      ghost var last' := Blocks.RemoveRunsBefore(last, e.run);
      RemoveRunsBefore(s.block + 1, e.run);
      ReplaceSecondOfPair(before, first', last, after, last');
      ghost var first'' := Block(first.kind, first'.runs[s.run := RemoveFrom(first.runs[s.run], s.offset)]);
      RemoveTextFrom(s.block, s.run, s.offset);
      ReplaceFirstOfPair(before, first', last', after, first'');
      ghost var last'' := Block(last.kind, last'.runs[0 := RemoveBefore(last.runs[e.run], e.offset)]);
      RemoveTextBefore(s.block + 1, 0, e.offset);
      ReplaceSecondOfPair(before, first'', last', after, last'');
      assert first''.runs == first.runs[..s.run] + [RemoveFrom(first.runs[s.run], s.offset)];
      assert last''.runs == [RemoveBefore(last.runs[e.run], e.offset)] + last.runs[e.run + 1..];
    }

    /** The same-block case: the runs strictly between go, both boundary
        runs are cut, and the start run is combined with the end run. */
    method DeleteAcrossRuns(s: Position, e: Position)
      requires ValidRange(blocks, s, e) && s.block == e.block && s.run < e.run
      modifies this
      ensures blocks == Selection.DeleteRange(old(blocks), s, e)
    {
      ghost var bs := blocks;
      ghost var first := bs[s.block];
      ghost var left, right := first.runs[..s.run], first.runs[e.run + 1..];
      ghost var start, end := first.runs[s.run], first.runs[e.run];
      ghost var a, z := RemoveFrom(start, s.offset), RemoveBefore(end, e.offset);
      ghost var cut := Blocks.RemoveRunsBetween(first, s.run + 1, e.run);
      RemoveRunsBetween(s.block, s.run + 1, e.run);
      assert cut.runs == left + [start, end] + right by {
        assert cut.runs == cut.runs[..s.run + 1] + cut.runs[s.run + 1..];
        assert first.runs[..s.run + 1] == left + [start];
        assert first.runs[e.run..] == [end] + right;
      }
      assert blocks == WithRuns(bs, s.block, cut.runs);
      RemoveTextFrom(s.block, s.run, s.offset);
      ReplaceFirstOfPair(left, start, end, right, a);
      WithRunsTwice(bs, s.block, left + [start, end] + right, left + [a, end] + right);
      RemoveTextBefore(s.block, s.run + 1, e.offset);
      ReplaceSecondOfPair(left, a, end, right, z);
      WithRunsTwice(bs, s.block, left + [a, end] + right, left + [a, z] + right);
      CombineRun(s.block, s.run);
      CombineAtSeam(left, a, z, right);
      WithRunsTwice(bs, s.block, left + [a, z] + right, left + Join(a, z) + right);
      WithRunsSplice(bs, s.block, left + Join(a, z) + right);
    }

    /** `SelectionUtils.remove`: deletes the ranges of the selection one
        after another. */
    method DeleteRanges(ranges: seq<Range>)
      requires Applicable(blocks, ranges)
      modifies this
      ensures blocks == DeleteAll(old(blocks), ranges)
    {
      var i := 0;
      while i < |ranges|
        invariant i <= |ranges|
        invariant Applicable(blocks, ranges[i..])
        invariant DeleteAll(blocks, ranges[i..]) == DeleteAll(old(blocks), ranges)
      {
        assert ranges[i..][0] == ranges[i] && ranges[i..][1..] == ranges[i + 1..];
        DeleteRange(ranges[i].start, ranges[i].end);
        i := i + 1;
      }
    }
  }
}
