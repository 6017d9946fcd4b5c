/** The document ("editor") level: removing whole blocks, and the
    structural half of pressing Enter (`insert_new_line`). */
module Editor {
  import opened Slices
  import opened Runs
  import opened Blocks
  import opened Positions

  /** The document-level `remove_between(a, c)` that the range delete
      calls on the editor: drops the whole blocks [a, c), or nothing when
      a > c, with the same meaning as the block-level one. */
  function RemoveBlocksBetween(bs: seq<Block>, a: nat, c: nat): (bs': seq<Block>)
    requires a <= c ==> c <= |bs|
    ensures a > c ==> bs' == bs
    ensures a <= c ==> |bs'| == |bs| - (c - a)
    ensures a <= c ==> bs'[..a] == bs[..a] && bs'[a..] == bs[c..]
  {
    CutBetween(bs, a, c)
  }

  /** `insert_new_line` at caret `p`: the run under the caret is split at
      the caret's offset, then its block is split right after that run.
      Block `p.block` ends with the text before the caret; a new Paragraph
      right after it starts with a run of the same style holding the text
      after the caret, followed by the runs that came after the caret's
      run; every other block keeps its place. */
  function InsertLineAt(bs: seq<Block>, p: Position): (bs': seq<Block>)
    requires ValidPosition(bs, p)
    ensures |bs'| == |bs| + 1
    ensures bs'[..p.block] == bs[..p.block] && bs'[p.block + 2..] == bs[p.block + 1..]
    ensures var runs, run := bs[p.block].runs, RunAt(bs, p);
      && bs'[p.block] == Block(bs[p.block].kind, runs[..p.run] + [Run(run.style, run.text[..p.offset])])
      && bs'[p.block + 1] == Block(Paragraph, [Run(run.style, run.text[p.offset..])] + runs[p.run + 1..])
  {
    var runs := bs[p.block].runs;
    var split := SplitRunAt(runs, p.run, p.offset);
    assert split[..p.run + 1] == runs[..p.run] + [split[p.run]];
    assert split[p.run + 1..] == [split[p.run + 1]] + runs[p.run + 1..];
    SplitBlockAt(WithRuns(bs, p.block, split), p.block, p.run + 1)
  }

  /** Inserting a line break never changes the characters of the document. */
  lemma InsertLineKeepsText(bs: seq<Block>, p: Position)
    requires ValidPosition(bs, p)
    ensures BlocksText(InsertLineAt(bs, p)) == BlocksText(bs)
  {
    var runs := bs[p.block].runs;
    var split := SplitRunAt(runs, p.run, p.offset);
    var ws := WithRuns(bs, p.block, split);
    SplitBlockAtKeepsText(ws, p.block, p.run + 1);
    BlocksTextWithRuns(bs, p.block, split);
    SplitRunAtKeepsText(runs, p.run, p.offset);
    BlocksTextAround(bs, p.block);
  }

  /** The caret `insert_new_line` returns, offset 0 of the first run of the
      new block, is valid and sits at the same place in the text as the
      caret it was given. */
  lemma InsertLineCaret(bs: seq<Block>, p: Position)
    requires ValidPosition(bs, p)
    ensures var bs', q := InsertLineAt(bs, p), Position(p.block + 1, 0, 0);
      && ValidPosition(bs', q)
      && TextBefore(bs', q) == TextBefore(bs, p)
      && TextAfter(bs', q) == TextAfter(bs, p)
  {
    var bs', q := InsertLineAt(bs, p), Position(p.block + 1, 0, 0);
    var runs, t := bs[p.block].runs, RunAt(bs, p).text;
    var style := RunAt(bs, p).style;
    // Before the caret: the blocks before p.block, then block p.block as cut.
    assert bs'[..p.block + 1] == bs[..p.block] + [bs'[p.block]];
    BlocksTextAppend(bs[..p.block], [bs'[p.block]]);
    BlocksTextSingle(bs'[p.block]);
    RunsTextAppend(runs[..p.run], [Run(style, t[..p.offset])]);
    RunsTextSingle(Run(style, t[..p.offset]));
    assert bs'[q.block].runs[..0] == [];
    // After the caret: the rest of the new block, then the blocks after it.
    assert bs'[q.block].runs[1..] == runs[p.run + 1..];
  }

  /** Enter in the middle of "Hello World" leaves "Hello" in the first
      block and starts a new Paragraph with " World". */
  lemma InsertLineExample()
    ensures InsertLineAt([Block(Paragraph, [Run(Normal, "Hello World")])], Position(0, 0, 5))
         == [Block(Paragraph, [Run(Normal, "Hello")]), Block(Paragraph, [Run(Normal, " World")])]
  {
    var s := "Hello World";
    assert s[..5] == "Hello" && s[5..] == " World";
    var bs' := InsertLineAt([Block(Paragraph, [Run(Normal, s)])], Position(0, 0, 5));
    assert bs'[0] == Block(Paragraph, [Run(Normal, "Hello")]);
    assert bs'[1] == Block(Paragraph, [Run(Normal, " World")]);
  }
}
