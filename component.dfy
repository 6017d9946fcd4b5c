/** Blocks ("components"): paragraphs, headings and list items, each an
    ordered sequence of runs, and the edits `Component` makes to its runs
    and to the sequence of blocks of the document. */
module Blocks {
  import opened Slices
  import opened Runs

  /** The element kinds a block can be. */
  datatype Kind = Paragraph | Heading1 | UnorderedList

  datatype Block = Block(kind: Kind, runs: seq<Run>)

  /** `size`: the number of runs of the block; zero exactly when the
      block has no run. */
  function Size(b: Block): (n: nat)
    ensures n == 0 <==> b.runs == []
  {
    |b.runs|
  }

  /** `nth_subcomponent(i)`: the run with exactly `i` runs before it. */
  function NthRun(b: Block, i: nat): (r: Run)
    requires i < Size(b)
    ensures b.runs == b.runs[..i] + [r] + b.runs[i + 1..]
  {
    SpliceOne(b.runs, i);
    b.runs[i]
  }

  /** The block sequence with the runs of block `i` replaced by `rs`. */
  function WithRuns(bs: seq<Block>, i: nat, rs: seq<Run>): seq<Block>
    requires i < |bs|
  {
    bs[i := Block(bs[i].kind, rs)]
  }

  lemma WithRunsTwice(bs: seq<Block>, i: nat, rs: seq<Run>, rs': seq<Run>)
    requires i < |bs|
    ensures WithRuns(WithRuns(bs, i, rs), i, rs') == WithRuns(bs, i, rs')
  {
  }

  lemma WithRunsSplice(bs: seq<Block>, i: nat, rs: seq<Run>)
    requires i < |bs|
    ensures WithRuns(bs, i, rs) == bs[..i] + [Block(bs[i].kind, rs)] + bs[i + 1..]
  {
    var w := WithRuns(bs, i, rs);
    SpliceOne(w, i);
    assert w[..i] == bs[..i] && w[i + 1..] == bs[i + 1..];
  }

  // ---- Removing runs from a block ----

  /** `remove_before(i)`: keeps the runs from index `i` on. */
  function RemoveRunsBefore(b: Block, i: nat): (b': Block)
    requires i <= Size(b)
    ensures b'.kind == b.kind
    ensures Size(b') == Size(b) - i
    ensures b.runs == b.runs[..i] + b'.runs
  {
    Block(b.kind, b.runs[i..])
  }

  /** `remove_from(i)`: keeps the runs before index `i`. */
  function RemoveRunsFrom(b: Block, i: nat): (b': Block)
    requires i <= Size(b)
    ensures b'.kind == b.kind
    ensures Size(b') == i
    ensures b.runs == b'.runs + b.runs[i..]
  {
    Block(b.kind, b.runs[..i])
  }

  /** `remove_between(a, c)`: drops the whole runs [a, c), or nothing when
      a > c; the surviving runs keep their text, style and order. */
  function RemoveRunsBetween(b: Block, a: nat, c: nat): (b': Block)
    requires a <= c ==> c <= Size(b)
    ensures b'.kind == b.kind
    ensures a > c ==> b' == b
    ensures a <= c ==> Size(b') == Size(b) - (c - a)
    ensures a <= c ==> b'.runs[..a] == b.runs[..a] && b'.runs[a..] == b.runs[c..]
  {
    Block(b.kind, CutBetween(b.runs, a, c))
  }

  // ---- The characters of a document ----

  /** The characters of a sequence of blocks, in document order. */
  function BlocksText(bs: seq<Block>): string
  {
    if bs == [] then "" else RunsText(bs[0].runs) + BlocksText(bs[1..])
  }

  lemma {:induction false} BlocksTextAppend(a: seq<Block>, b: seq<Block>)
    ensures BlocksText(a + b) == BlocksText(a) + BlocksText(b)
  {
    if a == [] {
      assert a + b == b;
    } else {
      assert (a + b)[1..] == a[1..] + b;
      BlocksTextAppend(a[1..], b);
    }
  }

  lemma BlocksTextSingle(b: Block)
    ensures BlocksText([b]) == RunsText(b.runs)
  {
    assert [b][1..] == [];
  }

  lemma BlocksTextThree(left: seq<Block>, mid: seq<Block>, right: seq<Block>)
    ensures BlocksText(left + mid + right) == BlocksText(left) + BlocksText(mid) + BlocksText(right)
  {
    BlocksTextAppend(left + mid, right);
    BlocksTextAppend(left, mid);
  }

  lemma BlocksTextSplice(left: seq<Block>, b: Block, right: seq<Block>)
    ensures BlocksText(left + [b] + right) == BlocksText(left) + RunsText(b.runs) + BlocksText(right)
  {
    BlocksTextThree(left, [b], right);
    BlocksTextSingle(b);
  }

  /** The text of a document seen around one of its blocks. */
  lemma BlocksTextAround(bs: seq<Block>, i: nat)
    requires i < |bs|
    ensures BlocksText(bs) == BlocksText(bs[..i]) + RunsText(bs[i].runs) + BlocksText(bs[i + 1..])
  {
    SpliceOne(bs, i);
    BlocksTextSplice(bs[..i], bs[i], bs[i + 1..]);
  }

  lemma BlocksTextAroundPair(bs: seq<Block>, i: nat)
    requires i + 1 < |bs|
    ensures BlocksText(bs) == BlocksText(bs[..i]) + (RunsText(bs[i].runs) + RunsText(bs[i + 1].runs)) + BlocksText(bs[i + 2..])
  {
    SplicePair(bs, i);
    BlocksTextThree(bs[..i], [bs[i], bs[i + 1]], bs[i + 2..]);
    assert [bs[i], bs[i + 1]] == [bs[i]] + [bs[i + 1]];
    BlocksTextAppend([bs[i]], [bs[i + 1]]);
    BlocksTextSingle(bs[i]);
    BlocksTextSingle(bs[i + 1]);
  }

  lemma BlocksTextWithRuns(bs: seq<Block>, i: nat, rs: seq<Run>)
    requires i < |bs|
    ensures BlocksText(WithRuns(bs, i, rs)) == BlocksText(bs[..i]) + RunsText(rs) + BlocksText(bs[i + 1..])
  {
    var bs' := WithRuns(bs, i, rs);
    BlocksTextAround(bs', i);
    assert bs'[..i] == bs[..i] && bs'[i + 1..] == bs[i + 1..];
  }

  // ---- Splitting and combining blocks ----

  /** `split(k)` of block `i`: a new Paragraph holding runs [k, size) in
      order is inserted right after the block, which keeps runs [0, k) and
      its own kind; every other block keeps its place. */
  function SplitBlockAt(bs: seq<Block>, i: nat, k: nat): (bs': seq<Block>)
    requires i < |bs| && k <= Size(bs[i])
    ensures |bs'| == |bs| + 1
    ensures bs'[..i] == bs[..i] && bs'[i + 2..] == bs[i + 1..]
    ensures bs'[i].kind == bs[i].kind && bs'[i + 1].kind == Paragraph
    ensures Size(bs'[i]) == k && bs'[i].runs + bs'[i + 1].runs == bs[i].runs
  {
    var b := bs[i];
    assert b.runs[..k] + b.runs[k..] == b.runs;
    bs[..i] + [Block(b.kind, b.runs[..k]), Block(Paragraph, b.runs[k..])] + bs[i + 1..]
  }

  /** `combine` of block `i` with its next sibling (both non-empty, which
      `nth_subcomponent(size - 1)` and `nth_subcomponent(0)` assume): the
      receiver keeps its kind and its runs and gains all runs of the
      other block, the two runs meeting at the seam fuse iff their styles
      match, and the other block leaves the document. */
  function CombineBlocksAt(bs: seq<Block>, i: nat): (bs': seq<Block>)
    requires i + 1 < |bs| && Size(bs[i]) > 0 && Size(bs[i + 1]) > 0
    ensures |bs'| == |bs| - 1
    ensures bs'[..i] == bs[..i] && bs'[i + 1..] == bs[i + 2..]
    ensures bs'[i].kind == bs[i].kind
    ensures var n, self, other := Size(bs[i]), bs[i].runs, bs[i + 1].runs;
      && Size(bs'[i]) == n + |other| - (if self[n - 1].style == other[0].style then 1 else 0)
      && bs'[i].runs[..n - 1] == self[..n - 1]
      && (self[n - 1].style == other[0].style ==>
            && bs'[i].runs[n - 1] == Run(self[n - 1].style, self[n - 1].text + other[0].text)
            && bs'[i].runs[n..] == other[1..])
      && (self[n - 1].style != other[0].style ==> bs'[i].runs == self + other)
  {
    var n, self, other := Size(bs[i]), bs[i].runs, bs[i + 1].runs;
    var runs := CombineRunsAt(self + other, n - 1);
    assert (self + other)[..n - 1] == self[..n - 1];
    assert (self + other)[n + 1..] == other[1..];
    bs[..i] + [Block(bs[i].kind, runs)] + bs[i + 2..]
  }

  /** Splitting a block never changes the characters of the document. */
  lemma SplitBlockAtKeepsText(bs: seq<Block>, i: nat, k: nat)
    requires i < |bs| && k <= Size(bs[i])
    ensures BlocksText(SplitBlockAt(bs, i, k)) == BlocksText(bs)
  {
    var bs' := SplitBlockAt(bs, i, k);
    BlocksTextAroundPair(bs', i);
    RunsTextAppend(bs'[i].runs, bs'[i + 1].runs);
    BlocksTextAround(bs, i);
  }

  /** Combining two blocks never loses text, whether or not the runs at
      the seam fuse. */
  lemma CombineBlocksAtKeepsText(bs: seq<Block>, i: nat)
    requires i + 1 < |bs| && Size(bs[i]) > 0 && Size(bs[i + 1]) > 0
    ensures BlocksText(CombineBlocksAt(bs, i)) == BlocksText(bs)
  {
    var self, other := bs[i].runs, bs[i + 1].runs;
    var bs' := CombineBlocksAt(bs, i);
    assert bs'[i].runs == CombineRunsAt(self + other, Size(bs[i]) - 1);
    CombineRunsAtKeepsText(self + other, Size(bs[i]) - 1);
    RunsTextAppend(self, other);
    BlocksTextAround(bs', i);
    BlocksTextAroundPair(bs, i);
  }

  /** Splitting a block at a run boundary and combining the two halves
      again gives back the block, except that the two runs at the seam
      fuse when their styles match; the receiver keeps its kind. */
  lemma SplitThenCombineBlocks(bs: seq<Block>, i: nat, k: nat)
    requires i < |bs| && 0 < k < Size(bs[i])
    ensures CombineBlocksAt(SplitBlockAt(bs, i, k), i) == WithRuns(bs, i, CombineRunsAt(bs[i].runs, k - 1))
    ensures bs[i].runs[k - 1].style != bs[i].runs[k].style ==> CombineBlocksAt(SplitBlockAt(bs, i, k), i) == bs
  {
    var rs := bs[i].runs;
    var split := SplitBlockAt(bs, i, k);
    assert split[i].runs + split[i + 1].runs == rs;
    var c := CombineBlocksAt(split, i);
    var w := WithRuns(bs, i, CombineRunsAt(rs, k - 1));
    assert c[i] == w[i];
    assert c[..i] == w[..i];
    assert c[i + 1..] == w[i + 1..];
    assert c == c[..i] + [c[i]] + c[i + 1..];
    assert w == w[..i] + [w[i]] + w[i + 1..];
    if rs[k - 1].style != rs[k].style {
      assert w == bs;
    }
  }

  // ---- The loop of `combine` as written ----

  /** The runs at even positions (0, 2, 4, ...). */
  function EvenPositions(rs: seq<Run>): (r: seq<Run>)
    ensures |r| == (|rs| + 1) / 2
  {
    seq((|rs| + 1) / 2, j requires 0 <= j < (|rs| + 1) / 2 => rs[2 * j])
  }

  /** The runs at odd positions (1, 3, 5, ...). */
  function OddPositions(rs: seq<Run>): (r: seq<Run>)
    ensures |r| == |rs| / 2
  {
    seq(|rs| / 2, j requires 0 <= j < |rs| / 2 => rs[2 * j + 1])
  }

  /** The loop at component.ts:163-165, which iterates over the LIVE child
      collection of the other block while `appendChild` takes each child
      out of it: every move shifts the remaining children one place to the
      left while the iterator's index still advances, so only the children
      at even positions are moved; `left` is what stays behind and is
      destroyed with the other block. */
  method MoveLiveChildren(children: seq<Run>) returns (moved: seq<Run>, left: seq<Run>)
    ensures moved == EvenPositions(children)
    ensures left == OddPositions(children)
  {
    moved, left := [], children;
    var index := 0;
    while index < |left|
      invariant |left| == |children| - index
      invariant 2 * index <= |children| + 1
      invariant |moved| == index
      invariant forall j :: 0 <= j < index ==> moved[j] == children[2 * j]
      invariant forall j :: 0 <= j < index && j < |left| ==> left[j] == children[2 * j + 1]
      invariant 2 * index <= |children| ==> left[index..] == children[2 * index..]
    {
      moved := moved + [left[index]];
      left := left[..index] + left[index + 1..];
      index := index + 1;
    }
  }

  /** `combine` as the code is written: only the runs at even positions of
      the other block reach the receiver (the seam run, position 0, is
      always among them, so the boundary fusion still happens). */
  function CombineBlocksAsWritten(bs: seq<Block>, i: nat): (bs': seq<Block>)
    requires i + 1 < |bs| && Size(bs[i]) > 0 && Size(bs[i + 1]) > 0
    ensures |bs'| == |bs| - 1
    ensures bs'[..i] == bs[..i] && bs'[i + 1..] == bs[i + 2..]
    ensures bs'[i].kind == bs[i].kind
    ensures Size(bs[i + 1]) >= 2 ==> Size(bs'[i]) < Size(CombineBlocksAt(bs, i)[i])
  {
    var n, self, moved := Size(bs[i]), bs[i].runs, EvenPositions(bs[i + 1].runs);
    assert moved[0] == bs[i + 1].runs[0];
    bs[..i] + [Block(bs[i].kind, CombineRunsAt(self + moved, n - 1))] + bs[i + 2..]
  }

  /** As written, combining `[P("A")]` with `[P("C", bold "D")]` loses "D". */
  lemma CombineAsWrittenLosesText()
    ensures var bs := [Block(Paragraph, [Run(Normal, "A")]), Block(Paragraph, [Run(Normal, "C"), Run(Bold, "D")])];
      && BlocksText(bs) == "ACD"
      && BlocksText(CombineBlocksAsWritten(bs, 0)) == "AC"
      && BlocksText(CombineBlocksAt(bs, 0)) == "ACD"
  {
    var a, c, d := Run(Normal, "A"), Run(Normal, "C"), Run(Bold, "D");
    var bs := [Block(Paragraph, [a]), Block(Paragraph, [c, d])];
    BlocksTextAround(bs, 0);
    assert bs[1..] == [bs[1]];
    BlocksTextSingle(bs[1]);
    RunsTextSingle(a);
    RunsTextPair(c, d);
    assert BlocksText(bs) == "ACD";
    assert EvenPositions([c, d]) == [c];
    assert [a] + [c] == [a, c];
    assert "A" + "C" == "AC";
    assert CombineRunsAt([a, c], 0) == [Run(Normal, "AC")];
    var w := CombineBlocksAsWritten(bs, 0);
    assert w == [Block(Paragraph, [Run(Normal, "AC")])];
    BlocksTextSingle(w[0]);
    RunsTextSingle(Run(Normal, "AC"));
    CombineBlocksAtKeepsText(bs, 0);
  }
}
