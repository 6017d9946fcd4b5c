/** Runs ("subcomponents"): styled spans of text, the leaves of the tree,
    and the edits `Subcomponent` makes to a run and to the run sequence of
    the block that holds it. The state-changing methods are on
    `Documents.Document`; this module gives their meaning as values. */
module Runs {
  import opened Slices

  /** The style classes a run can carry. */
  datatype Style = Normal | Bold | Italic

  datatype Run = Run(style: Style, text: string)

  /** The characters of a sequence of runs, in order. */
  function RunsText(rs: seq<Run>): string
  {
    if rs == [] then "" else rs[0].text + RunsText(rs[1..])
  }

  lemma {:induction false} RunsTextAppend(a: seq<Run>, b: seq<Run>)
    ensures RunsText(a + b) == RunsText(a) + RunsText(b)
  {
    if a == [] {
      assert a + b == b;
    } else {
      assert (a + b)[1..] == a[1..] + b;
      RunsTextAppend(a[1..], b);
    }
  }

  lemma RunsTextThree(left: seq<Run>, mid: seq<Run>, right: seq<Run>)
    ensures RunsText(left + mid + right) == RunsText(left) + RunsText(mid) + RunsText(right)
  {
    RunsTextAppend(left + mid, right);
    RunsTextAppend(left, mid);
  }

  lemma RunsTextSingle(a: Run)
    ensures RunsText([a]) == a.text
  {
    assert [a][1..] == [];
  }

  /** The text of a block seen around one of its runs. */
  lemma RunsTextAround(rs: seq<Run>, i: nat)
    requires i < |rs|
    ensures RunsText(rs) == RunsText(rs[..i]) + rs[i].text + RunsText(rs[i + 1..])
  {
    SpliceOne(rs, i);
    RunsTextThree(rs[..i], [rs[i]], rs[i + 1..]);
    RunsTextSingle(rs[i]);
  }

  lemma RunsTextPair(a: Run, b: Run)
    ensures RunsText([a, b]) == a.text + b.text
  {
    assert [a, b][1..] == [b];
    RunsTextSingle(b);
  }

  // ---- Edits of one run's text ----

  /** `remove_before(i)`: keeps the text from offset `i` on. */
  function RemoveBefore(r: Run, i: nat): (r': Run)
    requires i <= |r.text|
    ensures r'.style == r.style
    ensures |r'.text| == |r.text| - i
    ensures r.text == r.text[..i] + r'.text
  {
    Run(r.style, r.text[i..])
  }

  /** `remove_from(i)`: keeps the text before offset `i`. */
  function RemoveFrom(r: Run, i: nat): (r': Run)
    requires i <= |r.text|
    ensures r'.style == r.style
    ensures |r'.text| == i
    ensures r.text == r'.text + r.text[i..]
  {
    Run(r.style, r.text[..i])
  }

  /** `remove_between(a, b)`: drops exactly the characters [a, b), or
      nothing at all when a > b. */
  function RemoveBetween(r: Run, a: nat, b: nat): (r': Run)
    requires a <= b ==> b <= |r.text|
    ensures r'.style == r.style
    ensures a > b ==> r' == r
    ensures a <= b ==> |r'.text| == |r.text| - (b - a)
    ensures a <= b ==> r'.text[..a] == r.text[..a] && r'.text[a..] == r.text[b..]
  {
    Run(r.style, CutBetween(r.text, a, b))
  }

  /** The two halves `split(k)` produces: the receiver keeps the first `k`
      characters, the new run of the same style gets the rest. */
  function Split(r: Run, k: nat): (halves: (Run, Run))
    requires k <= |r.text|
    ensures halves.0.style == r.style && halves.1.style == r.style
    ensures |halves.0.text| == k
    ensures halves.0.text + halves.1.text == r.text
  {
    (Run(r.style, r.text[..k]), Run(r.style, r.text[k..]))
  }

  /** `a.combine(b)` on two adjacent runs: a single run holding both texts
      when the styles match, otherwise both runs, untouched. */
  function Join(a: Run, b: Run): (rs: seq<Run>)
    ensures a.style == b.style <==> |rs| == 1
    ensures a.style != b.style ==> rs == [a, b]
    ensures a.style == b.style ==> rs[0].style == a.style
    ensures RunsText(rs) == a.text + b.text
  {
    RunsTextPair(a, b);
    if a.style == b.style then [Run(a.style, a.text + b.text)] else [a, b]
  }

  // ---- Edits of a block's run sequence ----

  /** `split(k)` of run `i`: the run is cut in two and the second half is
      inserted right after it; every other run keeps its place. */
  function SplitRunAt(rs: seq<Run>, i: nat, k: nat): (rs': seq<Run>)
    requires i < |rs| && k <= |rs[i].text|
    ensures |rs'| == |rs| + 1
    ensures rs'[..i] == rs[..i] && rs'[i + 2..] == rs[i + 1..]
    ensures rs'[i].style == rs[i].style && rs'[i + 1].style == rs[i].style
    ensures |rs'[i].text| == k && rs'[i].text + rs'[i + 1].text == rs[i].text
  {
    var halves := Split(rs[i], k);
    rs[..i] + [halves.0, halves.1] + rs[i + 1..]
  }

  /** `combine` of run `i` with its next sibling `i + 1`: they fuse iff
      their styles match; otherwise the sequence is unchanged. */
  function CombineRunsAt(rs: seq<Run>, i: nat): (rs': seq<Run>)
    requires i + 1 < |rs|
    ensures |rs'| == if rs[i].style == rs[i + 1].style then |rs| - 1 else |rs|
    ensures rs'[..i] == rs[..i]
    ensures rs[i].style == rs[i + 1].style ==>
      rs'[i] == Run(rs[i].style, rs[i].text + rs[i + 1].text) && rs'[i + 1..] == rs[i + 2..]
    ensures rs[i].style != rs[i + 1].style ==> rs' == rs
  {
    var r := rs[..i] + Join(rs[i], rs[i + 1]) + rs[i + 2..];
    SplicePair(rs, i);
    r
  }

  /** Combining the run at `|left|` with its successor is `Join` at that seam. */
  lemma CombineAtSeam(left: seq<Run>, a: Run, b: Run, right: seq<Run>)
    ensures CombineRunsAt(left + [a, b] + right, |left|) == left + Join(a, b) + right
  {
    var rs := left + [a, b] + right;
    assert rs[..|left|] == left && rs[|left|] == a && rs[|left| + 1] == b;
    assert rs[|left| + 2..] == right;
  }

  /** Splitting a run never changes the characters of the block. */
  lemma SplitRunAtKeepsText(rs: seq<Run>, i: nat, k: nat)
    requires i < |rs| && k <= |rs[i].text|
    ensures RunsText(SplitRunAt(rs, i, k)) == RunsText(rs)
  {
    var halves := Split(rs[i], k);
    RunsTextThree(rs[..i], [halves.0, halves.1], rs[i + 1..]);
    RunsTextPair(halves.0, halves.1);
    SpliceOne(rs, i);
    RunsTextThree(rs[..i], [rs[i]], rs[i + 1..]);
    RunsTextSingle(rs[i]);
  }

  lemma RunsTextAroundPair(rs: seq<Run>, i: nat)
    requires i + 1 < |rs|
    ensures RunsText(rs) == RunsText(rs[..i]) + (rs[i].text + rs[i + 1].text) + RunsText(rs[i + 2..])
  {
    SplicePair(rs, i);
    RunsTextThree(rs[..i], [rs[i], rs[i + 1]], rs[i + 2..]);
    RunsTextPair(rs[i], rs[i + 1]);
  }

  /** Combining two runs never loses text, whether or not they fuse. */
  lemma CombineRunsAtKeepsText(rs: seq<Run>, i: nat)
    requires i + 1 < |rs|
    ensures RunsText(CombineRunsAt(rs, i)) == RunsText(rs)
  {
    RunsTextThree(rs[..i], Join(rs[i], rs[i + 1]), rs[i + 2..]);
    RunsTextAroundPair(rs, i);
  }

  /** `split(k)` followed by `combine` of the two pieces gives back the
      original runs: same text, same style, same run count. */
  lemma SplitThenCombine(rs: seq<Run>, i: nat, k: nat)
    requires i < |rs| && k <= |rs[i].text|
    ensures CombineRunsAt(SplitRunAt(rs, i, k), i) == rs
  {
    var rs' := SplitRunAt(rs, i, k);
    var c := CombineRunsAt(rs', i);
    assert c[i] == rs[i];
    assert |c| == |rs|;
    assert forall j :: 0 <= j < |rs| ==> c[j] == rs[j] by {
      forall j | 0 <= j < |rs| ensures c[j] == rs[j] {
        if j < i {
          assert c[..i][j] == rs'[..i][j];
        } else if j > i {
          assert c[i + 1..][j - i - 1] == rs'[i + 2..][j - i - 1];
        }
      }
    }
  }
}
