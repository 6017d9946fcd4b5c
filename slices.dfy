/** Sequence helpers shared by every level of the tree: text (a run),
    runs (a block) and blocks (the document). */
module Slices {

  /** Removes the half-open range [a, b) of `s`; a no-op when a > b.
      This is the meaning every `remove_between` of the editor gives to
      its two indices, whether they count characters, runs or blocks. */
  function CutBetween<T>(s: seq<T>, a: nat, b: nat): (r: seq<T>)
    requires a <= b ==> b <= |s|
    ensures a > b ==> r == s
    ensures a <= b ==> |r| == |s| - (b - a)
    ensures a <= b ==> r[..a] == s[..a] && r[a..] == s[b..]
  {
    if a <= b then s[..a] + s[b..] else s
  }

  /** `t` is what `s` ends with. */
  predicate IsSuffix<T(==)>(t: seq<T>, s: seq<T>)
  {
    |t| <= |s| && s[|s| - |t|..] == t
  }

  lemma SpliceOne<T>(s: seq<T>, i: nat)
    requires i < |s|
    ensures s == s[..i] + [s[i]] + s[i + 1..]
  {
  }

  lemma SplicePair<T>(s: seq<T>, i: nat)
    requires i + 1 < |s|
    ensures s == s[..i] + [s[i], s[i + 1]] + s[i + 2..]
  {
  }

  lemma ReplaceFirstOfPair<T>(p: seq<T>, x: T, y: T, q: seq<T>, x': T)
    ensures (p + [x, y] + q)[|p| := x'] == p + [x', y] + q
  {
  }

  lemma ReplaceSecondOfPair<T>(p: seq<T>, x: T, y: T, q: seq<T>, y': T)
    ensures (p + [x, y] + q)[|p| + 1 := y'] == p + [x, y'] + q
  {
  }

  /** Regrouping a concatenation of six pieces around its middle seam. */
  lemma RegroupAtSeam<T>(a: seq<T>, b: seq<T>, c: seq<T>, d: seq<T>, e: seq<T>, f: seq<T>)
    ensures (a + b + c) + (d + e + f) == a + (b + (c + d) + e) + f
  {
  }
}
