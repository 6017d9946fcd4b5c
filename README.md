# grimoir document tree, in Dafny

grimoir is a browser rich-text editor. Its document is a tree:

- the **editor** element holds an ordered list of **components** (blocks);
- a component is a Paragraph, a Heading1 or an UnorderedList;
- a component holds an ordered list of **subcomponents** (runs);
- a subcomponent is a span of text with one style: Normal, Bold or Italic.

Every edit (splitting, combining and trimming runs and blocks, pressing Enter, deleting a selection) rewrites this one tree in place.

The model has two layers:

- Values. `Runs.Run(style, text)` and `Blocks.Block(kind, runs)` are datatypes. A document is a `seq<Block>`. Each source operation has a pure function saying what the tree becomes. Lemmas prove what those functions promise: no text is lost, split and combine are inverse, the caret stays put, and the range delete's text law holds.
- State. `Documents.Document` is a class whose field `blocks` every method reassigns. Each method does the steps the source does, in the source's order: one `remove()` at a time, loops where the source loops, and the three cases of the range delete. Each method is proved to leave exactly the blocks that its function describes. One exception: `Document.CombineBlock` moves every run of the other block, which is what the combine loop in component.ts evidently intends; the loop as written is kept apart (see "## Findings").

A run or block is addressed by its index. The source never stores an index either: it recomputes the index from the DOM each time it needs one.

Modules:

- `Slices`: the shared "drop [a, b) when a <= b, else nothing" cut.
- `Runs`: `subcomponent.ts`.
- `Blocks`: `component.ts`.
- `Positions`: caret and range positions, and the text before and after them.
- `Editor`: `editor.ts`.
- `Selection`: `selection_utils.ts`.
- `Documents`: the in-place tree.

The two enums are the datatypes `Runs.Style` (subcomponent.ts:6-10) and `Blocks.Kind` (component.ts:7-11).

The source calls `editor.remove_between(first, last)` (selection_utils.ts:210), but `Editor` in editor.ts defines no such method. As written, that call throws a TypeError (and does not type-check), so the cross-block case of the range delete stops before changing anything. The model gives the call the meaning of the component-level `remove_between`: drop blocks [first, last), or nothing when first > last. With that, the cross-block case goes on to `Component.combine`.

## Model

| member | source | states |
|---|---|---|
| Runs.RemoveBefore | src/subcomponent.ts:215-217 | keeps the style; the result is the text from offset `i` on, and the first `i` characters followed by it give back the original text |
| Runs.RemoveFrom | src/subcomponent.ts:224-226 | keeps the style; the result is exactly the first `i` characters, and it followed by the rest gives back the original text |
| Runs.RemoveBetween | src/subcomponent.ts:234-238 | when start <= end, exactly the characters [start, end) go and the rest is kept on both sides; when start > end, the run is unchanged |
| Runs.Split | src/subcomponent.ts:166-185 | both halves keep the style; the first has exactly `k` characters; the two halves concatenated are the original text |
| Runs.Join | src/subcomponent.ts:193-201 | the two runs fuse into one if and only if their styles are equal; otherwise both are kept untouched; either way the text is the two texts concatenated |
| Runs.SplitRunAt | src/subcomponent.ts:166-185 | one run more; runs before and after the split run keep their places; the receiver keeps the first `k` characters and the new run right after it has the same style and the rest |
| Runs.CombineRunsAt | src/subcomponent.ts:193-201 | one run fewer if and only if the styles match; then the receiver holds both texts and the other run is gone; otherwise the sequence is unchanged |
| Runs.CombineAtSeam | src/subcomponent.ts:193-201 | combining at the seam between `left` and `right` replaces exactly the two seam runs by their join |
| Runs.SplitRunAtKeepsText | src/subcomponent.ts:166-185 | splitting a run never changes the characters of its block |
| Runs.CombineRunsAtKeepsText | src/subcomponent.ts:193-201 | combining two runs never changes the characters of their block, whether or not they fuse |
| Runs.SplitThenCombine | src/subcomponent.ts:166-201 | split at any offset, then combine of the two pieces, gives back the original runs |
| Blocks.Size | src/component.ts:114-116 | the number of runs of the block, zero exactly when it has none |
| Blocks.NthRun | src/component.ts:123-125 | the run with exactly `i` runs before it and the rest of the block after it |
| Blocks.RemoveRunsBefore | src/component.ts:186-188 | keeps the kind; exactly the first `i` runs go; the removed ones followed by the result give back the original runs |
| Blocks.RemoveRunsFrom | src/component.ts:195-197 | keeps the kind; exactly the first `i` runs stay; they followed by the removed ones give back the original runs |
| Blocks.RemoveRunsBetween | src/component.ts:205-209 | when start <= end, exactly runs [start, end) go and the rest is kept on both sides; when start > end, the block is unchanged |
| Blocks.SplitBlockAt | src/component.ts:135-149 | one block more; the other blocks keep their places; the receiver keeps its kind and exactly its first `k` runs; the new Paragraph right after it holds the rest, in order |
| Blocks.CombineBlocksAt | src/component.ts:157-171 | one block fewer; the receiver keeps its kind and its runs up to the last; the last run fuses with the other block's first run exactly when their styles match; all the other block's remaining runs follow in order; the other blocks keep their places |
| Blocks.SplitBlockAtKeepsText | src/component.ts:135-149 | splitting a block never changes the characters of the document |
| Blocks.CombineBlocksAtKeepsText | src/component.ts:157-171 | the intended combine never changes the characters of the document |
| Blocks.SplitThenCombineBlocks | src/component.ts:135-171 | splitting a block at `k` and then combining gives the block with runs `k-1` and `k` combined; it gives back the original document when those two runs differ in style |
| Blocks.EvenPositions | src/component.ts:163-165 | the runs at positions 0, 2, 4, and so on: half the runs, rounded up |
| Blocks.OddPositions | src/component.ts:163-165 | the runs at positions 1, 3, 5, and so on: half the runs, rounded down |
| Blocks.MoveLiveChildren | src/component.ts:163-165 | the loop over the live child collection moves exactly the runs at even positions; the runs at odd positions stay behind |
| Blocks.CombineBlocksAsWritten | src/component.ts:157-171 | combine as written: one block fewer, the other blocks keep their places, the receiver keeps its kind, and when the other block has two or more runs the receiver ends with fewer runs than the intended combine gives |
| Blocks.CombineAsWrittenLosesText | src/component.ts:157-171 | on `[P("A")]`, `[P("C", bold "D")]` the document text "ACD" becomes "AC" as written and stays "ACD" with the intended combine |
| Positions.TextAroundPosition | src/selection_utils.ts:183-189 | a valid position cuts the document text into a "before" and an "after" that concatenate back to it |
| Editor.RemoveBlocksBetween | src/selection_utils.ts:210 | when start <= end, exactly blocks [start, end) go and the rest is kept on both sides; when start > end, nothing changes |
| Editor.InsertLineAt | src/editor.ts:55-69 | one block more; the caret's block keeps its kind, its runs before the caret's run, and that run cut at the caret; a new Paragraph right after it starts with a run of the same style holding the text after the caret, then the runs after the caret's run; every other block keeps its place |
| Editor.InsertLineKeepsText | src/editor.ts:55-69 | pressing Enter never changes the characters of the document |
| Editor.InsertLineCaret | src/editor.ts:67-68 | the new caret, offset 0 of the new block's first run, is valid and has the same text before and after it as the old caret |
| Editor.InsertLineExample | src/editor.ts:55-69 | Enter after "Hello" in "Hello World" leaves "Hello" and a new Paragraph " World" |
| Selection.DeleteRange | src/selection_utils.ts:194-242 | the blocks before the start block and after the end block are kept; in between, one block of the start block's kind begins with the runs before the start run and ends with the runs after the end run; the seam between them (the two cut boundary runs, joined) is given by the function's body and pinned by `CrossBlockIsCombine`, `DeleteWithinRun` and `Document.DeleteAcrossRuns` |
| Selection.DeleteRangeText | src/selection_utils.ts:194-242 | after deleting a range, the document text is the text before its start followed by the text after its end |
| Selection.CrossBlockIsCombine | src/selection_utils.ts:207-222 | the cross-block delete is: trim both boundary blocks, drop the blocks between them, then combine the two that meet |
| Selection.DeleteWithinRun | src/selection_utils.ts:237-241 | a range inside one run removes exactly the characters between its offsets from that run, and nothing else changes |
| Selection.DeleteAcrossRunsExample | src/selection_utils.ts:224-235 | deleting from "Hel\|lo" to "Wo\|rld" in two Normal runs leaves the single run "Helrld" |
| Selection.DeleteAcrossBlocksExample | src/selection_utils.ts:207-222 | deleting from "A\|B" to "C\|D" across two paragraphs leaves the one paragraph "AD" |
| Selection.DeleteAll | src/selection_utils.ts:107-122 | deleting the ranges one after another never adds blocks, and a non-empty selection always leaves at least one block |
| Documents.Document.SetText | src/subcomponent.ts:75-78 | only the text of the addressed run changes |
| Documents.Document.SplitRun | src/subcomponent.ts:166-185 | the blocks become `SplitRunAt` applied in the run's block; the returned position is offset 0 of the new run and is valid |
| Documents.Document.RemoveRun | src/subcomponent.ts:206-208 | exactly the addressed run leaves its block |
| Documents.Document.CombineRun | src/subcomponent.ts:193-201 | the blocks become `CombineRunsAt` applied in the run's block |
| Documents.Document.RemoveTextBefore | src/subcomponent.ts:215-217 | only the addressed run changes, as `RemoveBefore` says |
| Documents.Document.RemoveTextFrom | src/subcomponent.ts:224-226 | only the addressed run changes, as `RemoveFrom` says |
| Documents.Document.RemoveTextBetween | src/subcomponent.ts:234-238 | only the addressed run changes, as `RemoveBetween` says |
| Documents.Document.RemoveBlock | src/component.ts:176-178 | exactly the addressed block leaves the document |
| Documents.Document.SplitBlock | src/component.ts:135-149 | moving the runs one at a time into a new Paragraph, which is inserted after the block, gives `SplitBlockAt`; it returns the index of the new block |
| Documents.Document.CombineBlock | src/component.ts:157-171 | moving every run of the other block, then combining at the seam, then removing the other block, gives `CombineBlocksAt` |
| Documents.Document.RemoveRunsBefore | src/component.ts:186-188 | removing the first runs one by one gives `Blocks.RemoveRunsBefore` in that block |
| Documents.Document.RemoveRunsFrom | src/component.ts:195-197 | removing the runs from the index on, one by one, gives `Blocks.RemoveRunsFrom` in that block |
| Documents.Document.RemoveRunsBetween | src/component.ts:205-209 | removing the runs in the range one by one gives `Blocks.RemoveRunsBetween` in that block |
| Documents.Document.RemoveBlocksBetween | src/selection_utils.ts:210 | removing the blocks in the range one by one gives `Editor.RemoveBlocksBetween` |
| Documents.Document.InsertNewLine | src/editor.ts:55-69 | splitting the run and then its block gives `InsertLineAt`; the returned caret is offset 0 of the new block's first run and is valid |
| Documents.Document.DeleteRange | src/selection_utils.ts:194-242 | the source's three cases, taken as the source takes them, all give `Selection.DeleteRange` |
| Documents.Document.DeleteAcrossBlocks | src/selection_utils.ts:207-222 | the different-blocks case gives `Selection.DeleteRange` |
| Documents.Document.TrimAcrossBlocks | src/selection_utils.ts:209-218 | after its first five steps, the blocks between are gone, the start block ends with its start run cut at the start offset, and the end block begins with its end run cut at the end offset |
| Documents.Document.DeleteAcrossRuns | src/selection_utils.ts:224-235 | the same-block, different-runs case gives `Selection.DeleteRange` |
| Documents.Document.DeleteRanges | src/selection_utils.ts:107-122 | deleting each range in turn gives `Selection.DeleteAll` |

## Left out

- DOM plumbing is not modelled: element lookup, `parentElement`, `children.indexOf`, class lists, and the errors thrown when a lookup fails. Positions are indices into the model, so every lookup succeeds by construction.
- The `text_node` getter and the style and kind getters and setters are not modelled. They read or write the DOM. The model stores the style and the kind directly.
- Caret placement is left out. `set_caret` and the caret reset at the end of `SelectionUtils.remove` move the browser's selection. The new caret position is stated instead, by `InsertNewLine`'s result and by `Editor.InsertLineCaret`. That is the caret the code intends. The source fails to place it when Enter is pressed at the end of a run. Then `split` creates a run with empty text, and setting `textContent` to "" (subcomponent.ts:50, 77) creates no text node. So `set_caret` throws at `text_node` (selection_utils.ts:96, subcomponent.ts:145-155), after both splits have happened.
- JavaScript `substring` clamping is not modelled. `substring` clamps out-of-range indices and swaps reversed ones; the run functions require their indices to lie inside the text.
- UTF-16 code units are not modelled. Text is a sequence of characters.
- Event wiring (`key_pressed` and `EditorController`), `app.ts` and `utils.ts` are not part of this model.
- Runs.CombineRunsAt: run `combine(other)` is modelled only for `other` the next sibling. That is the only way the source calls it. Combining runs that are not adjacent would also move text across runs in between.
- Blocks.CombineBlocksAt: `Component.combine(other)` is modelled only for `other` the next block. That is how its only caller uses it: selection_utils.ts:221, after line 210 has dropped the blocks in between. `Documents.Document.CombineBlock` has the same restriction.
- Blocks.CombineBlocksAt: requires both blocks to be non-empty. The source reads `nth_subcomponent(size - 1)` and `nth_subcomponent(0)` without a check, and on an empty block those wrap a missing element.
- Selection.DeleteAll: a browser selection with several ranges adjusts the later ranges live as the earlier ones delete. The model instead takes each range as addressing the document that the earlier deletions left (`Selection.Applicable`).
- Selection.DeleteRange: requires the start to come no later than the end. DOM ranges always satisfy this.
- `Component.editor` is a lookup of the parent element. The model has a single document, so it is the document itself.

## Findings

| source | as written | input that shows it | evidently intended | confidence | as-written member | corrected member |
|---|---|---|---|---|---|---|
| src/component.ts:163-165 | `for (let subcomponent of other.dom_element.children)` iterates the live child collection while `appendChild` removes each child from it, so only the children at even positions move; the rest are destroyed by `other.remove()` | combining `[P("A")]` with `[P("C", bold "D")]`: document text "ACD" becomes "AC" | every run of the other block moves, in order, and no text is lost | not executed | Blocks.CombineAsWrittenLosesText | Blocks.CombineBlocksAtKeepsText |

The as-written loop is `Blocks.MoveLiveChildren` and `Blocks.CombineBlocksAsWritten`. The defect is in the method itself. As the repository stands, no path reaches it. Its only caller is the cross-block range delete (selection_utils.ts:221), and that case throws first, at the missing `editor.remove_between` (selection_utils.ts:210). The rest of the model uses the corrected `Blocks.CombineBlocksAt`, which `Documents.Document.CombineBlock` implements, so the cross-block range delete loses no text (`Selection.DeleteRangeText`).
