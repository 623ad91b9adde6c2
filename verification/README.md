# Colour-similarity transfer, modelled in Dafny

This project models `rearrangePixels` from the pixel-rearranger web page. The
function takes two equally sized RGBA canvas buffers. The *source* supplies the
structure and the *map* supplies the colours. It builds a result in which every
source pixel keeps its position but takes a colour from the map. There are three
stages:

1. **Luminance ranking.** Every pixel of both buffers gets a BT.709 luma score.
   The source entries carry their byte offset (`originalIndex`). The map
   entries carry their offset (`colorIndex`) and a copy of the four channels.
   Both lists are sorted stably by ascending luma, giving `structureMap` and
   `colorMap`.
2. **Windowed nearest-colour match.** For source rank `rank`, the matcher scans
   the map ranks in `[max(0, rank - W), min(N, rank + W))`. It keeps the
   candidate with the least squared RGB distance to the source pixel's own
   colour. A strict `<` means the first minimum wins. The default is `rank`.
3. **Compositing.** The chosen map pixel's four bytes, alpha included, are
   copied into the result at the source pixel's `originalIndex`.

Modules follow the stages:

- `Pixels` (`pixels.dfy`): bytes, `Rgba`, pixel offsets, luma, squared distance.
- `StableSort` (`stable_sort.dfy`): ranked entries and a stable ascending sort.
- `Ranking` (`ranking.dfy`): entry construction and the two ranked lists.
- `Matcher` (`matcher.dfy`): the search window and the first-minimum scan.
- `Compositor` (`compositor.dfy`): the imperative rank loop and its end-to-end properties.

Modelling choices:

- The pixel count `N` (500 × 500 in the page) and the window radius `W` (10 in
  the page) are parameters.
- Both buffers must have length `4 * N`; this is a precondition. The code never
  checks it, and it indexes the map buffer with the source loop's index.
- Luma is the exact natural number `2126 R + 7152 G + 722 B`. That is exactly
  10^4 times the real score `0.2126 R + 0.7152 G + 0.0722 B` (`Pixels.Luma`),
  so the two compare the same way (`Pixels.LumaOrdersLikeScore`).
- The `Infinity` starting minimum of the scan is the `Infinity` case of
  `Matcher.Bound`.
- The engine's sort algorithm is not modelled. The model fixes an insertion sort
  and proves that "ascending and stable" determines the result uniquely
  (`StableSort.SortIsTheStableOrder`). Every stable ascending sort therefore
  yields the same ranked lists.

Points where the code behaves differently from what one might expect; the
model follows the code:

- A check on buffer shape would be natural here, but `rearrangePixels` has no
  such check. The lengths are therefore a precondition, not an error result.
- With radius 0 one might expect the window `[rank, rank + 1)`. In the code it
  is `[rank, rank)`, which is empty, and the default `bestMatchIndex = rank`
  applies. The outcome is the same rank-for-rank swap
  (`Matcher.SearchWindow`, `Compositor.ZeroWindowSwapsRanks`).
- The window is empty exactly when `W = 0`.
- The window is asymmetric. It holds up to `W` ranks below `rank` but only
  `W - 1` above it, because `rank + W` is excluded.

## Model

| member | source | states |
|---|---|---|
| Pixels.Luma | script.js:86-89 | The integer luma is exactly 10^4 times the page's real score `0.2126 R + 0.7152 G + 0.0722 B`. It lies between 10^4 times the least and the greatest colour channel, as a weighted average must; alpha takes no part. |
| Pixels.LumaOrdersLikeScore | script.js:89 | Two pixels' lumas compare (≤ and =) exactly as their real scores do, so ranking by luma is ranking by the page's score. |
| Pixels.Distance | script.js:132-135 | The squared RGB distance is zero exactly when the red, green and blue channels agree; alpha takes no part. |
| StableSort.Sort | script.js:111-112 | The sorted list has the input's length and is a permutation of it (equal multisets). |
| StableSort.InsertAscending | script.js:111-112 | Inserting an entry into a brightness-ascending list keeps it ascending. |
| StableSort.SortAscending | script.js:111-112 | The sorted list is non-decreasing in brightness. |
| StableSort.InsertWithBrightness | script.js:111-112 | Insertion puts the new entry at the front of its own brightness class and leaves every other class unchanged. |
| StableSort.SortWithBrightness | script.js:111-112 | For every brightness value, the entries with that value appear in the sorted list in their input order (stability). |
| StableSort.SortIsStable | script.js:111-112 | The sorted list is ascending and stable. |
| StableSort.StableOrderIsUnique | script.js:111-112 | Two ascending lists with the same entries, class by class in the same order, are equal. So a stable ascending sort has only one possible result. |
| StableSort.SortIsTheStableOrder | script.js:111-112 | A list is a stable ascending order of the input exactly when it equals the model's sort (both directions). |
| StableSort.InsertKeepsTies | script.js:111-112 | Inserting an entry whose tag precedes all others keeps equal-brightness entries in tag order and keeps tags distinct. |
| StableSort.SortKeepsScanOrder | script.js:111-112 | If the input is in strictly increasing tag (scan) order, then after sorting the entries of equal brightness are still in tag order, and no two entries share a tag. |
| Ranking.StructureEntries | script.js:85-94 | Source entry `p` carries offset `4p` and the luma of the source pixel at that offset. |
| Ranking.ColorEntries | script.js:96-108 | Map entry `p` carries offset `4p`, the four channels stored there, and their luma. |
| Ranking.StructureMap | script.js:111 | `structureMap` has `N` entries, and each `originalIndex` is a pixel offset. |
| Ranking.ColorMap | script.js:112 | `colorMap` has `N` entries, and each `colorIndex` is a pixel offset. |
| Ranking.StructureMapIsPermutation | script.js:85-111 | Rank to `originalIndex` is a bijection onto `{0, 4, …, 4(N-1)}`: every rank maps to an offset, no two ranks share one, and every offset is reached. |
| Ranking.ColorMapIsPermutation | script.js:96-112 | Rank to `colorIndex` is a bijection onto the pixel offsets. |
| Ranking.ColorMapMatchesBuffer | script.js:96-112 | Every ranked map entry's r, g, b, a equal the map buffer's bytes at its `colorIndex`, and its brightness is their luma. |
| Ranking.StructureMapRanked | script.js:85-111 | Each ranked source entry's brightness is the luma of the source pixel at its `originalIndex`. The list ascends in luma, and equal-luma entries are ordered by `originalIndex`, which is scan order. |
| Ranking.ColorMapRanked | script.js:96-112 | The ranked map list ascends in luma, and equal-luma entries are ordered by `colorIndex`, which is scan order. |
| Ranking.RankingsAreStableSorts | script.js:111-112 | Both ranked lists are stable ascending orders of their scan-order entry lists. |
| Matcher.SearchWindow | script.js:127-128 | The window lies inside `[0, N)`. A rank `c` is searched exactly when `0 ≤ c < N` and `rank - W ≤ c < rank + W`, so `rank + W` is excluded. The window is empty exactly when `W = 0`. |
| Matcher.ScanFrom | script.js:130-141 | Starting from the loop state after the first part of the window, the scan returns the first rank of minimum distance over the whole window. Over an empty window it keeps the initial best rank. |
| Matcher.BestMatchIndex | script.js:124-141 | `bestMatchIndex` is a valid rank. For `W > 0` it is in the window, no candidate is closer, and every earlier candidate is strictly farther. For `W = 0` it is `rank`. |
| Matcher.FirstNearestIsUnique | script.js:137-140 | At most one rank of a window is a first nearest candidate, so the strict `<` tie-break fixes the answer. |
| Matcher.BestMatchCharacterized | script.js:124-141 | A rank equals `bestMatchIndex` exactly when it is the first nearest candidate of the window (for `W > 0`), or `rank` itself (for `W = 0`). |
| Compositor.ChosenRank | script.js:117-141 | The map rank matched to source rank `rank` is a rank of the list. For `W > 0` it lies in the search window, and for `W = 0` it is `rank` itself. |
| Compositor.ChosenColorIndex | script.js:143-144 | The `colorSourceIndex` of source rank `rank` is a pixel offset, and the map bytes there are the colour stored in the matched `colorMap` entry. |
| Compositor.MatchRank | script.js:117-144 | One rank of the loop body up to the write. `resultIndex` is the rank's `originalIndex`, a pixel offset. `bestMatchIndex` is `rank` when `W = 0`; when `W > 0` it is the first nearest map rank of the window: no window entry is closer to the source pixel's colour, and every earlier one is strictly farther. `colorSourceIndex` is that entry's `colorIndex`, a pixel offset whose map bytes are the entry's stored colour. |
| Compositor.CopyPixel | script.js:146-149 | The exact frame of the four byte writes: `dst[..] == WithPixel(old(dst[..]), off, Quad(mapPx, from))`. The four bytes at `off` become the map pixel at `from`, and no other byte of `dst` changes. |
| Compositor.WithPixel | script.js:146-149 | Writing a pixel puts the four given bytes at the offset and changes no other byte. |
| Compositor.Rearrange | script.js:116-149 | The rank loop produces a `4N`-byte buffer. For every rank, the pixel at that rank's `originalIndex` holds the map pixel at the chosen `colorIndex`. The ghost `writes` ends as all 1s; that it counts real writes rests on the body, which increments it next to each `CopyPixel`, and on the loop invariant `Progress`. For a caller, the content is `IsRearrangement` together with `Ranking.StructureMapIsPermutation`. |
| Compositor.SourceStep | script.js:117-149 | One loop iteration keeps the invariant `Progress`. The pixel written at rank `rank` had count 0, and afterwards exactly the pixels of the ranks done so far are painted with their chosen map pixel and counted once. |
| Compositor.ProgressComplete | script.js:116-149 | When the invariant holds after all `N` ranks, the buffer is the rearrangement and every pixel's write count is 1. |
| Compositor.CountNextWrite | script.js:143-149 | When no two ranks share an offset, the pixel written at the next rank has count 0 before the write. After its count is incremented, exactly the pixels of the ranks done so far have count 1 and all others 0. |
| Compositor.AllWrittenOnce | script.js:116-149 | After all `N` ranks, every pixel of the result has been written exactly once. |
| Compositor.WriteKeepsOtherQuads | script.js:146-149 | Writing the pixel of one rank leaves the pixels already written for earlier ranks unchanged. |
| Compositor.RearrangementIsUnique | script.js:116-149 | Any two buffers meeting the rank-wise characterisation are equal byte for byte, so the transform is deterministic and fully specified. |
| Compositor.OutputDrawnFromMap | script.js:143-149 | Every result pixel, alpha included, equals some map pixel verbatim. |
| Compositor.MonochromeMap | script.js:143-149 | If every map pixel has the same RGBA value, every result pixel has that value, whatever the source and `W`. |
| Compositor.ZeroWindowSwapsRanks | script.js:124-149 | With `W = 0`, the source pixel of rank `rank` gets the map pixel of rank `rank`, a pure rank-for-rank swap. |
| Compositor.ChosenColorIsNearest | script.js:116-149 | With `W > 0`, the colour written for a source pixel is the stored colour of a map entry in its window. Its RGB distance to the source colour is ≤ that of every window entry, and < that of every window entry ranked before it. |

## Left out

- Canvas setup, `getImageData`, `createImageData`, `putImageData` and image
  drawing or scaling are left out. They are browser I/O; the model takes both
  buffers as arguments and returns the result buffer.
- File upload, `FileReader` and `Image` decoding, the `imagesLoaded` flags and
  the `setTimeout` trigger are left out. They are asynchronous event plumbing.
- Floating-point luma is left out and exact integer luma is used instead. Any
  change in rank order caused by IEEE-754 rounding of
  `0.2126 R + 0.7152 G + 0.0722 B` in the page is not modelled.
- The try/catch, `console.log` and `alert` reporting are left out. They are
  diagnostics only.
- The engine's own sort algorithm and its running time are left out. The
  engine's sort is O(N log N), and the model's insertion sort is
  quadratic. Only the sort's result is modelled, and
  `StableSort.SortIsTheStableOrder` shows that result is the same for every
  stable ascending sort.
- Buffers whose length differs from `4 * N` are left out. The code does not
  check them, and the two mismatches fail differently. A map buffer shorter
  than the source gives `undefined` reads past its end, so that map
  brightness becomes `NaN`. A source buffer shorter than `4 * N` leaves
  `structureMap[rank]` `undefined` for late ranks, so reading `originalIndex`
  (script.js:117-118) throws. The `catch` at script.js:155-158 then logs it
  and shows an `alert`.
