# cut: the packing search core, modelled in Dafny

The `cut` application plans how to cut rectangular pieces out of stock
sheets. A catalogue maps a piece size `(length, width)` to how many pieces of
that size are wanted. `packer.py` holds the search:

- `valid_types` decides which count assignments are worth trying on one
  sheet. Either the whole catalogue, when it asks for less area than the
  sheet, or every assignment of at most `min(count, int(sheet_area /
  piece_area))` pieces per size whose fill ratio lies strictly between
  `min_fill` and 1.
- `bin_permute` lists the orientations of the sheet.
- `CustomPacker.binpack` feeds one assignment to the rectangle-packing
  library and records the cuts, the sheet area and the area left over.
- `select_best` tries every heuristic × orientation × assignment, skips
  the combinations that raise, and returns the first one that leaves the
  least area unused.

The model keeps the code's shape:

- `_get_area` and `bin_permute` are functions.
- `valid_types` and `select_best` are methods whose loops carry invariants.
  Each is proved equal to a specification function (`ValidTypesSpec`,
  `SelectBestSpec`), and the properties are lemmas about those functions.
- `CustomPacker` is a class whose `Binpack` method updates its fields.

The rectangle-packing library is a parameter `place` of type `Placement`:
given the heuristic, the rotation flag, the sheets and the rectangles
added, it either raises (`None`) or yields the packed sheets. Python
exceptions are values of `Result`. A dict is a sequence of entries in
insertion order.

Files:

- `basics.dfy`: shared values.
- `area.dfy`: `_get_area`.
- `cross_product.dfy`: `itertools.product`.
- `valid_types.dfy`: `valid_types`.
- `orientation.dfy`: `bin_permute`.
- `packer.dfy`: `CustomPacker`.
- `search.dfy`: `select_best`.
- `scenarios.dfy`: two concrete catalogues.

Behaviour worth knowing:

- **Errors.** `select_best` has no error of its own for an empty candidate
  list or for every attempt raising: both surface as the `ValueError` of
  `np.argmin([])`. More than one sheet raises `NotImplementedError`, but an
  empty sheet list raises `IndexError` first, from `bins[0]` in
  `bin_permute`.
- **Orientation duplicates.** Orientations are not deduplicated: a square
  sheet is tried twice.
- **Empty packings.** A packing that places nothing leaves `remaining` at
  `None`. With two or more successful combinations, `np.argmin` then
  raises `TypeError`.
- **Piece rotation.** `select_best` always packs with piece rotation on,
  the library default, because it passes only `pack_algo`.
- **Four-type catalogue.** The catalogue `{(59.0, 34.0): 4, (39.5, 19.7): 4,
  (120.0, 0.3): 2, (88.7, 2.0): 2}` asks for 11563.4, more than the
  89.0 × 120.0 sheet's 10680.0. It is therefore pruned, not returned
  whole (`Scenarios.FourTypesArePruned`).
- **Degenerate sizes.** Piece sizes are not checked. A zero-area piece
  makes `valid_types` raise `ZeroDivisionError` when the catalogue asks for
  at least the sheet's area; a smaller catalogue is returned whole, zero-area
  pieces included. A zero-area sheet raises `ZeroDivisionError` once there is an assignment to divide.

## Model

| member | source | states |
|---|---|---|
| Basics.Dims.Canonical | packer.py:26 | the key with its sides in descending order: its length is at least its width, and it is the key itself or the key turned |
| Basics.Keys | packer.py:26 | `types.keys()` keeps the catalogue's length, order and keys |
| Area.AreaOfSmallCatalogues | packer.py:137-138 | the empty catalogue has area 0, a one-item catalogue has length × width × count |
| Area.AreaAppend | packer.py:137-138 | the area of two catalogues side by side is the sum of their areas |
| Area.AreaPermutation | packer.py:137-138 | the area does not depend on the order of the dict's items |
| CrossProduct.PrependMember | packer.py:156 | one step of the product holds exactly each head in front of each tail |
| CrossProduct.ProductMember | packer.py:156 | a sequence is in `product(*lists)` exactly when it picks one element of each list, position by position |
| CrossProduct.ProductLength | packer.py:156 | the product has as many elements as the product of the lists' lengths |
| CrossProduct.PrependLength | packer.py:156 | one step of the product has heads × tails elements |
| Subsets.Trunc | packer.py:153 | `int()` rounds toward zero: the integer part of a non-negative value, minus that of a negative one |
| Subsets.CountChoices | packer.py:154 | the counts 0..cap of one size, in order, none when the cap is negative; an entry is listed exactly when it has that size and a count at most the cap |
| Subsets.ChoicesProductMember | packer.py:150-156 | an assignment is produced exactly when it keeps the catalogue's sizes in order and gives each a count between 0 and its cap |
| Subsets.CapFitsBin | packer.py:152-153 | n pieces of one size, n at most its cap, fit within the sheet's area |
| Subsets.AssignmentsCount | packer.py:150-156 | the number of assignments tried is the product over the sizes of cap + 1 |
| Subsets.KeepInBandMember | packer.py:158-163 | an assignment is kept exactly when it was produced and its ratio lies strictly between `min_fill` and 1 |
| Subsets.ValidTypesExact | packer.py:140-164 | when the catalogue asks for at least the sheet's area and no exception is raised, every size has non-zero area, and an assignment is returned exactly when it is admissible and in the band |
| Subsets.PossibleCuts | packer.py:150-154 | the first loop yields each size's count choices in order, or raises ZeroDivisionError exactly when some size has zero area |
| Subsets.KeepValidCutSets | packer.py:158-164 | the second loop keeps the in-band assignments in order; it raises exactly when the sheet area is zero and there is an assignment to divide |
| Subsets.ValidTypes | packer.py:140-164 | equals `ValidTypesSpec`: the whole catalogue when it is smaller than the sheet; otherwise only ZeroDivisionError can escape, and every returned assignment is admissible and in the band |
| Orientation.BinPermuteSingle | packer.py:101-102 | one sheet (l, w) gives exactly `[[(l, w)], [(w, l)]]`, even when square, and this agrees with the cross product of orientations |
| Orientation.BinPermuteMultiSpec | packer.py:97-100 | the corrected multi-sheet enumeration holds exactly the choices of one orientation per sheet, 2^n of them |
| Orientation.AsWrittenIsNotTheCrossProduct | packer.py:97-100 | as written, two sheets give 2 one-element tuples, where the cross product has 4 pairs |
| Packer.Repeat | packer.py:27 | `count * (key,)` has `count` elements, all equal to the key |
| Packer.RepeatMultiplicity | packer.py:27 | the repeated key occurs `count` times and nothing else occurs |
| Packer.RectanglesMultiplicity | packer.py:27 | the rectangle list holds each size exactly as often as the dict's count for it, and nothing else |
| Packer.CountOfPresent | packer.py:27 | looking up a size present in the dict gives its count |
| Packer.RepeatArea | packer.py:27 | `count` copies of one size cover that entry's area |
| Packer.RectanglesArea | packer.py:27 | the rectangles handed to the library ask for exactly `_get_area` of the catalogue |
| Packer.NumberingCovers | packer.py:26 | every size is numbered under its canonical key |
| Packer.NumberingLast | packer.py:26 | only canonical keys are numbered, each with 1 + the index of the last size that has that canonical key |
| Packer.NumberingOfDistinct | packer.py:26 | when no two sizes share a canonical key, size i is numbered i + 1 |
| Packer.SingleBinRemaining | packer.py:37-43 | with one packed sheet, the remaining area is the sheet's area less the area of the recorded cuts |
| Packer.CustomPacker.constructor | packer.py:16-22 | a new packer has added nothing, is not packed, has no area, no remaining area, no types and no cuts |
| Packer.CustomPacker.AddRects | packer.py:28-29 | the rectangles are appended, in order, to those already added |
| Packer.CustomPacker.AddBins | packer.py:31-32 | the sheets are appended, in order, to those already added |
| Packer.CustomPacker.TallyBin | packer.py:38-43 | `area` becomes the sheet's area, `remaining` that area less the placed rectangles' areas, and the rectangles are appended to `cuts` |
| Packer.CustomPacker.Tally | packer.py:37-43 | after the loop, `cuts` holds all placed rectangles, sheet after sheet; `area` and `remaining` are the last sheet's, or unchanged when no sheet was yielded |
| Packer.CustomPacker.Binpack | packer.py:24-43 | numbers the sizes, adds the rectangles and sheets, succeeds exactly when the catalogue is non-empty and the library does not raise, and then records the packed sheets, all cuts, and the area and remaining area; on failure `cuts` is empty and the rest is untouched |
| Search.RowMember | packer.py:115 | for one heuristic, a combination is listed exactly when its orientation and assignment are among those given |
| Search.RowLength | packer.py:116 | one heuristic yields orientations × assignments combinations |
| Search.CombosMember | packer.py:115-116 | a combination is tried exactly when its heuristic, orientation and assignment are each among those given; there are `len(algos) * len(binperms) * len(vtypes)` |
| Search.CombosLength | packer.py:116 | the number of combinations is `len(algos) * len(binperms) * len(vtypes)` |
| Search.SuccessIndicesSpec | packer.py:117-128 | the successful positions are listed, each once, in increasing order, and none is missed |
| Search.SurvivorsIndexed | packer.py:117-128 | the parallel lists hold exactly the combinations that did not raise, in the order tried, each with its own remaining area |
| Search.FirstMin | packer.py:132 | the index of a smallest value, strictly below every earlier value |
| Search.ArgMin | packer.py:132 | `np.argmin`: ValueError exactly on an empty list; TypeError exactly when there are two or more results and one is None; otherwise the first smallest result |
| Search.NoResultIffNoSuccess | packer.py:117-132 | the result list is empty exactly when every combination raised |
| Search.TypeErrorIffNoneAmongSeveral | packer.py:117-132 | the comparison fails exactly when two combinations succeeded and one of them placed nothing |
| Search.FirstBestAt | packer.py:132-133 | the index `np.argmin` picks is a successful combination with the least remaining area, strictly less than every earlier success |
| Search.WinnerIsFirstMinimum | packer.py:117-133 | ValueError exactly when no combination succeeds; TypeError exactly when two or more succeed and one placed nothing; otherwise the winner succeeds, leaves no more area than any other success, and strictly less than every earlier one |
| Search.SelectBestOutcome | packer.py:104-135 | IndexError for no sheet, NotImplementedError for several; a returned combination has one of the given heuristics, the sheet as given or turned, and an assignment `valid_types` offers (the whole catalogue, or an admissible in-band assignment); its packing succeeds; ValueError exactly when no combination can be packed; the returned combination is the first one whose remaining area is least |
| Search.TryCombo | packer.py:118-128 | a fresh packer with rotation on succeeds exactly when the combination's packing does not raise, and then reports its remaining area |
| Search.SelectBest | packer.py:104-135 | equals `SelectBestSpec`, the sweep, skip, argmin and error order summarised in `SelectBestOutcome` and `WinnerIsFirstMinimum` |
| Scenarios.SingleTypeCap | packer.py:144-153 | 15 pieces of 36.0 × 19.7 ask for 10638.0 against a 79.0 × 109.0 sheet of 8611.0, with a cap of 12 |
| Scenarios.SingleTypeIsPruned | packer.py:140-164 | for that catalogue, 12 pieces are offered, while 9 pieces and the whole catalogue are not |
| Scenarios.FourTypesArePruned | packer.py:140-164 | the four-size catalogue asks for 11563.4, at least the 89.0 × 120.0 sheet's area, so it is pruned and not returned whole |

## Left out

- The rectangle-packing library (`newPacker`, `add_rect`, `add_bin`,
  `pack` and iterating over the packer) is the oracle `place`. How it
  places rectangles, and which it silently drops, is not modelled.
- Any exception raised while creating the packer or packing is one `None`
  of the oracle. The model does not tell them apart, and neither does the
  bare `except Exception`.
- `plot` and `draw_packer` (packer.py:45-92) are left out: they draw
  matplotlib figures and render them in Streamlit.
- The Streamlit progress bar in `select_best` (packer.py:111, 129-130) is
  left out; `ncombs` serves only that bar.
- The multi-sheet search is left out: `select_best` raises
  NotImplementedError for it.
- Orientation.BinPermute: for more than one sheet it returns the corrected
  `product(*perms)` enumeration, not what packer.py:100 returns; the
  as-written enumeration is modelled separately as
  `BinPermuteMultiAsWritten` (see Findings). The difference cannot be
  observed: `product(perms)` does not raise, and packer.py:134-135 raises
  NotImplementedError for several sheets right after.
- Floating point is left out. Sizes and areas are exact reals, so
  rounding in `x*y`, in `sum` and in the ratio, and NaN in `np.argmin`,
  are not modelled. The sum is still added in the dict's order.
- table.py, app.py, enums.py and utils.py are not part of this model.
  They hold the editor, the page, the heuristic list and the figure
  buffer.
- Packer.CustomPacker.Binpack: the library's packer object is represented
  by the sheets and rectangles added to it and the sheets it yields. Its
  other state, and `types` being read by `plot`, are not modelled.

## Findings

| source | as written | input that shows it | evidently intended | confidence | as-written member | corrected member |
|---|---|---|---|---|---|---|
| packer.py:97-100 | `product(perms)` passes the list of per-sheet permutation iterators as one iterable, so each element is a 1-tuple holding one sheet's permutations | two sheets `[(a, b), (c, d)]`: 2 one-element tuples instead of 4 pairs of orientations | `product(*perms)`: one orientation chosen for every sheet | high (not executed) | Orientation.AsWrittenIsNotTheCrossProduct | Orientation.BinPermuteMultiSpec |
