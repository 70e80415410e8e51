# nclcmaps palette derivation, modelled in Dafny

nclcmaps ships the NCL colour tables as a dictionary `colors` that maps a
table name to a list of integer RGB triplets. It derives matplotlib palettes
from those tables. This project models the derivation core of `nclcmaps.py`:

- `normalize` looks a table up by name. It selects either the whole table or
  the rows named by caller indices. A caller index is shifted by -2 past the
  reserved white and black entries and then read with Python's
  list-indexing rule, so negative positions count from the end. Every
  component is divided by the largest component of the selected rows.
- `create`, `cmap` and `cmapRange` normalize one table and optionally flip
  the rows (`np.flip(colors, 0)`). `cmapDiscrete` normalizes one table and
  never flips: it has no `reverse` parameter.
- `create_from_multiple` and `cmapMulti` normalize one block per table.
  Each block uses its own maximum. The blocks are joined in order
  (`np.concatenate`), and `create_from_multiple` optionally flips the whole
  joined result once.

All of these are pure, so the model is made of Dafny functions and lemmas in
five modules:

- `ColorTypes` (color_types.dfy) holds the value types.
- `Rows` (rows.dfy) holds flip and concatenate.
- `Normalizer` (normalizer.dfy) holds `normalize`.
- `Composer` (composer.dfy) holds the six composers.
- `Scenarios` (scenarios.dfy) holds concrete calls worked out by the verifier.

How the model represents the source's values:

- **The catalogue.** `colors` is a parameter of type
  `map<string, seq<(nat, nat, nat)>>`. The type makes every component
  non-negative.
- **Palettes.** A palette is a sequence of `Color`. A row is either
  `Rgb(r, g, b)` with exact `real` components, or `NaN`. `NaN` is the row
  numpy produces when the basis is 0: the components are then all 0, and
  numpy computes 0 / 0 for each of them.
- **Errors.** The exceptions the source raises become `Err` values of
  `Result`:
  - `IndexOutOfRange(i)`: the first caller index whose position is out of
    range.
  - `EmptySelection`: `np.max` of nothing.
  - `SelectionMissing(j)`: `indices[j]` for a call with fewer selections
    than names.
  - `NothingToConcatenate`: `np.concatenate([])`.
  - `FinishUnbound`: the UnboundLocalError of `cmapRange` without `finish`.
    That function assigns `colors` locally, so its `colors[name]` at line
    207 reads an unbound local.
- **Unknown names.** `normalize` returns `None` for an unknown name. The
  model returns `Ok(None)`. `cmapDiscrete(..., multi=True)` passes that
  value through. Every other composer hands it on to numpy or matplotlib,
  which raise. The model reports that as `MissingTable(name)`.
- **Order of errors.** `create_from_multiple` and `cmapMulti` evaluate their
  list comprehension completely before `np.concatenate` runs. So an
  exception from a later block wins over a `None` from an earlier one, and
  the model keeps that order.

One docstring differs from the code, and the model follows the code:

- **The basis.** The docstring of `normalize` (nclcmaps.py:38-39) says each
  triplet is divided by the maximum value in that triplet. The code takes
  `np.max` over all selected rows and channels (nclcmaps.py:68) and divides
  every row by that one value (`Normalizer.MaxComponent`,
  `Normalizer.NormalizeRange`).

The code also behaves as follows:

- **The reserved offset.** The comment at nclcmaps.py:64 says caller
  indices 0 and 1 stand for white and black. The code computes
  `colors[name][element - 2]`, so caller index 2 names stored position 0.
  No comment says whether a stored table holds the two entries itself. For
  a table that does, indices 2 and 3 select those white and black rows
  themselves, and indices 0 and 1 wrap around to the last two rows
  (`Scenarios.DemoWrapAround`). So for the four-row table
  `[(0,0,0), (255,255,255), (100,50,25), (10,20,255)]`, indices `[2, 3]`
  give `[(0,0,0), (1,1,1)]` (`Scenarios.DemoFirstRows`). The values
  `(100/255, 50/255, 25/255)` and `(10/255, 20/255, 1)` come from indices
  `[4, 5]` (`Scenarios.DemoColours`).
- **Index 2 against the whole table.** Index 2 selects the same raw row as
  the first row of the whole table (`Normalizer.ReservedOffset`). A
  selection is scaled by the maximum of the selected rows, not of the
  table. So when that first row is not black, the two normalized values
  agree only when the two maxima do. A black first row normalizes to 0
  under any positive basis.
- **A basis of 0.** This produces nan rows, not an exception
  (`Scenarios.DemoBlackOnly`).

## Model

| member | source | states |
|---|---|---|
| `Rows.Flip` | nclcmaps.py:98-99 | `np.flip(colors, 0)`: same length, output row `k` is input row `n - 1 - k` |
| `Rows.FlipInvolution` | nclcmaps.py:98-99 | flipping twice restores the rows |
| `Rows.FlipAppend` | nclcmaps.py:134-135 | flipping a joined sequence flips each part and swaps their order (one whole reversal, not one per block) |
| `Rows.Oriented` | nclcmaps.py:98-99 | the `if reverse: flip` step: same length, row `k` is row `k` or row `n - 1 - k` |
| `Rows.FlattenAppend` | nclcmaps.py:132 | concatenating two lists of blocks concatenates their results |
| `Rows.FlattenBlock` | nclcmaps.py:132 | block `i` appears verbatim in the concatenation, right after the rows of blocks `0..i-1` |
| `Rows.Flatten` | nclcmaps.py:132 | `np.concatenate` of a list of blocks, joined in order; its length is `TotalRows`, the sum of the blocks' lengths |
| `Rows.OffsetIsTotal` | nclcmaps.py:132 | block `i` starts after exactly the rows of blocks `0..i-1`, that is `TotalRows` of those blocks |
| `Rows.FlattenPair` | nclcmaps.py:132 | two blocks concatenate to the first followed by the second |
| `Normalizer.PyIndex` | nclcmaps.py:65 | Python's `t[p]` for `-n <= p < n` reads the unique position in `[0, n)` congruent to `p` modulo `n` |
| `Normalizer.Select` | nclcmaps.py:59-65 | no indices: the stored table itself; with indices: one row per index; a failure only ever comes from a caller index, and names one of them |
| `Normalizer.Pick` | nclcmaps.py:63-65 | succeeds iff every `indices[k] - 2` lies in `[-len, len)`; then one row per index, and row `k` is stored row `indices[k] - 2` by Python indexing; otherwise the first offending index is reported |
| `Normalizer.MaxComponent` | nclcmaps.py:67-68 | `np.max` over all rows and channels: bounds every component and equals some component |
| `Normalizer.Normalize` | nclcmaps.py:31-71 | `None` iff the name is missing; a known table's selection errors propagate; an empty selection fails; otherwise every selected row is divided by the maximum of the selected rows |
| `Normalizer.NormalizeMissing` | nclcmaps.py:54-57 | unknown name gives `None` and no palette; a known name never gives `None` |
| `Normalizer.Scale` | nclcmaps.py:71 | one row divided by the basis: nan exactly when the basis is 0, otherwise each channel times the basis gives back the raw component |
| `Normalizer.NormalizePicked` | nclcmaps.py:62-71 | with indices: success iff at least one index and all shifted indices are in range; output length `len(indices)`; row `k` is stored row `indices[k] - 2` scaled by the selection's maximum; otherwise the first bad index or the empty selection |
| `Normalizer.NormalizePickedSucceeds` | nclcmaps.py:62-65 | with indices on a known table: yields rows iff at least one index is given and every shifted index is in range; then one row per index |
| `Normalizer.NormalizeWhole` | nclcmaps.py:59-71 | without indices: output length equals the table's, row `k` is stored row `k` scaled by the table's maximum; an empty table fails |
| `Normalizer.ReservedOffset` | nclcmaps.py:64-65 | index `2 + i` selects stored row `i`; index 2 the first row; indices 0 and 1 the last two rows |
| `Normalizer.ScaleInUnit` | nclcmaps.py:70-71 | a row bounded by a positive basis scales into `[0, 1]` on every channel |
| `Normalizer.ScaleHitsOne` | nclcmaps.py:67-71 | a component equal to the basis scales to exactly 1 |
| `Normalizer.NormalizeRange` | nclcmaps.py:67-71 | positive basis: every output component in `[0, 1]` and at least one exactly 1; zero basis: every row nan |
| `Normalizer.MaxComponentUnique` | nclcmaps.py:67-68 | a value that bounds every component and is itself a component is the maximum |
| `Normalizer.MaxComponentPermutation` | nclcmaps.py:67-68 | the maximum does not depend on the order of the selected rows: any rearrangement (equal multisets) has the same maximum |
| `Normalizer.MaxComponentFlip` | nclcmaps.py:67-68 | reversing the selected rows leaves the maximum unchanged |
| `Normalizer.FlipNormalized` | nclcmaps.py:96-99 | flipping a normalized selection equals normalizing the flipped selection |
| `Composer.Deliver` | nclcmaps.py:96-104 | the tail of `create`, `cmap` and `cmapRange`: errors propagate, `None` becomes a failure, otherwise the rows flipped iff `reverse` |
| `Composer.OrientedNormalized` | nclcmaps.py:96-99 | an optionally flipped normalized selection is the normalization of the selection in output order |
| `Composer.Create` | nclcmaps.py:74-104 | succeeds iff `normalize` yields rows; unknown name and `normalize` errors fail; the palette is the normalization of the selected rows flipped iff `reverse` |
| `Composer.Cmap` | nclcmaps.py:147-177 | succeeds iff the table exists and is non-empty; the palette is the whole table, flipped iff `reverse`, normalized by its maximum |
| `Composer.Range` | nclcmaps.py:208 | `np.arange(start, finish)`: `max(0, finish - start)` entries, entry `k` is `start + k` |
| `Composer.RangeInBounds` | nclcmaps.py:208-209 | every index of a non-empty contiguous range is valid iff both ends are |
| `Composer.RangeSelection` | nclcmaps.py:208-209 | `normalize` over `np.arange(start, finish)` on a known table yields rows iff `start < finish` and both end indices are valid; then `finish - start` rows |
| `Composer.CmapRange` | nclcmaps.py:180-220 | without `finish` fails with UnboundLocalError; with it, for a known table succeeds iff `start < finish` and both `start - 2` and `finish - 3` are valid positions; the palette has `finish - start` rows |
| `Composer.CmapDiscrete` | nclcmaps.py:223-259 | for a known table is `normalize(name, indices)`, with `indices` either a list or `None` for the whole table; without `multi` never returns `None` and fails on an unknown name |
| `Composer.NormalizeFrom` | nclcmaps.py:131 | the comprehension succeeds iff no block raises; then entry `k` is `normalize` of block `i + k`; otherwise the first raising block's error |
| `Composer.Unwrap` | nclcmaps.py:132 | succeeds iff no entry is `None`; otherwise names the first table whose entry is `None` |
| `Composer.Gathered` | nclcmaps.py:131 | one block per name, block `j` being `normalize(names[j], indices[j])` |
| `Composer.Combined` | nclcmaps.py:131-132 | succeeds iff there is a name and every block yields rows; the result is the blocks concatenated in order; no names fails; if any block raises, the error is that of the first raising block, even after an unknown table; if none raises, the error names the first table whose `normalize` gave `None` |
| `Composer.CreateFromMultiple` | nclcmaps.py:107-140 | succeeds iff there is at least one name and every block yields rows; the palette is the in-order concatenation of the per-table normalizations, flipped once as a whole iff `reverse` |
| `Composer.CmapMulti` | nclcmaps.py:262-291 | succeeds iff there is at least one name and every block yields rows; the palette is the in-order concatenation, never flipped |
| `Composer.CmapIsCreate` | nclcmaps.py:168-171 | `cmap` equals `create` with `indices = None` |
| `Composer.CmapRangeIsCreate` | nclcmaps.py:208-214 | `cmapRange` with `finish` equals `create` over `[start, ..., finish - 1]` |
| `Composer.CmapDiscreteMulti` | nclcmaps.py:246-254 | `cmapDiscrete` with `multi` returns exactly `normalize(name, indices)` |
| `Composer.CmapMultiIsCreateFromMultiple` | nclcmaps.py:282-283 | `cmapMulti` equals `create_from_multiple` with `reverse = False` |
| `Composer.CreateFlips` | nclcmaps.py:96-99 | `create` with `reverse` is the flip of `create` without it |
| `Composer.CreateFromMultipleBlocks` | nclcmaps.py:131-132 | block `j` of the output is `normalize(names[j], indices[j])` verbatim, placed after the earlier blocks; total length is `TotalRows` of the blocks, the sum of their lengths |
| `Composer.CreateFromMultipleLocalBasis` | nclcmaps.py:131-132 | within the output, each block with a positive basis lies in `[0, 1]` and reaches 1 itself: maxima are per block, not global |
| `Composer.CreateFromMultipleReversed` | nclcmaps.py:134-135 | with `reverse`, output row `k` is row `n - 1 - k` of the unreversed output |
| `Composer.CreateFromTwo` | nclcmaps.py:131-135 | two tables give the first block then the second; reversed, the flipped second block then the flipped first |
| `Composer.CreateFromNothing` | nclcmaps.py:132 | no names: nothing to concatenate, the call fails |
| `Scenarios.DemoFirstRows` | nclcmaps.py:63-71 | indices `[2, 3]` of the demo table give `[(0,0,0), (1,1,1)]` |
| `Scenarios.DemoColours` | nclcmaps.py:63-71 | indices `[4, 5]` give `(100/255, 50/255, 25/255)` and `(10/255, 20/255, 1)` |
| `Scenarios.DemoWrapAround` | nclcmaps.py:65 | indices `[0, 1]` select the last two stored rows |
| `Scenarios.DemoBlackOnly` | nclcmaps.py:67-71 | selecting black alone gives one nan row |
| `Scenarios.DemoOutOfRange` | nclcmaps.py:65 | the first out-of-range index is the one reported, before or after a flip |
| `Scenarios.DemoUnknownName` | nclcmaps.py:54-57 | unknown name: `None` from `normalize` and `cmapDiscrete(multi=True)`; `MissingTable` from `cmapDiscrete(multi=False)`, `cmap`, `create`, `cmapRange` with `finish`, `create_from_multiple` and `cmapMulti` |
| `Scenarios.DemoEmptyRange` | nclcmaps.py:206-209 | an empty range fails in `np.max`; an omitted `finish` fails with UnboundLocalError |
| `Scenarios.LocalNotGlobal` | nclcmaps.py:131-132 | the same raw grey maps to 1 in one block and 0.5 in another |
| `Scenarios.LaterErrorWins` | nclcmaps.py:131-132 | an unknown first table and an out-of-range index in the second block: the index error is reported |

## Left out

- The contents of the `colors` catalogue (`colormaps.py`): static data. The catalogue is a parameter; colormaps.py is not part of this model.
- ListedColormap: wrapping the palette in a matplotlib object, with its `name`, is a foreign call. The model returns the palette rows the source passes to it.
- `__save` and `load`: file I/O, float-to-string formatting and CSV float parsing.
- The `save=True` branches of every composer. They are I/O. Four of them also refer to an undefined `path`, so they raise NameError before anything is written. `cmapDiscrete` and `cmapMulti` also pass the global `colors` dict rather than their data.
- The diagnostics written to `sys.stderr`.
- Floating point: components are exact reals, so numpy's rounding of the division is not modelled. A zero basis is represented by the `NaN` row and not by IEEE nan values.
- `cmapRange` without `finish` is modelled only as the UnboundLocalError it raises. The table-length default that its docstring suggests is not invented.
- The exact exception types (IndexError, ValueError, TypeError and numpy's axis error) are represented by the faults named above, not by Python classes.
- Determinism needs no lemma: every member is a function of the catalogue and its arguments.
