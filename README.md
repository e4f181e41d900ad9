# Pixel binning of SOSS 1-D spectral extraction, in Dafny

This project models the binning step of the `specialsoss` 1-D extraction
(`specialsoss/binning.py`) and proves what it promises.

- `bin_counts(data, wavebins, pixel_mask)` takes a stack of detector frames, 3-D or 4-D.
  A 4-D stack `(a, b, r, c)` is reshaped into `a*b` frames of `r x c` pixels.
  When the pixel mask is an ndarray of the frame's shape, it is multiplied into every frame in place.
  The function then fills a zero `frames x bins` table.
  Column `n` holds, frame by frame, the `nansum` of the pixels `(xpix, ypix)` of wavelength bin `n`.
- The reordering block of `extract` sorts one order's wavelengths with `argsort`.
  It moves the columns of the flux, uncertainty and counts tables by the same permutation.

The stack is modelled as a contiguous numpy array: a flat `array<Pix>` buffer in C order plus its
`shape`. Reshaping yields a view on the same buffer, so masking the 4-D case changes the caller's
array, as in numpy. `Pix` is `NaN | Val(real)`. Multiplication propagates NaN, and `nansum` counts
NaN as zero. The numpy behaviour the code relies on is written out: negative indices count from the end,
length-one index arrays broadcast, and `IndexError` is raised for index arrays that do not broadcast or
that go out of range. Each error is a `Result` value.

Files: `results.dfy` (Option, Result), `pixels.dfy` (pixel values, nansum), `ndarray.dfy`
(C-order layout, reshape), `binning.dfy` (`bin_counts`: specification and imperative model),
`binning_lemmas.dfy` (its properties), `wavelength_order.dfy` (argsort and column reordering).

## Model

| member | source | states |
|---|---|---|
| `NdArrays.View` | specialsoss/binning.py:109-110 | the reshape of a 4-D stack to `(a*b, r, c)` keeps the number of elements and drops one axis; other shapes stay |
| `NdArrays.FlattenFrame` | specialsoss/binning.py:109-110 | element `[i*b + j, r, c]` of the reshaped view is element `[i, j, r, c]` of the 4-D original, at the same buffer position |
| `Pixels.NanSum` | specialsoss/binning.py:121 | `np.nansum` over one frame's pixels: a sum of values none of which is negative is not negative |
| `Pixels.NanSumIsSumOfNumbers` | specialsoss/binning.py:121 | `nansum` equals the plain sum of the values that are not NaN |
| `Pixels.NanSumOfNaNs` | specialsoss/binning.py:121 | a run of pixels that is empty or all NaN sums to 0 |
| `Pixels.NanSumPointwise` | specialsoss/binning.py:121 | two runs whose values contribute alike (NaN as 0) have the same `nansum` |
| `Binning.Normalize` | specialsoss/binning.py:121 | an index is accepted exactly when it lies in `[-n, n)`, and it then denotes the position below `n` that is the index itself or the index counted back from the end (`i + n`) |
| `Binning.Broadcast` | specialsoss/binning.py:120-121 | the index arrays broadcast exactly when their lengths are equal or one is 1; pair `k` takes element `k` of each array, or element 0 of a length-one array |
| `Binning.Resolve` | specialsoss/binning.py:120-121 | the bounds check of `data[:, xpix, ypix]`: the broadcast pairs are accepted exactly when every row index lies in `[-rows, rows)` and every column index in `[-cols, cols)`, and then each pair is resolved by numpy's negative-index rule |
| `Binning.BinPixels` | specialsoss/binning.py:120-121 | the pixels of a bin are the broadcast pairs with negative indices resolved, all inside the frame; `ShapeMismatch` exactly when broadcasting fails, otherwise `OutOfBounds` exactly when some pair leaves the frame |
| `Binning.FirstFault` | specialsoss/binning.py:120-121 | no fault exactly when every bin from `n` on indexes cleanly; otherwise the first bin that fails, with its fault, all earlier bins indexing cleanly |
| `Binning.Masked` | specialsoss/binning.py:117 | `data *= pixel_mask[None, :, :]` on the flat buffer keeps its length; a pixel whose mask value is 0 then contributes nothing to a `nansum`, one whose mask value is 1 keeps its value, and one whose mask value is NaN becomes NaN |
| `Binning.Gather` | specialsoss/binning.py:121 | `data[f, xpix, ypix]`: one value per selected pixel, in the order of the index arrays; value `k` is the element of frame `f` at pixel `k` in the C-order buffer |
| `Binning.MaskedData` | specialsoss/binning.py:115-117 | the caller's buffer after the call: the same length, with the mask multiplied in when it is an ndarray of the frame shape on a stack of at least three axes |
| `Binning.BinTable` | specialsoss/binning.py:113 | the filled table has one row per frame and one column per bin |
| `Binning.Outcome` | specialsoss/binning.py:90-123 | `bin_counts` returns a table exactly when the array has an axis, the mask does not fit a stack of fewer than three axes, and (for a 3-D view) every bin indexes cleanly or (otherwise) there are no bins; the table has one row per frame and one column per bin; a `BadBin` error names the first failing bin and its fault |
| `Binning.ApplyMask` | specialsoss/binning.py:117 | `data *= pixel_mask[None, :, :]` in place: element `k` becomes its product with mask element `k mod` frame size |
| `Binning.PixelSum` | specialsoss/binning.py:121 | the loop over a bin's pixels in one frame returns their `nansum` |
| `Binning.FillColumn` | specialsoss/binning.py:121 | column `n` of `counts` becomes the bin's sums for every frame; every other column is unchanged |
| `Binning.SumBins` | specialsoss/binning.py:119-123 | the loop over the bins stops with `BadBin` at the first failing bin; otherwise the table holds every bin's sums |
| `Binning.BinCounts` | specialsoss/binning.py:90-123 | the caller's buffer ends as `MaskedData` (masked in place when the mask fits, untouched otherwise, on success and on error alike), and the result or error is `Outcome` of the original data, in a freshly allocated zero-initialised table |
| `BinningLemmas.ViewPixel` | specialsoss/binning.py:109-110 | frame `f` of the view is `data[f]` of a 3-D stack and `data[f / b][f % b]` of a 4-D one |
| `BinningLemmas.MaskedDataAt` | specialsoss/binning.py:116-117 | when the mask fits, every pixel `(r, c)` of every frame is multiplied by `mask[r, c]`; when it does not fit, the data is unchanged |
| `BinningLemmas.BinSumOfPixels` | specialsoss/binning.py:119-121 | `counts[f][n]` is the `nansum`, over bin `n`'s pixels, of the caller's own element (times the mask when it fits); a bin without pixels counts 0 |
| `BinningLemmas.FramesIndependent` | specialsoss/binning.py:121 | row `f` of the result depends only on frame `f` of the data, and success does not depend on the data |
| `BinningLemmas.ZeroMaskPixelIgnored` | specialsoss/binning.py:115-117 | a pixel whose mask value is 0 never contributes: replacing its value by anything, NaN included, leaves the result unchanged |
| `BinningLemmas.RowAgrees` | specialsoss/binning.py:121 | buffers whose frame `f` contributes alike give the same row `f` |
| `WavelengthOrder.Insert` | specialsoss/binning.py:62 | inserting a position adds exactly that position to the list |
| `WavelengthOrder.InsertSorted` | specialsoss/binning.py:62 | insertion keeps the list sorted by wavelength |
| `WavelengthOrder.ArgsortPrefix` | specialsoss/binning.py:62 | the first `n` positions, each once, sorted by wavelength |
| `WavelengthOrder.Argsort` | specialsoss/binning.py:62 | `wavelength.argsort()` lists every position exactly once, in an order of ascending wavelength |
| `WavelengthOrder.SelectColumns` | specialsoss/binning.py:64-66 | `t[:, idx]` succeeds exactly when every position is a column of `t`, and then keeps the rows and has one column per position, column `i` of row `f` being column `idx[i]` of row `f` of `t` |
| `WavelengthOrder.PermutedTake` | specialsoss/binning.py:63 | indexing by a permutation keeps every value, rearranged |
| `WavelengthOrder.PermutationInRange` | specialsoss/binning.py:64-66 | a permutation of `0..n-1` fits a width exactly when `n` does not exceed it |
| `WavelengthOrder.SortByWavelength` | specialsoss/binning.py:61-66 | on success the grid has one entry per wavelength, and flux, uncertainty and counts keep their rows and get one column per wavelength |
| `WavelengthOrder.SortByWavelengthFails` | specialsoss/binning.py:61-66 | reordering fails exactly when a table has fewer columns than there are wavelengths, naming the first such table in the source's order (flux, uncertainty, counts) |
| `WavelengthOrder.SortedWavelengths` | specialsoss/binning.py:62-63 | the reordered wavelength grid is non-decreasing, as long as the input, and a permutation of it |
| `WavelengthOrder.ColumnsFollowWavelengths` | specialsoss/binning.py:64-66 | for any permutation numpy's argsort may return, each row keeps its count and every `(wavelength, value)` pair |
| `WavelengthOrder.SortByWavelengthKeepsPairs` | specialsoss/binning.py:61-66 | flux, uncertainty and counts keep their rows, get one column per wavelength and keep every `(wavelength, value)` pair |
| `WavelengthOrder.SortByWavelengthPermutes` | specialsoss/binning.py:61-66 | a single argsort of the wavelengths moves the grid and the columns of all three tables: `wave == w[idx]`, and row `f`, column `i` of flux, uncertainty and counts is row `f`, column `idx[i]` of the input, so with repeated wavelengths too column `i` of every table belongs to the same input column |
| `WavelengthOrder.ArgsortOfIncreasing` | specialsoss/binning.py:62 | for strictly increasing wavelengths the only argsort is the identity |
| `WavelengthOrder.IncreasingUnchanged` | specialsoss/binning.py:61-66 | an order whose wavelengths already increase strictly comes out unchanged |
| `WavelengthOrder.AscendingUnique` | specialsoss/binning.py:62 | two ascending lists holding the same entries are equal |

## Left out

- The calls into `hotsoss` at specialsoss/binning.py:39-40 and 56 are not modelled. The bodies of `lt.trace_wavelengths`, `lt.wavelength_bins` and `utils.counts_to_flux` are not part of this model. Their outputs (wavelengths, bins, flux) are inputs here.
- The per-order loop of `extract` (lines 36-70) and its default masks (lines 46-47) are left out. It is wiring between those foreign calls and the two modelled steps.
- The uncertainty `np.random.normal` at line 59 is left out: it is random. The uncertainty table is an input.
- `combine_spectra` and the `'final'` record (lines 73-85) are left out, because `specialsoss/utilities.py` is not part of this model. The `print` at line 77 is I/O.
- astropy units are dropped; values are plain reals.
- Floating point is not modelled: values are reals, so there is no rounding, no overflow and no infinity (`inf * 0` would give NaN in numpy).
- Integer-typed stacks are not modelled. In numpy, multiplying one in place by a float mask raises a casting error.
- The stack is assumed contiguous. For a non-contiguous 4-D array, numpy's `reshape` may copy, when the first two axes cannot be merged by strides, and the caller's array would then not be masked.
- A mask that shares memory with the data is not modelled.
- Index arrays are one-dimensional integer arrays. Boolean, multi-dimensional or non-integer index arrays are not modelled.
- Binning.Outcome: for data of five or more axes with at least one bin, the model reports `WrongNdim`. It does not model the degenerate all-ones shapes where numpy would broadcast the sums into the column. It also does not model the first bin's own `IndexError`, which numpy would raise first.
- WavelengthOrder.Argsort: returns the stable order. numpy's default quicksort may order equal wavelengths differently. `ColumnsFollowWavelengths` and `ArgsortOfIncreasing` are stated for every order numpy may return.
- NaN wavelengths (numpy sorts them last) are not modelled: wavelengths are reals.
