/**
 * `bin_counts`: sums the detector counts of every wavelength bin in every
 * frame of a 3-D or 4-D stack of frames, after an optional 2-D pixel mask
 * has been multiplied into the stack in place.
 *
 * The stack is a contiguous numpy array: a flat buffer `data` and its
 * `shape`. A 4-D stack (a, b, r, c) is reshaped into a view of a*b frames of
 * r x c pixels on the same buffer, so masking the view masks the caller's
 * array as well.
 */
module Binning {
  import opened Results
  import opened Pixels
  import opened NdArrays

  /** One wavelength bin: numpy index arrays of the rows and the columns of its pixels. */
  datatype Bin = Bin(xpix: seq<int>, ypix: seq<int>)

  /** A pixel-mask ndarray: its shape and its values in C order. */
  datatype Mask = Mask(shape: seq<nat>, values: seq<Pix>)

  /**
   * The mask argument is either an ndarray (Some) or anything else, None
   * included (None): only an ndarray is ever applied.
   */
  predicate MaskWellFormed(mask: Option<Mask>)
  {
    mask.Some? ==> |mask.value.values| == Product(mask.value.shape)
  }

  /** Why numpy's fancy indexing `data[:, xpix, ypix]` raises an IndexError. */
  datatype IndexFault =
    | ShapeMismatch   // the two index arrays cannot be broadcast together
    | OutOfBounds     // an index lies outside its axis

  /** The exceptions `bin_counts` lets through. */
  datatype BinError =
    | NoFrameAxis                           // a 0-d array has no `shape[0]`
    | MaskIndex                             // `pixel_mask[None, :, :]` on a mask of fewer than two axes
    | WrongNdim(ndim: nat)                  // a bin is indexed into data that is not 3-D after reshaping
    | BadBin(bin: nat, fault: IndexFault)   // the first bin whose indices fail

  /** numpy's reading of an integer index into an axis of length n: negative indices count from the end. */
  function Normalize(i: int, n: nat): (r: Option<nat>)
    ensures r.Some? <==> -(n as int) <= i < n
    ensures r.Some? ==> r.value < n && (r.value == i || r.value == i + n)
  {
    if 0 <= i < n then Some(i) else if -(n as int) <= i < 0 then Some(i + n) else None
  }

  /**
   * Broadcasting of the two one-dimensional index arrays of a bin: equal
   * lengths pair up element by element, and an array of length one is
   * repeated along the other.
   */
  function Broadcast(x: seq<int>, y: seq<int>): (r: Option<seq<(int, int)>>)
    ensures r.Some? <==> |x| == |y| || |x| == 1 || |y| == 1
    ensures r.Some? ==> |r.value| == (if |x| == 1 then |y| else |x|)
    ensures r.Some? ==> forall k :: 0 <= k < |r.value| ==>
      r.value[k] == (x[if |x| == 1 then 0 else k], y[if |y| == 1 then 0 else k])
  {
    if |x| == |y| then Some(seq(|x|, k requires 0 <= k < |x| => (x[k], y[k])))
    else if |x| == 1 then Some(seq(|y|, k requires 0 <= k < |y| => (x[0], y[k])))
    else if |y| == 1 then Some(seq(|x|, k requires 0 <= k < |x| => (x[k], y[0])))
    else None
  }

  /**
   * The broadcast index pairs ps read against a frame of rows x cols pixels,
   * or None when one of them lies outside the frame.
   */
  function Resolve(ps: seq<(int, int)>, rows: nat, cols: nat): (r: Option<seq<(nat, nat)>>)
    ensures r.Some? <==> forall k :: 0 <= k < |ps| ==> -(rows as int) <= ps[k].0 < rows && -(cols as int) <= ps[k].1 < cols
    ensures r.Some? ==> |r.value| == |ps|
    ensures r.Some? ==> forall k :: 0 <= k < |ps| ==>
      Some(r.value[k].0) == Normalize(ps[k].0, rows) && Some(r.value[k].1) == Normalize(ps[k].1, cols)
  {
    if forall k :: 0 <= k < |ps| ==> Normalize(ps[k].0, rows).Some? && Normalize(ps[k].1, cols).Some? then
      Some(seq(|ps|, k requires 0 <= k < |ps| => (Normalize(ps[k].0, rows).value, Normalize(ps[k].1, cols).value)))
    else None
  }

  /**
   * The (row, column) pixels that `data[:, xpix, ypix]` selects in a frame of
   * rows x cols pixels, or the IndexError numpy raises. Bounds are checked
   * only when broadcasting leaves at least one pixel.
   */
  function BinPixels(b: Bin, rows: nat, cols: nat): (r: Result<seq<(nat, nat)>, IndexFault>)
    ensures r == Err(ShapeMismatch) <==> Broadcast(b.xpix, b.ypix).None?
    ensures r.Ok? <==> Broadcast(b.xpix, b.ypix).Some? && Resolve(Broadcast(b.xpix, b.ypix).value, rows, cols).Some?
    ensures r.Ok? ==> r.value == Resolve(Broadcast(b.xpix, b.ypix).value, rows, cols).value
    ensures r.Ok? ==> forall k :: 0 <= k < |r.value| ==> r.value[k].0 < rows && r.value[k].1 < cols
  {
    match Broadcast(b.xpix, b.ypix)
    case None => Err(ShapeMismatch)
    case Some(ps) =>
      match Resolve(ps, rows, cols)
      case None => Err(OutOfBounds)
      case Some(pix) => Ok(pix)
  }

  /** The first bin, from bin n on, whose indexing fails, with its fault. */
  function FirstFault(bins: seq<Bin>, rows: nat, cols: nat, n: nat): (r: Option<(nat, IndexFault)>)
    requires n <= |bins|
    decreases |bins| - n
    ensures r.None? <==> forall j :: n <= j < |bins| ==> BinPixels(bins[j], rows, cols).Ok?
    ensures r.Some? ==> n <= r.value.0 < |bins| && BinPixels(bins[r.value.0], rows, cols) == Err(r.value.1)
    ensures r.Some? ==> forall j :: n <= j < r.value.0 ==> BinPixels(bins[j], rows, cols).Ok?
  {
    if n == |bins| then None
    else
      match BinPixels(bins[n], rows, cols)
      case Err(e) => Some((n, e))
      case Ok(_) => FirstFault(bins, rows, cols, n + 1)
  }

  /** Every bin indexes a frame of rows x cols pixels without error. */
  predicate AllBinsValid(bins: seq<Bin>, rows: nat, cols: nat)
  {
    forall j :: 0 <= j < |bins| ==> BinPixels(bins[j], rows, cols).Ok?
  }

  /** The mask is an ndarray whose shape is the frame shape `data.shape[1:]` of the view v. */
  predicate MaskFits(mask: Option<Mask>, v: seq<nat>)
    requires |v| >= 1
  {
    mask.Some? && mask.value.shape == v[1..]
  }

  /**
   * `data *= pixel_mask[None, :, :]`: the mask, broadcast along the frame
   * axis, multiplies every frame; m is the mask's buffer, one frame long.
   */
  function Masked(s: seq<Pix>, m: seq<Pix>): (r: seq<Pix>)
    requires |s| > 0 ==> |m| > 0
    ensures |r| == |s|
    ensures forall k :: 0 <= k < |s| && m[k % |m|] == Val(0.0) ==> Contribution(r[k]) == 0.0
    ensures forall k :: 0 <= k < |s| && m[k % |m|] == Val(1.0) ==> r[k] == s[k]
    ensures forall k :: 0 <= k < |s| && m[k % |m|].NaN? ==> r[k].NaN?
  {
    seq(|s|, k requires 0 <= k < |s| => Mul(s[k], m[k % |m|]))
  }

  /** The caller's buffer once `bin_counts` has returned or raised. */
  function MaskedData(s: seq<Pix>, shape: seq<nat>, mask: Option<Mask>): (d: seq<Pix>)
    requires |s| == Product(shape) && MaskWellFormed(mask)
    ensures |d| == |s|
  {
    if |shape| > 0 && MaskFits(mask, View(shape)) && |View(shape)| >= 3 then
      assert Product(View(shape)) == View(shape)[0] * Product(View(shape)[1..]);
      Masked(s, mask.value.values)
    else s
  }

  /** Pixel (r, c) of frame f of a 3-D array with buffer d and shape v. */
  function Pixel(d: seq<Pix>, v: seq<nat>, f: nat, r: nat, c: nat): Pix
    requires |v| == 3 && |d| == Product(v) && f < v[0] && r < v[1] && c < v[2]
  {
    Get(d, v, [f, r, c])
  }

  /** `data[f, xpix, ypix]`: the values of frame f at the given pixels. */
  function Gather(d: seq<Pix>, v: seq<nat>, f: nat, pix: seq<(nat, nat)>): (g: seq<Pix>)
    requires |v| == 3 && |d| == Product(v) && f < v[0]
    requires forall k :: 0 <= k < |pix| ==> pix[k].0 < v[1] && pix[k].1 < v[2]
    ensures |g| == |pix|
    ensures forall k :: 0 <= k < |pix| ==> g[k] == d[Offset(v, [f, pix[k].0, pix[k].1])]
  {
    seq(|pix|, k requires 0 <= k < |pix| => Pixel(d, v, f, pix[k].0, pix[k].1))
  }

  /** The filled `counts` table: row f, column n is the nansum over bin n's pixels in frame f. */
  function BinTable(d: seq<Pix>, v: seq<nat>, bins: seq<Bin>): (t: seq<seq<real>>)
    requires |v| == 3 && |d| == Product(v) && AllBinsValid(bins, v[1], v[2])
    ensures |t| == v[0] && forall f :: 0 <= f < v[0] ==> |t[f]| == |bins|
  {
    seq(v[0], f requires 0 <= f < v[0] =>
      seq(|bins|, n requires 0 <= n < |bins| =>
        NanSum(Gather(d, v, f, BinPixels(bins[n], v[1], v[2]).value))))
  }

  /**
   * What `bin_counts(data, wavebins, pixel_mask)` returns, or the exception it
   * raises, for a stack with buffer s and the given shape.
   */
  function Outcome(s: seq<Pix>, shape: seq<nat>, bins: seq<Bin>, mask: Option<Mask>): (r: Result<seq<seq<real>>, BinError>)
    requires |s| == Product(shape) && MaskWellFormed(mask)
    ensures r.Ok? <==>
      |shape| > 0 && !(MaskFits(mask, View(shape)) && |shape| < 3) &&
      (if |View(shape)| == 3 then AllBinsValid(bins, View(shape)[1], View(shape)[2]) else bins == [])
    ensures r.Ok? ==> |r.value| == View(shape)[0] && forall f :: 0 <= f < |r.value| ==> |r.value[f]| == |bins|
    ensures r.Err? && |shape| > 0 && |View(shape)| == 3 && r.error.BadBin? ==>
      r.error.bin < |bins| && BinPixels(bins[r.error.bin], View(shape)[1], View(shape)[2]) == Err(r.error.fault) &&
      AllBinsValid(bins[..r.error.bin], View(shape)[1], View(shape)[2])
  {
    if |shape| == 0 then Err(NoFrameAxis)
    else
      var v := View(shape);
      if MaskFits(mask, v) && |v| < 3 then Err(MaskIndex)
      else if |v| != 3 then
        if bins == [] then Ok(seq(v[0], _ => [])) else Err(WrongNdim(|shape|))
      else
        match FirstFault(bins, v[1], v[2], 0)
        case Some(fault) => Err(BadBin(fault.0, fault.1))
        case None => Ok(BinTable(MaskedData(s, shape, mask), v, bins))
  }

  /** The contents of a two-dimensional array, row by row. */
  function Cells(a: array2<real>): (t: seq<seq<real>>)
    reads a
    ensures |t| == a.Length0
    ensures forall i, j :: 0 <= i < a.Length0 && 0 <= j < a.Length1 ==> |t[i]| == a.Length1 && t[i][j] == a[i, j]
  {
    seq(a.Length0, i requires 0 <= i < a.Length0 reads a =>
      seq(a.Length1, j requires 0 <= j < a.Length1 reads a => a[i, j]))
  }

  /** `data *= pixel_mask[None, :, :]`, element by element over the buffer. */
  method ApplyMask(data: array<Pix>, m: seq<Pix>)
    requires data.Length > 0 ==> |m| > 0
    modifies data
    ensures data[..] == Masked(old(data[..]), m)
  {
    var k := 0;
    while k < data.Length
      invariant 0 <= k <= data.Length
      invariant forall i :: 0 <= i < k ==> data[i] == Mul(old(data[i]), m[i % |m|])
      invariant forall i :: k <= i < data.Length ==> data[i] == old(data[i])
    {
      data[k] := Mul(data[k], m[k % |m|]);
      k := k + 1;
    }
  }

  /** `np.nansum(data[f, xpix, ypix])`: the values of frame f at pix, NaN counting as zero. */
  method PixelSum(data: array<Pix>, v: seq<nat>, f: nat, pix: seq<(nat, nat)>) returns (total: real)
    requires |v| == 3 && data.Length == Product(v) && f < v[0]
    requires forall k :: 0 <= k < |pix| ==> pix[k].0 < v[1] && pix[k].1 < v[2]
    ensures total == NanSum(Gather(data[..], v, f, pix))
  {
    ghost var g := Gather(data[..], v, f, pix);
    total := 0.0;
    var k := 0;
    while k < |pix|
      invariant 0 <= k <= |pix|
      invariant total == NanSum(g[..k])
    {
      var p := data[Offset(v, [f, pix[k].0, pix[k].1])];
      assert p == g[k];
      assert g[..k + 1][..k] == g[..k];
      if p.Val? {
        total := total + p.v;
      }
      k := k + 1;
    }
    assert g[..k] == g;
  }

  /** `counts[:, n] = np.nansum(data[:, xpix, ypix], axis=1)` for one bin with pixels pix. */
  method FillColumn(counts: array2<real>, data: array<Pix>, v: seq<nat>, n: nat, pix: seq<(nat, nat)>)
    requires |v| == 3 && data.Length == Product(v) && counts.Length0 == v[0] && n < counts.Length1
    requires forall k :: 0 <= k < |pix| ==> pix[k].0 < v[1] && pix[k].1 < v[2]
    modifies counts
    ensures forall f, j :: 0 <= f < v[0] && 0 <= j < counts.Length1 ==>
      counts[f, j] == if j == n then NanSum(Gather(data[..], v, f, pix)) else old(counts[f, j])
  {
    var f := 0;
    while f < v[0]
      invariant 0 <= f <= v[0]
      invariant forall f', j :: 0 <= f' < v[0] && 0 <= j < counts.Length1 ==>
        counts[f', j] == if j == n && f' < f then NanSum(Gather(data[..], v, f', pix)) else old(counts[f', j])
    {
      var total := PixelSum(data, v, f, pix);
      counts[f, n] := total;
      f := f + 1;
    }
  }

  /**
   * The loop over the bins of a 3-D stack, filling the zero table counts
   * column by column; it stops at the first bin whose indexing fails.
   */
  method SumBins(data: array<Pix>, v: seq<nat>, wavebins: seq<Bin>, counts: array2<real>)
    returns (r: Result<array2<real>, BinError>)
    requires |v| == 3 && data.Length == Product(v)
    requires counts.Length0 == v[0] && counts.Length1 == |wavebins|
    modifies counts
    ensures r.Ok? ==> r.value == counts
    ensures match FirstFault(wavebins, v[1], v[2], 0)
      case Some(fault) => r == Err(BadBin(fault.0, fault.1))
      case None => r.Ok? && Cells(counts) == BinTable(data[..], v, wavebins)
  {
    var n := 0;
    while n < |wavebins|
      invariant 0 <= n <= |wavebins|
      invariant FirstFault(wavebins, v[1], v[2], 0) == FirstFault(wavebins, v[1], v[2], n)
      invariant forall j :: 0 <= j < n ==> BinPixels(wavebins[j], v[1], v[2]).Ok?
      invariant forall f, j :: 0 <= f < v[0] && 0 <= j < n ==>
        counts[f, j] == NanSum(Gather(data[..], v, f, BinPixels(wavebins[j], v[1], v[2]).value))
    {
      match BinPixels(wavebins[n], v[1], v[2])
      case Err(e) =>
        return Err(BadBin(n, e));
      case Ok(pix) =>
        FillColumn(counts, data, v, n, pix);
      n := n + 1;
    }
    ghost var t := BinTable(data[..], v, wavebins);
    forall f | 0 <= f < v[0]
      ensures Cells(counts)[f] == t[f]
    {
    }
    return Ok(counts);
  }

  /**
   * `bin_counts(data, wavebins, pixel_mask)`: the caller's buffer is masked in
   * place when the mask fits, and the counts table, or the exception, is as
   * Outcome says.
   */
  method BinCounts(data: array<Pix>, shape: seq<nat>, wavebins: seq<Bin>, mask: Option<Mask>)
    returns (r: Result<array2<real>, BinError>)
    requires data.Length == Product(shape) && MaskWellFormed(mask)
    modifies data
    ensures data[..] == MaskedData(old(data[..]), shape, mask)
    ensures r.Ok? ==> fresh(r.value)
    ensures Outcome(old(data[..]), shape, wavebins, mask) == if r.Ok? then Ok(Cells(r.value)) else Err(r.error)
  {
    ghost var s := data[..];
    if |shape| == 0 {
      return Err(NoFrameAxis);
    }
    // Reshape into 3-D: a view on the same buffer.
    var v := View(shape);
    // Array to store counts.
    var counts := new real[v[0], |wavebins|]((_, _) => 0.0);
    if mask.Some? && mask.value.shape == v[1..] {
      if |v| < 3 {
        return Err(MaskIndex);
      }
      assert Product(v) == v[0] * Product(v[1..]);
      ApplyMask(data, mask.value.values);
    }
    assert data[..] == MaskedData(s, shape, mask);
    if |v| != 3 {
      if wavebins == [] {
        forall i | 0 <= i < v[0] ensures Cells(counts)[i] == [] {
        }
        assert Cells(counts) == seq(v[0], _ => []);
        return Ok(counts);
      }
      return Err(WrongNdim(|shape|));
    }
    r := SumBins(data, v, wavebins, counts);
  }
}
