/**
 * What `bin_counts` promises, proved about its specification Outcome:
 * where each count comes from in the caller's own array, that the mask
 * is applied exactly when it fits, that a pixel masked by 0 never counts,
 * and that every frame is binned on its own.
 */
module BinningLemmas {
  import opened Results
  import opened Pixels
  import opened NdArrays
  import opened Binning

  /** Index in the caller's array (3-D, or 4-D before the reshape) of pixel (r, c) of frame f of the view. */
  function StackIndex(shape: seq<nat>, f: nat, r: nat, c: nat): seq<nat>
    requires |shape| == 4 ==> shape[1] > 0
  {
    if |shape| == 4 then [f / shape[1], f % shape[1], r, c] else [f, r, c]
  }

  /** Frame i*b + j of the view of a 4-D stack (a, b, r, c) is data[i][j]. */
  lemma StackPixel(s: seq<Pix>, shape: seq<nat>, i: nat, j: nat, r: nat, c: nat, f: nat)
    requires |shape| == 4 && |s| == Product(shape) && InBounds(shape, [i, j, r, c])
    requires f == i * shape[1] + j
    ensures f < View(shape)[0] && r < View(shape)[1] && c < View(shape)[2]
    ensures Pixel(s, View(shape), f, r, c) == Get(s, shape, [i, j, r, c])
  {
    FlattenFrame(shape, i, j, r, c);
  }

  /** Pixel (r, c) of frame f of the 3-D view is the caller's element at StackIndex. */
  lemma ViewPixel(s: seq<Pix>, shape: seq<nat>, f: nat, r: nat, c: nat)
    requires (|shape| == 3 || |shape| == 4) && |s| == Product(shape)
    requires f < View(shape)[0] && r < View(shape)[1] && c < View(shape)[2]
    ensures |shape| == 4 ==> shape[1] > 0
    ensures InBounds(shape, StackIndex(shape, f, r, c))
    ensures Pixel(s, View(shape), f, r, c) == Get(s, shape, StackIndex(shape, f, r, c))
  {
    if |shape| == 4 {
      StackViewPixel(s, shape, f, r, c);
    } else {
      assert View(shape) == shape;
    }
  }

  /** The 4-D case of ViewPixel: frame f of the view is data[f / b][f % b]. */
  lemma StackViewPixel(s: seq<Pix>, shape: seq<nat>, f: nat, r: nat, c: nat)
    requires |shape| == 4 && |s| == Product(shape)
    requires f < View(shape)[0] && r < View(shape)[1] && c < View(shape)[2]
    ensures shape[1] > 0
    ensures InBounds(shape, [f / shape[1], f % shape[1], r, c])
    ensures Pixel(s, View(shape), f, r, c) == Get(s, shape, [f / shape[1], f % shape[1], r, c])
  {
    assert View(shape)[0] == shape[0] * shape[1];
    QuotientBound(f, shape[0], shape[1]);
    var i, j := f / shape[1], f % shape[1];
    StackPixel(s, shape, i, j, r, c, f);
  }

  /** A frame number below a*b splits into a stack index below a and a position below b. */
  lemma QuotientBound(f: nat, a: nat, b: nat)
    requires f < a * b
    ensures b > 0 && f / b < a && f % b < b && f == (f / b) * b + f % b
  {
    assert b > 0;
  }

  /**
   * The value the source adds up for pixel (r, c) of frame f: the caller's
   * element, times the mask's value at (r, c) when the mask fits.
   */
  function SourcePixel(s: seq<Pix>, shape: seq<nat>, mask: Option<Mask>, f: nat, r: nat, c: nat): Pix
    requires (|shape| == 3 || |shape| == 4) && |s| == Product(shape) && MaskWellFormed(mask)
    requires f < View(shape)[0] && r < View(shape)[1] && c < View(shape)[2]
  {
    ViewPixel(s, shape, f, r, c);
    var x := Get(s, shape, StackIndex(shape, f, r, c));
    if MaskFits(mask, View(shape)) then
      assert InBounds(mask.value.shape, [r, c]);
      Mul(x, Get(mask.value.values, mask.value.shape, [r, c]))
    else x
  }

  /**
   * The mask is applied when it fits and only then: in place, every pixel of
   * every frame is multiplied by the mask's value at the same (r, c);
   * otherwise the data is left as it was.
   */
  lemma MaskedDataAt(s: seq<Pix>, shape: seq<nat>, mask: Option<Mask>, f: nat, r: nat, c: nat)
    requires (|shape| == 3 || |shape| == 4) && |s| == Product(shape) && MaskWellFormed(mask)
    requires f < View(shape)[0] && r < View(shape)[1] && c < View(shape)[2]
    ensures !MaskFits(mask, View(shape)) ==> MaskedData(s, shape, mask) == s
    ensures MaskFits(mask, View(shape)) ==>
      && InBounds(mask.value.shape, [r, c])
      && Pixel(MaskedData(s, shape, mask), View(shape), f, r, c) ==
         Mul(Pixel(s, View(shape), f, r, c), Get(mask.value.values, mask.value.shape, [r, c]))
  {
    var v := View(shape);
    if MaskFits(mask, v) {
      OffsetSplit(v, [f, r, c]);
      assert [f, r, c][1..] == [r, c];
    }
  }

  /**
   * Bin sum: count [f][n] is the nansum, over the pixels of bin n, of the
   * caller's (masked) values in frame f; a bin without pixels counts 0.
   */
  lemma BinSumOfPixels(s: seq<Pix>, shape: seq<nat>, bins: seq<Bin>, mask: Option<Mask>, f: nat, n: nat)
    requires (|shape| == 3 || |shape| == 4) && |s| == Product(shape) && MaskWellFormed(mask)
    requires Outcome(s, shape, bins, mask).Ok?
    requires f < View(shape)[0] && n < |bins|
    ensures BinPixels(bins[n], View(shape)[1], View(shape)[2]).Ok?
    ensures var pix := BinPixels(bins[n], View(shape)[1], View(shape)[2]).value;
      Outcome(s, shape, bins, mask).value[f][n] ==
        NanSum(seq(|pix|, k requires 0 <= k < |pix| => SourcePixel(s, shape, mask, f, pix[k].0, pix[k].1)))
    ensures BinPixels(bins[n], View(shape)[1], View(shape)[2]).value == [] ==>
      Outcome(s, shape, bins, mask).value[f][n] == 0.0
  {
    var v := View(shape);
    var pix := BinPixels(bins[n], v[1], v[2]).value;
    var d := MaskedData(s, shape, mask);
    var g := Gather(d, v, f, pix);
    var want := seq(|pix|, k requires 0 <= k < |pix| => SourcePixel(s, shape, mask, f, pix[k].0, pix[k].1));
    forall k | 0 <= k < |pix|
      ensures g[k] == want[k]
    {
      MaskedDataAt(s, shape, mask, f, pix[k].0, pix[k].1);
      ViewPixel(s, shape, f, pix[k].0, pix[k].1);
    }
    assert g == want;
  }

  /** Two buffers whose frame f contributes alike to every nansum give the same row f. */
  lemma RowAgrees(d1: seq<Pix>, d2: seq<Pix>, v: seq<nat>, bins: seq<Bin>, f: nat)
    requires |v| == 3 && |d1| == Product(v) && |d2| == Product(v) && AllBinsValid(bins, v[1], v[2])
    requires f < v[0]
    requires forall r: nat, c: nat :: r < v[1] && c < v[2] ==>
      Contribution(Pixel(d1, v, f, r, c)) == Contribution(Pixel(d2, v, f, r, c))
    ensures BinTable(d1, v, bins)[f] == BinTable(d2, v, bins)[f]
  {
    forall n | 0 <= n < |bins|
      ensures BinTable(d1, v, bins)[f][n] == BinTable(d2, v, bins)[f][n]
    {
      GatherAgrees(d1, d2, v, f, BinPixels(bins[n], v[1], v[2]).value);
    }
  }

  /** Two frames whose pixels contribute alike give the same sum over any list of pixels. */
  lemma GatherAgrees(d1: seq<Pix>, d2: seq<Pix>, v: seq<nat>, f: nat, pix: seq<(nat, nat)>)
    requires |v| == 3 && |d1| == Product(v) && |d2| == Product(v) && f < v[0]
    requires forall k :: 0 <= k < |pix| ==> pix[k].0 < v[1] && pix[k].1 < v[2]
    requires forall r: nat, c: nat :: r < v[1] && c < v[2] ==>
      Contribution(Pixel(d1, v, f, r, c)) == Contribution(Pixel(d2, v, f, r, c))
    ensures NanSum(Gather(d1, v, f, pix)) == NanSum(Gather(d2, v, f, pix))
  {
    var g1, g2 := Gather(d1, v, f, pix), Gather(d2, v, f, pix);
    forall k | 0 <= k < |pix|
      ensures Contribution(g1[k]) == Contribution(g2[k])
    {
      assert g1[k] == Pixel(d1, v, f, pix[k].0, pix[k].1) && g2[k] == Pixel(d2, v, f, pix[k].0, pix[k].1);
    }
    NanSumPointwise(g1, g2);
  }

  /**
   * Frames are independent: row f of the counts depends only on frame f of
   * the data, and whether bin_counts succeeds does not depend on the data at all.
   */
  lemma FramesIndependent(s1: seq<Pix>, s2: seq<Pix>, shape: seq<nat>, bins: seq<Bin>, mask: Option<Mask>, f: nat)
    requires (|shape| == 3 || |shape| == 4) && |s1| == Product(shape) && |s2| == Product(shape)
    requires MaskWellFormed(mask)
    requires f < View(shape)[0]
    requires forall r: nat, c: nat :: r < View(shape)[1] && c < View(shape)[2] ==>
      Pixel(s1, View(shape), f, r, c) == Pixel(s2, View(shape), f, r, c)
    ensures Outcome(s1, shape, bins, mask).Ok? == Outcome(s2, shape, bins, mask).Ok?
    ensures Outcome(s1, shape, bins, mask).Ok? ==>
      Outcome(s1, shape, bins, mask).value[f] == Outcome(s2, shape, bins, mask).value[f]
  {
    var v := View(shape);
    if Outcome(s1, shape, bins, mask).Ok? {
      var d1, d2 := MaskedData(s1, shape, mask), MaskedData(s2, shape, mask);
      forall r: nat, c: nat | r < v[1] && c < v[2]
        ensures Contribution(Pixel(d1, v, f, r, c)) == Contribution(Pixel(d2, v, f, r, c))
      {
        MaskedDataAt(s1, shape, mask, f, r, c);
        MaskedDataAt(s2, shape, mask, f, r, c);
      }
      RowAgrees(d1, d2, v, bins, f);
    }
  }

  /** Overwriting an element that the mask multiplies by 0 changes no element's contribution. */
  lemma MaskedUpdateAgrees(s: seq<Pix>, m: seq<Pix>, o: nat, p: Pix)
    requires |m| > 0 && o < |s| && m[o % |m|] == Val(0.0)
    ensures forall k :: 0 <= k < |s| ==>
      Contribution(Masked(s[o := p], m)[k]) == Contribution(Masked(s, m)[k])
  {
    forall k | 0 <= k < |s|
      ensures Contribution(Masked(s[o := p], m)[k]) == Contribution(Masked(s, m)[k])
    {
      if k == o {
        assert Masked(s[o := p], m)[k] == Mul(p, Val(0.0));
      }
    }
  }

  /**
   * A pixel whose mask value is 0 never contributes to any bin: whatever
   * value it holds, NaN included, bin_counts returns the same counts.
   */
  lemma ZeroMaskPixelIgnored(s: seq<Pix>, shape: seq<nat>, bins: seq<Bin>, mask: Option<Mask>,
                             f: nat, r: nat, c: nat, p: Pix)
    requires (|shape| == 3 || |shape| == 4) && |s| == Product(shape) && MaskWellFormed(mask)
    requires f < View(shape)[0] && r < View(shape)[1] && c < View(shape)[2]
    requires MaskFits(mask, View(shape)) && InBounds(mask.value.shape, [r, c])
    requires Get(mask.value.values, mask.value.shape, [r, c]) == Val(0.0)
    ensures Outcome(s[Offset(View(shape), [f, r, c]) := p], shape, bins, mask) == Outcome(s, shape, bins, mask)
  {
    var v := View(shape);
    var o := Offset(v, [f, r, c]);
    var s' := s[o := p];
    if Outcome(s, shape, bins, mask).Ok? {
      var d, d' := MaskedData(s, shape, mask), MaskedData(s', shape, mask);
      var m := mask.value.values;
      assert d == Masked(s, m) && d' == Masked(s', m);
      OffsetSplit(v, [f, r, c]);
      assert [f, r, c][1..] == [r, c];
      MaskedUpdateAgrees(s, m, o, p);
      forall f': nat | f' < v[0]
        ensures BinTable(d', v, bins)[f'] == BinTable(d, v, bins)[f']
      {
        forall r': nat, c': nat | r' < v[1] && c' < v[2]
          ensures Contribution(Pixel(d', v, f', r', c')) == Contribution(Pixel(d, v, f', r', c'))
        {
          var o' := Offset(v, [f', r', c']);
          assert Pixel(d', v, f', r', c') == d'[o'] && Pixel(d, v, f', r', c') == d[o'];
        }
        RowAgrees(d', d, v, bins, f');
      }
      assert BinTable(d', v, bins) == BinTable(d, v, bins);
    }
  }
}
