/**
 * Detector pixel values as the binning code sees them: a float that is
 * either a number or NaN. Floating-point rounding is not modelled; the
 * numbers are reals.
 */
module Pixels {

  /** A pixel value: NaN, or a (finite) number. */
  datatype Pix = NaN | Val(v: real)

  /** Element-wise numpy multiplication; NaN times anything is NaN. */
  function Mul(p: Pix, m: Pix): Pix
  {
    if p.Val? && m.Val? then Val(p.v * m.v) else NaN
  }

  /** What one value adds to numpy.nansum: a NaN adds zero. */
  function Contribution(p: Pix): real
  {
    if p.NaN? then 0.0 else p.v
  }

  /** numpy.nansum of a one-dimensional run of values, accumulated left to right. */
  function NanSum(ps: seq<Pix>): (r: real)
    ensures (forall k :: 0 <= k < |ps| && ps[k].Val? ==> 0.0 <= ps[k].v) ==> 0.0 <= r
  {
    if ps == [] then 0.0 else NanSum(ps[..|ps| - 1]) + Contribution(ps[|ps| - 1])
  }

  /** The numbers among ps, in order, with every NaN dropped. */
  function Numbers(ps: seq<Pix>): (r: seq<real>)
    ensures |r| <= |ps|
    ensures forall x :: x in r ==> Val(x) in ps
  {
    if ps == [] then []
    else (if ps[0].NaN? then [] else [ps[0].v]) + Numbers(ps[1..])
  }

  /** Plain sum of reals. */
  function Sum(xs: seq<real>): real
  {
    if xs == [] then 0.0 else xs[0] + Sum(xs[1..])
  }

  /** nansum splits over concatenation. */
  lemma {:induction false} NanSumAppend(ps: seq<Pix>, qs: seq<Pix>)
    ensures NanSum(ps + qs) == NanSum(ps) + NanSum(qs)
  {
    if qs == [] {
      assert ps + qs == ps;
    } else {
      var last := |qs| - 1;
      assert (ps + qs)[..|ps + qs| - 1] == ps + qs[..last];
      NanSumAppend(ps, qs[..last]);
    }
  }

  /** nansum is the plain sum of the values that are not NaN. */
  lemma {:induction false} NanSumIsSumOfNumbers(ps: seq<Pix>)
    ensures NanSum(ps) == Sum(Numbers(ps))
  {
    if ps != [] {
      NanSumIsSumOfNumbers(ps[1..]);
      assert ps == [ps[0]] + ps[1..];
      NanSumAppend([ps[0]], ps[1..]);
      assert [ps[0]][..0] == [];
      var head := if ps[0].NaN? then [] else [ps[0].v];
      if head == [] {
        assert head + Numbers(ps[1..]) == Numbers(ps[1..]);
      } else {
        assert (head + Numbers(ps[1..]))[1..] == Numbers(ps[1..]);
      }
    }
  }

  /** Two runs whose values contribute alike have the same nansum. */
  lemma {:induction false} NanSumPointwise(ps: seq<Pix>, qs: seq<Pix>)
    requires |ps| == |qs|
    requires forall k :: 0 <= k < |ps| ==> Contribution(ps[k]) == Contribution(qs[k])
    ensures NanSum(ps) == NanSum(qs)
  {
    if ps != [] {
      NanSumPointwise(ps[..|ps| - 1], qs[..|qs| - 1]);
    }
  }

  /** A run with no values, or only NaN values, sums to zero. */
  lemma {:induction false} NanSumOfNaNs(ps: seq<Pix>)
    requires forall k :: 0 <= k < |ps| ==> ps[k].NaN?
    ensures NanSum(ps) == 0.0
  {
    if ps != [] {
      NanSumOfNaNs(ps[..|ps| - 1]);
    }
  }
}
