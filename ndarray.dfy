/**
 * The layout of a contiguous numpy ndarray: a shape and one flat buffer in
 * C (row-major) order. Reshaping such an array returns a view on the same
 * buffer.
 */
module NdArrays {

  /** Number of elements of an array of the given shape. */
  function Product(shape: seq<nat>): nat
  {
    if shape == [] then 1 else shape[0] * Product(shape[1..])
  }

  /** idx is a valid full index into an array of the given shape. */
  predicate InBounds(shape: seq<nat>, idx: seq<nat>)
  {
    |idx| == |shape| && forall k :: 0 <= k < |shape| ==> idx[k] < shape[k]
  }

  /** Position of element idx in the C-order buffer. */
  function Offset(shape: seq<nat>, idx: seq<nat>): (o: nat)
    requires InBounds(shape, idx)
    ensures o < Product(shape)
  {
    if shape == [] then 0
    else
      var inner := Offset(shape[1..], idx[1..]);
      StrideBound(idx[0], shape[0], Product(shape[1..]), inner);
      idx[0] * Product(shape[1..]) + inner
  }

  /** Element idx of an array whose buffer is s. */
  function Get<T>(s: seq<T>, shape: seq<nat>, idx: seq<nat>): T
    requires |s| == Product(shape) && InBounds(shape, idx)
  {
    s[Offset(shape, idx)]
  }

  /** An index below n, scaled by a stride p, plus an offset below p, stays below n * p. */
  lemma StrideBound(i: nat, n: nat, p: nat, o: nat)
    requires i < n && o < p
    ensures i * p + o < n * p
  {
    assert i * p + o < (i + 1) * p;
    MulMonotone(i + 1, n, p);
  }

  /** Multiplying by the same factor keeps the order. */
  lemma {:induction false} MulMonotone(a: nat, b: nat, p: nat)
    requires a <= b
    ensures a * p <= b * p
    decreases b - a
  {
    if a < b {
      MulMonotone(a + 1, b, p);
      assert (a + 1) * p == a * p + p;
    }
  }

  /**
   * The shape after `data.reshape((a*b, r, c))` of a 4-D stack (a, b, r, c);
   * every other shape is left as it is.
   */
  function View(shape: seq<nat>): (v: seq<nat>)
    ensures Product(v) == Product(shape)
    ensures |v| == |shape| - (if |shape| == 4 then 1 else 0)
  {
    if |shape| == 4 then
      assert Product(shape) == shape[0] * (shape[1] * Product(shape[2..]));
      [shape[0] * shape[1]] + shape[2..]
    else shape
  }

  /**
   * Flattening a 4-D stack (a, b, r, c) into a*b frames keeps every element in
   * place: frame i*b + j of the view is data[i][j] of the original.
   */
  lemma FlattenFrame(shape: seq<nat>, i: nat, j: nat, r: nat, c: nat)
    requires |shape| == 4 && InBounds(shape, [i, j, r, c])
    ensures InBounds(View(shape), [i * shape[1] + j, r, c])
    ensures Offset(View(shape), [i * shape[1] + j, r, c]) == Offset(shape, [i, j, r, c])
  {
    var v := View(shape);
    StrideBound(i, shape[0], shape[1], j);
    var frame := shape[2] * shape[3];
    assert Product(shape[2..]) == frame by {
      assert shape[2..][1..] == shape[3..];
      assert shape[3..][1..] == [];
      assert Product(shape[3..]) == shape[3] * Product([]);
      assert Product(shape[2..]) == shape[2] * Product(shape[3..]);
    }
    assert v[1..] == shape[2..];
    var inner := Offset(shape[2..], [r, c]);
    assert Offset(v, [i * shape[1] + j, r, c]) == (i * shape[1] + j) * frame + inner by {
      assert [i * shape[1] + j, r, c][1..] == [r, c];
    }
    assert Offset(shape, [i, j, r, c]) == i * (shape[1] * frame) + (j * frame + inner) by {
      assert [i, j, r, c][1..] == [j, r, c];
      assert [j, r, c][1..] == [r, c];
      assert shape[1..][1..] == shape[2..];
    }
    assert (i * shape[1] + j) * frame == i * (shape[1] * frame) + j * frame;
  }

  /**
   * Splitting an element's position at the first axis: the quotient by the
   * size of one sub-array is the first index, the remainder is the position
   * inside that sub-array.
   */
  lemma OffsetSplit(shape: seq<nat>, idx: seq<nat>)
    requires |shape| >= 1 && InBounds(shape, idx)
    ensures Product(shape[1..]) > 0
    ensures Offset(shape, idx) / Product(shape[1..]) == idx[0]
    ensures Offset(shape, idx) % Product(shape[1..]) == Offset(shape[1..], idx[1..])
  {
    var p := Product(shape[1..]);
    var inner := Offset(shape[1..], idx[1..]);
    DivModUnique(idx[0] * p + inner, p, idx[0], inner);
  }

  /** Euclidean division is unique: q and r with x == q*p + r and r < p are x / p and x % p. */
  lemma DivModUnique(x: nat, p: nat, q: nat, r: nat)
    requires r < p && x == q * p + r
    ensures x / p == q && x % p == r
  {
    var q', r' := x / p, x % p;
    assert x == q' * p + r';
    var d: int := q - q';
    assert d * p == r' - r by {
      assert d * p == q * p - q' * p;
    }

  }
}
