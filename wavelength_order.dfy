/**
 * The reordering step of `extract`: the positions of an order's
 * wavelengths in ascending order (numpy's argsort) are applied to the
 * wavelength array and to the columns of the flux, uncertainty and counts
 * tables, so that the grid increases and every column stays with its
 * wavelength.
 */
module WavelengthOrder {
  import opened Results

  /** The positions 0, 1, ..., n - 1. */
  function Iota(n: nat): (r: seq<nat>)
    ensures |r| == n && forall i :: 0 <= i < n ==> r[i] == i
  {
    seq(n, i => i)
  }

  /** Every position in idx is below n. */
  predicate InRange(idx: seq<nat>, n: nat)
  {
    forall i :: 0 <= i < |idx| ==> idx[i] < n
  }

  /** `s[idx]`: numpy fancy indexing of a one-dimensional array. */
  function Take<T>(s: seq<T>, idx: seq<nat>): (r: seq<T>)
    requires InRange(idx, |s|)
    ensures |r| == |idx|
  {
    seq(|idx|, i requires 0 <= i < |idx| => s[idx[i]])
  }

  /** Listing w at the positions idx gives ascending wavelengths. */
  predicate SortedBy(idx: seq<nat>, w: seq<real>)
    requires InRange(idx, |w|)
  {
    forall i, j :: 0 <= i < j < |idx| ==> w[idx[i]] <= w[idx[j]]
  }

  /**
   * What numpy's argsort may return for w: each position of w exactly once,
   * in an order that lists w ascending. numpy's default sort is not stable,
   * so among equal wavelengths any order is allowed.
   */
  predicate IsArgsort(idx: seq<nat>, w: seq<real>)
  {
    InRange(idx, |w|) && multiset(idx) == multiset(Iota(|w|)) && SortedBy(idx, w)
  }

  /** Inserts position k into the sorted positions l, after every entry whose wavelength is not above w[k]. */
  function Insert(w: seq<real>, l: seq<nat>, k: nat): (r: seq<nat>)
    requires k < |w| && InRange(l, |w|)
    ensures InRange(r, |w|) && |r| == |l| + 1
    ensures multiset(r) == multiset(l) + multiset{k}
    ensures forall j :: 0 <= j < |r| ==> r[j] == k || r[j] in l
  {
    if l == [] then [k]
    else if w[k] < w[l[0]] then [k] + l
    else
      assert l == [l[0]] + l[1..];
      [l[0]] + Insert(w, l[1..], k)
  }

  /** A position whose wavelength is not above any in a sorted run may go in front of it. */
  lemma ConsSorted(w: seq<real>, x: nat, rest: seq<nat>)
    requires x < |w| && InRange(rest, |w|) && SortedBy(rest, w)
    requires forall j :: 0 <= j < |rest| ==> w[x] <= w[rest[j]]
    ensures SortedBy([x] + rest, w)
  {
    var r := [x] + rest;
    forall i, j | 0 <= i < j < |r|
      ensures w[r[i]] <= w[r[j]]
    {
      assert r[j] == rest[j - 1];
      if i > 0 {
        assert r[i] == rest[i - 1];
      }
    }
  }

  /** Insertion keeps the positions sorted by wavelength. */
  lemma {:induction false} InsertSorted(w: seq<real>, l: seq<nat>, k: nat)
    requires k < |w| && InRange(l, |w|) && SortedBy(l, w)
    ensures SortedBy(Insert(w, l, k), w)
  {
    if l == [] {
    } else if w[k] < w[l[0]] {
      ConsSorted(w, k, l);
    } else {
      var rest := Insert(w, l[1..], k);
      assert SortedBy(l[1..], w) by {
        forall i, j | 0 <= i < j < |l[1..]| ensures w[l[1..][i]] <= w[l[1..][j]] {
          assert l[1..][i] == l[i + 1] && l[1..][j] == l[j + 1];
        }
      }
      InsertSorted(w, l[1..], k);
      forall j | 0 <= j < |rest|
        ensures w[l[0]] <= w[rest[j]]
      {
        if rest[j] != k {
          var i :| 0 <= i < |l[1..]| && l[1..][i] == rest[j];
          assert l[i + 1] == rest[j];
        }
      }
      ConsSorted(w, l[0], rest);
    }
  }

  /** An argsort of the first n wavelengths, by insertion. */
  function ArgsortPrefix(w: seq<real>, n: nat): (r: seq<nat>)
    requires n <= |w|
    ensures |r| == n && InRange(r, |w|) && SortedBy(r, w)
    ensures multiset(r) == multiset(Iota(n))
  {
    if n == 0 then []
    else
      assert Iota(n) == Iota(n - 1) + [n - 1];
      InsertSorted(w, ArgsortPrefix(w, n - 1), n - 1);
      Insert(w, ArgsortPrefix(w, n - 1), n - 1)
  }

  /** `wavelength.argsort()`: one of the orders numpy may return (the stable one). */
  function Argsort(w: seq<real>): (idx: seq<nat>)
    ensures |idx| == |w| && IsArgsort(idx, w)
  {
    ArgsortPrefix(w, |w|)
  }

  /** Indexing by a concatenation of positions concatenates the results. */
  lemma TakeConcat<T>(s: seq<T>, a: seq<nat>, b: seq<nat>)
    requires InRange(a, |s|) && InRange(b, |s|)
    ensures InRange(a + b, |s|)
    ensures Take(s, a + b) == Take(s, a) + Take(s, b)
  {
    assert forall i :: 0 <= i < |a + b| ==> (a + b)[i] == if i < |a| then a[i] else b[i - |a|];
  }

  /** Removing the entry at position p removes one copy of it from the multiset. */
  lemma RemoveAt<T>(b: seq<T>, p: nat)
    requires p < |b|
    ensures multiset(b[..p] + b[p + 1..]) == multiset(b) - multiset{b[p]}
  {
    assert b == b[..p] + [b[p]] + b[p + 1..];
  }

  /** Indexing by b gives the values of indexing by b without its entry p, plus that entry's value. */
  lemma TakeRemoveAt<T>(s: seq<T>, b: seq<nat>, p: nat)
    requires InRange(b, |s|) && p < |b|
    ensures InRange(b[..p] + b[p + 1..], |s|)
    ensures multiset(Take(s, b)) == multiset(Take(s, b[..p] + b[p + 1..])) + multiset{s[b[p]]}
  {
    assert b == b[..p] + [b[p]] + b[p + 1..];
    TakeConcat(s, b[..p], b[p + 1..]);
    TakeConcat(s, b[..p] + [b[p]], b[p + 1..]);
    TakeConcat(s, b[..p], [b[p]]);
  }

  /** Indexing by two lists of positions that hold the same positions gives the same values, in some order. */
  lemma {:induction false} TakeSameMultiset<T>(s: seq<T>, a: seq<nat>, b: seq<nat>)
    requires InRange(a, |s|) && InRange(b, |s|) && multiset(a) == multiset(b)
    ensures multiset(Take(s, a)) == multiset(Take(s, b))
  {
    if a == [] {
      assert |b| == |multiset(b)| == 0;
    } else {
      assert a[0] in multiset(b);
      var p :| 0 <= p < |b| && b[p] == a[0];
      var a', b' := a[..0] + a[1..], b[..p] + b[p + 1..];
      RemoveAt(a, 0);
      RemoveAt(b, p);
      TakeRemoveAt(s, a, 0);
      TakeRemoveAt(s, b, p);
      TakeSameMultiset(s, a', b');
    }
  }

  /** Indexing by a permutation of all positions rearranges the values and keeps every one of them. */
  lemma PermutedTake<T>(s: seq<T>, idx: seq<nat>)
    requires InRange(idx, |s|) && multiset(idx) == multiset(Iota(|s|))
    ensures multiset(Take(s, idx)) == multiset(s)
  {
    TakeSameMultiset(s, idx, Iota(|s|));
    assert Take(s, Iota(|s|)) == s;
  }

  /** A permutation of 0 .. n-1 stays inside a width exactly when n does not exceed that width. */
  lemma PermutationInRange(idx: seq<nat>, n: nat, width: nat)
    requires multiset(idx) == multiset(Iota(n))
    ensures InRange(idx, width) <==> n <= width
  {
    if n <= width {
      forall i | 0 <= i < |idx| ensures idx[i] < width {
        assert idx[i] in multiset(Iota(n));
      }
    } else {
      assert Iota(n)[n - 1] == n - 1;
      assert n - 1 in multiset(idx);
    }
  }

  /** Pairs up the first |a| entries of a and b. */
  function Zip<A, B>(a: seq<A>, b: seq<B>): (z: seq<(A, B)>)
    requires |a| <= |b|
    ensures |z| == |a|
  {
    seq(|a|, i requires 0 <= i < |a| => (a[i], b[i]))
  }

  /** A two-dimensional float array: its number of columns and its rows. */
  datatype Table = Table(width: nat, rows: seq<seq<real>>)

  /** Every row has `width` columns. */
  predicate WellFormed(t: Table)
  {
    forall f :: 0 <= f < |t.rows| ==> |t.rows[f]| == t.width
  }

  /** `t[:, idx]`: the columns idx of every row, or None for numpy's IndexError. */
  function SelectColumns(t: Table, idx: seq<nat>): (r: Option<Table>)
    requires WellFormed(t)
    ensures r.Some? <==> InRange(idx, t.width)
    ensures r.Some? ==> WellFormed(r.value) && r.value.width == |idx| && |r.value.rows| == |t.rows|
    ensures r.Some? ==> forall f, i :: 0 <= f < |t.rows| && 0 <= i < |idx| ==>
      r.value.rows[f][i] == t.rows[f][idx[i]]
  {
    if InRange(idx, t.width) then
      Some(Table(|idx|, seq(|t.rows|, f requires 0 <= f < |t.rows| => Take(t.rows[f], idx))))
    else None
  }

  /** Which of the three tables could not be indexed by the argsort. */
  datatype TableName = FluxTable | UncTable | CountsTable

  /** The arrays an order's result record holds once reordered. */
  datatype Spectrum = Spectrum(wavelength: seq<real>, flux: Table, unc: Table, counts: Table)

  /**
   * The block `idx = wavelength.argsort(); wave = wavelength[idx];
   * flux = flux[:, idx]; unc = unc[:, idx]; counts = counts[:, idx]`.
   */
  function SortByWavelength(w: seq<real>, flux: Table, unc: Table, counts: Table): (r: Result<Spectrum, TableName>)
    requires WellFormed(flux) && WellFormed(unc) && WellFormed(counts)
    ensures r.Ok? ==> |r.value.wavelength| == |w|
    ensures r.Ok? ==> r.value.flux.width == |w| && |r.value.flux.rows| == |flux.rows| && WellFormed(r.value.flux)
    ensures r.Ok? ==> r.value.unc.width == |w| && |r.value.unc.rows| == |unc.rows| && WellFormed(r.value.unc)
    ensures r.Ok? ==> r.value.counts.width == |w| && |r.value.counts.rows| == |counts.rows| && WellFormed(r.value.counts)
  {
    var idx := Argsort(w);
    match SelectColumns(flux, idx)
    case None => Err(FluxTable)
    case Some(flux') =>
      match SelectColumns(unc, idx)
      case None => Err(UncTable)
      case Some(unc') =>
        match SelectColumns(counts, idx)
        case None => Err(CountsTable)
        case Some(counts') => Ok(Spectrum(Take(w, idx), flux', unc', counts'))
  }

  /**
   * The reordering fails exactly when a table has fewer columns than there are
   * wavelengths, and then names the first such table in the order of the source.
   */
  lemma SortByWavelengthFails(w: seq<real>, flux: Table, unc: Table, counts: Table)
    requires WellFormed(flux) && WellFormed(unc) && WellFormed(counts)
    ensures SortByWavelength(w, flux, unc, counts) ==
      if |w| > flux.width then Err(FluxTable)
      else if |w| > unc.width then Err(UncTable)
      else if |w| > counts.width then Err(CountsTable)
      else SortByWavelength(w, flux, unc, counts)
    ensures SortByWavelength(w, flux, unc, counts).Ok? <==>
      |w| <= flux.width && |w| <= unc.width && |w| <= counts.width
  {
    var idx := Argsort(w);
    PermutationInRange(idx, |w|, flux.width);
    PermutationInRange(idx, |w|, unc.width);
    PermutationInRange(idx, |w|, counts.width);
  }

  /** After reordering, the wavelengths ascend and are the input wavelengths rearranged. */
  lemma SortedWavelengths(w: seq<real>, flux: Table, unc: Table, counts: Table)
    requires WellFormed(flux) && WellFormed(unc) && WellFormed(counts)
    requires SortByWavelength(w, flux, unc, counts).Ok?
    ensures var wave := SortByWavelength(w, flux, unc, counts).value.wavelength;
      |wave| == |w| &&
      (forall i, j :: 0 <= i < j < |wave| ==> wave[i] <= wave[j]) &&
      multiset(wave) == multiset(w)
  {
    var idx := Argsort(w);
    PermutedTake(w, idx);
  }

  /** Row by row, t' holds every (wavelength, value) pair of t, with the columns past |w| dropped. */
  predicate KeepsPairs(w: seq<real>, t: Table, wave: seq<real>, t': Table)
  {
    && |t'.rows| == |t.rows| && t'.width == |w| == |wave| && |w| <= t.width
    && WellFormed(t) && WellFormed(t')
    && forall f :: 0 <= f < |t.rows| ==> multiset(Zip(wave, t'.rows[f])) == multiset(Zip(w, t.rows[f]))
  }

  /** One table's columns move with the wavelengths: its (wavelength, value) pairs survive the reordering. */
  lemma ColumnsFollowWavelengths(w: seq<real>, idx: seq<nat>, t: Table)
    requires WellFormed(t) && IsArgsort(idx, w) && |w| <= t.width
    ensures InRange(idx, t.width) && SelectColumns(t, idx).Some?
    ensures KeepsPairs(w, t, Take(w, idx), SelectColumns(t, idx).value)
  {
    PermutationInRange(idx, |w|, t.width);
    assert |idx| == |multiset(idx)| == |Iota(|w|)|;
    var t' := SelectColumns(t, idx).value;
    var wave := Take(w, idx);
    forall f | 0 <= f < |t.rows|
      ensures multiset(Zip(wave, t'.rows[f])) == multiset(Zip(w, t.rows[f]))
    {
      var z := Zip(w, t.rows[f]);
      assert Zip(wave, t'.rows[f]) == Take(z, idx);
      PermutedTake(z, idx);
    }
  }

  /**
   * Reordering preserves pairings: the flux, uncertainty and counts tables
   * keep their rows, get one column per wavelength, and each keeps every
   * (wavelength, value) pair of the input.
   */
  lemma SortByWavelengthKeepsPairs(w: seq<real>, flux: Table, unc: Table, counts: Table)
    requires WellFormed(flux) && WellFormed(unc) && WellFormed(counts)
    requires SortByWavelength(w, flux, unc, counts).Ok?
    ensures var r := SortByWavelength(w, flux, unc, counts).value;
      && KeepsPairs(w, flux, r.wavelength, r.flux)
      && KeepsPairs(w, unc, r.wavelength, r.unc)
      && KeepsPairs(w, counts, r.wavelength, r.counts)
  {
    var idx := Argsort(w);
    SortByWavelengthFails(w, flux, unc, counts);
    ColumnsFollowWavelengths(w, idx, flux);
    ColumnsFollowWavelengths(w, idx, unc);
    ColumnsFollowWavelengths(w, idx, counts);
  }

  /** t' is `t[:, idx]`: row f, column i of t' is row f, column idx[i] of t. */
  predicate MovedBy(t: Table, idx: seq<nat>, t': Table)
  {
    && WellFormed(t) && InRange(idx, t.width)
    && WellFormed(t') && t'.width == |idx| && |t'.rows| == |t.rows|
    && forall f, i :: 0 <= f < |t.rows| && 0 <= i < |idx| ==> t'.rows[f][i] == t.rows[f][idx[i]]
  }

  /**
   * One permutation moves everything: a single argsort of the wavelengths
   * rearranges the grid and the columns of the flux, uncertainty and counts
   * tables, so column i of every table belongs to wavelength i of the grid.
   */
  lemma SortByWavelengthPermutes(w: seq<real>, flux: Table, unc: Table, counts: Table)
    requires WellFormed(flux) && WellFormed(unc) && WellFormed(counts)
    requires SortByWavelength(w, flux, unc, counts).Ok?
    ensures var r := SortByWavelength(w, flux, unc, counts).value;
      exists idx :: IsArgsort(idx, w) && r.wavelength == Take(w, idx)
        && MovedBy(flux, idx, r.flux) && MovedBy(unc, idx, r.unc) && MovedBy(counts, idx, r.counts)
  {
    var r := SortByWavelength(w, flux, unc, counts).value;
    var idx := Argsort(w);
    assert MovedBy(flux, idx, r.flux) && MovedBy(unc, idx, r.unc) && MovedBy(counts, idx, r.counts);
  }

  /** Wavelengths that already increase strictly. */
  predicate StrictlyIncreasing(w: seq<real>)
  {
    forall i, j :: 0 <= i < j < |w| ==> w[i] < w[j]
  }

  /** Positions listed in ascending order. */
  predicate Ascending(a: seq<nat>)
  {
    forall i, j :: 0 <= i < j < |a| ==> a[i] <= a[j]
  }

  /** The tail of an ascending list ascends. */
  lemma AscendingTail(a: seq<nat>)
    requires Ascending(a) && a != []
    ensures Ascending(a[1..])
  {
    forall i, j | 0 <= i < j < |a| - 1
      ensures a[1..][i] <= a[1..][j]
    {
      assert a[1..][i] == a[i + 1] && a[1..][j] == a[j + 1];
    }
  }

  /** Two ascending lists that hold the same entries start with the same entry. */
  lemma AscendingHead(a: seq<nat>, b: seq<nat>)
    requires Ascending(a) && Ascending(b) && multiset(a) == multiset(b) && a != [] && b != []
    ensures a[0] == b[0]
  {
    assert a[0] in multiset(b) && b[0] in multiset(a);
    var i :| 0 <= i < |b| && b[i] == a[0];
    var j :| 0 <= j < |a| && a[j] == b[0];
    assert b[0] <= b[i] && a[0] <= a[j];
  }

  /** Dropping the head of a list drops one copy of it from its entries. */
  lemma DropHead(a: seq<nat>)
    requires a != []
    ensures multiset(a[1..]) == multiset(a) - multiset{a[0]}
  {
    assert a == [a[0]] + a[1..];
  }

  /** Two nonempty ascending lists with the same entries agree on the head and again on the tails. */
  lemma AscendingStep(a: seq<nat>, b: seq<nat>)
    requires Ascending(a) && Ascending(b) && multiset(a) == multiset(b) && a != [] && b != []
    ensures a[0] == b[0] && Ascending(a[1..]) && Ascending(b[1..]) && multiset(a[1..]) == multiset(b[1..])
  {
    AscendingHead(a, b);
    DropHead(a);
    DropHead(b);
    AscendingTail(a);
    AscendingTail(b);
  }

  /** Two ascending lists that hold the same entries are the same list. */
  lemma {:induction false} AscendingUnique(a: seq<nat>, b: seq<nat>)
    requires Ascending(a) && Ascending(b) && multiset(a) == multiset(b)
    ensures a == b
  {
    if a == [] || b == [] {
      assert |a| == |multiset(a)| == |multiset(b)| == |b|;
    } else {
      AscendingStep(a, b);
      AscendingUnique(a[1..], b[1..]);
      assert a == [a[0]] + a[1..] && b == [b[0]] + b[1..];
    }
  }

  /** When the wavelengths already increase strictly, the only argsort is the identity. */
  lemma ArgsortOfIncreasing(idx: seq<nat>, w: seq<real>)
    requires IsArgsort(idx, w) && StrictlyIncreasing(w)
    ensures idx == Iota(|w|)
  {
    forall i, j | 0 <= i < j < |idx|
      ensures idx[i] <= idx[j]
    {
    }
    AscendingUnique(idx, Iota(|w|));
  }

  /** Selecting every column in order gives the table back. */
  lemma SelectAll(t: Table)
    requires WellFormed(t)
    ensures SelectColumns(t, Iota(t.width)) == Some(t)
  {
    var idx := Iota(t.width);
    forall f | 0 <= f < |t.rows|
      ensures Take(t.rows[f], idx) == t.rows[f]
    {
    }
    assert seq(|t.rows|, f requires 0 <= f < |t.rows| => Take(t.rows[f], idx)) == t.rows;
  }

  /**
   * An order whose wavelengths already increase strictly comes out of the
   * reordering exactly as it went in.
   */
  lemma IncreasingUnchanged(w: seq<real>, flux: Table, unc: Table, counts: Table)
    requires WellFormed(flux) && WellFormed(unc) && WellFormed(counts)
    requires flux.width == |w| && unc.width == |w| && counts.width == |w|
    requires StrictlyIncreasing(w)
    ensures SortByWavelength(w, flux, unc, counts) == Ok(Spectrum(w, flux, unc, counts))
  {
    var idx := Argsort(w);
    ArgsortOfIncreasing(idx, w);
    assert Take(w, idx) == w;
    SelectAll(flux);
    SelectAll(unc);
    SelectAll(counts);
  }
}
