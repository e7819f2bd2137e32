/** `bin_permute`: the orientations of the bins to try. */
module Orientation {
  import opened Basics
  import opened CrossProduct

  /** `permutations((l, w))`: the bin as given, then turned. Both are listed
      even when the bin is square. */
  function Orientations(d: Dims): seq<Dims> {
    [d, d.Swapped()]
  }

  /** The multi-bin branch as written: `product(perms)` with the list of
      per-bin permutations passed as ONE iterable, so each element is a
      1-tuple holding one bin's two orientations. */
  function BinPermuteMultiAsWritten(bins: seq<Dims>): seq<seq<seq<Dims>>> {
    seq(|bins|, i requires 0 <= i < |bins| => [Orientations(bins[i])])
  }

  /** The multi-bin branch as intended: `product(*perms)`, one orientation
      chosen independently for every bin. */
  function BinPermuteMulti(bins: seq<Dims>): seq<seq<Dims>> {
    Product(seq(|bins|, i requires 0 <= i < |bins| => Orientations(bins[i])))
  }

  /** `bin_permute(bins)`: `bins[0]` raises on an empty list; one bin gives
      its two orientations, each wrapped in a singleton list. For several
      bins this is the corrected enumeration `BinPermuteMulti`, not the
      as-written `BinPermuteMultiAsWritten`; the difference cannot be
      observed, since `product(perms)` does not raise and `select_best`
      raises NotImplementedError for several bins right after. */
  function BinPermute(bins: seq<Dims>): Result<seq<seq<Dims>>> {
    if |bins| > 1 then Ok(BinPermuteMulti(bins))
    else if bins == [] then Err(IndexError)
    else Ok(seq(2, i requires 0 <= i < 2 => [Orientations(bins[0])[i]]))
  }

  function Pow2(n: nat): nat {
    if n == 0 then 1 else 2 * Pow2(n - 1)
  }

  /** For one bin (l, w) the result is exactly [[(l, w)], [(w, l)]], two
      entries even when l == w, and it agrees with the cross product of the
      per-bin orientations. */
  lemma BinPermuteSingle(b: Dims)
    ensures BinPermute([b]) == Ok([[b], [Dims(b.width, b.length)]])
    ensures BinPermute([b]) == Ok(BinPermuteMulti([b]))
    ensures |BinPermute([b]).value| == 2
  {
    var cs := seq(1, i requires 0 <= i < 1 => Orientations([b][i]));
    assert cs == [[b, b.Swapped()]];
    assert cs[1..] == [];
    var tails: seq<seq<Dims>> := [[]];
    assert Product(cs[1..]) == tails;
    assert [b, b.Swapped()][1..] == [b.Swapped()];
    assert [b.Swapped()][1..] == [];
    assert [b] + tails[0] == [b];
    assert [b.Swapped()] + tails[0] == [b.Swapped()];
    assert seq(|tails|, k requires 0 <= k < |tails| => [b.Swapped()] + tails[k]) == [[b.Swapped()]];
    assert seq(|tails|, k requires 0 <= k < |tails| => [b] + tails[k]) == [[b]];
    assert Prepend([b.Swapped()], tails) == [[b.Swapped()]];
    assert Prepend([b, b.Swapped()], tails) == [[b], [b.Swapped()]];
    assert BinPermuteMulti([b]) == Product(cs);
    assert seq(2, i requires 0 <= i < 2 => [Orientations([b][0])[i]]) == [[b], [b.Swapped()]];
  }

  /** The corrected multi-bin enumeration: exactly the tuples that pick one
      orientation of each bin, 2^n of them for n bins. */
  lemma {:induction false} BinPermuteMultiSpec(bins: seq<Dims>, t: seq<Dims>)
    ensures t in BinPermuteMulti(bins) <==>
              |t| == |bins| && forall i :: 0 <= i < |t| ==> t[i] == bins[i] || t[i] == bins[i].Swapped()
    ensures |BinPermuteMulti(bins)| == Pow2(|bins|)
  {
    var cs := seq(|bins|, i requires 0 <= i < |bins| => Orientations(bins[i]));
    ProductMember(cs, t);
    ProductLength(cs);
    OrientationsSize(bins);
  }

  lemma {:induction false} OrientationsSize(bins: seq<Dims>)
    ensures ProductSize(seq(|bins|, i requires 0 <= i < |bins| => Orientations(bins[i]))) == Pow2(|bins|)
    decreases |bins|
  {
    if bins != [] {
      var cs := seq(|bins|, i requires 0 <= i < |bins| => Orientations(bins[i]));
      assert cs[1..] == seq(|bins[1..]|, i requires 0 <= i < |bins[1..]| => Orientations(bins[1..][i]));
      OrientationsSize(bins[1..]);
    }
  }

  /** The discrepancy, for any two bins: as written there are 2 entries, each
      a 1-tuple (not one sheet per bin), where the cross product has 4 entries
      of one orientation per bin. */
  lemma AsWrittenIsNotTheCrossProduct(a: Dims, b: Dims)
    ensures |BinPermuteMultiAsWritten([a, b])| == 2
    ensures forall t :: t in BinPermuteMultiAsWritten([a, b]) ==> |t| == 1
    ensures |BinPermuteMulti([a, b])| == 4
    ensures forall t :: t in BinPermuteMulti([a, b]) ==> |t| == 2
  {
    forall t | t in BinPermuteMulti([a, b]) ensures |t| == 2 {
      BinPermuteMultiSpec([a, b], t);
    }
    BinPermuteMultiSpec([a, b], []);
  }
}
