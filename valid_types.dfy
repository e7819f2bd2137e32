/** `valid_types`: the candidate count assignments for a single bin. Either
    the whole catalogue (when it asks for less than the bin's area) or every
    assignment of at most `min(count, int(bin_area / piece_area))` pieces per
    key whose fill ratio lies strictly between `min_fill` and 1. */
module Subsets {
  import opened Basics
  import opened Area
  import opened CrossProduct

  /** Python's `int()` on a float: the integer part, rounded toward zero. */
  function Trunc(q: real): (n: int)
    ensures 0.0 <= q ==> 0 <= n && n as real <= q < n as real + 1.0
    ensures q < 0.0 ==> n <= 0 && n as real - 1.0 < q <= n as real
  {
    if q >= 0.0 then q.Floor else -((-q).Floor)
  }

  function Min(a: int, b: int): int {
    if a <= b then a else b
  }

  /** No piece type has zero area (otherwise `bin_area / cut_area` raises). */
  predicate NonDegenerate(c: Catalogue) {
    forall i :: 0 <= i < |c| ==> c[i].key.Area() != 0.0
  }

  /** `max_cuts`: the most pieces of one type worth trying on the bin. */
  function Cap(e: Entry, binArea: real): int
    requires e.key.Area() != 0.0
  {
    Min(e.count, Trunc(binArea / e.key.Area()))
  }

  /** `[(x, y, num_cuts) for num_cuts in range(cap + 1)]`: the counts of one
      key to try, in increasing order (none at all when the cap is negative). */
  function CountChoices(k: Dims, cap: int): (r: seq<Entry>)
    ensures |r| == if cap < 0 then 0 else cap + 1
    ensures forall i :: 0 <= i < |r| ==> r[i] == Entry(k, i)
    ensures forall e: Entry :: e in r <==> e.key == k && e.count <= cap
  {
    if cap < 0 then []
    else
      var r := seq(cap + 1, n requires 0 <= n <= cap => Entry(k, n));
      assert forall e: Entry :: e.key == k && e.count <= cap ==> r[e.count] == e;
      r
  }

  /** `possible_cuts`: the list of count choices of every key, in key order. */
  function Choices(c: Catalogue, binArea: real): (cs: seq<seq<Entry>>)
    requires NonDegenerate(c)
    ensures |cs| == |c|
  {
    seq(|c|, i requires 0 <= i < |c| => CountChoices(c[i].key, Cap(c[i], binArea)))
  }

  /** `s` keeps the keys of `c`, in order, and gives each between 0 and its cap. */
  ghost predicate Admissible(c: Catalogue, binArea: real, s: Catalogue)
    requires NonDegenerate(c)
  {
    |s| == |c| && forall i :: 0 <= i < |s| ==> s[i].key == c[i].key && s[i].count <= Cap(c[i], binArea)
  }

  /** `min_fill < area / bin_area < 1`, for a division that does not raise. */
  predicate InBand(s: Catalogue, binArea: real, minFill: real) {
    binArea != 0.0 && minFill < GetArea(s) / binArea < 1.0
  }

  /** The subsets of `ps` that are in the band, in their order. */
  function KeepInBand(ps: seq<Catalogue>, binArea: real, minFill: real): seq<Catalogue> {
    if ps == [] then []
    else
      var last := ps[|ps| - 1];
      KeepInBand(ps[..|ps| - 1], binArea, minFill) + (if InBand(last, binArea, minFill) then [last] else [])
  }

  /** The number of count assignments tried: the product of `cap + 1` over
      the keys (0 as soon as one cap is negative). */
  function NumAssignments(c: Catalogue, binArea: real): nat
    requires NonDegenerate(c)
    decreases |c|
  {
    if c == [] then 1
    else
      var cap := Cap(c[0], binArea);
      (if cap < 0 then 0 else cap + 1) * NumAssignments(c[1..], binArea)
  }

  /** The result of `valid_types(types, binsize, min_fill)`, or the exception
      it raises. The dict comprehension over a product tuple rebuilds the keys
      of `types` in their order, so a subset is itself a catalogue. */
  function ValidTypesSpec(types: Catalogue, binsize: Dims, minFill: real): Result<seq<Catalogue>> {
    var binArea := binsize.Area();
    if GetArea(types) < binArea then Ok([types])
    else if !NonDegenerate(types) then Err(ZeroDivisionError)
    else
      var ps := Product(Choices(types, binArea));
      if ps != [] && binArea == 0.0 then Err(ZeroDivisionError)
      else Ok(KeepInBand(ps, binArea, minFill))
  }

  lemma {:induction false} KeepInBandMember(ps: seq<Catalogue>, binArea: real, minFill: real, s: Catalogue)
    ensures s in KeepInBand(ps, binArea, minFill) <==> s in ps && InBand(s, binArea, minFill)
    decreases |ps|
  {
    if ps != [] {
      var init := ps[..|ps| - 1];
      assert ps == init + [ps[|ps| - 1]];
      KeepInBandMember(init, binArea, minFill, s);
    }
  }

  /** A subset is in the product of the count choices exactly when it is
      admissible: same keys in the same order, each count within its cap. */
  lemma ChoicesProductMember(c: Catalogue, binArea: real, s: Catalogue)
    requires NonDegenerate(c)
    ensures s in Product(Choices(c, binArea)) <==> Admissible(c, binArea, s)
  {
    var cs := Choices(c, binArea);
    ProductMember(cs, s);
    if OneFromEach(s, cs) {
      forall i | 0 <= i < |s| ensures s[i].key == c[i].key && s[i].count <= Cap(c[i], binArea) {
        assert s[i] in cs[i];
      }
    }
    if Admissible(c, binArea, s) {
      forall i | 0 <= i < |s| ensures s[i] in cs[i] {
        assert s[i].key == c[i].key && s[i].count <= Cap(c[i], binArea);
      }
    }
  }

  /** In the pruning branch the result is exactly the admissible subsets whose
      fill ratio lies strictly inside (min_fill, 1): every returned subset is
      admissible and in band, and every admissible subset in band is returned.
      An empty result is a normal outcome. */
  lemma ValidTypesExact(types: Catalogue, binsize: Dims, minFill: real, s: Catalogue)
    requires GetArea(types) >= binsize.Area()
    requires ValidTypesSpec(types, binsize, minFill).Ok?
    ensures NonDegenerate(types)
    ensures s in ValidTypesSpec(types, binsize, minFill).value
            <==> Admissible(types, binsize.Area(), s) && InBand(s, binsize.Area(), minFill)
  {
    var binArea := binsize.Area();
    var ps := Product(Choices(types, binArea));
    KeepInBandMember(ps, binArea, minFill, s);
    ChoicesProductMember(types, binArea, s);
  }

  /** Each cap keeps one piece type alone within the bin: n pieces of a
      positive area, n at most the cap, cover no more than the bin. */
  lemma CapFitsBin(e: Entry, binArea: real, n: nat)
    requires e.key.Area() > 0.0 && binArea >= 0.0
    requires n <= Cap(e, binArea)
    ensures n as real * e.key.Area() <= binArea
  {
    var a := e.key.Area();
    var q := binArea / a;
    assert q >= 0.0;
    assert n as real <= q;
    assert q * a == binArea;
    assert (q - n as real) * a >= 0.0;
  }

  /** The number of count assignments tried before filtering is the product
      of `cap + 1` over the keys. */
  lemma {:induction false} AssignmentsCount(c: Catalogue, binArea: real)
    requires NonDegenerate(c)
    ensures |Product(Choices(c, binArea))| == NumAssignments(c, binArea)
  {
    ProductLength(Choices(c, binArea));
    ChoicesSize(c, binArea);
  }

  lemma {:induction false} ChoicesSize(c: Catalogue, binArea: real)
    requires NonDegenerate(c)
    ensures ProductSize(Choices(c, binArea)) == NumAssignments(c, binArea)
    decreases |c|
  {
    if c != [] {
      assert Choices(c, binArea)[1..] == Choices(c[1..], binArea);
      ChoicesSize(c[1..], binArea);
    }
  }

  /** One more key in the loop that builds `possible_cuts` adds its own choices. */
  lemma ChoicesExtend(c: Catalogue, binArea: real, i: nat)
    requires i < |c| && NonDegenerate(c[..i]) && c[i].key.Area() != 0.0
    ensures NonDegenerate(c[..i + 1])
    ensures Choices(c[..i + 1], binArea) == Choices(c[..i], binArea) + [CountChoices(c[i].key, Cap(c[i], binArea))]
  {
    assert c[..i + 1] == c[..i] + [c[i]];
  }

  /** The first loop of valid_types: `possible_cuts`, one list of count
      choices per key; raises on the first key of zero area. */
  method PossibleCuts(types: Catalogue, binArea: real) returns (r: Result<seq<seq<Entry>>>)
    ensures r.Ok? <==> NonDegenerate(types)
    ensures r.Ok? ==> r.value == Choices(types, binArea)
    ensures r.Err? ==> r.error == ZeroDivisionError
  {
    var possibleCuts: seq<seq<Entry>> := [];
    var i := 0;
    while i < |types|
      invariant 0 <= i <= |types|
      invariant NonDegenerate(types[..i])
      invariant possibleCuts == Choices(types[..i], binArea)
    {
      var cutArea := types[i].key.Area();
      if cutArea == 0.0 {
        return Err(ZeroDivisionError);
      }
      var maxCuts := Min(types[i].count, Trunc(binArea / cutArea));
      ChoicesExtend(types, binArea, i);
      possibleCuts := possibleCuts + [CountChoices(types[i].key, maxCuts)];
      i := i + 1;
    }
    assert types[..i] == types;
    return Ok(possibleCuts);
  }

  /** The second loop of valid_types: the subsets whose fill ratio is in band,
      in order; raises when the bin has zero area and there is a subset to
      divide. */
  method KeepValidCutSets(possibleCutSets: seq<Catalogue>, binArea: real, minFill: real)
    returns (r: Result<seq<Catalogue>>)
    ensures r.Err? <==> possibleCutSets != [] && binArea == 0.0
    ensures r.Err? ==> r.error == ZeroDivisionError
    ensures r.Ok? ==> r.value == KeepInBand(possibleCutSets, binArea, minFill)
    ensures r.Ok? ==> forall s :: s in r.value ==> s in possibleCutSets && InBand(s, binArea, minFill)
  {
    var validCutSets: seq<Catalogue> := [];
    var i := 0;
    while i < |possibleCutSets|
      invariant 0 <= i <= |possibleCutSets|
      invariant validCutSets == KeepInBand(possibleCutSets[..i], binArea, minFill)
      invariant i > 0 ==> binArea != 0.0
    {
      var pcs := possibleCutSets[i];
      var a := GetArea(pcs);
      if binArea == 0.0 {
        return Err(ZeroDivisionError);
      }
      var ratio := a / binArea;
      if minFill < ratio < 1.0 {
        validCutSets := validCutSets + [pcs];
      }
      assert possibleCutSets[..i + 1][..i] == possibleCutSets[..i];
      i := i + 1;
    }
    assert possibleCutSets[..i] == possibleCutSets;
    r := Ok(validCutSets);
    forall s | s in r.value ensures s in possibleCutSets && InBand(s, binArea, minFill) {
      KeepInBandMember(possibleCutSets, binArea, minFill, s);
    }
  }

  /** valid_types: the shortcut, the loop that builds `possible_cuts`, their
      product, and the loop that keeps the subsets in band. */
  method ValidTypes(types: Catalogue, binsize: Dims, minFill: real) returns (r: Result<seq<Catalogue>>)
    ensures r == ValidTypesSpec(types, binsize, minFill)
    ensures GetArea(types) < binsize.Area() ==> r == Ok([types])
    ensures r.Err? ==> r.error == ZeroDivisionError
    ensures r.Ok? && GetArea(types) >= binsize.Area() ==>
              NonDegenerate(types) &&
              forall s :: s in r.value ==> Admissible(types, binsize.Area(), s) && InBand(s, binsize.Area(), minFill)
  {
    var totalArea := GetArea(types);
    var binArea := binsize.Area();
    if totalArea < binArea {
      return Ok([types]);
    }
    var possibleCuts := PossibleCuts(types, binArea);
    if possibleCuts.Err? {
      return Err(possibleCuts.error);
    }
    var possibleCutSets := Product(possibleCuts.value);
    r := KeepValidCutSets(possibleCutSets, binArea, minFill);
    if r.Ok? {
      forall s | s in r.value
        ensures Admissible(types, binArea, s) && InBand(s, binArea, minFill)
      {
        ChoicesProductMember(types, binArea, s);
      }
    }
  }
}
