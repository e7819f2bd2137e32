/** `select_best`: try every heuristic on every orientation of the bin with
    every candidate count assignment, keep the attempts that do not raise, and
    return the first one that leaves the least area unused. */
module Search {
  import opened Basics
  import opened Subsets
  import opened Orientation
  import opened Area
  import opened Packer

  /** One combination tried: a heuristic, the bins (one orientation of the
      single bin) and a count assignment. */
  datatype Combo = Combo(algo: Algo, bins: seq<Dims>, subset: Catalogue)

  /** A combination whose packing did not raise, with `packer.remaining`. */
  datatype Candidate = Candidate(combo: Combo, remaining: Option<real>)

  /** `product(binperms, vtypes)` for one heuristic: the bins vary slower
      than the count assignments. */
  function Row(a: Algo, ps: seq<seq<Dims>>, ss: seq<Catalogue>): seq<Combo>
    decreases |ps|
  {
    if ps == [] then []
    else seq(|ss|, k requires 0 <= k < |ss| => Combo(a, ps[0], ss[k])) + Row(a, ps[1..], ss)
  }

  /** `product(algos, binperms, vtypes)`: the heuristic varies slowest. */
  function Combos(algos: seq<Algo>, ps: seq<seq<Dims>>, ss: seq<Catalogue>): seq<Combo>
    decreases |algos|
  {
    if algos == [] then [] else Row(algos[0], ps, ss) + Combos(algos[1..], ps, ss)
  }

  lemma {:induction false} RowMember(a: Algo, ps: seq<seq<Dims>>, ss: seq<Catalogue>, c: Combo)
    ensures c in Row(a, ps, ss) <==> c.algo == a && c.bins in ps && c.subset in ss
    decreases |ps|
  {
    if ps != [] {
      var head := seq(|ss|, k requires 0 <= k < |ss| => Combo(a, ps[0], ss[k]));
      var tail := Row(a, ps[1..], ss);
      assert Row(a, ps, ss) == head + tail;
      RowMember(a, ps[1..], ss, c);
      assert c in head <==> c.algo == a && c.bins == ps[0] && c.subset in ss by {
        if c in head {
          var k :| 0 <= k < |ss| && head[k] == c;
        }
        if c.algo == a && c.bins == ps[0] && c.subset in ss {
          var k :| 0 <= k < |ss| && ss[k] == c.subset;
          assert head[k] == c;
        }
      }
      assert c.bins in ps <==> c.bins == ps[0] || c.bins in ps[1..] by {
        assert ps == [ps[0]] + ps[1..];
      }
    }
  }

  lemma {:induction false} RowLength(a: Algo, ps: seq<seq<Dims>>, ss: seq<Catalogue>)
    ensures |Row(a, ps, ss)| == |ps| * |ss|
    decreases |ps|
  {
    if ps != [] {
      RowLength(a, ps[1..], ss);
      assert |Row(a, ps, ss)| == |ss| + (|ps| - 1) * |ss|;
    }
  }

  /** Every combination is tried, and nothing else: a combination is listed
      exactly when its heuristic, bins and count assignment are each among
      those given; there are `len(algos) * len(binperms) * len(vtypes)`. */
  lemma {:induction false} CombosMember(algos: seq<Algo>, ps: seq<seq<Dims>>, ss: seq<Catalogue>, c: Combo)
    ensures c in Combos(algos, ps, ss) <==> c.algo in algos && c.bins in ps && c.subset in ss
    ensures |Combos(algos, ps, ss)| == |algos| * |ps| * |ss|
    decreases |algos|
  {
    if algos != [] {
      RowMember(algos[0], ps, ss, c);
      CombosMember(algos[1..], ps, ss, c);
      if c.algo in algos && c.algo != algos[0] {
        assert c.algo in algos[1..];
      }
    }
    CombosLength(algos, ps, ss);
  }

  lemma {:induction false} CombosLength(algos: seq<Algo>, ps: seq<seq<Dims>>, ss: seq<Catalogue>)
    ensures |Combos(algos, ps, ss)| == |algos| * (|ps| * |ss|)
    ensures |Combos(algos, ps, ss)| == |algos| * |ps| * |ss|
    decreases |algos|
  {
    var m := |ps| * |ss|;
    if algos != [] {
      RowLength(algos[0], ps, ss);
      CombosLength(algos[1..], ps, ss);
      assert |Combos(algos, ps, ss)| == m + (|algos| - 1) * m;
    }
  }

  /** `packer.binpack(bp, vt)` on a fresh `CustomPacker(pack_algo=algo)`
      (rotation on, the library's default) does not raise. */
  predicate Succeeds(place: Placement, c: Combo) {
    Attempt(place, c.algo, true, c.bins, c.subset).Some?
  }

  /** `packer.remaining` after that call. */
  function Remaining(place: Placement, c: Combo): Option<real>
    requires Succeeds(place, c)
  {
    RemainingAfter(Attempt(place, c.algo, true, c.bins, c.subset).value, None)
  }

  /** The parallel lists `valid_algos`, `bps`, `vts`, `results` after the
      loop, as one list of candidates in the order tried. */
  function Survivors(place: Placement, cs: seq<Combo>): seq<Candidate> {
    if cs == [] then []
    else
      var c := cs[|cs| - 1];
      Survivors(place, cs[..|cs| - 1]) + (if Succeeds(place, c) then [Candidate(c, Remaining(place, c))] else [])
  }

  /** The positions, in `cs`, of the combinations that succeed. */
  function SuccessIndices(place: Placement, cs: seq<Combo>): seq<nat> {
    if cs == [] then []
    else SuccessIndices(place, cs[..|cs| - 1]) + (if Succeeds(place, cs[|cs| - 1]) then [|cs| - 1] else [])
  }

  /** Every position in `idx` is a successful one of `cs`. */
  ghost predicate AllSucceed(place: Placement, cs: seq<Combo>, idx: seq<nat>) {
    forall k :: 0 <= k < |idx| ==> idx[k] < |cs| && Succeeds(place, cs[idx[k]])
  }

  ghost predicate Increasing(idx: seq<nat>) {
    forall k, l :: 0 <= k < l < |idx| ==> idx[k] < idx[l]
  }

  /** Every successful position of `cs` is in `idx`. */
  ghost predicate CoversSuccesses(place: Placement, cs: seq<Combo>, idx: seq<nat>) {
    forall i :: 0 <= i < |cs| && Succeeds(place, cs[i]) ==> i in idx
  }

  /** `idx` lists every successful position of `cs`, each once, in
      increasing order. */
  ghost predicate IndexesSuccesses(place: Placement, cs: seq<Combo>, idx: seq<nat>) {
    AllSucceed(place, cs, idx) && Increasing(idx) && CoversSuccesses(place, cs, idx)
  }

  /** `sv` holds, in the order of `idx`, the successful combinations of `cs`
      with their remaining areas. */
  ghost predicate ListsSurvivors(place: Placement, cs: seq<Combo>, idx: seq<nat>, sv: seq<Candidate>) {
    IndexesSuccesses(place, cs, idx) && |sv| == |idx| &&
    forall k :: 0 <= k < |idx| ==> sv[k] == Candidate(cs[idx[k]], Remaining(place, cs[idx[k]]))
  }

  lemma SuccessIndicesSpec(place: Placement, cs: seq<Combo>)
    ensures IndexesSuccesses(place, cs, SuccessIndices(place, cs))
  {
    SuccessIndicesSucceed(place, cs);
    SuccessIndicesIncrease(place, cs);
    SuccessIndicesComplete(place, cs);
  }

  lemma {:induction false} SuccessIndicesSucceed(place: Placement, cs: seq<Combo>)
    ensures AllSucceed(place, cs, SuccessIndices(place, cs))
    decreases |cs|
  {
    if cs != [] {
      var n := |cs|;
      var init := cs[..n - 1];
      SuccessIndicesSucceed(place, init);
      var idx0 := SuccessIndices(place, init);
      var idx := SuccessIndices(place, cs);
      var tail: seq<nat> := if Succeeds(place, cs[n - 1]) then [n - 1] else [];
      assert idx == idx0 + tail;
      forall k | 0 <= k < |idx|
        ensures idx[k] < n && Succeeds(place, cs[idx[k]])
      {
        if k < |idx0| {
          assert idx[k] == idx0[k] && cs[idx0[k]] == init[idx0[k]];
        }
      }
    }
  }

  lemma {:induction false} SuccessIndicesIncrease(place: Placement, cs: seq<Combo>)
    ensures Increasing(SuccessIndices(place, cs))
    decreases |cs|
  {
    if cs != [] {
      var n := |cs|;
      var init := cs[..n - 1];
      SuccessIndicesIncrease(place, init);
      SuccessIndicesSucceed(place, init);
      var idx0 := SuccessIndices(place, init);
      var idx := SuccessIndices(place, cs);
      var tail: seq<nat> := if Succeeds(place, cs[n - 1]) then [n - 1] else [];
      assert idx == idx0 + tail;
      forall k, l | 0 <= k < l < |idx|
        ensures idx[k] < idx[l]
      {
        assert idx[k] == idx0[k];
        if l < |idx0| {
          assert idx[l] == idx0[l];
        }
      }
    }
  }

  lemma {:induction false} SuccessIndicesComplete(place: Placement, cs: seq<Combo>)
    ensures CoversSuccesses(place, cs, SuccessIndices(place, cs))
    decreases |cs|
  {
    if cs != [] {
      var n := |cs|;
      var init := cs[..n - 1];
      SuccessIndicesComplete(place, init);
      var idx0 := SuccessIndices(place, init);
      var idx := SuccessIndices(place, cs);
      var tail: seq<nat> := if Succeeds(place, cs[n - 1]) then [n - 1] else [];
      assert idx == idx0 + tail;
      forall i | 0 <= i < n && Succeeds(place, cs[i])
        ensures i in idx
      {
        if i < n - 1 {
          assert init[i] == cs[i];
          assert i in idx0;
        }
      }
    }
  }

  /** The candidates are the successful combinations, all of them, each
      once, in the order they were tried, each with its own remaining area. */
  lemma {:induction false} SurvivorsIndexed(place: Placement, cs: seq<Combo>)
    ensures ListsSurvivors(place, cs, SuccessIndices(place, cs), Survivors(place, cs))
    decreases |cs|
  {
    SuccessIndicesSpec(place, cs);
    if cs != [] {
      var n := |cs|;
      var init := cs[..n - 1];
      SurvivorsIndexed(place, init);
      var idx0 := SuccessIndices(place, init);
      var idx := SuccessIndices(place, cs);
      var sv0 := Survivors(place, init);
      var sv := Survivors(place, cs);
      var tail: seq<nat> := if Succeeds(place, cs[n - 1]) then [n - 1] else [];
      var svTail := if Succeeds(place, cs[n - 1]) then [Candidate(cs[n - 1], Remaining(place, cs[n - 1]))] else [];
      assert idx == idx0 + tail;
      assert sv == sv0 + svTail;
      forall k | 0 <= k < |idx|
        ensures sv[k] == Candidate(cs[idx[k]], Remaining(place, cs[idx[k]]))
      {
        if k < |idx0| {
          assert idx[k] == idx0[k] && sv[k] == sv0[k];
          assert cs[idx0[k]] == init[idx0[k]];
        }
      }
    }
  }

  /** The first index of a smallest value (`np.argmin` on floats). */
  function FirstMin(s: seq<real>): (k: nat)
    requires |s| > 0
    ensures k < |s|
    ensures forall j :: 0 <= j < |s| ==> s[k] <= s[j]
    ensures forall j :: 0 <= j < k ==> s[k] < s[j]
    decreases |s|
  {
    if |s| == 1 then 0
    else
      var k := FirstMin(s[..|s| - 1]);
      if s[|s| - 1] < s[k] then |s| - 1 else k
  }

  /** `np.argmin(results)`, where a result is None when the packer placed
      nothing: an empty list raises ValueError; a single element is index 0
      without any comparison; otherwise a None among the elements makes the
      comparison raise TypeError, and else the first smallest value wins. */
  function ArgMin(rs: seq<Option<real>>): (r: Result<nat>)
    ensures r == Err(ValueError) <==> rs == []
    ensures r == Err(TypeError) <==> |rs| >= 2 && exists k :: 0 <= k < |rs| && rs[k].None?
    ensures r.Err? ==> r.error == ValueError || r.error == TypeError
    ensures r.Ok? ==> r.value < |rs|
    ensures r.Ok? && |rs| >= 2 ==>
              (forall j :: 0 <= j < |rs| ==> rs[j].Some?) &&
              (forall j :: 0 <= j < |rs| ==> rs[r.value].value <= rs[j].value) &&
              (forall j :: 0 <= j < r.value ==> rs[r.value].value < rs[j].value)
  {
    if rs == [] then Err(ValueError)
    else if |rs| == 1 then Ok(0)
    else if exists k :: 0 <= k < |rs| && rs[k].None? then Err(TypeError)
    else
      var vs := seq(|rs|, k requires 0 <= k < |rs| => rs[k].value);
      var k := FirstMin(vs);
      assert forall j :: 0 <= j < |rs| ==> rs[j] == Some(vs[j]);
      Ok(k)
  }

  /** `results`: the remaining areas of the candidates. */
  function Results(cands: seq<Candidate>): seq<Option<real>> {
    seq(|cands|, k requires 0 <= k < |cands| => cands[k].remaining)
  }

  /** The combination `select_best` returns among those tried, or the
      exception `np.argmin` raises. */
  function Winner(place: Placement, cs: seq<Combo>): Result<Combo> {
    var cands := Survivors(place, cs);
    match ArgMin(Results(cands))
    case Err(e) => Err(e)
    case Ok(k) => Ok(cands[k].combo)
  }

  /** Position i of `cs` holds a successful combination that leaves no more
      area than any other successful one, and strictly less than every
      successful one tried before it. */
  ghost predicate IsFirstBest(place: Placement, cs: seq<Combo>, i: int) {
    0 <= i < |cs| && Succeeds(place, cs[i]) &&
    (forall j :: 0 <= j < |cs| && j != i && Succeeds(place, cs[j]) ==>
       Remaining(place, cs[i]).Some? && Remaining(place, cs[j]).Some? &&
       Remaining(place, cs[i]).value <= Remaining(place, cs[j]).value) &&
    (forall j :: 0 <= j < i && Succeeds(place, cs[j]) ==>
       Remaining(place, cs[i]).Some? && Remaining(place, cs[j]).Some? &&
       Remaining(place, cs[i]).value < Remaining(place, cs[j]).value)
  }

  /** What the choice among the tried combinations promises: ValueError
      exactly when every attempt raised; TypeError exactly when two or more
      succeeded and one of them placed nothing; otherwise the winner is the
      first successful combination with the least remaining area (the only
      successful one, when there is just one). */
  lemma WinnerIsFirstMinimum(place: Placement, cs: seq<Combo>)
    ensures Winner(place, cs) == Err(ValueError) <==> forall i :: 0 <= i < |cs| ==> !Succeeds(place, cs[i])
    ensures Winner(place, cs) == Err(TypeError) <==>
              (exists i, j :: 0 <= i < j < |cs| && Succeeds(place, cs[i]) && Succeeds(place, cs[j])) &&
              (exists i :: 0 <= i < |cs| && Succeeds(place, cs[i]) && Remaining(place, cs[i]).None?)
    ensures Winner(place, cs).Ok? ==>
              exists i :: IsFirstBest(place, cs, i) && Winner(place, cs).value == cs[i]
  {
    var idx := SuccessIndices(place, cs);
    var cands := Survivors(place, cs);
    var rs := Results(cands);
    SurvivorsIndexed(place, cs);
    forall k | 0 <= k < |idx|
      ensures rs[k] == Remaining(place, cs[idx[k]])
    {
      assert rs[k] == cands[k].remaining;
    }
    NoResultIffNoSuccess(place, cs, idx, rs);
    TypeErrorIffNoneAmongSeveral(place, cs, idx, rs);
    if ArgMin(rs).Ok? {
      var a := ArgMin(rs).value;
      FirstBestAt(place, cs, idx, rs, a);
      assert Winner(place, cs).value == cs[idx[a]];
    }
  }

  /** `rs` lists the remaining areas of the successful positions `idx` of
      `cs`, all of them, in increasing order. */
  ghost predicate IndexedResults(place: Placement, cs: seq<Combo>, idx: seq<nat>, rs: seq<Option<real>>) {
    IndexesSuccesses(place, cs, idx) && |rs| == |idx| &&
    forall k :: 0 <= k < |idx| ==> rs[k] == Remaining(place, cs[idx[k]])
  }

  lemma NoResultIffNoSuccess(place: Placement, cs: seq<Combo>, idx: seq<nat>, rs: seq<Option<real>>)
    requires IndexedResults(place, cs, idx, rs)
    ensures rs == [] <==> forall i :: 0 <= i < |cs| ==> !Succeeds(place, cs[i])
  {
    if rs != [] {
      assert Succeeds(place, cs[idx[0]]);
    }
  }

  lemma TypeErrorIffNoneAmongSeveral(place: Placement, cs: seq<Combo>, idx: seq<nat>, rs: seq<Option<real>>)
    requires IndexedResults(place, cs, idx, rs)
    ensures (|rs| >= 2 && exists k :: 0 <= k < |rs| && rs[k].None?) <==>
              (exists i, j :: 0 <= i < j < |cs| && Succeeds(place, cs[i]) && Succeeds(place, cs[j])) &&
              (exists i :: 0 <= i < |cs| && Succeeds(place, cs[i]) && Remaining(place, cs[i]).None?)
  {
    if (exists i, j :: 0 <= i < j < |cs| && Succeeds(place, cs[i]) && Succeeds(place, cs[j])) &&
       (exists i :: 0 <= i < |cs| && Succeeds(place, cs[i]) && Remaining(place, cs[i]).None?) {
      var i, j :| 0 <= i < j < |cs| && Succeeds(place, cs[i]) && Succeeds(place, cs[j]);
      var l :| 0 <= l < |cs| && Succeeds(place, cs[l]) && Remaining(place, cs[l]).None?;
      SeveralSuccesses(place, cs, idx, rs, i, j, l);
    }
    if |rs| >= 2 && exists k :: 0 <= k < |rs| && rs[k].None? {
      var k :| 0 <= k < |rs| && rs[k].None?;
      assert Succeeds(place, cs[idx[0]]) && Succeeds(place, cs[idx[1]]) && idx[0] < idx[1];
      assert Succeeds(place, cs[idx[k]]) && Remaining(place, cs[idx[k]]).None?;
    }
  }

  lemma SeveralSuccesses(place: Placement, cs: seq<Combo>, idx: seq<nat>, rs: seq<Option<real>>, i: nat, j: nat, l: nat)
    requires IndexedResults(place, cs, idx, rs)
    requires i < j < |cs| && Succeeds(place, cs[i]) && Succeeds(place, cs[j])
    requires l < |cs| && Succeeds(place, cs[l]) && Remaining(place, cs[l]).None?
    ensures |rs| >= 2 && exists k :: 0 <= k < |rs| && rs[k].None?
  {
    assert i in idx && j in idx && l in idx;
    var ki :| 0 <= ki < |idx| && idx[ki] == i;
    var kj :| 0 <= kj < |idx| && idx[kj] == j;
    assert ki != kj;
    var kl :| 0 <= kl < |idx| && idx[kl] == l;
    assert rs[kl].None?;
  }

  lemma FirstBestAt(place: Placement, cs: seq<Combo>, idx: seq<nat>, rs: seq<Option<real>>, a: nat)
    requires IndexedResults(place, cs, idx, rs)
    requires a < |rs|
    requires |rs| >= 2 ==>
               (forall j :: 0 <= j < |rs| ==> rs[j].Some?) &&
               (forall j :: 0 <= j < |rs| ==> rs[a].value <= rs[j].value) &&
               (forall j :: 0 <= j < a ==> rs[a].value < rs[j].value)
    ensures IsFirstBest(place, cs, idx[a])
  {
    var i := idx[a];
    forall j | 0 <= j < |cs| && j != i && Succeeds(place, cs[j])
      ensures Remaining(place, cs[i]).Some? && Remaining(place, cs[j]).Some? &&
              Remaining(place, cs[i]).value <= Remaining(place, cs[j]).value
    {
      assert j in idx;
      var l :| 0 <= l < |idx| && idx[l] == j;
      assert |rs| >= 2;
      assert rs[l] == Remaining(place, cs[j]);
    }
    forall j | 0 <= j < i && Succeeds(place, cs[j])
      ensures Remaining(place, cs[i]).Some? && Remaining(place, cs[j]).Some? &&
              Remaining(place, cs[i]).value < Remaining(place, cs[j]).value
    {
      assert j in idx;
      var l :| 0 <= l < |idx| && idx[l] == j;
      assert l < a;
      assert rs[l] == Remaining(place, cs[j]);
    }
  }

  /** The result of `select_best(algos, bins, types, min_fill)`, or the
      exception it raises. `bin_permute` runs first and raises on an empty
      bin list; more than one bin is not implemented; `valid_types` may raise
      before any packing is tried. */
  function SelectBestSpec(place: Placement, algos: seq<Algo>, bins: seq<Dims>, types: Catalogue, minFill: real): Result<Combo> {
    match BinPermute(bins)
    case Err(e) => Err(e)
    case Ok(binperms) =>
      if |bins| != 1 then Err(NotImplementedError)
      else
        match ValidTypesSpec(types, bins[0], minFill)
        case Err(e) => Err(e)
        case Ok(vtypes) => Winner(place, Combos(algos, binperms, vtypes))
  }

  /** What a returned combination is: one of the heuristics given, the bin
      as given or turned, one of the count assignments `valid_types` offers
      (the whole catalogue when it is smaller than the bin, otherwise an
      admissible assignment whose fill ratio lies in the band), and its
      packing succeeds. The error cases: IndexError for no bin,
      NotImplementedError for several, ValueError exactly when nothing could
      be packed. */
  lemma SelectBestOutcome(place: Placement, algos: seq<Algo>, bins: seq<Dims>, types: Catalogue, minFill: real)
    ensures bins == [] ==> SelectBestSpec(place, algos, bins, types, minFill) == Err(IndexError)
    ensures |bins| > 1 ==> SelectBestSpec(place, algos, bins, types, minFill) == Err(NotImplementedError)
    ensures SelectBestSpec(place, algos, bins, types, minFill).Ok? ==>
              var c := SelectBestSpec(place, algos, bins, types, minFill).value;
              && |bins| == 1
              && c.algo in algos
              && (c.bins == [bins[0]] || c.bins == [bins[0].Swapped()])
              && ValidTypesSpec(types, bins[0], minFill).Ok?
              && c.subset in ValidTypesSpec(types, bins[0], minFill).value
              && Succeeds(place, c)
              && (GetArea(types) < bins[0].Area() ==> c.subset == types)
              && (GetArea(types) >= bins[0].Area() ==>
                    NonDegenerate(types) && Admissible(types, bins[0].Area(), c.subset) &&
                    InBand(c.subset, bins[0].Area(), minFill))
    ensures |bins| == 1 && ValidTypesSpec(types, bins[0], minFill).Ok? ==>
              (SelectBestSpec(place, algos, bins, types, minFill) == Err(ValueError) <==>
                 forall c :: c in Combos(algos, BinPermute(bins).value, ValidTypesSpec(types, bins[0], minFill).value)
                   ==> !Succeeds(place, c))
    ensures |bins| == 1 && ValidTypesSpec(types, bins[0], minFill).Ok? &&
            SelectBestSpec(place, algos, bins, types, minFill).Ok? ==>
              var cs := Combos(algos, BinPermute(bins).value, ValidTypesSpec(types, bins[0], minFill).value);
              exists i :: IsFirstBest(place, cs, i) && SelectBestSpec(place, algos, bins, types, minFill).value == cs[i]
  {
    if |bins| == 1 && ValidTypesSpec(types, bins[0], minFill).Ok? {
      var b := bins[0];
      BinPermuteSingle(b);
      var binperms := BinPermute(bins).value;
      var vtypes := ValidTypesSpec(types, b, minFill).value;
      var cs := Combos(algos, binperms, vtypes);
      WinnerIsFirstMinimum(place, cs);
      var r := SelectBestSpec(place, algos, bins, types, minFill);
      assert r == Winner(place, cs);
      if r.Ok? {
        var c := r.value;
        CombosMember(algos, binperms, vtypes, c);
        assert c.bins in [[b], [b.Swapped()]];
        if GetArea(types) >= b.Area() {
          ValidTypesExact(types, b, minFill, c.subset);
        }
      }
      forall c | c in cs
        ensures exists i :: 0 <= i < |cs| && cs[i] == c
      {
      }
    }
  }

  /** The body of the `try` in select_best: a fresh packer with the
      heuristic and rotation on, then `binpack`; `ok` is false when it raises,
      otherwise `remaining` is the packer's remaining area. */
  method TryCombo(place: Placement, c: Combo) returns (ok: bool, remaining: Option<real>)
    ensures ok == Succeeds(place, c)
    ensures ok ==> remaining == Remaining(place, c)
  {
    var packer := new CustomPacker(c.algo, true, place);
    ok := packer.Binpack(c.bins, c.subset);
    assert c.subset != [] ==> packer.sheets == c.bins && packer.rects == Rectangles(c.subset);
    remaining := packer.remaining;
  }

  /** select_best. Each combination is tried on a fresh packer; one that
      raises is skipped; the four parallel lists grow together; `np.argmin`
      picks the winner. */
  method SelectBest(place: Placement, algos: seq<Algo>, bins: seq<Dims>, types: Catalogue, minFill: real)
    returns (r: Result<Combo>)
    ensures r == SelectBestSpec(place, algos, bins, types, minFill)
    ensures bins == [] ==> r == Err(IndexError)
    ensures |bins| > 1 ==> r == Err(NotImplementedError)
  {
    var binperms := BinPermute(bins);
    if binperms.Err? {
      return Err(binperms.error);
    }
    if |bins| != 1 {
      return Err(NotImplementedError);
    }
    var vtypes := ValidTypes(types, bins[0], minFill);
    if vtypes.Err? {
      return Err(vtypes.error);
    }
    var combs := Combos(algos, binperms.value, vtypes.value);
    var results: seq<Option<real>> := [];
    var validAlgos: seq<Algo> := [];
    var bps: seq<seq<Dims>> := [];
    var vts: seq<Catalogue> := [];
    var i := 0;
    while i < |combs|
      invariant 0 <= i <= |combs|
      invariant |validAlgos| == |bps| == |vts| == |results| == |Survivors(place, combs[..i])|
      invariant forall k :: 0 <= k < |results| ==>
                  Survivors(place, combs[..i])[k] == Candidate(Combo(validAlgos[k], bps[k], vts[k]), results[k])
    {
      var c := combs[i];
      var ok, remaining := TryCombo(place, c);
      if ok {
        validAlgos := validAlgos + [c.algo];
        bps := bps + [c.bins];
        vts := vts + [c.subset];
        results := results + [remaining];
      }
      assert combs[..i + 1][..i] == combs[..i];
      i := i + 1;
    }
    assert combs[..i] == combs;
    assert results == Results(Survivors(place, combs));
    var arg := ArgMin(results);
    if arg.Err? {
      return Err(arg.error);
    }
    return Ok(Combo(validAlgos[arg.value], bps[arg.value], vts[arg.value]));
  }
}
