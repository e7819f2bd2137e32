/** `CustomPacker`: a packer object that turns a catalogue into individual
    rectangles, numbers the piece types, runs the placement library once and
    keeps the used area, the remaining area and the list of cuts. */
module Packer {
  import opened Basics
  import opened Area

  /** `count * (key,)`: the key repeated `count` times. */
  function Repeat(k: Dims, n: nat): (r: seq<Dims>)
    ensures |r| == n
    ensures forall i :: 0 <= i < n ==> r[i] == k
  {
    seq(n, _ => k)
  }

  /** `reduce(add, [...])` over a non-empty catalogue: every key repeated by
      its count, keys in insertion order. */
  function Rectangles(c: Catalogue): seq<Dims> {
    if c == [] then [] else Rectangles(c[..|c| - 1]) + Repeat(c[|c| - 1].key, c[|c| - 1].count)
  }

  /** The rectangle list of `binpack`, or None when `reduce` raises a
      TypeError because the catalogue is empty. */
  function Expand(c: Catalogue): Option<seq<Dims>> {
    if c == [] then None else Some(Rectangles(c))
  }

  /** `types.get(d, 0)` for a dict. */
  function CountOf(c: Catalogue, d: Dims): nat {
    if c == [] then 0
    else if c[|c| - 1].key == d then c[|c| - 1].count
    else CountOf(c[..|c| - 1], d)
  }

  /** The total area of a list of rectangles. */
  function RectsArea(rs: seq<Dims>): real {
    if rs == [] then 0.0 else RectsArea(rs[..|rs| - 1]) + rs[|rs| - 1].Area()
  }

  /** The dict comprehension `{sorted(key, reverse=True): i + 1 for i, key in
      enumerate(keys)}`: later keys overwrite earlier ones with the same
      canonical form. */
  function Numbering(keys: seq<Dims>): map<Dims, nat> {
    if keys == [] then map[]
    else Numbering(keys[..|keys| - 1])[keys[|keys| - 1].Canonical() := |keys|]
  }

  /** The sum of w * h over a list of cuts. */
  function UsedArea(cuts: seq<Cut>): real {
    if cuts == [] then 0.0 else UsedArea(cuts[..|cuts| - 1]) + cuts[|cuts| - 1].Area()
  }

  /** All cuts of all packed bins, bin after bin. */
  function AllCuts(bins: seq<PackedBin>): seq<Cut> {
    if bins == [] then [] else AllCuts(bins[..|bins| - 1]) + bins[|bins| - 1].rects
  }

  /** `area` after the loop over the packed bins: the last bin's area. */
  function AreaAfter(bins: seq<PackedBin>, before: Option<real>): Option<real> {
    if bins == [] then before
    else Some(bins[|bins| - 1].Area())
  }

  /** `remaining` after the loop over the packed bins: the last bin's area
      less the area of the rectangles placed in it. */
  function RemainingAfter(bins: seq<PackedBin>, before: Option<real>): Option<real> {
    if bins == [] then before
    else
      var b := bins[|bins| - 1];
      Some(b.Area() - UsedArea(b.rects))
  }

  /** What `binpack(bins, types)` makes the library produce on a fresh
      packer: None when the call raises. */
  function Attempt(place: Placement, algo: Algo, rotation: bool, bins: seq<Dims>, types: Catalogue): Option<seq<PackedBin>> {
    match Expand(types)
    case None => None
    case Some(rs) => place(algo, rotation, bins, rs)
  }

  lemma {:induction false} RepeatMultiplicity(k: Dims, n: nat, d: Dims)
    ensures multiset(Repeat(k, n))[d] == if d == k then n else 0
    decreases n
  {
    if n > 0 {
      assert Repeat(k, n) == Repeat(k, n - 1) + [k];
      RepeatMultiplicity(k, n - 1, d);
    }
  }

  lemma {:induction false} CountOfAbsent(c: Catalogue, d: Dims)
    requires forall i :: 0 <= i < |c| ==> c[i].key != d
    ensures CountOf(c, d) == 0
    decreases |c|
  {
    if c != [] {
      CountOfAbsent(c[..|c| - 1], d);
    }
  }

  /** The rectangle list holds each key exactly as many times as the dict
      gives it, and no other rectangle. */
  lemma {:induction false} RectanglesMultiplicity(c: Catalogue, d: Dims)
    requires DistinctKeys(c)
    ensures multiset(Rectangles(c))[d] == CountOf(c, d)
    decreases |c|
  {
    if c != [] {
      var init, last := c[..|c| - 1], c[|c| - 1];
      RectanglesMultiplicity(init, d);
      RepeatMultiplicity(last.key, last.count, d);
      if last.key == d {
        CountOfAbsent(init, d);
      }
    }
  }

  /** In a dict the lookup of a present key gives its count. */
  lemma {:induction false} CountOfPresent(c: Catalogue, i: nat)
    requires DistinctKeys(c) && i < |c|
    ensures CountOf(c, c[i].key) == c[i].count
    decreases |c|
  {
    if i < |c| - 1 {
      CountOfPresent(c[..|c| - 1], i);
    }
  }

  lemma {:induction false} RectsAreaAppend(a: seq<Dims>, b: seq<Dims>)
    ensures RectsArea(a + b) == RectsArea(a) + RectsArea(b)
    decreases |b|
  {
    if b == [] {
      assert a + b == a;
    } else {
      assert (a + b)[..|a + b| - 1] == a + b[..|b| - 1];
      RectsAreaAppend(a, b[..|b| - 1]);
    }
  }

  lemma {:induction false} RepeatArea(k: Dims, n: nat)
    ensures RectsArea(Repeat(k, n)) == EntryArea(Entry(k, n))
    decreases n
  {
    if n > 0 {
      assert Repeat(k, n)[..n - 1] == Repeat(k, n - 1);
      RepeatArea(k, n - 1);
    }
  }

  /** The rectangles handed to the library ask for exactly the catalogue's
      area (`_get_area`). */
  lemma {:induction false} RectanglesArea(c: Catalogue)
    ensures RectsArea(Rectangles(c)) == GetArea(c)
    decreases |c|
  {
    if c != [] {
      var init, last := c[..|c| - 1], c[|c| - 1];
      RectanglesArea(init);
      RectsAreaAppend(Rectangles(init), Repeat(last.key, last.count));
      RepeatArea(last.key, last.count);
      assert Entry(last.key, last.count) == last;
    }
  }

  /** `k` is the last index of `keys` whose canonical form is `d`. */
  ghost predicate LastCanonicalAt(keys: seq<Dims>, d: Dims, k: int) {
    0 <= k < |keys| && keys[k].Canonical() == d &&
    forall j :: k < j < |keys| ==> keys[j].Canonical() != d
  }

  /** Every key is numbered under its canonical form. */
  lemma {:induction false} NumberingCovers(keys: seq<Dims>, i: nat)
    requires i < |keys|
    ensures keys[i].Canonical() in Numbering(keys)
    decreases |keys|
  {
    var n := |keys|;
    if i < n - 1 {
      var init := keys[..n - 1];
      NumberingCovers(init, i);
      assert keys[i] == init[i];
    }
  }

  /** The type numbering holds only canonical keys; each one is numbered
      1 + the index of its LAST key with that canonical form. */
  lemma {:induction false} NumberingLast(keys: seq<Dims>, d: Dims)
    requires d in Numbering(keys)
    ensures LastCanonicalAt(keys, d, Numbering(keys)[d] as int - 1)
    decreases |keys|
  {
    var n := |keys|;
    var init := keys[..n - 1];
    var c := keys[n - 1].Canonical();
    var m0 := Numbering(init);
    assert Numbering(keys) == m0[c := n];
    if d != c {
      NumberingLast(init, d);
      var k := m0[d] as int - 1;
      assert keys[k] == init[k];
      forall j | k < j < n ensures keys[j].Canonical() != d {
        if j < n - 1 {
          assert keys[j] == init[j];
        }
      }
    }
  }

  /** When no two keys share a canonical form, key number i (0-based) is
      numbered i + 1. */
  lemma NumberingOfDistinct(keys: seq<Dims>, i: nat)
    requires forall j, k :: 0 <= j < k < |keys| ==> keys[j].Canonical() != keys[k].Canonical()
    requires i < |keys|
    ensures keys[i].Canonical() in Numbering(keys)
    ensures Numbering(keys)[keys[i].Canonical()] == i + 1
  {
    NumberingCovers(keys, i);
    NumberingLast(keys, keys[i].Canonical());
  }

  /** With a single packed bin, as `select_best` uses the packer, the
      remaining area is the bin's area less the area of the cuts recorded. */
  lemma SingleBinRemaining(bins: seq<PackedBin>, area: Option<real>, remaining: Option<real>)
    requires |bins| == 1
    ensures AreaAfter(bins, area).Some? && RemainingAfter(bins, remaining).Some?
    ensures RemainingAfter(bins, remaining).value == AreaAfter(bins, area).value - UsedArea(AllCuts(bins))
  {
    assert bins[..0] == [];
    assert AllCuts(bins) == bins[0].rects;
  }

  /** The packer object. `place` stands for the library; `rects` and
      `sheets` are the rectangles and bins added to it so far, and `bins` is
      what iterating over it yields after packing. */
  class CustomPacker {
    const algo: Algo
    const rotation: bool
    const place: Placement
    var rects: seq<Dims>
    var sheets: seq<Dims>
    var bins: seq<PackedBin>
    var packed: bool
    var area: Option<real>
    var remaining: Option<real>
    var types: map<Dims, nat>
    var cuts: seq<Cut>

    /** `CustomPacker(pack_algo=algo, rotation=rotation)`. */
    constructor (algo: Algo, rotation: bool, place: Placement)
      ensures this.algo == algo && this.rotation == rotation && this.place == place
      ensures rects == [] && sheets == [] && bins == []
      ensures !packed && area == None && remaining == None
      ensures types == map[] && cuts == []
    {
      this.algo, this.rotation, this.place := algo, rotation, place;
      rects, sheets, bins := [], [], [];
      packed, area, remaining := false, None, None;
      types, cuts := map[], [];
    }

    /** The `add_rect` calls: each rectangle is added in turn. */
    method AddRects(rectangles: seq<Dims>)
      modifies this`rects
      ensures rects == old(rects) + rectangles
    {
      var i := 0;
      while i < |rectangles|
        invariant 0 <= i <= |rectangles|
        invariant rects == old(rects) + rectangles[..i]
      {
        rects := rects + [rectangles[i]];
        i := i + 1;
      }
      assert rectangles[..i] == rectangles;
    }

    /** The `add_bin` calls: each bin is added in turn. */
    method AddBins(sizes: seq<Dims>)
      modifies this`sheets
      ensures sheets == old(sheets) + sizes
    {
      var i := 0;
      while i < |sizes|
        invariant 0 <= i <= |sizes|
        invariant sheets == old(sheets) + sizes[..i]
      {
        sheets := sheets + [sizes[i]];
        i := i + 1;
      }
      assert sizes[..i] == sizes;
    }

    /** One pass of the outer loop over the packed bins: `area` and
        `remaining` restart from the bin's area, every placed rectangle's area
        is taken off `remaining` and the rectangle is appended to `cuts`. */
    method TallyBin(abin: PackedBin)
      modifies this`area, this`remaining, this`cuts
      ensures area == Some(abin.Area())
      ensures remaining == Some(abin.Area() - UsedArea(abin.rects))
      ensures cuts == old(cuts) + abin.rects
    {
      area := Some(abin.Area());
      remaining := Some(abin.Area());
      var j := 0;
      while j < |abin.rects|
        invariant 0 <= j <= |abin.rects|
        invariant cuts == old(cuts) + abin.rects[..j]
        invariant remaining == Some(abin.Area() - UsedArea(abin.rects[..j]))
        invariant area == Some(abin.Area())
      {
        var rect := abin.rects[j];
        assert abin.rects[..j + 1][..j] == abin.rects[..j];
        assert UsedArea(abin.rects[..j + 1]) == UsedArea(abin.rects[..j]) + rect.Area();
        remaining := Some(remaining.value - rect.Area());
        cuts := cuts + [rect];
        j := j + 1;
      }
      assert abin.rects[..j] == abin.rects;
    }

    /** The loop over the packed bins, starting from an empty cut list. */
    method Tally()
      requires cuts == []
      modifies this`area, this`remaining, this`cuts
      ensures cuts == AllCuts(bins)
      ensures area == AreaAfter(bins, old(area))
      ensures remaining == RemainingAfter(bins, old(remaining))
    {
      var i := 0;
      while i < |bins|
        invariant 0 <= i <= |bins|
        invariant cuts == AllCuts(bins[..i])
        invariant area == AreaAfter(bins[..i], old(area))
        invariant remaining == RemainingAfter(bins[..i], old(remaining))
      {
        TallyBin(bins[i]);
        assert bins[..i + 1][..i] == bins[..i];
        i := i + 1;
      }
      assert bins[..i] == bins;
    }

    /** `binpack(bins, types)`. Returns false where the Python call raises:
        `reduce` on an empty catalogue, or the library's `pack()`. */
    method Binpack(binsIn: seq<Dims>, catalogue: Catalogue) returns (ok: bool)
      modifies this
      ensures types == Numbering(Keys(catalogue))
      ensures catalogue == [] ==> rects == old(rects) && sheets == old(sheets)
      ensures catalogue != [] ==> rects == old(rects) + Rectangles(catalogue) && sheets == old(sheets) + binsIn
      ensures ok <==> catalogue != [] && place(algo, rotation, sheets, rects).Some?
      ensures !ok ==> bins == old(bins) && packed == old(packed) && area == old(area)
                      && remaining == old(remaining) && cuts == []
      ensures ok ==> bins == place(algo, rotation, sheets, rects).value && packed
      ensures ok ==> cuts == AllCuts(bins)
      ensures ok ==> area == AreaAfter(bins, old(area)) && remaining == RemainingAfter(bins, old(remaining))
    {
      cuts := [];
      types := Numbering(Keys(catalogue));
      var expanded := Expand(catalogue);
      if expanded.None? {
        return false;
      }
      AddRects(expanded.value);
      AddBins(binsIn);
      var outcome := place(algo, rotation, sheets, rects);  // pack
      if outcome.None? {
        return false;
      }
      bins := outcome.value;
      packed := true;
      Tally();
      return true;
    }
  }
}
