/** Values shared by every part of the packer model: optional values, the
    Python exceptions the core can raise, sizes, catalogues and the shape of a
    placement produced by the rectangle-packing library. */
module Basics {

  datatype Option<T> = None | Some(value: T)

  /** The Python exception classes that escape (or are caught inside) the core. */
  datatype Error =
    | ZeroDivisionError    // a float division by 0.0
    | IndexError           // bins[0] on an empty bin list
    | TypeError            // reduce over an empty list, or comparing None with a float
    | ValueError           // argmin of an empty sequence
    | NotImplementedError  // more than one bin

  /** A value, or the exception the Python code raises instead of returning it. */
  datatype Result<T> = Ok(value: T) | Err(error: Error)

  /** A (length, width) pair: a piece-type key of the catalogue or a bin size. */
  datatype Dims = Dims(length: real, width: real) {

    function Area(): real {
      length * width
    }

    /** The same rectangle turned by a quarter. */
    function Swapped(): Dims {
      Dims(width, length)
    }

    /** The key with its two sides sorted in descending order
        (`tuple(sorted(x, reverse=True))`). */
    function Canonical(): (d: Dims)
      ensures d.length >= d.width
      ensures d == this || d == Swapped()
    {
      if length >= width then this else Swapped()
    }
  }

  /** One item of a catalogue: a piece-type key and its count. */
  datatype Entry = Entry(key: Dims, count: nat)

  /** A Python dict from piece-type key to count, in insertion order. */
  type Catalogue = seq<Entry>

  /** The keys of a dict are unique. */
  predicate DistinctKeys(c: Catalogue) {
    forall i, j :: 0 <= i < j < |c| ==> c[i].key != c[j].key
  }

  /** `types.keys()`, in insertion order. */
  function Keys(c: Catalogue): (ks: seq<Dims>)
    ensures |ks| == |c|
    ensures forall i :: 0 <= i < |c| ==> ks[i] == c[i].key
  {
    seq(|c|, i requires 0 <= i < |c| => c[i].key)
  }

  /** A placed rectangle `(x, y, w, h)`, rotation already resolved. */
  datatype Cut = Cut(x: real, y: real, w: real, h: real) {
    function Area(): real {
      w * h
    }
  }

  /** One bin as the packing library yields it after packing: its size and the
      rectangles placed in it, in the library's order. */
  datatype PackedBin = PackedBin(width: real, height: real, rects: seq<Cut>) {
    function Area(): real {
      width * height
    }
  }

  /** The name of a placement heuristic class (MaxRectsBl, GuillotineBaf, ...). */
  type Algo = string

  /** The rectangle-packing library, seen from the core: given the heuristic,
      the rotation flag, the bins added and the rectangles added, `pack()`
      either raises (None) or leaves the packer holding its packed bins. */
  type Placement = (Algo, bool, seq<Dims>, seq<Dims>) -> Option<seq<PackedBin>>
}
