/** `itertools.product(*lists)`: every way of picking one element from each
    list, the first list varying slowest and the last fastest. */
module CrossProduct {

  function Product<T>(cs: seq<seq<T>>): seq<seq<T>>
    decreases |cs|
  {
    if cs == [] then [[]] else Prepend(cs[0], Product(cs[1..]))
  }

  /** For each head in order, that head in front of every tail in order. */
  function Prepend<T>(heads: seq<T>, tails: seq<seq<T>>): seq<seq<T>>
    decreases |heads|
  {
    if heads == [] then []
    else seq(|tails|, k requires 0 <= k < |tails| => [heads[0]] + tails[k]) + Prepend(heads[1..], tails)
  }

  /** `t` picks one element from each list of `cs`, position by position. */
  ghost predicate OneFromEach<T>(t: seq<T>, cs: seq<seq<T>>) {
    |t| == |cs| && forall i :: 0 <= i < |t| ==> t[i] in cs[i]
  }

  /** The number of elements of the product: the product of the lengths. */
  function ProductSize<T>(cs: seq<seq<T>>): nat
    decreases |cs|
  {
    if cs == [] then 1 else |cs[0]| * ProductSize(cs[1..])
  }

  lemma {:induction false} PrependMember<T>(heads: seq<T>, tails: seq<seq<T>>, t: seq<T>)
    ensures t in Prepend(heads, tails) <==> |t| > 0 && t[0] in heads && t[1..] in tails
    decreases |heads|
  {
    if heads != [] {
      var row := seq(|tails|, k requires 0 <= k < |tails| => [heads[0]] + tails[k]);
      assert Prepend(heads, tails) == row + Prepend(heads[1..], tails);
      PrependMember(heads[1..], tails, t);
      if t in row {
        var k :| 0 <= k < |tails| && row[k] == t;
        assert t[1..] == tails[k];
      }
      if |t| > 0 && t[0] == heads[0] && t[1..] in tails {
        var k :| 0 <= k < |tails| && tails[k] == t[1..];
        assert row[k] == t;
      }
      if |t| > 0 && t[0] in heads && t[0] != heads[0] {
        assert t[0] in heads[1..];
      }
    }
  }

  /** Soundness and completeness of the product: a sequence is in it exactly
      when it picks one element from each list. */
  lemma {:induction false} ProductMember<T>(cs: seq<seq<T>>, t: seq<T>)
    ensures t in Product(cs) <==> OneFromEach(t, cs)
    decreases |cs|
  {
    if cs != [] {
      PrependMember(cs[0], Product(cs[1..]), t);
      if |t| > 0 {
        ProductMember(cs[1..], t[1..]);
        if OneFromEach(t, cs) {
          assert forall i :: 0 <= i < |t[1..]| ==> t[1..][i] == t[i + 1];
        }
        if t[0] in cs[0] && OneFromEach(t[1..], cs[1..]) {
          forall i | 0 <= i < |t| ensures t[i] in cs[i] {
            if i > 0 { assert t[i] == t[1..][i - 1]; }
          }
        }
      } else {
        assert t !in Product(cs);
      }
    }
  }

  lemma {:induction false} PrependLength<T>(heads: seq<T>, tails: seq<seq<T>>)
    ensures |Prepend(heads, tails)| == |heads| * |tails|
    decreases |heads|
  {
    if heads != [] {
      PrependLength(heads[1..], tails);
      assert |heads| * |tails| == |tails| + (|heads| - 1) * |tails|;
    }
  }

  /** Before any filtering there are exactly as many picks as the product of
      the list lengths. */
  lemma {:induction false} ProductLength<T>(cs: seq<seq<T>>)
    ensures |Product(cs)| == ProductSize(cs)
    decreases |cs|
  {
    if cs != [] {
      ProductLength(cs[1..]);
      PrependLength(cs[0], Product(cs[1..]));
    }
  }
}
