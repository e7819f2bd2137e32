/** `_get_area`: the total area a catalogue asks for. */
module Area {
  import opened Basics

  /** length * width * count of one catalogue item. */
  function EntryArea(e: Entry): real {
    e.key.Area() * e.count as real
  }

  /** The sum over the catalogue of length * width * count, added up in
      insertion order as Python's `sum` does. */
  function GetArea(c: Catalogue): real {
    if c == [] then 0.0 else GetArea(c[..|c| - 1]) + EntryArea(c[|c| - 1])
  }

  /** The empty catalogue asks for no area, and a one-item catalogue for
      exactly that item's area. */
  lemma AreaOfSmallCatalogues(e: Entry)
    ensures GetArea([]) == 0.0
    ensures GetArea([e]) == e.key.length * e.key.width * e.count as real
  {
    assert [e][..0] == [];
  }

  /** The area of two catalogues put side by side (disjoint key sets, as when
      two dicts are merged) is the sum of their areas. */
  lemma {:induction false} AreaAppend(a: Catalogue, b: Catalogue)
    ensures GetArea(a + b) == GetArea(a) + GetArea(b)
    decreases |b|
  {
    if b == [] {
      assert a + b == a;
    } else {
      var b' := b[..|b| - 1];
      assert (a + b)[..|a + b| - 1] == a + b';
      assert (a + b)[|a + b| - 1] == b[|b| - 1];
      AreaAppend(a, b');
    }
  }

  /** The area does not depend on the order in which the dict holds its
      items: any rearrangement of the same items has the same area. */
  lemma {:induction false} AreaPermutation(a: Catalogue, b: Catalogue)
    requires multiset(a) == multiset(b)
    ensures GetArea(a) == GetArea(b)
    decreases |a|
  {
    if a == [] {
      assert |b| == |multiset(b)| == 0;
    } else {
      var a' := a[..|a| - 1];
      var e := a[|a| - 1];
      assert a == a' + [e];
      assert e in multiset(b);
      var j :| 0 <= j < |b| && b[j] == e;
      var left, right := b[..j], b[j + 1..];
      assert b == left + [e] + right;
      assert multiset(a') == multiset(left + right) by {
        assert multiset(a) == multiset(a') + multiset{e};
        assert multiset(b) == multiset(left) + multiset{e} + multiset(right);
        assert multiset(left + right) == multiset(left) + multiset(right);
        assert multiset(a') == multiset(a) - multiset{e};
        assert multiset(left + right) == multiset(b) - multiset{e};
      }
      AreaPermutation(a', left + right);
      AreaAppend(left + [e], right);
      AreaAppend(left, [e]);
      AreaAppend(left, right);
      AreaAppend(a', [e]);
      AreaOfSmallCatalogues(e);
    }
  }
}
