/** Two concrete catalogues and what `ValidTypesSpec` gives for them. */
module Scenarios {
  import opened Basics
  import opened Area
  import opened Subsets

  /** One piece type 36.0 x 19.7 wanted 15 times on a 79.0 x 109.0 sheet:
      the catalogue asks for 10638.0, more than the sheet's 8611.0, and the
      cap is min(15, int(8611.0 / 709.2)) = 12. */
  lemma SingleTypeCap()
    ensures GetArea([Entry(Dims(36.0, 19.7), 15)]) == 10638.0
    ensures Dims(79.0, 109.0).Area() == 8611.0
    ensures Cap(Entry(Dims(36.0, 19.7), 15), 8611.0) == 12
  {
    AreaOfSmallCatalogues(Entry(Dims(36.0, 19.7), 15));
    assert Dims(36.0, 19.7).Area() == 709.2;
    assert 12.0 <= 8611.0 / 709.2 < 13.0;
  }

  /** On that sheet the counts are pruned: twelve pieces (ratio about 0.988)
      are offered, nine pieces (ratio about 0.741) are not, and neither is
      the whole catalogue. */
  lemma SingleTypeIsPruned()
    ensures var cat := [Entry(Dims(36.0, 19.7), 15)];
      && ValidTypesSpec(cat, Dims(79.0, 109.0), 0.8).Ok?
      && [Entry(Dims(36.0, 19.7), 12)] in ValidTypesSpec(cat, Dims(79.0, 109.0), 0.8).value
      && [Entry(Dims(36.0, 19.7), 9)] !in ValidTypesSpec(cat, Dims(79.0, 109.0), 0.8).value
      && cat !in ValidTypesSpec(cat, Dims(79.0, 109.0), 0.8).value
  {
    var k := Dims(36.0, 19.7);
    var cat := [Entry(k, 15)];
    var sheet := Dims(79.0, 109.0);
    SingleTypeCap();
    AreaOfSmallCatalogues(Entry(k, 12));
    AreaOfSmallCatalogues(Entry(k, 9));
    assert NonDegenerate(cat);
    ValidTypesExact(cat, sheet, 0.8, [Entry(k, 12)]);
    ValidTypesExact(cat, sheet, 0.8, [Entry(k, 9)]);
    ValidTypesExact(cat, sheet, 0.8, cat);
  }

  /** Four piece types on an 89.0 x 120.0 sheet. The catalogue asks for
      11563.4, more than the sheet's 10680.0, so the shortcut does not apply:
      the counts are pruned and the full catalogue, whose ratio exceeds 1,
      is not among the results. */
  lemma FourTypesArePruned()
    ensures var cat := [Entry(Dims(59.0, 34.0), 4), Entry(Dims(39.5, 19.7), 4),
                        Entry(Dims(120.0, 0.3), 2), Entry(Dims(88.7, 2.0), 2)];
      && GetArea(cat) == 11563.4
      && GetArea(cat) >= Dims(89.0, 120.0).Area()
      && ValidTypesSpec(cat, Dims(89.0, 120.0), 0.8).Ok?
      && cat !in ValidTypesSpec(cat, Dims(89.0, 120.0), 0.8).value
  {
    var cat := [Entry(Dims(59.0, 34.0), 4), Entry(Dims(39.5, 19.7), 4),
                Entry(Dims(120.0, 0.3), 2), Entry(Dims(88.7, 2.0), 2)];
    var sheet := Dims(89.0, 120.0);
    assert cat[..3] == cat[..|cat| - 1];
    assert cat[..2] == cat[..3][..2];
    assert cat[..1] == cat[..2][..1];
    assert cat[..0] == [];
    assert GetArea(cat[..1]) == 8024.0;
    assert GetArea(cat[..2]) == 8024.0 + 3112.6;
    assert GetArea(cat[..3]) == 8024.0 + 3112.6 + 72.0;
    assert GetArea(cat) == 11563.4;
    assert NonDegenerate(cat);
    ValidTypesExact(cat, sheet, 0.8, cat);
  }
}
