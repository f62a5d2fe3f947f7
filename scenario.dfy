/** A worked example: three listings in one county, flags 1, 0, 1 and bedrooms 2, 3, 2. */
module CountyViewExample {
  import opened Listings
  import opened Ordering
  import opened CountyView

  function AlphaTable(): Table
  {
    [ Listing("CA", "Alpha", "SingleFamily", 1, 2),
      Listing("CA", "Alpha", "SingleFamily", 0, 3),
      Listing("CA", "Alpha", "SingleFamily", 1, 2) ]
  }

  /** Every row is in Alpha, CA, so the county's slice is the whole table. */
  lemma AlphaSlice()
    ensures CountySlice(AlphaTable(), Some("CA"), "Alpha") == AlphaTable()
  {
    var t := AlphaTable();
    WhereKeepsAll(t, StateIs("CA"));
    WhereKeepsAll(t, CountyIn(["Alpha"]));
  }

  lemma AlphaBedroomColumn()
    ensures BedroomColumn(AlphaTable()) == [2, 3, 2]
  {
    var t := AlphaTable();
    assert t[1..] == [t[1], t[2]] && t[1..][1..] == [t[2]];
  }

  lemma AlphaUniqueBedrooms()
    ensures Unique([2, 3, 2]) == [2, 3]
  {
    assert [2, 3, 2][..2] == [2, 3] && [2, 3][..1] == [2];
    assert Unique([2]) == [2] by { assert [2][..0] == []; }
  }

  lemma AlphaSortedBedrooms()
    ensures SortAscending([2, 3]) == [2, 3]
  {
    assert [2, 3][1..] == [3] && [3][1..] == [];
  }

  /** The bedroom radio offers All, 2, 3. */
  lemma AlphaBedroomOptions()
    ensures BedroomOptions(AlphaTable()) == [All, Specific(2), Specific(3)]
  {
    calc {
      BedroomOptions(AlphaTable());
      [All] + Specifics(SortAscending(Unique(BedroomColumn(AlphaTable()))));
      { AlphaBedroomColumn(); }
      [All] + Specifics(SortAscending(Unique([2, 3, 2])));
      { AlphaUniqueBedrooms(); }
      [All] + Specifics(SortAscending([2, 3]));
      { AlphaSortedBedrooms(); }
      [All] + Specifics([2, 3]);
      { assert Specifics([2, 3]) == [Specific(2), Specific(3)]; }
      [All, Specific(2), Specific(3)];
    }
  }

  lemma AlphaMetricRows()
    ensures Where(AlphaTable(), Section8Is(1)) == [AlphaTable()[0], AlphaTable()[2]]
    ensures Where(AlphaTable(), Section8Is(0)) == [AlphaTable()[1]]
  {
    var t := AlphaTable();
    assert t[1..] == [t[1], t[2]] && t[1..][1..] == [t[2]];
  }

  lemma AlphaRefined()
    ensures Refined(AlphaTable(), Some("CA"), map[], map[], "Alpha") == AlphaTable()
  {
    AlphaSlice();
    WhereKeepsAll(AlphaTable(), HomeTypeIs("SingleFamily"));
  }

  /** With the radios at their defaults the panel offers All, 2, 3, counts two Section 8
      listings and one other, and maps all three rows. */
  lemma AlphaPanel()
    ensures var p := PanelOf(AlphaTable(), Some("CA"), map[], map[], "Alpha");
            && p.bedroomOptions == [All, Specific(2), Specific(3)]
            && p.section8Total == 2 && p.otherTotal == 1
            && p.body.MapAndTable? && p.body.points == AlphaTable()
  {
    AlphaSlice();
    AlphaBedroomOptions();
    AlphaMetricRows();
    AlphaRefined();
  }

  /** A county without rows gets the no-data notice. */
  lemma UnknownCountyPanel()
    ensures PanelOf(AlphaTable(), Some("CA"), map[], map[], "Beta").body.NoData?
  {
  }
}
