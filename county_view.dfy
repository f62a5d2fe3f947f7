/** The dashboard's per-county panels: widget options, metric counts, the two radio
    refinements, the empty-slice notice, the map points and the Section 8 table. */
module CountyView {
  import opened Listings
  import opened FilterEngine
  import opened Ordering

  // ---------------------------------------------------------------------------
  // Columns and widget options
  // ---------------------------------------------------------------------------

  function CountyColumn(t: Table): (c: seq<string>)
    ensures forall x :: x in c <==> exists row :: row in t && row.county == x
  {
    if t == [] then []
    else
      assert forall row :: row in t <==> row == t[0] || row in t[1..];
      [t[0].county] + CountyColumn(t[1..])
  }

  function HomeTypeColumn(t: Table): (c: seq<string>)
    ensures |c| == |t| && (t != [] ==> c[0] == t[0].homeType)
    ensures forall x :: x in c <==> exists row :: row in t && row.homeType == x
  {
    if t == [] then []
    else
      assert forall row :: row in t <==> row == t[0] || row in t[1..];
      [t[0].homeType] + HomeTypeColumn(t[1..])
  }

  function BedroomColumn(t: Table): (c: seq<int>)
    ensures forall x :: x in c <==> exists row :: row in t && row.bedrooms == x
  {
    if t == [] then []
    else
      assert forall row :: row in t <==> row == t[0] || row in t[1..];
      [t[0].bedrooms] + BedroomColumn(t[1..])
  }

  /** The county multiselect's options: the distinct counties of the chosen state. */
  function CountyOptions(table: Table, state: Option<string>): (r: seq<string>)
    ensures Distinct(r)
    ensures forall c :: c in r <==>
              exists row :: row in table && row.county == c && (StateGiven(state) ==> row.state == state.value)
  {
    Unique(CountyColumn(GetFilteredData(table, state, None, None)))
  }

  /** The global home types, used both as the multiselect's options and as every county's
      home-type radio options. The first one (the radio's default) is the first row's. */
  function HomeTypeOptions(table: Table): (r: seq<string>)
    ensures Distinct(r)
    ensures forall h :: h in r <==> exists row :: row in table && row.homeType == h
    ensures r == [] <==> table == []
    ensures table != [] ==> r[0] == table[0].homeType
  {
    var column := HomeTypeColumn(table);
    if table == [] then []
    else
      UniqueStartsWithFirst(column);
      Unique(column)
  }

  function Specifics(s: seq<int>): (r: seq<Choice<int>>)
    ensures |r| == |s| && forall i :: 0 <= i < |s| ==> r[i] == Specific(s[i])
  {
    seq(|s|, i requires 0 <= i < |s| => Specific(s[i]))
  }

  /** The bedroom radio's options: "All" first, then each bedroom value of the slice once,
      in strictly ascending order. */
  function BedroomOptions(t: Table): (r: seq<Choice<int>>)
    ensures |r| >= 1 && r[0] == All
    ensures forall i :: 1 <= i < |r| ==> r[i].Specific?
    ensures forall i, j :: 1 <= i < j < |r| ==> r[i].Specific? && r[j].Specific? && r[i].value < r[j].value
    ensures forall b :: Specific(b) in r <==> exists row :: row in t && row.bedrooms == b
  {
    var distinct := Unique(BedroomColumn(t));
    var values := SortAscending(distinct);
    SortIsOrdered(distinct);
    assert forall b :: b in values <==> b in multiset(distinct);
    assert forall b :: b in values <==> b in BedroomColumn(t);
    OptionsShape(values);
    [All] + Specifics(values)
  }

  /** "All" prepended to a strictly ascending list of values. */
  lemma OptionsShape(values: seq<int>)
    requires StrictlyAscending(values)
    ensures var r := [All] + Specifics(values);
            && (forall i :: 1 <= i < |r| ==> r[i].Specific?)
            && (forall i, j :: 1 <= i < j < |r| ==> r[i].Specific? && r[j].Specific? && r[i].value < r[j].value)
            && (forall b :: Specific(b) in r <==> b in values)
  {
    var r := [All] + Specifics(values);
    forall b ensures Specific(b) in r <==> b in values {
      if Specific(b) in r {
        var k :| 0 <= k < |r| && r[k] == Specific(b);
        assert values[k - 1] == b;
      }
      if b in values {
        var k :| 0 <= k < |values| && values[k] == b;
        assert r[k + 1] == Specific(b);
      }
    }
  }

  // ---------------------------------------------------------------------------
  // Colour and metrics
  // ---------------------------------------------------------------------------

  type Rgba = seq<int>

  const Section8Color: Rgba := [0, 255, 0, 160]
  const OtherColor: Rgba := [255, 0, 0, 160]

  /** The colour of one row: green exactly for flag 1, red for every other flag value. */
  function ColorOf(row: Listing): (c: Rgba)
    ensures c == Section8Color <==> row.section8 == 1
    ensures c == OtherColor <==> row.section8 != 1
  {
    if row.section8 == 1 then Section8Color else OtherColor
  }

  /** The `color` column, one entry per row. */
  function Colors(rows: Table): (c: seq<Rgba>)
    ensures |c| == |rows|
    ensures forall i :: 0 <= i < |rows| ==> (c[i] == Section8Color <==> rows[i].section8 == 1)
    ensures forall i :: 0 <= i < |rows| ==> (c[i] == OtherColor <==> rows[i].section8 != 1)
  {
    seq(|rows|, i requires 0 <= i < |rows| => ColorOf(rows[i]))
  }

  /** The two metric cards count flag 1 and flag 0; together they never exceed the slice and
      cover it exactly when no flag has a third value. */
  lemma {:induction false} MetricTotals(t: Table)
    ensures |Where(t, Section8Is(1))| + |Where(t, Section8Is(0))| <= |t|
    ensures |Where(t, Section8Is(1))| + |Where(t, Section8Is(0))| == |t|
        <==> forall row :: row in t ==> row.section8 == 0 || row.section8 == 1
  {
    if t != [] {
      MetricTotals(t[1..]);
      assert forall row :: row in t <==> row == t[0] || row in t[1..];
    }
  }

  // ---------------------------------------------------------------------------
  // Radio refinements
  // ---------------------------------------------------------------------------

  /** The bedroom refinement: "All" keeps the slice, a value keeps exactly its rows. */
  function RefineBedrooms(t: Table, pick: Choice<int>): (r: Table)
    ensures pick.All? ==> r == t
    ensures pick.Specific? ==> forall row :: row in r <==> row in t && row.bedrooms == pick.value
    ensures forall row :: multiset(r)[row] == if pick.All? || row.bedrooms == pick.value then multiset(t)[row] else 0
    ensures SubseqOf(r, t)
  {
    match pick
    case All => SubseqOfSelf(t); t
    case Specific(b) => WhereCounts(t, BedroomsIs(b)); Where(t, BedroomsIs(b))
  }

  /** The home-type refinement: "All" keeps the slice, a type keeps exactly its rows. */
  function RefineHomeType(t: Table, pick: Choice<string>): (r: Table)
    ensures pick.All? ==> r == t
    ensures pick.Specific? ==> forall row :: row in r <==> row in t && row.homeType == pick.value
    ensures forall row :: multiset(r)[row] == if pick.All? || row.homeType == pick.value then multiset(t)[row] else 0
    ensures SubseqOf(r, t)
  {
    match pick
    case All => SubseqOfSelf(t); t
    case Specific(h) => WhereCounts(t, HomeTypeIs(h)); Where(t, HomeTypeIs(h))
  }

  /** The bedroom radio's value for a county: the user's pick, else its first option "All". */
  function BedroomRadio(picks: map<string, Choice<int>>, county: string): (r: Choice<int>)
    ensures county !in picks ==> r == All
    ensures county in picks ==> r == picks[county]
  {
    if county in picks then picks[county] else All
  }

  /** The home-type radio's value for a county. Its options are the global home types, so the
      value is always a real type: the user's pick, else the first option; a radio without
      options yields None. */
  function HomeTypeRadio(homeTypes: seq<string>, picks: map<string, string>, county: string): (r: Option<string>)
    ensures county in picks ==> r == Some(picks[county])
    ensures county !in picks ==> (r.None? <==> homeTypes == [])
    ensures county !in picks && homeTypes != [] ==> r == Some(homeTypes[0])
  {
    if county in picks then Some(picks[county])
    else if homeTypes != [] then Some(homeTypes[0])
    else None
  }

  /** Untouched, a county's home-type radio holds the first row's home type; it has no value
      only when the table is empty. */
  lemma DefaultHomeType(table: Table, picks: map<string, string>, county: string)
    requires county !in picks
    ensures HomeTypeRadio(HomeTypeOptions(table), picks, county)
         == if table == [] then None else Some(table[0].homeType)
  {
  }

  /** The home-type radio's value is never the sentinel, so the refinement always narrows to
      one type; comparing the column with None (no options) matches no row. */
  function ApplyHomeTypeRadio(t: Table, radio: Option<string>): (r: Table)
    ensures forall row :: row in r <==> row in t && radio.Some? && row.homeType == radio.value
    ensures forall row :: multiset(r)[row] == if radio.Some? && row.homeType == radio.value then multiset(t)[row] else 0
    ensures SubseqOf(r, t)
  {
    match radio
    case Some(h) => RefineHomeType(t, Specific(h))
    case None => []
  }

  // ---------------------------------------------------------------------------
  // Panels
  // ---------------------------------------------------------------------------

  /** What the loop body leaves on the page after the metric cards and the two radios. */
  datatype PanelBody =
    | NoData
    | MapAndTable(points: Table, colors: seq<Rgba>, section8Rows: Table)

  datatype CountyPanel = CountyPanel(
    county: string,
    bedroomOptions: seq<Choice<int>>,
    section8Total: nat,
    otherTotal: nat,
    body: PanelBody)

  datatype Page = PickCountyPrompt | Panels(panels: seq<CountyPanel>)

  /** The county's slice: the chosen state's rows in that one county. */
  function CountySlice(table: Table, state: Option<string>, county: string): (r: Table)
    ensures SubseqOf(r, table)
    ensures forall row :: row in r <==>
              row in table && row.county == county && (StateGiven(state) ==> row.state == state.value)
    ensures forall row ::
              multiset(r)[row]
                == if row.county == county && (StateGiven(state) ==> row.state == state.value)
                   then multiset(table)[row] else 0
  {
    FilteredCounts(table, state, Some([county]), None);
    GetFilteredData(table, state, Some([county]), None)
  }

  /** The row-level meaning of the two radios for a county: the picked bedroom count unless
      "All", and always the radio's home type. */
  predicate RefinementsAccept(table: Table, bedroomPicks: map<string, Choice<int>>,
                              homeTypePicks: map<string, string>, county: string, row: Listing)
  {
    var bedrooms := BedroomRadio(bedroomPicks, county);
    var radio := HomeTypeRadio(HomeTypeOptions(table), homeTypePicks, county);
    && (bedrooms.Specific? ==> row.bedrooms == bedrooms.value)
    && radio.Some? && row.homeType == radio.value
  }

  /** The slice after both radio refinements: its rows in order that both radios accept. */
  function Refined(table: Table, state: Option<string>, bedroomPicks: map<string, Choice<int>>,
                   homeTypePicks: map<string, string>, county: string): (r: Table)
    ensures SubseqOf(r, CountySlice(table, state, county))
    ensures forall row :: row in r <==>
              row in CountySlice(table, state, county) && RefinementsAccept(table, bedroomPicks, homeTypePicks, county, row)
    ensures forall row ::
              multiset(r)[row]
                == if RefinementsAccept(table, bedroomPicks, homeTypePicks, county, row)
                   then multiset(CountySlice(table, state, county))[row] else 0
  {
    var slice := CountySlice(table, state, county);
    var radio := HomeTypeRadio(HomeTypeOptions(table), homeTypePicks, county);
    var byBedrooms := RefineBedrooms(slice, BedroomRadio(bedroomPicks, county));
    var byHomeType := ApplyHomeTypeRadio(byBedrooms, radio);
    SubseqTransitive(byHomeType, byBedrooms, slice);
    byHomeType
  }

  /** The panel the loop body renders for one county. */
  function PanelOf(table: Table, state: Option<string>, bedroomPicks: map<string, Choice<int>>,
                   homeTypePicks: map<string, string>, county: string): (p: CountyPanel)
    ensures p.county == county
    ensures p.bedroomOptions == BedroomOptions(CountySlice(table, state, county))
    ensures p.section8Total == |Where(CountySlice(table, state, county), Section8Is(1))|
    ensures p.otherTotal == |Where(CountySlice(table, state, county), Section8Is(0))|
    ensures p.section8Total + p.otherTotal <= |CountySlice(table, state, county)|
    ensures p.section8Total + p.otherTotal == |CountySlice(table, state, county)|
        <==> forall row :: row in CountySlice(table, state, county) ==> row.section8 == 0 || row.section8 == 1
    ensures p.body == PanelBodyOf(Refined(table, state, bedroomPicks, homeTypePicks, county))
  {
    var slice := CountySlice(table, state, county);
    var refined := Refined(table, state, bedroomPicks, homeTypePicks, county);
    MetricTotals(slice);
    CountyPanel(
      county,
      BedroomOptions(slice),
      |Where(slice, Section8Is(1))|,
      |Where(slice, Section8Is(0))|,
      PanelBodyOf(refined))
  }

  /** The end of a panel: the no-data notice for an empty refined slice, otherwise the map
      over the refined rows with their colours and the Section 8 table, which holds exactly
      the mapped rows with flag 1, in their order. */
  function PanelBodyOf(refined: Table): (b: PanelBody)
    ensures b.NoData? <==> refined == []
    ensures b.MapAndTable? ==> b.points == refined && b.colors == Colors(b.points)
    ensures b.MapAndTable? ==> SubseqOf(b.section8Rows, b.points)
    ensures b.MapAndTable? ==> forall row :: row in b.section8Rows <==> row in b.points && row.section8 == 1
    ensures b.MapAndTable? ==> forall row ::
              multiset(b.section8Rows)[row] == if row.section8 == 1 then multiset(b.points)[row] else 0
  {
    if refined == [] then NoData
    else
      WhereCounts(refined, Section8Is(1));
      MapAndTable(refined, Colors(refined), Where(refined, Section8Is(1)))
  }

  /** The map, whose centre is a mean over its points, is drawn only when some row of the
      slice survives both radios, and then shows exactly those rows in slice order;
      otherwise the panel ends with the no-data notice. */
  lemma PanelMap(table: Table, state: Option<string>, bedroomPicks: map<string, Choice<int>>,
                 homeTypePicks: map<string, string>, county: string)
    ensures var p := PanelOf(table, state, bedroomPicks, homeTypePicks, county);
            var slice := CountySlice(table, state, county);
            && p.county == county
            && (p.body.MapAndTable? <==>
                  exists row :: row in slice && RefinementsAccept(table, bedroomPicks, homeTypePicks, county, row))
            && (p.body.MapAndTable? ==> p.body.points != [] && SubseqOf(p.body.points, slice))
            && (p.body.MapAndTable? ==> forall row :: row in p.body.points <==>
                  row in slice && RefinementsAccept(table, bedroomPicks, homeTypePicks, county, row))
            && (p.body.MapAndTable? ==> forall row ::
                  multiset(p.body.points)[row]
                    == if RefinementsAccept(table, bedroomPicks, homeTypePicks, county, row)
                       then multiset(slice)[row] else 0)
  {
    var refined := Refined(table, state, bedroomPicks, homeTypePicks, county);
    if refined != [] {
      assert refined[0] in refined;
    }
  }

  /** The per-county loop. With no county chosen the page shows a prompt instead. */
  method RenderCounties(table: Table, selectedState: Option<string>, selectedCounties: seq<string>,
                        selectedHomeTypes: seq<string>, bedroomPicks: map<string, Choice<int>>,
                        homeTypePicks: map<string, string>) returns (page: Page)
    ensures page.PickCountyPrompt? <==> selectedCounties == []
    ensures page.Panels? ==> |page.panels| == |selectedCounties|
    ensures page.Panels? ==> forall k :: 0 <= k < |selectedCounties| ==>
              page.panels[k] == PanelOf(table, selectedState, bedroomPicks, homeTypePicks, selectedCounties[k])
  {
    if selectedCounties == [] {
      page := PickCountyPrompt;
    } else {
      var homeTypes := HomeTypeOptions(table);
      var panels: seq<CountyPanel> := [];
      for i := 0 to |selectedCounties|
        invariant |panels| == i
        invariant forall k :: 0 <= k < i ==>
                    panels[k] == PanelOf(table, selectedState, bedroomPicks, homeTypePicks, selectedCounties[k])
      {
        var county := selectedCounties[i];
        var countyDf := GetFilteredData(table, selectedState, Some([county]), Some(selectedHomeTypes));
        var bedrooms := Unique(BedroomColumn(countyDf));
        bedrooms := SortAscending(bedrooms);
        var bedroomOptions := [All] + Specifics(bedrooms);
        var section8Total := |Where(countyDf, Section8Is(1))|;
        var otherTotal := |Where(countyDf, Section8Is(0))|;
        countyDf := RefineBedrooms(countyDf, BedroomRadio(bedroomPicks, county));
        countyDf := ApplyHomeTypeRadio(countyDf, HomeTypeRadio(homeTypes, homeTypePicks, county));
        if countyDf == [] {
          panels := panels + [CountyPanel(county, bedroomOptions, section8Total, otherTotal, NoData)];
          continue;
        }
        var section8Properties := Where(countyDf, Section8Is(1));
        var body := MapAndTable(countyDf, Colors(countyDf), section8Properties);
        panels := panels + [CountyPanel(county, bedroomOptions, section8Total, otherTotal, body)];
      }
      page := Panels(panels);
    }
  }
}
