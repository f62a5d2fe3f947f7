/** `get_filtered_data`: narrowing the loaded table by state and by a list of counties. */
module FilterEngine {
  import opened Listings

  /** Python truthiness of the `state` argument: `None` and the empty string do not filter. */
  predicate StateGiven(state: Option<string>)
  {
    state.Some? && state.value != ""
  }

  /** Python truthiness of the `counties` argument: `None` and the empty list do not filter. */
  predicate CountiesGiven(counties: Option<seq<string>>)
  {
    counties.Some? && counties.value != []
  }

  /** The row-level meaning of the two criteria; an absent criterion accepts every row. */
  predicate MatchesCriteria(row: Listing, state: Option<string>, counties: Option<seq<string>>)
  {
    && (StateGiven(state) ==> row.state == state.value)
    && (CountiesGiven(counties) ==> row.county in counties.value)
  }

  /** The rows of `table` in the given state (if any) and among the given counties (if any).
      `homeTypes` is accepted and not used, as in the dashboard. */
  function GetFilteredData(table: Table, state: Option<string>, counties: Option<seq<string>>,
                           homeTypes: Option<seq<string>>): (r: Table)
    ensures SubseqOf(r, table)
    ensures forall row :: row in r <==> row in table && MatchesCriteria(row, state, counties)
  {
    var byState := if StateGiven(state) then Where(table, StateIs(state.value)) else table;
    var byCounty := if CountiesGiven(counties) then Where(byState, CountyIn(counties.value)) else byState;
    SubseqOfSelf(table);
    SubseqOfSelf(byState);
    SubseqTransitive(byCounty, byState, table);
    byCounty
  }

  /** The filter keeps every copy of a matching row and no copy of any other. */
  lemma FilteredCounts(table: Table, state: Option<string>, counties: Option<seq<string>>,
                       homeTypes: Option<seq<string>>)
    ensures forall row ::
              multiset(GetFilteredData(table, state, counties, homeTypes))[row]
                == if MatchesCriteria(row, state, counties) then multiset(table)[row] else 0
  {
    var byState := if StateGiven(state) then Where(table, StateIs(state.value)) else table;
    if StateGiven(state) {
      WhereCounts(table, StateIs(state.value));
    }
    if CountiesGiven(counties) {
      WhereCounts(byState, CountyIn(counties.value));
    }
  }

  /** With neither criterion given, the whole table comes back. */
  lemma NoCriteriaKeepsTable(table: Table, state: Option<string>, counties: Option<seq<string>>,
                             homeTypes: Option<seq<string>>)
    requires !StateGiven(state) && !CountiesGiven(counties)
    ensures GetFilteredData(table, state, counties, homeTypes) == table
  {
  }

  /** The result does not depend on the home types passed in. */
  lemma FilterIgnoresHomeTypes(table: Table, state: Option<string>, counties: Option<seq<string>>,
                               homeTypes1: Option<seq<string>>, homeTypes2: Option<seq<string>>)
    ensures GetFilteredData(table, state, counties, homeTypes1)
         == GetFilteredData(table, state, counties, homeTypes2)
  {
  }

  /** Filtering the result again with the same criteria returns it unchanged. */
  lemma {:induction false} FilterIdempotent(table: Table, state: Option<string>, counties: Option<seq<string>>,
                                            homeTypes: Option<seq<string>>)
    ensures var once := GetFilteredData(table, state, counties, homeTypes);
            GetFilteredData(once, state, counties, homeTypes) == once
  {
    var once := GetFilteredData(table, state, counties, homeTypes);
    if StateGiven(state) {
      WhereKeepsAll(once, StateIs(state.value));
    }
    if CountiesGiven(counties) {
      WhereKeepsAll(once, CountyIn(counties.value));
    }
  }
}
