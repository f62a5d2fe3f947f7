# Section 8 properties dashboard — filtering and per-county view core

The dashboard (`app.py`) loads a table of real-estate listings, lets the user pick a
state, one or more counties and home types, and for every chosen county shows two
metric cards (Section 8 and non-Section 8 listings), a bedroom radio and a home-type
radio, then either a "no data" notice or a coloured map of the remaining listings plus a
table of the Section 8 ones.

This project models the part of that script that decides *which rows* end up where:

- `listings.dfy` (module `Listings`): a listing as a record of the five columns the core
  reads (`state`, `County`, `homeType`, `Section_8`, `bedrooms`), the table as
  `seq<Listing>`, one boolean mask as a `Criterion`, and `Where`, the mask application
  (`df[df[col] == v]`, `df[df[col].isin(vs)]`). `SubseqOf` is the reference definition of
  "obtained by deleting rows" used to state that nothing is made up or reordered.
- `filter_engine.dfy` (module `FilterEngine`): `get_filtered_data`, with Python
  truthiness for its arguments (`None` and `""` give no state filter, `None` and `[]` no
  county filter). Its third argument is accepted and ignored, as in the script.
- `ordering.dfy` (module `Ordering`): pandas' `unique` (distinct values in order of first
  appearance, stated through `FirstIndex`) and Python's `sorted` on integers, modelled by an
  insertion sort (the same result on integers), with their order and permutation properties.
- `county_view.dfy` (module `CountyView`): the per-county loop. `RenderCounties` is a
  method with a `for` loop over the selected counties and an early `continue` on an empty
  slice; each iteration's panel is specified by the function `PanelOf`, and the
  properties of panels are proved about `PanelOf` and its parts (colour, bedroom options,
  metric counts, the two radio refinements, the map and the Section 8 table).
- `scenario.dfy` (module `CountyViewExample`): a worked example of three listings in one
  county with flags 1, 0, 1 and bedrooms 2, 3, 2.

Two behaviours of the script are kept as written:

- The home-type radio of every county takes its options from the global list of home
  types (app.py:58, 94), which holds only values of the `homeType` column and no added
  "All" option, so unless a listing's home type is literally the text "All", the
  `!= 'All'` guard at app.py:97 always passes and the refinement always narrows the slice
  to one home type (by default the first home type of the table, `DefaultHomeType`). The
  model states this in `RefinementsAccept`, `ApplyHomeTypeRadio` and `PanelMap`.
- The two metric cards count flag 1 and flag 0 only, so their sum equals the slice size
  only when every flag is 0 or 1 (`MetricTotals` proves both directions).

Radio values are the datatype `Choice` (`All | Specific(v)`), so the sentinel cannot
collide with a real bedroom count or home type. The values the widgets return are
inputs: the chosen state, the chosen counties, the chosen home types, and per county (the
widgets are keyed by county) the picked bedroom choice and home type as maps; a county
missing from a map gets the radio's default, its first option.

## Model

| member | source | states |
|---|---|---|
| `Listings.Where` | app.py:36-39 | a mask keeps exactly the matching rows of the table, as a subsequence (no row made up, order kept), never longer than the table |
| `Listings.WhereCounts` | app.py:36-39 | a mask keeps every copy of a matching row and no copy of a non-matching one |
| `Listings.WhereKeepsAll` | app.py:36-39 | a mask leaves a table unchanged if and only if every row already matches it |
| `Listings.WhereIdempotent` | app.py:36-39 | applying the same mask twice equals applying it once |
| `FilterEngine.GetFilteredData` | app.py:34-40 | the result is a subsequence of the table and holds exactly the rows whose state equals the given state (when one is given) and whose county is in the given list (when it is non-empty) |
| `FilterEngine.FilteredCounts` | app.py:34-40 | each matching row keeps its multiplicity from the table; non-matching rows do not occur |
| `FilterEngine.NoCriteriaKeepsTable` | app.py:36-39 | with no state and no (or an empty) county list, the whole table comes back |
| `FilterEngine.FilterIgnoresHomeTypes` | app.py:34-40 | the result is the same whatever home types are passed |
| `FilterEngine.FilterIdempotent` | app.py:34-40 | filtering the result again with the same criteria returns it unchanged |
| `Ordering.Unique` | app.py:73 | the result has no repeats, holds exactly the values of the column, and lists them in the order of their first appearance in the column |
| `Ordering.UniqueStartsWithFirst` | app.py:58 | the first value of a non-empty column is the first unique value |
| `Ordering.Insert` | app.py:74 | inserting adds exactly one copy of the value (permutation of input plus the value) |
| `Ordering.SortAscending` | app.py:74 | `sorted` returns a permutation of its input |
| `Ordering.InsertKeepsOrder` | app.py:74 | inserting into an ascending list keeps it ascending, strictly so when the value was absent from a strictly ascending list |
| `Ordering.SortIsOrdered` | app.py:74 | `sorted` returns an ascending list, strictly ascending when the input has no repeats |
| `CountyView.CountyOptions` | app.py:53-54 | the county options are distinct and are exactly the counties having a row in the chosen state |
| `CountyView.HomeTypeOptions` | app.py:58 | the global home types are distinct, exactly those present in the table, empty only for an empty table, and start with the first row's home type (the home-type radio's default) |
| `CountyView.BedroomOptions` | app.py:73-75 | the options start with "All", the rest are real values in strictly ascending order (hence without repeats) and are exactly the bedroom counts present in the slice |
| `CountyView.ColorOf` | app.py:70 | a row is green `[0,255,0,160]` exactly when its flag is 1 and red `[255,0,0,160]` exactly when it is not (any other flag value included) |
| `CountyView.Colors` | app.py:70 | one colour per row, green exactly at the rows with flag 1, red at all others |
| `CountyView.MetricTotals` | app.py:82-84 | the flag-1 and flag-0 counts add up to at most the slice size, with equality if and only if every flag is 0 or 1 |
| `CountyView.RefineBedrooms` | app.py:90-91 | "All" leaves the slice unchanged; a count keeps, as a subsequence, every copy of each row with that many bedrooms and no other row |
| `CountyView.RefineHomeType` | app.py:97-98 | "All" leaves the slice unchanged; a type keeps, as a subsequence, every copy of each row of that type and no other row |
| `CountyView.BedroomRadio` | app.py:87 | an untouched bedroom radio holds its first option "All"; otherwise it holds the county's pick |
| `CountyView.HomeTypeRadio` | app.py:94 | an untouched home-type radio holds the first global home type, or no value when there are none; otherwise it holds the county's pick |
| `CountyView.DefaultHomeType` | app.py:58-59 | an untouched home-type radio holds the first row's home type, and has no value only for an empty table |
| `CountyView.ApplyHomeTypeRadio` | app.py:94-98 | the radio value is a real home type, so the result keeps, as a subsequence, every copy of each row of the picked type and no other row (none when the radio has no options) |
| `CountyView.CountySlice` | app.py:67 | a county's slice is the subsequence of the table holding every copy of each row in that county and, when a state is chosen, in that state, and no other row |
| `CountyView.Refined` | app.py:87-98 | the refined slice is the subsequence of the county's slice holding every copy of each row both radios accept (the picked bedroom count unless "All", and always the radio's home type) and no other row |
| `CountyView.PanelOf` | app.py:66-137 | one iteration of the loop: the panel names its county, offers the bedroom options of the county's slice, shows as "Section 8" the number of the slice's rows with flag 1 and as "Non-Section 8" the number with flag 0, which sum to at most the slice size and to exactly it iff every flag is 0 or 1, and ends with the body built from the refined slice |
| `CountyView.PanelBodyOf` | app.py:100-137 | an empty refined slice gives the no-data notice; otherwise the map shows exactly the refined rows coloured by `Colors` (green exactly at flag 1), and the Section 8 table is the subsequence of them holding every copy of each row with flag 1 and no other |
| `CountyView.PanelMap` | app.py:100-106 | the map, whose centre is a mean over its points, is drawn if and only if some row of the county's slice passes both radios, then over a non-empty subsequence of the slice holding every copy of each such row and no other |
| `CountyView.RenderCounties` | app.py:65-155 | no county chosen gives the prompt; otherwise one panel per chosen county, in order, each equal to `PanelOf` for that county |
| `CountyViewExample.AlphaBedroomOptions` | app.py:73-75 | three rows with bedrooms 2, 3, 2 give the options All, 2, 3 |
| `CountyViewExample.AlphaPanel` | app.py:66-106 | three rows in one county with flags 1, 0, 1: the metric counts are 2 and 1 and, with default radios, all three rows are mapped |
| `CountyViewExample.UnknownCountyPanel` | app.py:100-103 | a county without rows ends with the no-data notice |

## Left out

- ApplyHomeTypeRadio: radio values are the `Choice` datatype, so the sentinel cannot
  collide with data. In app.py:97 the sentinel is the string "All": if a listing's home
  type were literally "All" and the user picked it, the script would skip the narrowing
  and keep every home type, whereas the model keeps only the rows typed "All".
- Page setup, logo, titles, the description text, the "Loading data" text and the rendering of
  the selectbox, multiselects, radios, metric cards and headers (app.py:7-25, 50, 55, 59,
  62, 77-87, 94): only the values the widgets return are modelled, as inputs.
- Reading the CSV and the `@st.cache_data` memoisation of `load_data` and
  `get_filtered_data` (app.py:28-33): the loaded table is a parameter.
- `load_dotenv` (app.py:15): environment input, not used by the core.
- The pydeck layer, view state, tooltip and chart call (app.py:108-134) and the column
  projection of the Section 8 table (app.py:141-153): rendering by an external library.
  The panel keeps the rows, colours and Section 8 rows handed to them.
- The latitude/longitude mean (app.py:106): floating point; the model only proves that the
  map is built over a non-empty set of rows.
- The colour column is added to the slice before the refinements (app.py:70) and travels with
  its rows; the model computes `Colors` over the rows that reach the map, which gives the same
  colours because a row's colour depends only on its own flag.
- The loop rebinds the global `selected_home_types` to the radio value (app.py:94), so later
  counties pass that value to `get_filtered_data`; the model passes the multiselect value
  every time, which is equivalent because the argument is ignored (`FilterIgnoresHomeTypes`).
- pandas missing values (NaN bedrooms, states or flags) and NaN ordering in `sorted`: bedrooms
  and flags are integers with no missing values.
- Streamlit resetting a keyed radio whose stored value is no longer among its options: a
  picked value is taken as given; a bedroom pick absent from the slice yields an empty slice.
- The state selectbox's and the county multiselect's choice of value (app.py:49-55): the
  chosen state and counties are inputs; `CountyOptions` models only the list offered.
