/** The listings table and the row masks (`df[df[col] == v]`, `df[df[col].isin(vs)]`)
    that every filter of the dashboard is built from. */
module Listings {

  datatype Option<+T> = None | Some(value: T)

  /** A radio-button value: the sentinel "All" (no narrowing) or one real column value.
      Being a separate constructor, the sentinel can never be mistaken for data. */
  datatype Choice<+T> = All | Specific(value: T)

  /** One row of the listings table, reduced to the columns the filtering core reads.
      `section8` is the subsidy flag as stored (meant to be 0 or 1, not checked). */
  datatype Listing = Listing(state: string, county: string, homeType: string, section8: int, bedrooms: int)

  type Table = seq<Listing>

  /** One boolean mask over a column. */
  datatype Criterion =
    | StateIs(state: string)
    | CountyIn(counties: seq<string>)
    | BedroomsIs(bedrooms: int)
    | HomeTypeIs(homeType: string)
    | Section8Is(flag: int)

  predicate Holds(c: Criterion, row: Listing)
  {
    match c
    case StateIs(s) => row.state == s
    case CountyIn(cs) => row.county in cs
    case BedroomsIs(b) => row.bedrooms == b
    case HomeTypeIs(h) => row.homeType == h
    case Section8Is(f) => row.section8 == f
  }

  /** `a` can be obtained from `b` by deleting rows: no row is made up and none changes place. */
  ghost predicate SubseqOf(a: Table, b: Table)
    decreases |b|
  {
    a == [] || (b != [] && ((a[0] == b[0] && SubseqOf(a[1..], b[1..])) || SubseqOf(a, b[1..])))
  }

  /** Applying a mask: the rows of `t` for which `c` holds, in their original order. */
  function Where(t: Table, c: Criterion): (r: Table)
    ensures |r| <= |t|
    ensures forall row :: row in r <==> row in t && Holds(c, row)
    ensures SubseqOf(r, t)
  {
    if t == [] then []
    else if Holds(c, t[0]) then
      var rest := Where(t[1..], c);
      assert ([t[0]] + rest)[1..] == rest;
      [t[0]] + rest
    else
      var rest := Where(t[1..], c);
      assert rest != [] ==> rest[0] in t[1..];
      rest
  }

  lemma {:induction false} SubseqOfSelf(t: Table)
    ensures SubseqOf(t, t)
    decreases |t|
  {
    if t != [] {
      SubseqOfSelf(t[1..]);
    }
  }

  lemma {:induction false} SubseqTransitive(a: Table, b: Table, c: Table)
    requires SubseqOf(a, b) && SubseqOf(b, c)
    ensures SubseqOf(a, c)
    decreases |c|
  {
    if a != [] {
      assert b != [] && c != [];
      if SubseqOf(b, c[1..]) {
        SubseqTransitive(a, b, c[1..]);
      } else if a[0] == b[0] && SubseqOf(a[1..], b[1..]) {
        SubseqTransitive(a[1..], b[1..], c[1..]);
      } else {
        SubseqTransitive(a, b[1..], c[1..]);
      }
    }
  }

  /** A mask keeps every copy of a matching row and drops every copy of the others. */
  lemma {:induction false} WhereCounts(t: Table, c: Criterion)
    ensures forall row :: multiset(Where(t, c))[row] == if Holds(c, row) then multiset(t)[row] else 0
  {
    if t != [] {
      WhereCounts(t[1..], c);
      assert t == [t[0]] + t[1..];
    }
  }

  /** A mask leaves a table unchanged exactly when every row already matches it. */
  lemma {:induction false} WhereKeepsAll(t: Table, c: Criterion)
    ensures Where(t, c) == t <==> forall row :: row in t ==> Holds(c, row)
  {
    if forall row :: row in t ==> Holds(c, row) {
      WhereOfMatching(t, c);
    }
  }

  lemma {:induction false} WhereOfMatching(t: Table, c: Criterion)
    requires forall row :: row in t ==> Holds(c, row)
    ensures Where(t, c) == t
  {
    if t != [] {
      assert t[0] in t;
      assert forall row :: row in t[1..] ==> row in t;
      WhereOfMatching(t[1..], c);
      assert t == [t[0]] + t[1..];
    }
  }

  /** Applying the same mask twice is applying it once. */
  lemma WhereIdempotent(t: Table, c: Criterion)
    ensures Where(Where(t, c), c) == Where(t, c)
  {
    WhereKeepsAll(Where(t, c), c);
  }
}
