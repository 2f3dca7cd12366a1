/** The flattened table of yearly counts and the operations the dashboard applies to it. */
module Dataset {
  import opened Wrappers

  /** One row of the table: structures released in `year` determined by `technique`. */
  datatype Record = Record(year: int, technique: string, techniqueFull: string, count: int)

  /** The row condition of the dashboard's filter: a selected technique and a year in
      the inclusive range [fromYear, toYear]. */
  predicate Keep(r: Record, selected: seq<string>, fromYear: int, toYear: int) {
    r.technique in selected && r.year <= toYear && r.year >= fromYear
  }

  /** The rows of `ds` that `Keep`, in their original order. */
  function Filter(ds: seq<Record>, selected: seq<string>, fromYear: int, toYear: int): (r: seq<Record>)
    ensures forall x :: x in r ==> x in ds && Keep(x, selected, fromYear, toYear)
    ensures forall x :: x in ds && Keep(x, selected, fromYear, toYear) ==> x in r
    ensures |r| <= |ds|
  {
    if ds == [] then []
    else
      (if Keep(ds[0], selected, fromYear, toYear) then [ds[0]] else [])
      + Filter(ds[1..], selected, fromYear, toYear)
  }

  /** `a` is obtained from `b` by deleting elements, keeping the order of the rest. */
  predicate SubsequenceOf(a: seq<Record>, b: seq<Record>)
    decreases |b|
  {
    if b == [] then a == []
    else (a != [] && a[0] == b[0] && SubsequenceOf(a[1..], b[1..])) || SubsequenceOf(a, b[1..])
  }

  /** The filter keeps rows in their order and invents none. */
  lemma {:induction false} FilterIsSubsequence(ds: seq<Record>, selected: seq<string>, fromYear: int, toYear: int)
    ensures SubsequenceOf(Filter(ds, selected, fromYear, toYear), ds)
    decreases |ds|
  {
    if ds != [] {
      FilterIsSubsequence(ds[1..], selected, fromYear, toYear);
      var rest := Filter(ds[1..], selected, fromYear, toYear);
      if Keep(ds[0], selected, fromYear, toYear) {
        assert ([ds[0]] + rest)[1..] == rest;
      } else {
        assert [] + rest == rest;
      }
    }
  }

  /** Filtering a concatenation filters each part. */
  lemma {:induction false} FilterConcat(a: seq<Record>, b: seq<Record>, selected: seq<string>, fromYear: int, toYear: int)
    ensures Filter(a + b, selected, fromYear, toYear)
         == Filter(a, selected, fromYear, toYear) + Filter(b, selected, fromYear, toYear)
    decreases |a|
  {
    if a == [] {
      assert a + b == b;
    } else {
      assert (a + b)[0] == a[0] && (a + b)[1..] == a[1..] + b;
      FilterConcat(a[1..], b, selected, fromYear, toYear);
    }
  }

  /** A table all of whose rows are kept passes through unchanged. */
  lemma {:induction false} FilterKeepsAll(ds: seq<Record>, selected: seq<string>, fromYear: int, toYear: int)
    requires forall x :: x in ds ==> Keep(x, selected, fromYear, toYear)
    ensures Filter(ds, selected, fromYear, toYear) == ds
    decreases |ds|
  {
    if ds != [] {
      assert ds[0] in ds;
      FilterKeepsAll(ds[1..], selected, fromYear, toYear);
      assert [ds[0]] + ds[1..] == ds;
    }
  }

  /** Filtering twice with the same selection is filtering once. */
  lemma FilterIdempotent(ds: seq<Record>, selected: seq<string>, fromYear: int, toYear: int)
    ensures Filter(Filter(ds, selected, fromYear, toYear), selected, fromYear, toYear)
         == Filter(ds, selected, fromYear, toYear)
  {
    FilterKeepsAll(Filter(ds, selected, fromYear, toYear), selected, fromYear, toYear);
  }

  /** The sum of `count` over the rows of `year` and `technique`: the dashboard's
      `df[df['Year'] == year][... ['Technique'] == technique]['Count'].sum()`. */
  function BoundaryCount(ds: seq<Record>, year: int, technique: string): (total: int)
    decreases |ds|
  {
    if ds == [] then 0
    else
      (if ds[0].year == year && ds[0].technique == technique then ds[0].count else 0)
      + BoundaryCount(ds[1..], year, technique)
  }

  /** The rows of one year: `df[df['Year'] == year]`. */
  function YearRows(ds: seq<Record>, year: int): (r: seq<Record>)
    ensures forall x :: x in r <==> x in ds && x.year == year
    decreases |ds|
  {
    if ds == [] then [] else (if ds[0].year == year then [ds[0]] else []) + YearRows(ds[1..], year)
  }

  /** The summed count of one technique's rows: `df[df['Technique'] == technique]['Count'].sum()`. */
  function TechniqueTotal(ds: seq<Record>, technique: string): (total: int)
    decreases |ds|
  {
    if ds == [] then 0
    else (if ds[0].technique == technique then ds[0].count else 0) + TechniqueTotal(ds[1..], technique)
  }

  /** Every row's count is non-negative, as the search service's populations are. */
  predicate CountsNonNegative(ds: seq<Record>) {
    forall i :: 0 <= i < |ds| ==> ds[i].count >= 0
  }

  /** A technique's summed count is non-negative when every count is. */
  lemma {:induction false} TechniqueTotalNonNegative(ds: seq<Record>, technique: string)
    requires CountsNonNegative(ds)
    ensures TechniqueTotal(ds, technique) >= 0
    decreases |ds|
  {
    if ds != [] {
      assert CountsNonNegative(ds[1..]) by {
        forall i | 0 <= i < |ds[1..]| ensures ds[1..][i].count >= 0 {
          assert ds[1..][i] == ds[i + 1];
        }
      }
      TechniqueTotalNonNegative(ds[1..], technique);
    }
  }

  /** A boundary count is non-negative when every count is. */
  lemma {:induction false} BoundaryCountNonNegative(ds: seq<Record>, year: int, technique: string)
    requires CountsNonNegative(ds)
    ensures BoundaryCount(ds, year, technique) >= 0
    decreases |ds|
  {
    if ds != [] {
      assert CountsNonNegative(ds[1..]) by {
        forall i | 0 <= i < |ds[1..]| ensures ds[1..][i].count >= 0 {
          assert ds[1..][i] == ds[i + 1];
        }
      }
      BoundaryCountNonNegative(ds[1..], year, technique);
    }
  }

  /** Selecting the year first and then summing the technique's rows gives the boundary count. */
  lemma {:induction false} TwoStepBoundaryCount(ds: seq<Record>, year: int, technique: string)
    ensures TechniqueTotal(YearRows(ds, year), technique) == BoundaryCount(ds, year, technique)
    decreases |ds|
  {
    if ds != [] {
      TwoStepBoundaryCount(ds[1..], year, technique);
      var rest := YearRows(ds[1..], year);
      if ds[0].year == year {
        assert ([ds[0]] + rest)[0] == ds[0] && ([ds[0]] + rest)[1..] == rest;
      } else {
        assert [] + rest == rest;
      }
    }
  }

  /** Rows are summed, not overwritten: the count of a concatenation is the sum of the counts. */
  lemma {:induction false} BoundaryCountConcat(a: seq<Record>, b: seq<Record>, year: int, technique: string)
    ensures BoundaryCount(a + b, year, technique) == BoundaryCount(a, year, technique) + BoundaryCount(b, year, technique)
    decreases |a|
  {
    if a == [] {
      assert a + b == b;
    } else {
      assert (a + b)[0] == a[0] && (a + b)[1..] == a[1..] + b;
      BoundaryCountConcat(a[1..], b, year, technique);
    }
  }

  /** With no row for the year and technique, the count is zero. */
  lemma {:induction false} BoundaryCountAbsent(ds: seq<Record>, year: int, technique: string)
    requires forall x :: x in ds ==> !(x.year == year && x.technique == technique)
    ensures BoundaryCount(ds, year, technique) == 0
    decreases |ds|
  {
    if ds != [] {
      assert ds[0] in ds;
      BoundaryCountAbsent(ds[1..], year, technique);
    }
  }

  /** With exactly one matching row, the count is that row's count. */
  lemma {:induction false} BoundaryCountSingle(ds: seq<Record>, k: nat, year: int, technique: string)
    requires k < |ds| && ds[k].year == year && ds[k].technique == technique
    requires forall i :: 0 <= i < |ds| && i != k ==> !(ds[i].year == year && ds[i].technique == technique)
    ensures BoundaryCount(ds, year, technique) == ds[k].count
  {
    assert ds == ds[..k] + ([ds[k]] + ds[k + 1..]);
    BoundaryCountConcat(ds[..k], [ds[k]] + ds[k + 1..], year, technique);
    BoundaryCountConcat([ds[k]], ds[k + 1..], year, technique);
    forall x | x in ds[..k] ensures !(x.year == year && x.technique == technique) {
      var i :| 0 <= i < k && ds[..k][i] == x;
      assert ds[i] == x;
    }
    BoundaryCountAbsent(ds[..k], year, technique);
    forall x | x in ds[k + 1..] ensures !(x.year == year && x.technique == technique) {
      var i :| 0 <= i < |ds| - k - 1 && ds[k + 1..][i] == x;
      assert ds[k + 1 + i] == x;
    }
    BoundaryCountAbsent(ds[k + 1..], year, technique);
    assert [ds[k]][1..] == [];
  }

  /** The boundary counts read off the filtered table are the unfiltered ones for a selected
      technique at a year inside the range, and zero otherwise. */
  lemma {:induction false} BoundaryCountOfFilter(ds: seq<Record>, selected: seq<string>, fromYear: int, toYear: int,
                                                 year: int, technique: string)
    ensures BoundaryCount(Filter(ds, selected, fromYear, toYear), year, technique)
         == if technique in selected && fromYear <= year <= toYear then BoundaryCount(ds, year, technique) else 0
    decreases |ds|
  {
    if ds != [] {
      BoundaryCountOfFilter(ds[1..], selected, fromYear, toYear, year, technique);
      var head := if Keep(ds[0], selected, fromYear, toYear) then [ds[0]] else [];
      BoundaryCountConcat(head, Filter(ds[1..], selected, fromYear, toYear), year, technique);
      if head != [] {
        assert head[1..] == [];
      }
    }
  }

  /** The earliest year in the table; None for an empty table, the corrected behaviour (the program
      as written raises on an empty table before any bound is taken). */
  function MinYear(ds: seq<Record>): (r: Option<int>)
    ensures r.None? <==> ds == []
    ensures r.Some? ==> (exists i :: 0 <= i < |ds| && ds[i].year == r.value)
    ensures r.Some? ==> forall i :: 0 <= i < |ds| ==> r.value <= ds[i].year
    decreases |ds|
  {
    if ds == [] then None
    else match MinYear(ds[1..])
      case None => Some(ds[0].year)
      case Some(m) =>
        assert exists i :: 0 <= i < |ds[1..]| && ds[1..][i].year == m;
        var i :| 0 <= i < |ds[1..]| && ds[1..][i].year == m;
        assert ds[i + 1].year == m;
        Some(if ds[0].year < m then ds[0].year else m)
  }

  /** The latest year in the table; None for an empty table. */
  function MaxYear(ds: seq<Record>): (r: Option<int>)
    ensures r.None? <==> ds == []
    ensures r.Some? ==> (exists i :: 0 <= i < |ds| && ds[i].year == r.value)
    ensures r.Some? ==> forall i :: 0 <= i < |ds| ==> ds[i].year <= r.value
    decreases |ds|
  {
    if ds == [] then None
    else match MaxYear(ds[1..])
      case None => Some(ds[0].year)
      case Some(m) =>
        assert exists i :: 0 <= i < |ds[1..]| && ds[1..][i].year == m;
        var i :| 0 <= i < |ds[1..]| && ds[1..][i].year == m;
        assert ds[i + 1].year == m;
        Some(if ds[0].year > m then ds[0].year else m)
  }

  /** The year range of a non-empty table is not empty. */
  lemma MinYearAtMostMaxYear(ds: seq<Record>)
    requires ds != []
    ensures MinYear(ds).value <= MaxYear(ds).value
  {
  }
}
