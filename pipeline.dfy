/** `get_pdb_data`: the flattened table with its earliest and latest year, and the check the
    page makes before drawing anything. */
module Pipeline {
  import opened Wrappers
  import opened Registry
  import opened Dataset
  import opened Flatten

  /** The table and the bounds of the year slider. */
  datatype PdbData = PdbData(records: seq<Record>, minYear: Option<int>, maxYear: Option<int>)

  /** Why loading stops: an exception of the flattening loop, or a missing table column. */
  datatype LoadError = FlattenFailed(cause: Error) | MissingColumn(column: string)

  /** Every fetch failed: no method contributes anything. */
  function NoResponses(): string -> Option<Response> {
    (methodName: string) => None
  }

  /** The page draws the dashboard only for a non-empty table; otherwise it reports that no data is available. */
  predicate DataAvailable(data: PdbData) {
    data.records != []
  }

  /** As written: the year column of the table is read even when there are no rows, and an
      empty table built from no rows has no `Year` column, so this raises KeyError. */
  function YearRangeAsWritten(flat: Result<seq<Record>, Error>): (r: Result<PdbData, LoadError>)
    ensures r == Err(MissingColumn("Year")) <==> flat == Ok([])
    ensures flat.Err? ==> r == Err(FlattenFailed(flat.error))
    ensures flat.Ok? && flat.value != [] ==> r == YearRange(flat)
  {
    match flat
    case Err(e) => Err(FlattenFailed(e))
    case Ok(rows) =>
      if rows == [] then Err(MissingColumn("Year"))
      else Ok(PdbData(rows, MinYear(rows), MaxYear(rows)))
  }

  /** With every fetch failed the page never reaches its "no data" message: loading raises instead. */
  lemma NoDataRaisesAsWritten()
    ensures YearRangeAsWritten(FlattenAll(Fetched(NoResponses()))) == Err(MissingColumn("Year"))
  {
    NoResponsesFlattenToNothing();
  }

  lemma {:induction false} AllMissingFlattenToNothing(responses: seq<Option<Response>>)
    requires forall i :: 0 <= i < |responses| ==> responses[i].None?
    ensures FlattenAll(responses) == Ok([])
    decreases |responses|
  {
    if responses != [] {
      var init := responses[..|responses| - 1];
      AllMissingFlattenToNothing(init);
      AppendUnit(Ok([]));
    }
  }

  lemma NoResponsesFlattenToNothing()
    ensures FlattenAll(Fetched(NoResponses())) == Ok([])
  {
    AllMissingFlattenToNothing(Fetched(NoResponses()));
  }

  /** Corrected: an empty table has no year bounds, which the page reports as "no data". */
  function YearRange(flat: Result<seq<Record>, Error>): (r: Result<PdbData, LoadError>)
    ensures r.Err? <==> flat.Err?
    ensures flat.Err? ==> r == Err(FlattenFailed(flat.error))
    ensures r.Ok? ==> r.value.records == flat.value
    ensures r.Ok? ==> (r.value.minYear.None? <==> !DataAvailable(r.value))
    ensures r.Ok? ==> (r.value.maxYear.None? <==> !DataAvailable(r.value))
    ensures r.Ok? && DataAvailable(r.value) ==>
      r.value.minYear.value <= r.value.maxYear.value
      && forall i :: 0 <= i < |r.value.records| ==>
           r.value.minYear.value <= r.value.records[i].year <= r.value.maxYear.value
    ensures r.Ok? && DataAvailable(r.value) ==>
      (exists i :: 0 <= i < |r.value.records| && r.value.records[i].year == r.value.minYear.value)
      && (exists i :: 0 <= i < |r.value.records| && r.value.records[i].year == r.value.maxYear.value)
  {
    match flat
    case Err(e) => Err(FlattenFailed(e))
    case Ok(rows) =>
      assert rows != [] ==> MinYear(rows).value <= MaxYear(rows).value by {
        if rows != [] {
          MinYearAtMostMaxYear(rows);
        }
      }
      Ok(PdbData(rows, MinYear(rows), MaxYear(rows)))
  }

  /** With every fetch failed, the corrected load yields an empty table and the "no data" branch. */
  lemma NoDataReported()
    ensures YearRange(FlattenAll(Fetched(NoResponses()))) == Ok(PdbData([], None, None))
    ensures !DataAvailable(PdbData([], None, None))
  {
    NoResponsesFlattenToNothing();
  }

  /** Corrected `get_pdb_data`: fetch and flatten every method's counts, then derive the year
      bounds as `YearRange` does, so an empty table loads without bounds instead of raising. */
  method GetPdbData(fetch: string -> Option<Response>) returns (result: Result<PdbData, LoadError>)
    ensures result == YearRange(FlattenAll(Fetched(fetch)))
  {
    var flat := ProcessData(fetch);
    if flat.Err? {
      return Err(FlattenFailed(flat.error));
    }
    var rows := flat.value;
    result := Ok(PdbData(rows, MinYear(rows), MaxYear(rows)));
  }

  /** The example response, returned for X-ray alone, flattens to its one row. */
  lemma ExampleEndToEnd()
    ensures FlattenAll(Fetched((methodName: string) => if methodName == "X-ray" then Some(ExampleResponse) else None))
         == Ok([Record(2020, "X-ray", "X-ray Crystallography", 150)])
  {
    var fetch := (methodName: string) => if methodName == "X-ray" then Some(ExampleResponse) else None;
    var others: seq<Option<Response>> := [None, None, None, None];
    assert Fetched(fetch) == [None] + ([Some(ExampleResponse)] + others);
    ExampleAmongMissing(others);
  }

  lemma ExampleAmongMissing(others: seq<Option<Response>>)
    requires forall i :: 0 <= i < |others| ==> others[i].None?
    ensures FlattenAll([None] + ([Some(ExampleResponse)] + others))
         == Ok([Record(2020, "X-ray", "X-ray Crystallography", 150)])
  {
    var responses := [None] + ([Some(ExampleResponse)] + others);
    MissingResponseContributesNothing(responses, 0);
    assert responses[..0] + responses[1..] == [Some(ExampleResponse)] + others;
    CollectConcat([Some(ExampleResponse)], others, ResponseRecords);
    AllMissingFlattenToNothing(others);
    ExampleFlattens();
    assert [Some(ExampleResponse)][..0] == [];
    AppendUnit(ResponseRecords(Some(ExampleResponse)));
  }
}
