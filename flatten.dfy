/** The response of the search service and its flattening into table rows (`process_data`). */
module Flatten {
  import opened Wrappers
  import opened PyInt
  import opened Registry
  import opened Dataset

  /** A bucket of the inner facet: one technique label and its number of entries. */
  datatype MethodBucket = MethodBucket(labelText: string, population: int)

  /** The inner facet of a year bucket; `buckets` is None when the key is absent. */
  datatype MethodFacet = MethodFacet(buckets: Option<seq<MethodBucket>>)

  /** A bucket of the release-date histogram; `facets` is None when the key is absent. */
  datatype YearBucket = YearBucket(labelText: string, facets: Option<seq<MethodFacet>>)

  /** The outer facet; `buckets` is None when the key is absent. */
  datatype YearFacet = YearFacet(buckets: Option<seq<YearBucket>>)

  /** The decoded response body; `facets` is None when the key is absent (an empty body included). */
  datatype Response = Response(facets: Option<seq<YearFacet>>)

  /** The exceptions the flattening loop can raise. */
  datatype Error =
    | IndexOutOfRange          // `[0]` on an empty or absent `facets` list
    | InvalidLiteral(labelText: string)  // `int(label)` on a label that is not a decimal integer

  /** The row written for one inner bucket of a year. */
  function MakeRecord(year: int, b: MethodBucket): (r: Record)
    ensures r.year == year && r.technique == b.labelText && r.count == b.population
    ensures r.techniqueFull == FullName(r.technique)
  {
    Record(year, b.labelText, FullName(b.labelText), b.population)
  }

  /** Keeps `a`'s error if any, then `b`'s, and otherwise appends `b`'s rows to `a`'s:
      work runs front to back and stops at the first exception. */
  function Append(a: Result<seq<Record>, Error>, b: Result<seq<Record>, Error>): Result<seq<Record>, Error> {
    if a.Err? then a else if b.Err? then b else Ok(a.value + b.value)
  }

  /** The rows of every element of `xs` in turn, or the first error. */
  function Collect<X>(xs: seq<X>, f: X -> Result<seq<Record>, Error>): Result<seq<Record>, Error>
    decreases |xs|
  {
    if xs == [] then Ok([]) else Append(Collect(xs[..|xs| - 1], f), f(xs[|xs| - 1]))
  }

  /** One row per inner bucket, in bucket order, carrying the bucket's label and population. */
  function BucketRecords(year: int, bs: seq<MethodBucket>): (rs: seq<Record>)
    ensures |rs| == |bs|
    ensures forall i :: 0 <= i < |bs| ==>
      rs[i] == Record(year, bs[i].labelText, FullName(bs[i].labelText), bs[i].population)
    decreases |bs|
  {
    if bs == [] then [] else BucketRecords(year, bs[..|bs| - 1]) + [MakeRecord(year, bs[|bs| - 1])]
  }

  /** The inner buckets of a year bucket: the first inner facet's, which must exist. */
  function YearRecords(yb: YearBucket): (r: Result<seq<Record>, Error>)
    ensures ParseInt(yb.labelText).None? ==> r == Err(InvalidLiteral(yb.labelText))
    ensures ParseInt(yb.labelText).Some? ==> (r == Err(IndexOutOfRange) <==> yb.facets.GetOr([]) == [])
    ensures ParseInt(yb.labelText).Some? && yb.facets.GetOr([]) != [] ==> r.Ok?
    ensures r.Ok? ==> |r.value| == YearSize(yb)
    ensures r.Ok? ==> forall x :: x in r.value ==> Some(x.year) == ParseInt(yb.labelText)
    ensures r.Ok? ==>
      var bs := yb.facets.value[0].buckets.GetOr([]);
      |r.value| == |bs| &&
      forall i :: 0 <= i < |bs| ==> r.value[i].technique == bs[i].labelText && r.value[i].count == bs[i].population
  {
    match ParseInt(yb.labelText)
    case None => Err(InvalidLiteral(yb.labelText))
    case Some(year) =>
      var facets := yb.facets.GetOr([]);
      if |facets| == 0 then Err(IndexOutOfRange)
      else Ok(BucketRecords(year, facets[0].buckets.GetOr([])))
  }

  /** The rows one method's response contributes. A failed fetch or a body without `facets`
      contributes nothing; otherwise every year bucket of the first facet does. */
  function ResponseRecords(data: Option<Response>): (r: Result<seq<Record>, Error>)
    ensures data.None? || data.value.facets.None? ==> r == Ok([])
    ensures data.Some? && data.value.facets == Some([]) ==> r == Err(IndexOutOfRange)
  {
    if data.None? || data.value.facets.None? then Ok([])
    else
      var facets := data.value.facets.value;
      if |facets| == 0 then Err(IndexOutOfRange)
      else Collect(facets[0].buckets.GetOr([]), YearRecords)
  }

  /** The rows of all responses, in the order the methods were fetched. */
  function FlattenAll(responses: seq<Option<Response>>): Result<seq<Record>, Error> {
    Collect(responses, ResponseRecords)
  }

  /** What `fetch_data_for_method` returned for each registry method, in registry order. */
  function Fetched(fetch: string -> Option<Response>): (rs: seq<Option<Response>>)
    ensures |rs| == |Methods|
    ensures forall i :: 0 <= i < |Methods| ==> rs[i] == fetch(Methods[i])
  {
    seq(|Methods|, i requires 0 <= i < |Methods| => fetch(Methods[i]))
  }

  lemma AppendAssociative(a: Result<seq<Record>, Error>, b: Result<seq<Record>, Error>, c: Result<seq<Record>, Error>)
    ensures Append(Append(a, b), c) == Append(a, Append(b, c))
  {
    if a.Ok? && b.Ok? && c.Ok? {
      assert (a.value + b.value) + c.value == a.value + (b.value + c.value);
    }
  }

  lemma ConcatAssociative(a: seq<Record>, b: seq<Record>, c: seq<Record>)
    ensures (a + b) + c == a + (b + c)
  {
  }

  lemma AppendUnit(a: Result<seq<Record>, Error>)
    ensures Append(a, Ok([])) == a && Append(Ok([]), a) == a
  {
    if a.Ok? {
      assert a.value + [] == a.value && [] + a.value == a.value;
    }
  }

  /** Extending the processed prefix by one element. */
  lemma CollectStep<X>(xs: seq<X>, k: nat, f: X -> Result<seq<Record>, Error>)
    requires k < |xs|
    ensures Collect(xs[..k + 1], f) == Append(Collect(xs[..k], f), f(xs[k]))
  {
    assert xs[..k + 1][..k] == xs[..k];
  }

  /** The rows of a concatenation are the rows of its parts, in order; an error in the first
      part hides the second. */
  lemma {:induction false} CollectConcat<X>(a: seq<X>, b: seq<X>, f: X -> Result<seq<Record>, Error>)
    ensures Collect(a + b, f) == Append(Collect(a, f), Collect(b, f))
    decreases |b|
  {
    if b == [] {
      assert a + b == a;
      AppendUnit(Collect(a, f));
    } else {
      var b' := b[..|b| - 1];
      assert (a + b)[..|a + b| - 1] == a + b';
      assert (a + b)[|a + b| - 1] == b[|b| - 1];
      CollectConcat(a, b', f);
      AppendAssociative(Collect(a, f), Collect(b', f), f(b[|b| - 1]));
    }
  }

  /** Once the processed prefix has raised, the whole computation raises the same exception. */
  lemma ErrorStops<X>(xs: seq<X>, k: nat, f: X -> Result<seq<Record>, Error>)
    requires k <= |xs| && Collect(xs[..k], f).Err?
    ensures Collect(xs, f) == Collect(xs[..k], f)
  {
    assert xs == xs[..k] + xs[k..];
    CollectConcat(xs[..k], xs[k..], f);
  }

  /** The total number of inner buckets of one year bucket that the loop visits. */
  function YearSize(yb: YearBucket): nat {
    var facets := yb.facets.GetOr([]);
    if |facets| == 0 then 0 else |facets[0].buckets.GetOr([])|
  }

  /** The total number of inner buckets of one response that the loop visits. */
  function ResponseSize(data: Option<Response>): nat {
    if data.None? || data.value.facets.None? || |data.value.facets.value| == 0 then 0
    else Sum(data.value.facets.value[0].buckets.GetOr([]), YearSize)
  }

  function Sum<X>(xs: seq<X>, g: X -> nat): nat
    decreases |xs|
  {
    if xs == [] then 0 else Sum(xs[..|xs| - 1], g) + g(xs[|xs| - 1])
  }

  /** When each part that succeeds yields `g` rows, the whole yields their sum. */
  lemma {:induction false} CollectLength<X>(xs: seq<X>, f: X -> Result<seq<Record>, Error>, g: X -> nat)
    requires forall x :: x in xs && f(x).Ok? ==> |f(x).value| == g(x)
    requires Collect(xs, f).Ok?
    ensures |Collect(xs, f).value| == Sum(xs, g)
    decreases |xs|
  {
    if xs != [] {
      var init := xs[..|xs| - 1];
      assert forall x :: x in init ==> x in xs;
      CollectLength(init, f, g);
    }
  }

  /** A record per inner bucket: the number of rows is the number of inner buckets. */
  lemma FlattenAllLength(responses: seq<Option<Response>>)
    requires FlattenAll(responses).Ok?
    ensures |FlattenAll(responses).value| == Sum(responses, ResponseSize)
  {
    forall data | data in responses && ResponseRecords(data).Ok?
      ensures |ResponseRecords(data).value| == ResponseSize(data)
    {
      if data.Some? && data.value.facets.Some? && |data.value.facets.value| > 0 {
        CollectLength(data.value.facets.value[0].buckets.GetOr([]), YearRecords, YearSize);
      }
    }
    CollectLength(responses, ResponseRecords, ResponseSize);
  }

  /** A method whose fetch failed, or whose body has no `facets`, contributes no rows; the other
      methods' rows are produced as if it were not in the registry. */
  lemma MissingResponseContributesNothing(responses: seq<Option<Response>>, k: nat)
    requires k < |responses| && (responses[k].None? || responses[k].value.facets.None?)
    ensures FlattenAll(responses) == FlattenAll(responses[..k] + responses[k + 1..])
  {
    var before, after := responses[..k], responses[k + 1..];
    assert responses == before + ([responses[k]] + after);
    CollectConcat(before, [responses[k]] + after, ResponseRecords);
    CollectConcat([responses[k]], after, ResponseRecords);
    assert [responses[k]][..0] == [];
    assert ResponseRecords(responses[k]) == Ok([]);
    AppendUnit(Ok([]));
    assert Collect([responses[k]], ResponseRecords) == Ok([]);
    AppendUnit(Collect(after, ResponseRecords));
    AppendUnit(Collect(before, ResponseRecords));
    CollectConcat(before, after, ResponseRecords);
  }

  /** An empty or absent list of year buckets contributes no rows. */
  lemma EmptyYearBuckets(first: YearFacet, rest: seq<YearFacet>)
    requires first.buckets.None? || first.buckets == Some([])
    ensures ResponseRecords(Some(Response(Some([first] + rest)))) == Ok([])
  {
  }

  /** A year whose first inner facet has an empty or absent bucket list contributes no rows. */
  lemma EmptyMethodBuckets(yb: YearBucket)
    requires ParseInt(yb.labelText).Some?
    requires yb.facets.Some? && |yb.facets.value| > 0
    requires yb.facets.value[0].buckets.None? || yb.facets.value[0].buckets == Some([])
    ensures YearRecords(yb) == Ok([])
  {
  }

  /** A year bucket whose inner `facets` list is empty or absent raises, as `[0]` does on `[]`. */
  lemma MissingInnerFacet(yb: YearBucket)
    requires ParseInt(yb.labelText).Some?
    requires yb.facets.None? || yb.facets == Some([])
    ensures YearRecords(yb) == Err(IndexOutOfRange)
  {
  }

  /** Every row's display name is the registry's name for its technique. */
  predicate WellNamed(rs: seq<Record>) {
    forall r :: r in rs ==> r.techniqueFull == FullName(r.technique)
  }

  lemma {:induction false} CollectWellNamed<X>(xs: seq<X>, f: X -> Result<seq<Record>, Error>)
    requires forall x :: x in xs && f(x).Ok? ==> WellNamed(f(x).value)
    requires Collect(xs, f).Ok?
    ensures WellNamed(Collect(xs, f).value)
    decreases |xs|
  {
    if xs != [] {
      var init := xs[..|xs| - 1];
      assert forall x :: x in init ==> x in xs;
      CollectWellNamed(init, f);
    }
  }

  /** Each row's `Technique Full` is the display name of its `Technique`. */
  lemma FlattenAllWellNamed(responses: seq<Option<Response>>)
    requires FlattenAll(responses).Ok?
    ensures WellNamed(FlattenAll(responses).value)
  {
    forall data | data in responses && ResponseRecords(data).Ok?
      ensures WellNamed(ResponseRecords(data).value)
    {
      if data.Some? && data.value.facets.Some? && |data.value.facets.value| > 0 {
        CollectWellNamed(data.value.facets.value[0].buckets.GetOr([]), YearRecords);
      }
    }
    CollectWellNamed(responses, ResponseRecords);
  }

  /** One year, 2020, holding one inner bucket for X-ray with 150 entries. */
  const ExampleResponse: Response :=
    Response(Some([YearFacet(Some([
      YearBucket("2020", Some([MethodFacet(Some([MethodBucket("X-ray", 150)]))]))
    ]))]))

  /** The example's one year bucket yields its one row. */
  lemma ExampleYearFlattens()
    ensures YearRecords(ExampleResponse.facets.value[0].buckets.value[0])
         == Ok([Record(2020, "X-ray", "X-ray Crystallography", 150)])
  {
    ParseYearLabel();
    var bucket := MethodBucket("X-ray", 150);
    assert FullName("X-ray") == "X-ray Crystallography";
    assert BucketRecords(2020, [bucket]) == [Record(2020, "X-ray", "X-ray Crystallography", 150)];
  }

  /** The example response flattens to exactly one row. */
  lemma ExampleFlattens()
    ensures ResponseRecords(Some(ExampleResponse)) == Ok([Record(2020, "X-ray", "X-ray Crystallography", 150)])
  {
    var row := Record(2020, "X-ray", "X-ray Crystallography", 150);
    var ybs := ExampleResponse.facets.value[0].buckets.value;
    ExampleYearFlattens();
    CollectStep(ybs, 0, YearRecords);
    assert ybs[..1] == ybs && ybs[..0] == [];
    assert [] + [row] == [row];
  }

  /** An element that raises, after a prefix that succeeded, makes the whole computation raise. */
  lemma CollectFails<X>(xs: seq<X>, k: nat, f: X -> Result<seq<Record>, Error>, e: Error)
    requires k < |xs| && Collect(xs[..k], f).Ok? && f(xs[k]) == Err(e)
    ensures Collect(xs, f) == Err(e)
  {
    CollectStep(xs, k, f);
    ErrorStops(xs, k + 1, f);
  }

  /** The row appended for one more inner bucket. */
  lemma BucketDone(year: int, bs: seq<MethodBucket>, b: nat)
    requires b < |bs|
    ensures BucketRecords(year, bs[..b + 1]) == BucketRecords(year, bs[..b]) + [MakeRecord(year, bs[b])]
  {
    assert bs[..b + 1][..b] == bs[..b];
  }

  /** The rows `process_data` builds: the nested loops over methods, year buckets and inner
      buckets, appending one row per inner bucket, or the exception that stops them. */
  method ProcessData(fetch: string -> Option<Response>) returns (result: Result<seq<Record>, Error>)
    ensures result == FlattenAll(Fetched(fetch))
  {
    ghost var responses := Fetched(fetch);
    var records: seq<Record> := [];
    for m := 0 to |Methods|
      invariant Collect(responses[..m], ResponseRecords) == Ok(records)
    {
      var data := fetch(Methods[m]);
      assert data == responses[m];
      if data.None? || data.value.facets.None? {
        CollectStep(responses, m, ResponseRecords);
        assert records + [] == records;
        continue;
      }
      var facets := data.value.facets.value;
      if |facets| == 0 {
        result := Err(IndexOutOfRange);
        CollectFails(responses, m, ResponseRecords, IndexOutOfRange);
        return;
      }
      var yearBuckets := facets[0].buckets.GetOr([]);
      assert ResponseRecords(data) == Collect(yearBuckets, YearRecords);
      ghost var before := records;
      ghost var added: seq<Record> := [];
      for y := 0 to |yearBuckets|
        invariant Collect(yearBuckets[..y], YearRecords) == Ok(added)
        invariant records == before + added
      {
        var yearBucket := yearBuckets[y];
        var year := ParseInt(yearBucket.labelText);
        if year.None? {
          result := Err(InvalidLiteral(yearBucket.labelText));
          CollectFails(yearBuckets, y, YearRecords, result.error);
          CollectFails(responses, m, ResponseRecords, result.error);
          return;
        }
        var innerFacets := yearBucket.facets.GetOr([]);
        if |innerFacets| == 0 {
          result := Err(IndexOutOfRange);
          CollectFails(yearBuckets, y, YearRecords, IndexOutOfRange);
          CollectFails(responses, m, ResponseRecords, IndexOutOfRange);
          return;
        }
        var methodBuckets := innerFacets[0].buckets.GetOr([]);
        for b := 0 to |methodBuckets|
          invariant records == before + added + BucketRecords(year.value, methodBuckets[..b])
        {
          var methodBucket := methodBuckets[b];
          var technique := methodBucket.labelText;
          var count := methodBucket.population;
          BucketDone(year.value, methodBuckets, b);
          ConcatAssociative(before + added, BucketRecords(year.value, methodBuckets[..b]),
                            [Record(year.value, technique, FullName(technique), count)]);
          records := records + [Record(year.value, technique, FullName(technique), count)];
        }
        assert methodBuckets[..|methodBuckets|] == methodBuckets;
        CollectStep(yearBuckets, y, YearRecords);
        ConcatAssociative(before, added, BucketRecords(year.value, methodBuckets));
        added := added + BucketRecords(year.value, methodBuckets);
      }
      assert yearBuckets[..|yearBuckets|] == yearBuckets;
      CollectStep(responses, m, ResponseRecords);
    }
    assert responses[..|Methods|] == responses;
    result := Ok(records);
  }
}
