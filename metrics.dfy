/** The per-technique metric cards: the count in the last year and the change from the first. */
module Metrics {
  import opened Dataset

  /** The change shown under a metric: unavailable, or the exact percentage numerator / denominator. */
  datatype Growth = NotAvailable | Percent(numerator: int, denominator: int)

  /** How the change is coloured: switched off when unavailable. */
  datatype DeltaColor = Off | Normal

  /** One metric card: its caption, the last-year count, its change, the change's colouring and
      the layout column it is placed in. */
  datatype Metric = Metric(caption: string, value: int, delta: Growth, deltaColor: DeltaColor, column: nat)

  /** The number of layout columns the cards are spread over. */
  const Columns: nat := 3

  /** The change from `firstCount` to `lastCount` as a percentage of `firstCount`; never a
      division by zero: a zero first count has no percentage. */
  function GrowthOf(firstCount: int, lastCount: int): (g: Growth)
    ensures g.NotAvailable? <==> firstCount == 0
    ensures g.Percent? ==> g.denominator == firstCount != 0
    ensures g.Percent? ==>
      g.numerator as real / g.denominator as real
      == (lastCount - firstCount) as real / firstCount as real * 100.0
    ensures g.Percent? && firstCount > 0 ==>
      (g.numerator > 0 <==> lastCount > firstCount) && (g.numerator == 0 <==> lastCount == firstCount)
  {
    if firstCount == 0 then NotAvailable
    else Percent((lastCount - firstCount) * 100, firstCount)
  }

  /** The card the metric loop shows for `technique` in layout column `column`. */
  ghost function ExpectedCard(filtered: seq<Record>, fromYear: int, toYear: int, technique: string, column: nat): Metric {
    var first := BoundaryCount(filtered, fromYear, technique);
    var last := BoundaryCount(filtered, toYear, technique);
    Metric(technique + " Structures", last, GrowthOf(first, last), if first == 0 then Off else Normal, column)
  }

  /** The metric loop: one card per selected technique, in selection order, comparing the
      technique's count at `toYear` with its count at `fromYear` in the filtered table. */
  method DeltaMetrics(filtered: seq<Record>, selected: seq<string>, fromYear: int, toYear: int)
    returns (metrics: seq<Metric>)
    ensures |metrics| == |selected|
    ensures forall i :: 0 <= i < |selected| ==>
      var first := BoundaryCount(filtered, fromYear, selected[i]);
      var last := BoundaryCount(filtered, toYear, selected[i]);
      metrics[i] == Metric(selected[i] + " Structures", last, GrowthOf(first, last),
                           if first == 0 then Off else Normal, i % Columns)
  {
    var firstYear := YearRows(filtered, fromYear);
    var lastYear := YearRows(filtered, toYear);
    metrics := [];
    for i := 0 to |selected|
      invariant |metrics| == i
      invariant forall k :: 0 <= k < i ==> metrics[k] == ExpectedCard(filtered, fromYear, toYear, selected[k], k % Columns)
    {
      var technique := selected[i];
      var column := i % Columns;
      var firstCount := TechniqueTotal(firstYear, technique);
      var lastCount := TechniqueTotal(lastYear, technique);
      TwoStepBoundaryCount(filtered, fromYear, technique);
      TwoStepBoundaryCount(filtered, toYear, technique);
      var growth: Growth;
      var deltaColor: DeltaColor;
      if firstCount == 0 {
        growth := NotAvailable;
        deltaColor := Off;
      } else {
        growth := Percent((lastCount - firstCount) * 100, firstCount);
        deltaColor := Normal;
      }
      var card := Metric(technique + " Structures", lastCount, growth, deltaColor, column);
      assert card == ExpectedCard(filtered, fromYear, toYear, technique, column);
      metrics := metrics + [card];
    }
  }

  /** The cards read the filtered table: for a range whose ends are in order, a selected
      technique's boundary counts are its counts in the whole table, and an unselected one's are zero. */
  lemma MetricOfFilteredTable(ds: seq<Record>, selected: seq<string>, fromYear: int, toYear: int, technique: string)
    requires fromYear <= toYear
    ensures BoundaryCount(Filter(ds, selected, fromYear, toYear), fromYear, technique)
         == if technique in selected then BoundaryCount(ds, fromYear, technique) else 0
    ensures BoundaryCount(Filter(ds, selected, fromYear, toYear), toYear, technique)
         == if technique in selected then BoundaryCount(ds, toYear, technique) else 0
  {
    BoundaryCountOfFilter(ds, selected, fromYear, toYear, fromYear, technique);
    BoundaryCountOfFilter(ds, selected, fromYear, toYear, toYear, technique);
  }
}
