/** Building a cost entry and rolling entries up, loop by loop as the worker and the shared package do. */
module Costs {
  import opened CostModel
  import opened CostConservation
  import CostEntries

  /** Merge samples per model. */
  method MergeByModel(samples: seq<Row>, default: Option<string>) returns (rows: seq<Row>)
    ensures rows == MergeSamples(samples, default)
  {
    rows := [];
    for n := 0 to |samples|
      invariant rows == MergeSamples(samples[..n], default)
    {
      rows := MergeSample(rows, samples[n], OrElse(samples[n].model, default));
      assert samples[..n + 1][..n] == samples[..n];
    }
    assert samples[..|samples|] == samples;
  }

  /** Sum the rows' tokens and reported costs, and find the row whose model the entry takes, in one pass. */
  method RollUp(rows: seq<Row>) returns (usage: Usage, cost: Option<nat>, best: Option<Row>)
    ensures usage == SumUsage(rows) && cost == SumCost(rows) && best == BestRow(rows)
  {
    usage, cost, best := NO_USAGE, None, None;
    for n := 0 to |rows|
      invariant usage == SumUsage(rows[..n]) && cost == SumCost(rows[..n]) && best == BestRow(rows[..n])
    {
      var row := rows[n];
      usage := Accumulate(usage, row.usage);
      if row.cost.Some? { cost := Some(Or(cost, 0) + row.cost.value); }
      if best.None? || Better(row, best.value) { best := Some(row); }
      assert rows[..n + 1][..n] == rows[..n];
    }
    assert rows[..|rows|] == rows;
  }

  /** Price the rows without a cost, in place, adding each estimate to the running cost. */
  method PriceGaps(merged: seq<Row>, reported: Option<nat>, pricing: Pricing)
    returns (rows: seq<Row>, cost: Option<nat>, estimatedRow: bool)
    requires reported == SumCost(merged)
    ensures rows == FillGaps(merged, pricing)
    ensures cost == SumCost(rows) && (reported.Some? ==> cost.Some?)
    ensures estimatedRow <==> FilledOne(merged, pricing)
  {
    rows, cost, estimatedRow := merged, reported, false;
    ghost var filled: seq<Row> := [];
    for n := 0 to |merged|
      invariant filled == FillGaps(merged[..n], pricing) && |filled| == n
      invariant |rows| == |merged| && rows[..n] == filled
      invariant forall i :: n <= i < |merged| ==> rows[i] == merged[i]
      invariant CostsAccrue(cost, reported, SumCost(merged[..n]), SumCost(filled))
      invariant estimatedRow <==> FilledOne(merged[..n], pricing)
    {
      var row := rows[n];
      var estimate := pricing(row.usage, row.model);
      FillOne(merged, n, pricing);
      FillingAccrues(cost, reported, SumCost(merged[..n]), SumCost(filled), row, pricing);
      filled := filled + [Priced(row, pricing)];
      if row.cost.None? && estimate.Some? {
        rows := rows[n := row.(cost := estimate)];
        cost, estimatedRow := Plus(cost, estimate), true;
      }
      assert rows[..n + 1] == rows[..n] + [rows[n]];
    }
    assert merged[..|merged|] == merged && rows == filled;
    AccruedIsTheSum(merged, cost, pricing);
  }

  /** The running cost is what was reported plus what pricing added so far. */
  predicate CostsAccrue(cost: Option<nat>, reported: Option<nat>, passed: Option<nat>, filled: Option<nat>) {
    && Or(cost, 0) + Or(passed, 0) == Or(reported, 0) + Or(filled, 0)
    && (cost.Some? ==> reported.Some? || filled.Some?)
    && (reported.Some? ==> cost.Some?)
    && (filled.Some? ==> passed.Some? || cost.Some?)
  }

  lemma FillingAccrues(cost: Option<nat>, reported: Option<nat>, passed: Option<nat>, filled: Option<nat>,
      row: Row, pricing: Pricing)
    requires CostsAccrue(cost, reported, passed, filled)
    ensures CostsAccrue(if Fillable(row, pricing) then Plus(cost, pricing(row.usage, row.model)) else cost, reported,
                        Plus(passed, row.cost), Plus(filled, Priced(row, pricing).cost))
  {}

  lemma AccruedIsTheSum(merged: seq<Row>, cost: Option<nat>, pricing: Pricing)
    requires CostsAccrue(cost, SumCost(merged), SumCost(merged), SumCost(FillGaps(merged, pricing)))
    ensures cost == SumCost(FillGaps(merged, pricing))
  {
    if SumCost(merged).Some? { CostEntries.PricedStaysPriced(merged, pricing); }
  }

  lemma FillOne(rows: seq<Row>, n: nat, pricing: Pricing)
    requires n < |rows|
    ensures var filled := FillGaps(rows[..n], pricing); var row := Priced(rows[n], pricing);
            && FillGaps(rows[..n + 1], pricing) == filled + [row]
            && SumCost(filled + [row]) == Plus(SumCost(filled), row.cost)
            && SumCost(rows[..n + 1]) == Plus(SumCost(rows[..n]), rows[n].cost)
            && (FilledOne(rows[..n + 1], pricing) <==> FilledOne(rows[..n], pricing) || Fillable(rows[n], pricing))
  {
    assert forall i :: 0 <= i < n ==> rows[..n][i] == rows[..n + 1][i];
    assert rows[..n + 1][n] == rows[n];
    var filled := FillGaps(rows[..n], pricing);
    assert rows[..n + 1][..n] == rows[..n];
    assert (filled + [Priced(rows[n], pricing)])[..|filled|] == filled;
  }

  method BuildEntry(o: Options, pricing: Pricing) returns (entry: Entry)
    ensures entry == BuildCostEntry(o, pricing)
    ensures !entry.estimated <==>
              && !o.subscription
              && if exists s :: s in o.samples && s.cost.Some?
                 then CostEntries.NothingToEstimate(CostEntries.Merged(o), pricing) else o.totalCost.Some?
  {
    CostEntries.UnmarkedExactlyWhen(o, pricing);
    var merged := MergeByModel(o.samples, OrElse(o.model, o.fallbackModel));
    var rows := merged;
    var summed, rowCost, best := RollUp(rows);
    var estimatedRow := false;
    if rowCost.Some? {
      rows, rowCost, estimatedRow := PriceGaps(merged, rowCost, pricing);
    }
    var usage := OrElse(o.totalUsage, Some(summed)).value;
    var model := OrElse(o.model, OrElse(if best.Some? then best.value.model else None, o.fallbackModel));
    var reported := OrElse(o.totalCost, rowCost);
    if reported.Some? {
      entry := Entry(Named(model), usage, reported, o.subscription || estimatedRow, Breakdown(rows));
    } else {
      FillKeepsRows(merged, pricing);
      var estimated;
      rows, estimated, estimatedRow := PriceGaps(merged, None, pricing);
      if estimated.None? && rows == [] { estimated := pricing(usage, model); }
      entry := Entry(Named(model), usage, estimated, true, Breakdown(rows));
    }
  }

  /** Totals over all entries, and one row per model, dearest first. */
  method RollUpRun(entries: seq<Entry>) returns (summary: Summary)
    ensures summary == SummarizeCosts(entries)
  {
    var totals, byModel := NO_TOTAL, [];
    for n := 0 to |entries|
      invariant Summary(totals, byModel) == Summarize(entries[..n])
    {
      var entry := entries[n];
      assert entries[..n + 1][..n] == entries[..n];
      totals := AddTotal(totals, TotalOf(None, entry.usage, entry.cost, entry.estimated));
      ghost var before := byModel;
      var contributions := ModelContributions(entry);
      for k := 0 to |contributions|
        invariant byModel == AddContributions(before, contributions[..k])
      {
        byModel := AddContribution(byModel, contributions[k]);
        assert contributions[..k + 1][..k] == contributions[..k];
      }
      assert contributions[..|contributions|] == contributions;
    }
    assert entries[..|entries|] == entries;
    summary := Summary(totals, Ranked(byModel));
  }
}
