/**
 * What a cost entry says, field by field, in terms of the samples it was built from: one merged row
 * per model with exactly that model's samples, and from the rows the entry's model, cost, estimate
 * mark and breakdown.
 */
module CostEntries {
  import opened CostModel
  import opened CostConservation

  /** The model a sample is counted for. */
  function KeyOf(sample: Row, default: Option<string>): Option<string> {
    if sample.model.Some? then sample.model else default
  }

  /** The samples' models, each once, in the order they first appear. */
  function Keys(samples: seq<Row>, default: Option<string>): seq<Option<string>> {
    if samples == [] then []
    else
      var before := Keys(samples[..|samples| - 1], default);
      var key := KeyOf(samples[|samples| - 1], default);
      if key in before then before else before + [key]
  }

  function ModelsOf(rows: seq<Row>): seq<Option<string>> {
    seq(|rows|, i requires 0 <= i < |rows| => rows[i].model)
  }

  /** What the samples of one model sum to. */
  function SampleSum(samples: seq<Row>, default: Option<string>, key: Option<string>): Tally {
    if samples == [] then ZERO
    else
      var last := samples[|samples| - 1];
      var before := SampleSum(samples[..|samples| - 1], default, key);
      if KeyOf(last, default) == key then Add(before, UsageTally(last.usage, last.cost)) else before
  }

  /**
   * The row has its model's samples' sums; a cache counter or a cost is present exactly when one of
   * those samples has it.
   */
  predicate RowOf(row: Row, samples: seq<Row>, default: Option<string>) {
    && UsageTally(row.usage, row.cost) == SampleSum(samples, default, row.model)
    && (row.cost.Some? <==> exists s :: s in samples && KeyOf(s, default) == row.model && s.cost.Some?)
    && (row.usage.cacheRead.Some? <==>
        exists s :: s in samples && KeyOf(s, default) == row.model && s.usage.cacheRead.Some?)
    && (row.usage.cacheWrite.Some? <==>
        exists s :: s in samples && KeyOf(s, default) == row.model && s.usage.cacheWrite.Some?)
  }

  lemma {:induction false} MergeSampleLands(rows: seq<Row>, sample: Row, key: Option<string>) returns (i: nat)
    ensures i <= |rows| && (forall j :: 0 <= j < i ==> rows[j].model != key)
    ensures i == |rows| ==> MergeSample(rows, sample, key) == rows + [sample.(model := key)]
    ensures i < |rows| ==>
              rows[i].model == key
              && MergeSample(rows, sample, key)
              == rows[i := Row(key, Accumulate(rows[i].usage, sample.usage), Plus(rows[i].cost, sample.cost))]
    decreases |rows|
  {
    if rows == [] || rows[0].model == key {
      i := 0;
    } else {
      i := MergeSampleLands(rows[1..], sample, key);
      i := i + 1;
    }
  }

  lemma OtherRowStays(row: Row, samples: seq<Row>, last: Row, default: Option<string>)
    requires RowOf(row, samples, default) && row.model != KeyOf(last, default)
    ensures RowOf(row, samples + [last], default)
  {
    assert (samples + [last])[..|samples|] == samples;
    assert forall s :: s in samples + [last] <==> s in samples || s == last;
  }

  lemma OwnRowGrows(row: Row, samples: seq<Row>, last: Row, default: Option<string>)
    requires RowOf(row, samples, default) && row.model == KeyOf(last, default)
    ensures RowOf(Row(row.model, Accumulate(row.usage, last.usage), Plus(row.cost, last.cost)),
                  samples + [last], default)
  {
    assert (samples + [last])[..|samples|] == samples;
    assert last in samples + [last] && forall s :: s in samples ==> s in samples + [last];
    assert forall s :: s in samples + [last] ==> s in samples || s == last;
  }

  lemma {:induction false} NoSampleSumsToZero(samples: seq<Row>, default: Option<string>, key: Option<string>)
    requires forall s :: s in samples ==> KeyOf(s, default) != key
    ensures SampleSum(samples, default, key) == ZERO
    decreases |samples|
  {
    if samples != [] {
      assert samples[|samples| - 1] in samples;
      NoSampleSumsToZero(samples[..|samples| - 1], default, key);
    }
  }

  lemma NewRowStarts(samples: seq<Row>, last: Row, default: Option<string>)
    requires forall s :: s in samples ==> KeyOf(s, default) != KeyOf(last, default)
    ensures RowOf(last.(model := KeyOf(last, default)), samples + [last], default)
  {
    NoSampleSumsToZero(samples, default, KeyOf(last, default));
    assert (samples + [last])[..|samples|] == samples;
    assert last in samples + [last];
    assert forall s :: s in samples + [last] ==> s in samples || s == last;
  }

  predicate Distinct(keys: seq<Option<string>>) {
    forall i, j :: 0 <= i < j < |keys| ==> keys[i] != keys[j]
  }

  lemma {:induction false} KeysMembers(samples: seq<Row>, default: Option<string>)
    ensures forall key :: key in Keys(samples, default) <==> exists s :: s in samples && KeyOf(s, default) == key
    ensures Distinct(Keys(samples, default))
    decreases |samples|
  {
    if samples != [] {
      var before, last := samples[..|samples| - 1], samples[|samples| - 1];
      assert samples == before + [last];
      KeysMembers(before, default);
      assert forall s :: s in samples <==> s in before || s == last;
    }
  }

  /**
   * Merging: one row for every model the samples name, in the order the models first appear, and each
   * row is exactly its model's samples.
   */
  lemma {:induction false} MergedRowsAreTheirModels(samples: seq<Row>, default: Option<string>)
    ensures ModelsOf(MergeSamples(samples, default)) == Keys(samples, default)
    ensures forall row :: row in MergeSamples(samples, default) ==> RowOf(row, samples, default)
    decreases |samples|
  {
    if samples != [] {
      var before, last := samples[..|samples| - 1], samples[|samples| - 1];
      assert samples == before + [last];
      MergedRowsAreTheirModels(before, default);
      MergeOneMore(MergeSamples(before, default), before, last, default);
    }
  }

  lemma MergeOneMore(rows: seq<Row>, samples: seq<Row>, last: Row, default: Option<string>)
    requires ModelsOf(rows) == Keys(samples, default) && forall row :: row in rows ==> RowOf(row, samples, default)
    ensures var merged := MergeSample(rows, last, KeyOf(last, default));
            && ModelsOf(merged) == Keys(samples + [last], default)
            && forall row :: row in merged ==> RowOf(row, samples + [last], default)
  {
    var key := KeyOf(last, default);
    var i := MergeSampleLands(rows, last, key);
    var merged := MergeSample(rows, last, key);
    KeysMembers(samples, default);
    assert (samples + [last])[..|samples|] == samples;
    assert forall k :: 0 <= k < |rows| ==> ModelsOf(rows)[k] == rows[k].model;
    if i == |rows| {
      assert key !in Keys(samples, default);
      assert ModelsOf(merged) == ModelsOf(rows) + [key];
    } else {
      assert ModelsOf(rows)[i] == key;
      assert ModelsOf(merged) == ModelsOf(rows);
    }
    forall k | 0 <= k < |merged| ensures RowOf(merged[k], samples + [last], default) {
      if k == |rows| {
        NewRowStarts(samples, last, default);
      } else if k == i {
        assert rows[k] in rows;
        OwnRowGrows(rows[k], samples, last, default);
      } else {
        assert rows[k] in rows && ModelsOf(rows)[k] == rows[k].model;
        assert i < |rows| ==> ModelsOf(rows)[i] == key;
        OtherRowStays(rows[k], samples, last, default);
      }
    }
  }

  // ---------------------------------------------------------------- the entry

  /** The rows an entry's samples merge into. */
  function Merged(o: Options): seq<Row> {
    MergeSamples(o.samples, if o.model.Some? then o.model else o.fallbackModel)
  }

  lemma MergedIsPriced(o: Options)
    ensures SumCost(Merged(o)).Some? <==> exists s :: s in o.samples && s.cost.Some?
    ensures Merged(o) == [] <==> o.samples == []
  {
    var default := if o.model.Some? then o.model else o.fallbackModel;
    var merged := Merged(o);
    MergedRowsAreTheirModels(o.samples, default);
    KeysMembers(o.samples, default);
    NoneSumsToNone(merged);
    assert |ModelsOf(merged)| == |merged|;
    if s :| s in o.samples && s.cost.Some? {
      assert KeyOf(s, default) in Keys(o.samples, default);
      var k :| 0 <= k < |merged| && ModelsOf(merged)[k] == KeyOf(s, default);
      assert merged[k] in merged && RowOf(merged[k], o.samples, default);
    }
    if o.samples != [] {
      assert o.samples[0] in o.samples && KeyOf(o.samples[0], default) in Keys(o.samples, default);
    }
  }

  /** Every row has a price of its own, or the table has none for it. */
  predicate NothingToEstimate(rows: seq<Row>, pricing: Pricing) {
    forall row :: row in rows ==> row.cost.Some? || pricing(row.usage, row.model).None?
  }

  /**
   * The estimate mark, exactly: an entry is unmarked if and only if it is not a subscription's, and
   * either some sample carries a cost and no row of its models had to be priced from the table, or no
   * sample does and the provider gave a total. Then the cost is the provider's total, else the sum of
   * the samples' own costs.
   */
  lemma UnmarkedExactlyWhen(o: Options, pricing: Pricing)
    ensures var e := BuildCostEntry(o, pricing);
            && (!e.estimated <==>
                  && !o.subscription
                  && if exists s :: s in o.samples && s.cost.Some? then NothingToEstimate(Merged(o), pricing)
                     else o.totalCost.Some?)
            && (!e.estimated ==>
                  e.cost.Some? && e.cost.value == if o.totalCost.Some? then o.totalCost.value
                                                  else SumRows(o.samples).cost)
  {
    MergedIsPriced(o);
    UnmarkedCostIsReported(o, pricing);
    FillableIsToEstimate(Merged(o), pricing);
    PricedStaysPriced(Merged(o), pricing);
  }

  /** Pricing takes no cost away. */
  lemma PricedStaysPriced(rows: seq<Row>, pricing: Pricing)
    ensures SumCost(rows).Some? ==> SumCost(FillGaps(rows, pricing)).Some?
  {
    FilledSum(rows, pricing);
    NoneSumsToNone(rows);
    assert forall row :: row in rows && row.cost.Some? ==> PriceOf(row, pricing).Some?;
  }

  lemma FillableIsToEstimate(rows: seq<Row>, pricing: Pricing)
    ensures FilledOne(rows, pricing) <==> !NothingToEstimate(rows, pricing)
  {
    if FilledOne(rows, pricing) {
      var i :| 0 <= i < |rows| && Fillable(rows[i], pricing);
      assert rows[i] in rows;
    }
    if !NothingToEstimate(rows, pricing) {
      var row :| row in rows && !(row.cost.Some? || pricing(row.usage, row.model).None?);
      var i :| 0 <= i < |rows| && rows[i] == row;
      assert Fillable(rows[i], pricing);
    }
  }

  /** A row's own cost, else the table's. */
  function PriceOf(row: Row, pricing: Pricing): Option<nat> {
    if row.cost.Some? then row.cost else pricing(row.usage, row.model)
  }

  function PriceSum(rows: seq<Row>, pricing: Pricing): nat {
    if rows == [] then 0
    else PriceSum(rows[..|rows| - 1], pricing)
         + (match PriceOf(rows[|rows| - 1], pricing) case Some(cost) => cost case None => 0)
  }

  lemma {:induction false} FilledSum(rows: seq<Row>, pricing: Pricing)
    ensures Or(SumCost(FillGaps(rows, pricing)), 0) == PriceSum(rows, pricing)
    ensures SumCost(FillGaps(rows, pricing)).Some? <==> exists row :: row in rows && PriceOf(row, pricing).Some?
    ensures |FillGaps(rows, pricing)| == |rows|
    ensures forall i :: 0 <= i < |rows| ==> FillGaps(rows, pricing)[i] == rows[i].(cost := PriceOf(rows[i], pricing))
    decreases |rows|
  {
    if rows != [] {
      var before, last := rows[..|rows| - 1], rows[|rows| - 1];
      assert rows == before + [last];
      FilledSum(before, pricing);
      var filled := FillGaps(rows, pricing);
      assert filled[..|filled| - 1] == FillGaps(before, pricing);
      assert forall row :: row in rows <==> row in before || row == last;
    }
  }

  /**
   * The cost, by precedence: the provider's total; else what the rows of the models cost, each its
   * own figure or the table's; else, without any sample, the table's for the whole entry.
   */
  lemma EntryCostIs(o: Options, pricing: Pricing)
    ensures var e := BuildCostEntry(o, pricing); var merged := Merged(o);
            && (o.totalCost.Some? ==> e.cost == o.totalCost)
            && (o.totalCost.None? && o.samples != [] ==>
                  && (e.cost.Some? <==> exists row :: row in merged && PriceOf(row, pricing).Some?)
                  && (e.cost.Some? ==> e.cost.value == PriceSum(merged, pricing)))
            && (o.totalCost.None? && o.samples == [] ==>
                  e.cost == pricing(e.usage, if o.model.Some? then o.model else o.fallbackModel))
  {
    MergedIsPriced(o);
    FilledSum(Merged(o), pricing);
  }

  /**
   * The usage: the provider's totals, else the samples' sums, a cache counter being present exactly
   * when a sample has it.
   */
  lemma EntryUsageIs(o: Options, pricing: Pricing)
    ensures var e := BuildCostEntry(o, pricing);
            && (o.totalUsage.Some? ==> e.usage == o.totalUsage.value)
            && (o.totalUsage.None? ==>
                  && SameTokens(EntryTally(e), SumRows(o.samples))
                  && (e.usage.cacheRead.Some? <==> exists s :: s in o.samples && s.usage.cacheRead.Some?)
                  && (e.usage.cacheWrite.Some? <==> exists s :: s in o.samples && s.usage.cacheWrite.Some?))
  {
    if o.totalUsage.None? {
      EntryConservesSamples(o, pricing);
      SumHasCounters(Merged(o));
      MergedHasCounters(o);
    }
  }

  lemma {:induction false} SumHasCounters(rows: seq<Row>)
    ensures SumUsage(rows).cacheRead.Some? <==> exists r :: r in rows && r.usage.cacheRead.Some?
    ensures SumUsage(rows).cacheWrite.Some? <==> exists r :: r in rows && r.usage.cacheWrite.Some?
    decreases |rows|
  {
    if rows != [] {
      var before, last := rows[..|rows| - 1], rows[|rows| - 1];
      assert rows == before + [last];
      SumHasCounters(before);
      assert forall r :: r in rows <==> r in before || r == last;
    }
  }

  lemma MergedHasCounters(o: Options)
    ensures (exists r :: r in Merged(o) && r.usage.cacheRead.Some?) <==>
            exists s :: s in o.samples && s.usage.cacheRead.Some?
    ensures (exists r :: r in Merged(o) && r.usage.cacheWrite.Some?) <==>
            exists s :: s in o.samples && s.usage.cacheWrite.Some?
  {
    var default := if o.model.Some? then o.model else o.fallbackModel;
    var merged := Merged(o);
    MergedRowsAreTheirModels(o.samples, default);
    KeysMembers(o.samples, default);
    forall s | s in o.samples
      ensures exists r :: r in merged && r.model == KeyOf(s, default) && RowOf(r, o.samples, default) {
      assert KeyOf(s, default) in ModelsOf(merged);
      var k :| 0 <= k < |merged| && ModelsOf(merged)[k] == KeyOf(s, default);
      assert merged[k] in merged;
    }
  }

  // ---------------------------------------------------------------- the model an entry is named after

  /** No row is dearer, or larger while none has a cost, and every earlier one is cheaper, or smaller. */
  predicate FirstBest(rows: seq<Row>, k: nat) {
    && k < |rows|
    && if exists row :: row in rows && row.cost.Some?
       then && rows[k].cost.Some?
            && (forall j :: 0 <= j < |rows| && rows[j].cost.Some? ==> rows[j].cost.value <= rows[k].cost.value)
            && (forall j :: 0 <= j < k && rows[j].cost.Some? ==> rows[j].cost.value < rows[k].cost.value)
       else && (forall j :: 0 <= j < |rows| ==>
                  rows[j].usage.input + rows[j].usage.output <= rows[k].usage.input + rows[k].usage.output)
            && (forall j :: 0 <= j < k ==>
                  rows[j].usage.input + rows[j].usage.output < rows[k].usage.input + rows[k].usage.output)
  }

  lemma {:induction false} BestRowIsFirstBest(rows: seq<Row>) returns (k: nat)
    requires rows != []
    ensures FirstBest(rows, k) && BestRow(rows) == Some(rows[k])
    decreases |rows|
  {
    var before, last := rows[..|rows| - 1], rows[|rows| - 1];
    assert rows == before + [last];
    assert forall row :: row in rows <==> row in before || row == last;
    k := 0;
    if before != [] {
      k := BestRowIsFirstBest(before);
      assert rows[k] == before[k] && rows[k] in rows;
      if Better(last, before[k]) { k := |before|; }
    }
    assert rows[|before|] == last && last in rows;
  }

  /** An empty name is no name. */
  predicate IsNamed(model: Option<string>, from: Option<string>) {
    if from == Some("") then model.None? else model == from
  }

  /**
   * The entry's model: the execution's own, else that of the first dearest row, or of the first
   * largest when no row has a cost, else the fallback.
   */
  lemma EntryModelIs(o: Options, pricing: Pricing) returns (k: nat)
    ensures var e := BuildCostEntry(o, pricing); var merged := Merged(o);
            if o.model.Some? then IsNamed(e.model, o.model)
            else if o.samples == [] then IsNamed(e.model, o.fallbackModel)
            else FirstBest(merged, k)
                 && IsNamed(e.model, if merged[k].model.Some? then merged[k].model else o.fallbackModel)
  {
    k := 0;
    MergedIsPriced(o);
    if o.samples != [] { k := BestRowIsFirstBest(Merged(o)); }
  }

  // ---------------------------------------------------------------- the breakdown

  /** An entry has a breakdown if and only if its samples are of at least two models and each has a model. */
  lemma BreakdownExactlyWhen(o: Options, pricing: Pricing)
    ensures var e := BuildCostEntry(o, pricing);
            var default := if o.model.Some? then o.model else o.fallbackModel;
            e.breakdown != [] <==>
              && (forall s :: s in o.samples ==> KeyOf(s, default).Some?)
              && exists s, t :: s in o.samples && t in o.samples && KeyOf(s, default) != KeyOf(t, default)
  {
    var default := if o.model.Some? then o.model else o.fallbackModel;
    BrokenDownByRows(o, pricing);
    MergedModelsAreTheSamples(o.samples, default);
    EnoughModels(o.samples, default);
  }

  lemma BrokenDownByRows(o: Options, pricing: Pricing)
    ensures BuildCostEntry(o, pricing).breakdown != [] <==> |Merged(o)| >= 2 && AllNamed(Merged(o))
  {
    BuiltFromRows(o, pricing);
    FillKeepsRows(Merged(o), pricing);
    SameModelsSameBreakdown(Merged(o), RowsOf(o, pricing));
  }

  predicate AllNamed(rows: seq<Row>) {
    forall i :: 0 <= i < |rows| ==> rows[i].model.Some?
  }

  /**
   * A breakdown is one row per model, with that model's usage, and with its own cost or, unless the
   * provider's total is the only cost there is, the table's.
   */
  lemma BreakdownRowsAre(o: Options, pricing: Pricing)
    ensures var e := BuildCostEntry(o, pricing); var merged := Merged(o);
            e.breakdown != [] ==>
              && |e.breakdown| == |merged|
              && forall i :: 0 <= i < |merged| ==>
                   e.breakdown[i] == merged[i].(cost :=
                     if o.totalCost.None? || exists s :: s in o.samples && s.cost.Some?
                     then PriceOf(merged[i], pricing) else merged[i].cost)
  {
    BuiltFromRows(o, pricing);
    MergedIsPriced(o);
    FilledSum(Merged(o), pricing);
  }

  lemma SameModelsSameBreakdown(a: seq<Row>, b: seq<Row>)
    requires |a| == |b| && forall i :: 0 <= i < |a| ==> a[i].model == b[i].model
    ensures Breakdown(a) != [] <==> |a| >= 2 && AllNamed(a)
    ensures Breakdown(b) != [] <==> Breakdown(a) != []
    ensures Breakdown(a) in {[], a} && Breakdown(b) in {[], b}
  {
  }

  lemma MergedModelsAreTheSamples(samples: seq<Row>, default: Option<string>)
    ensures var merged := MergeSamples(samples, default);
            AllNamed(merged) <==>
              forall s :: s in samples ==> KeyOf(s, default).Some?
  {
    var merged := MergeSamples(samples, default);
    MergedRowsAreTheirModels(samples, default);
    KeysMembers(samples, default);
    var keys := Keys(samples, default);
    assert |keys| == |merged| && forall i :: 0 <= i < |merged| ==> keys[i] == merged[i].model;
    if AllNamed(merged) {
      forall s | s in samples ensures KeyOf(s, default).Some? {
        assert KeyOf(s, default) in keys;
      }
    } else {
      var i :| 0 <= i < |merged| && merged[i].model.None?;
      assert keys[i] in keys;
    }
  }

  lemma EnoughModels(samples: seq<Row>, default: Option<string>)
    ensures |MergeSamples(samples, default)| >= 2 <==>
              exists s, t :: s in samples && t in samples && KeyOf(s, default) != KeyOf(t, default)
  {
    MergedRowsAreTheirModels(samples, default);
    KeysMembers(samples, default);
    var keys := Keys(samples, default);
    assert |keys| == |MergeSamples(samples, default)|;
    if |keys| >= 2 {
      assert keys[0] in keys && keys[1] in keys && keys[0] != keys[1];
      var s :| s in samples && KeyOf(s, default) == keys[0];
      var t :| t in samples && KeyOf(t, default) == keys[1];
    }
    if s, t :| s in samples && t in samples && KeyOf(s, default) != KeyOf(t, default) {
      assert KeyOf(s, default) in keys && KeyOf(t, default) in keys;
      var i :| 0 <= i < |keys| && keys[i] == KeyOf(s, default);
      var j :| 0 <= j < |keys| && keys[j] == KeyOf(t, default);
    }
  }
}
