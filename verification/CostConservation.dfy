/** Nothing is lost or counted twice between samples, entries, per-model rows and run totals. */
module CostConservation {
  import opened CostModel

  /** The five counters, an absent one counting zero. */
  datatype Tally = Tally(input: nat, output: nat, cacheRead: nat, cacheWrite: nat, cost: nat)

  const ZERO: Tally := Tally(0, 0, 0, 0, 0)

  function Add(a: Tally, b: Tally): Tally {
    Tally(a.input + b.input, a.output + b.output, a.cacheRead + b.cacheRead, a.cacheWrite + b.cacheWrite,
        a.cost + b.cost)
  }

  function UsageTally(u: Usage, cost: Option<nat>): Tally {
    Tally(u.input, u.output, Or(u.cacheRead, 0), Or(u.cacheWrite, 0), Or(cost, 0))
  }

  function TotalTally(t: Total): Tally {
    Tally(t.input, t.output, t.cacheRead, t.cacheWrite, Or(t.cost, 0))
  }

  function SumTotals(cs: seq<Total>): Tally {
    if cs == [] then ZERO else Add(TotalTally(cs[0]), SumTotals(cs[1..]))
  }

  function SumRows(rows: seq<Row>): Tally {
    if rows == [] then ZERO else Add(UsageTally(rows[0].usage, rows[0].cost), SumRows(rows[1..]))
  }

  function EntryTally(e: Entry): Tally {
    UsageTally(e.usage, e.cost)
  }

  predicate SameTokens(a: Tally, b: Tally) {
    a.(cost := 0) == b.(cost := 0)
  }

  // ---------------------------------------------------------------- sums over sequences

  lemma {:induction false} SumTotalsConcat(a: seq<Total>, b: seq<Total>)
    ensures SumTotals(a + b) == Add(SumTotals(a), SumTotals(b))
    decreases |a|
  {
    if a == [] {
      assert a + b == b;
    } else {
      assert (a + b)[0] == a[0] && (a + b)[1..] == a[1..] + b;
      SumTotalsConcat(a[1..], b);
    }
  }

  lemma {:induction false} SumRowsConcat(a: seq<Row>, b: seq<Row>)
    ensures SumRows(a + b) == Add(SumRows(a), SumRows(b))
    decreases |a|
  {
    if a == [] {
      assert a + b == b;
    } else {
      assert (a + b)[0] == a[0] && (a + b)[1..] == a[1..] + b;
      SumRowsConcat(a[1..], b);
    }
  }

  /** Peeling the last row off. */
  lemma SumRowsLast(rows: seq<Row>)
    requires rows != []
    ensures var last := rows[|rows| - 1];
            SumRows(rows) == Add(SumRows(rows[..|rows| - 1]), UsageTally(last.usage, last.cost))
  {
    var last := rows[|rows| - 1];
    assert rows == rows[..|rows| - 1] + [last];
    SumRowsConcat(rows[..|rows| - 1], [last]);
    assert [last][1..] == [];
  }

  lemma SumTotalsLast(cs: seq<Total>)
    requires cs != []
    ensures SumTotals(cs) == Add(SumTotals(cs[..|cs| - 1]), TotalTally(cs[|cs| - 1]))
  {
    assert cs == cs[..|cs| - 1] + [cs[|cs| - 1]];
    SumTotalsConcat(cs[..|cs| - 1], [cs[|cs| - 1]]);
    assert [cs[|cs| - 1]][1..] == [];
  }

  // ---------------------------------------------------------------- samples into rows

  lemma {:induction false} MergeSampleAdds(rows: seq<Row>, sample: Row, key: Option<string>)
    ensures SumRows(MergeSample(rows, sample, key)) == Add(SumRows(rows), UsageTally(sample.usage, sample.cost))
    decreases |rows|
  {
    if rows == [] {
      assert [sample.(model := key)][1..] == [];
    } else if rows[0].model == key {
      assert MergeSample(rows, sample, key)[1..] == rows[1..];
    } else {
      assert MergeSample(rows, sample, key)[1..] == MergeSample(rows[1..], sample, key);
      MergeSampleAdds(rows[1..], sample, key);
    }
  }

  /** Merging per model keeps every token and every reported cost of the samples. */
  lemma {:induction false} MergeConserves(samples: seq<Row>, default: Option<string>)
    ensures SumRows(MergeSamples(samples, default)) == SumRows(samples)
    decreases |samples|
  {
    if samples != [] {
      var last := samples[|samples| - 1];
      MergeConserves(samples[..|samples| - 1], default);
      MergeSampleAdds(MergeSamples(samples[..|samples| - 1], default), last, OrElse(last.model, default));
      SumRowsLast(samples);
    }
  }

  predicate DistinctModels(rows: seq<Row>) {
    forall i, j :: 0 <= i < j < |rows| ==> rows[i].model != rows[j].model
  }

  lemma {:induction false} MergeSampleModels(rows: seq<Row>, sample: Row, key: Option<string>)
    ensures forall r :: r in MergeSample(rows, sample, key) ==>
              r.model == key || exists q :: q in rows && q.model == r.model
    ensures DistinctModels(rows) ==> DistinctModels(MergeSample(rows, sample, key))
    decreases |rows|
  {
    if rows != [] && rows[0].model != key {
      MergeSampleModels(rows[1..], sample, key);
      assert rows == [rows[0]] + rows[1..];
      var rest := MergeSample(rows[1..], sample, key);
      assert MergeSample(rows, sample, key) == [rows[0]] + rest;
      if DistinctModels(rows) {
        assert DistinctModels(rows[1..]);
        assert forall q :: q in rows[1..] ==> q.model != rows[0].model;
      }
    } else if rows != [] {
      var merged := MergeSample(rows, sample, key);
      assert forall i :: 0 < i < |rows| ==> merged[i] == rows[i];
      assert rows[0] in rows;
    }
  }

  /** One row per model. */
  lemma {:induction false} MergeHasOneRowPerModel(samples: seq<Row>, default: Option<string>)
    ensures DistinctModels(MergeSamples(samples, default))
    decreases |samples|
  {
    if samples != [] {
      var last := samples[|samples| - 1];
      MergeHasOneRowPerModel(samples[..|samples| - 1], default);
      MergeSampleModels(MergeSamples(samples[..|samples| - 1], default), last, OrElse(last.model, default));
    }
  }

  lemma {:induction false} SumsAgree(rows: seq<Row>)
    ensures UsageTally(SumUsage(rows), SumCost(rows)) == SumRows(rows)
    decreases |rows|
  {
    if rows != [] {
      SumsAgree(rows[..|rows| - 1]);
      SumRowsLast(rows);
    }
  }

  /** Pricing touches costs only. */
  lemma {:induction false} FillKeepsRows(rows: seq<Row>, pricing: Pricing)
    ensures |FillGaps(rows, pricing)| == |rows|
    ensures forall i :: 0 <= i < |rows| ==>
              FillGaps(rows, pricing)[i].model == rows[i].model && FillGaps(rows, pricing)[i].usage == rows[i].usage
    decreases |rows|
  {
    if rows != [] { FillKeepsRows(rows[..|rows| - 1], pricing); }
  }

  lemma {:induction false} SameUsageSameSums(a: seq<Row>, b: seq<Row>)
    requires |a| == |b| && forall i :: 0 <= i < |a| ==> a[i].usage == b[i].usage
    ensures SumUsage(a) == SumUsage(b)
    decreases |a|
  {
    if a != [] { SameUsageSameSums(a[..|a| - 1], b[..|b| - 1]); }
  }

  lemma {:induction false} SameUsageSameTokens(a: seq<Row>, b: seq<Row>)
    requires |a| == |b| && forall i :: 0 <= i < |a| ==> a[i].usage == b[i].usage
    ensures SameTokens(SumRows(a), SumRows(b))
    decreases |a|
  {
    if a != [] { SameUsageSameTokens(a[1..], b[1..]); }
  }

  lemma FillKeepsTokens(rows: seq<Row>, pricing: Pricing)
    ensures SameTokens(SumRows(FillGaps(rows, pricing)), SumRows(rows))
    ensures SumUsage(FillGaps(rows, pricing)) == SumUsage(rows)
  {
    FillKeepsRows(rows, pricing);
    SameUsageSameSums(FillGaps(rows, pricing), rows);
    SameUsageSameTokens(FillGaps(rows, pricing), rows);
  }

  // ---------------------------------------------------------------- one entry

  /** The rows an entry was built from, priced as the entry prices them. */
  function RowsOf(o: Options, pricing: Pricing): seq<Row> {
    var merged := MergeSamples(o.samples, OrElse(o.model, o.fallbackModel));
    if SumCost(merged).Some? || o.totalCost.None? then FillGaps(merged, pricing) else merged
  }

  lemma {:induction false} RowTotalsSum(rows: seq<Row>, estimated: bool)
    ensures SumTotals(RowTotals(rows, estimated)) == SumRows(rows)
    decreases |rows|
  {
    if rows != [] {
      assert RowTotals(rows, estimated)[1..] == RowTotals(rows[1..], estimated);
      RowTotalsSum(rows[1..], estimated);
    }
  }

  lemma {:induction false} NoCostSumsToZero(cs: seq<Total>)
    requires !HasCost(cs)
    ensures SumTotals(cs).cost == 0
    decreases |cs|
  {
    if cs != [] {
      assert cs[0].cost.None?;
      NoCostSumsToZero(cs[1..]);
    }
  }

  /** Putting the whole cost on one row adds exactly that cost. */
  lemma AttributionAddsTheCost(cs: seq<Total>, i: nat, cost: Option<nat>)
    requires i < |cs| && !HasCost(cs)
    ensures SumTotals(cs[i := cs[i].(cost := cost)]) == SumTotals(cs).(cost := Or(cost, 0))
  {
    var c := cs[i].(cost := cost);
    assert cs == cs[..i] + ([cs[i]] + cs[i + 1..]);
    assert cs[i := c] == cs[..i] + ([c] + cs[i + 1..]);
    SumTotalsConcat(cs[..i], [cs[i]] + cs[i + 1..]);
    SumTotalsConcat(cs[..i], [c] + cs[i + 1..]);
    assert ([cs[i]] + cs[i + 1..])[1..] == cs[i + 1..] == ([c] + cs[i + 1..])[1..];
    NoCostSumsToZero(cs);
    assert cs[i].cost.None?;
  }

  /**
   * What an entry contributes: its own figures without a breakdown, else its rows, with a session cost
   * put on one of them.
   */
  lemma ContributionsSum(e: Entry)
    ensures e.breakdown == [] ==> SumTotals(ModelContributions(e)) == EntryTally(e)
    ensures e.breakdown != [] ==>
              SumTotals(ModelContributions(e))
              == if HasCost(RowTotals(e.breakdown, e.estimated)) then SumRows(e.breakdown)
                 else SumRows(e.breakdown).(cost := Or(e.cost, 0))
  {
    var cs := RowTotals(e.breakdown, e.estimated);
    RowTotalsSum(e.breakdown, e.estimated);
    if e.breakdown == [] {
      assert ModelContributions(e)[1..] == [];
    } else if !HasCost(cs) {
      NoCostSumsToZero(cs);
      if e.cost.Some? { AttributionAddsTheCost(cs, CostTarget(cs, e.model), e.cost); }
    }
  }

  lemma {:induction false} NoCostMeansNone(rows: seq<Row>, estimated: bool)
    ensures SumCost(rows).Some? <==> HasCost(RowTotals(rows, estimated))
    decreases |rows|
  {
    var cs := RowTotals(rows, estimated);
    if rows != [] {
      var last := |rows| - 1;
      NoCostMeansNone(rows[..last], estimated);
      assert RowTotals(rows[..last], estimated) == cs[..last];
      if HasCost(cs[..last]) {
        var i :| 0 <= i < last && cs[..last][i].cost.Some?;
        assert cs[i].cost.Some?;
      }
      if HasCost(cs) {
        var i :| 0 <= i < |cs| && cs[i].cost.Some?;
        assert i < last ==> cs[..last][i].cost.Some?;
      }
      assert rows[last].cost.Some? ==> cs[last].cost.Some?;
    }
  }

  lemma BuiltFromRows(o: Options, pricing: Pricing)
    ensures var e := BuildCostEntry(o, pricing); var rows := RowsOf(o, pricing);
            && e.breakdown == Breakdown(rows)
            && (o.totalUsage.None? ==> e.usage == SumUsage(rows))
            && (o.totalUsage.Some? ==> e.usage == o.totalUsage.value)
            && (o.totalCost.Some? ==> e.cost == o.totalCost)
            && (o.totalCost.None? && rows != [] ==> e.cost == SumCost(rows))
  {
    FillKeepsTokens(MergeSamples(o.samples, OrElse(o.model, o.fallbackModel)), pricing);
  }

  /** An entry's tokens are the sum of its samples' whenever the provider gave no totals of its own. */
  lemma EntryConservesSamples(o: Options, pricing: Pricing)
    requires o.totalUsage.None?
    ensures SameTokens(EntryTally(BuildCostEntry(o, pricing)), SumRows(o.samples))
  {
    var default := OrElse(o.model, o.fallbackModel);
    var merged := MergeSamples(o.samples, default);
    MergeConserves(o.samples, default);
    FillKeepsTokens(merged, pricing);
    SumsAgree(merged);
    SumsAgree(RowsOf(o, pricing));
  }

  /**
   * Tokens: an entry's per-model contributions sum to the entry exactly when it has no breakdown,
   * the provider gave no totals, or its totals are what the rows sum to.
   */
  lemma ContributionsConserveTokens(o: Options, pricing: Pricing)
    ensures var e := BuildCostEntry(o, pricing); var rows := RowsOf(o, pricing);
            SameTokens(SumTotals(ModelContributions(e)), EntryTally(e)) <==>
              || Breakdown(rows) == []
              || o.totalUsage.None?
              || SameTokens(UsageTally(o.totalUsage.value, None), SumRows(rows))
  {
    BuiltFromRows(o, pricing);
    ContributionsSum(BuildCostEntry(o, pricing));
    SumsAgree(RowsOf(o, pricing));
  }

  /**
   * Costs: the contributions sum to the entry's cost exactly when it has no breakdown, the provider
   * gave no total cost, no row has a cost of its own, or the total is what the rows sum to. This
   * covers the one-row attribution and the rows priced from the table.
   */
  lemma ContributionsConserveCost(o: Options, pricing: Pricing)
    ensures var e := BuildCostEntry(o, pricing); var rows := RowsOf(o, pricing);
            SumTotals(ModelContributions(e)).cost == Or(e.cost, 0) <==>
              || Breakdown(rows) == []
              || o.totalCost.None?
              || SumCost(rows).None?
              || o.totalCost == SumCost(rows)
  {
    var e := BuildCostEntry(o, pricing);
    var rows := RowsOf(o, pricing);
    BuiltFromRows(o, pricing);
    ContributionsSum(e);
    SumsAgree(rows);
    NoCostMeansNone(rows, e.estimated);
  }

  lemma {:induction false} NothingFilledNothingChanged(rows: seq<Row>, pricing: Pricing)
    requires !FilledOne(rows, pricing)
    ensures FillGaps(rows, pricing) == rows
    decreases |rows|
  {
    if rows != [] {
      var before, last := rows[..|rows| - 1], rows[|rows| - 1];
      assert !Fillable(last, pricing) && Priced(last, pricing) == last;
      assert forall i :: 0 <= i < |before| ==> before[i] == rows[i];
      NothingFilledNothingChanged(before, pricing);
      assert rows == before + [last];
    }
  }

  /**
   * A cost not marked as an estimate is exactly what was reported: the provider's total, else the sum
   * of the samples' own costs.
   */
  lemma UnmarkedCostIsReported(o: Options, pricing: Pricing)
    ensures var e := BuildCostEntry(o, pricing);
            !e.estimated ==>
              && !o.subscription && e.cost.Some?
              && e.cost.value == if o.totalCost.Some? then o.totalCost.value else SumRows(o.samples).cost
  {
    var default := OrElse(o.model, o.fallbackModel);
    var merged := MergeSamples(o.samples, default);
    MergeConserves(o.samples, default);
    SumsAgree(merged);
    if !FilledOne(merged, pricing) { NothingFilledNothingChanged(merged, pricing); }
  }

  /** The row whose model the entry takes is the dearest when any row has a cost, else the one with the most tokens. */
  lemma {:induction false} BestRowIsDearest(rows: seq<Row>)
    requires rows != []
    ensures BestRow(rows).Some? && BestRow(rows).value in rows
    ensures var best := BestRow(rows).value;
            if exists row :: row in rows && row.cost.Some?
            then best.cost.Some? && forall row :: row in rows && row.cost.Some? ==> row.cost.value <= best.cost.value
            else forall row :: row in rows ==> Tokens(row.usage) <= Tokens(best.usage)
    decreases |rows|
  {
    var before, last := rows[..|rows| - 1], rows[|rows| - 1];
    assert rows == before + [last];
    if before != [] { BestRowIsDearest(before); }
  }

  /** A session cost goes to the entry's own model when it has a row, else to a row with the most tokens. */
  lemma {:induction false} MostTokensIsMost(cs: seq<Total>)
    requires cs != []
    ensures forall c :: c in cs ==> c.input + c.output <= cs[IndexOfMost(cs)].input + cs[IndexOfMost(cs)].output
    decreases |cs|
  {
    if |cs| > 1 {
      MostTokensIsMost(cs[..|cs| - 1]);
      assert cs == cs[..|cs| - 1] + [cs[|cs| - 1]];
    }
  }

  // ---------------------------------------------------------------- the run

  lemma {:induction false} AddContributionAdds(byModel: seq<Total>, c: Total)
    ensures SumTotals(AddContribution(byModel, c)) == Add(SumTotals(byModel), TotalTally(c))
    decreases |byModel|
  {
    if byModel == [] {
      assert [c][1..] == [];
    } else if byModel[0].model == c.model {
      assert AddContribution(byModel, c)[1..] == byModel[1..];
    } else {
      assert AddContribution(byModel, c)[1..] == AddContribution(byModel[1..], c);
      AddContributionAdds(byModel[1..], c);
    }
  }

  /** Adding a list of contributions adds their sum. */
  lemma {:induction false} AddContributionsAdd(byModel: seq<Total>, cs: seq<Total>, grown: seq<Total>)
    requires grown == AddContributions(byModel, cs)
    ensures SumTotals(grown) == Add(SumTotals(byModel), SumTotals(cs))
    decreases |cs|
  {
    if cs == [] {
      assert grown == byModel && SumTotals(cs) == ZERO;
    } else {
      var before := AddContributions(byModel, cs[..|cs| - 1]);
      AddContributionsAdd(byModel, cs[..|cs| - 1], before);
      OneMoreAdds(byModel, cs, before, grown);
    }
  }

  lemma OneMoreAdds(byModel: seq<Total>, cs: seq<Total>, before: seq<Total>, grown: seq<Total>)
    requires cs != [] && grown == AddContribution(before, cs[|cs| - 1])
    requires SumTotals(before) == Add(SumTotals(byModel), SumTotals(cs[..|cs| - 1]))
    ensures SumTotals(grown) == Add(SumTotals(byModel), SumTotals(cs))
  {
    AddContributionAdds(before, cs[|cs| - 1]);
    SumTotalsLast(cs);
    AddIsAssociative(SumTotals(byModel), SumTotals(cs[..|cs| - 1]), TotalTally(cs[|cs| - 1]));
  }

  lemma AddIsAssociative(a: Tally, b: Tally, c: Tally)
    ensures Add(Add(a, b), c) == Add(a, Add(b, c))
  {}

  lemma {:induction false} InsertRankedAdds(row: Total, ranked: seq<Total>)
    ensures SumTotals(InsertRanked(row, ranked)) == Add(TotalTally(row), SumTotals(ranked))
    decreases |ranked|
  {
    if ranked == [] {
      assert [row][1..] == [];
    } else if RanksBefore(ranked[0], row) {
      assert InsertRanked(row, ranked)[1..] == InsertRanked(row, ranked[1..]);
      InsertRankedAdds(row, ranked[1..]);
    } else {
      assert InsertRanked(row, ranked)[1..] == ranked;
    }
  }

  lemma {:induction false} InsertRankedPermutes(row: Total, ranked: seq<Total>)
    ensures multiset(InsertRanked(row, ranked)) == multiset{row} + multiset(ranked)
    decreases |ranked|
  {
    if ranked != [] && RanksBefore(ranked[0], row) {
      InsertRankedPermutes(row, ranked[1..]);
      assert ranked == [ranked[0]] + ranked[1..];
    }
  }

  lemma {:induction false} RankingSums(rows: seq<Total>)
    ensures SumTotals(Ranked(rows)) == SumTotals(rows)
    decreases |rows|
  {
    if rows != [] {
      RankingSums(rows[..|rows| - 1]);
      InsertRankedAdds(rows[|rows| - 1], Ranked(rows[..|rows| - 1]));
      SumTotalsLast(rows);
    }
  }

  /** Ordering the rows only permutes them. */
  lemma {:induction false} RankingPermutes(rows: seq<Total>)
    ensures multiset(Ranked(rows)) == multiset(rows)
    decreases |rows|
  {
    if rows != [] {
      var before, last := rows[..|rows| - 1], rows[|rows| - 1];
      RankingPermutes(before);
      InsertRankedPermutes(last, Ranked(before));
      LastApart(rows);
    }
  }

  lemma LastApart(rows: seq<Total>)
    requires rows != []
    ensures multiset(rows) == multiset{rows[|rows| - 1]} + multiset(rows[..|rows| - 1])
  {
    assert rows == rows[..|rows| - 1] + [rows[|rows| - 1]];
  }

  /** Each row ranks no lower than the next. */
  predicate InRank(rows: seq<Total>) {
    forall i :: 0 <= i < |rows| - 1 ==> RanksBefore(rows[i], rows[i + 1])
  }

  lemma {:induction false} InsertKeepsRank(row: Total, ranked: seq<Total>)
    requires InRank(ranked)
    ensures InRank(InsertRanked(row, ranked))
    ensures InsertRanked(row, ranked)[0] == row || (ranked != [] && InsertRanked(row, ranked)[0] == ranked[0])
    decreases |ranked|
  {
    if ranked != [] && RanksBefore(ranked[0], row) {
      var rest := InsertRanked(row, ranked[1..]);
      assert InRank(ranked[1..]);
      InsertKeepsRank(row, ranked[1..]);
      assert InsertRanked(row, ranked) == [ranked[0]] + rest;
      assert rest[0] == row || rest[0] == ranked[1];
    }
  }

  /** The per-model rows come dearest first. */
  lemma {:induction false} RankedIsInRank(rows: seq<Total>)
    ensures InRank(Ranked(rows))
    decreases |rows|
  {
    if rows != [] {
      RankedIsInRank(rows[..|rows| - 1]);
      InsertKeepsRank(rows[|rows| - 1], Ranked(rows[..|rows| - 1]));
    }
  }

  function SumContributions(entries: seq<Entry>): Tally {
    if entries == [] then ZERO
    else Add(SumContributions(entries[..|entries| - 1]), SumTotals(ModelContributions(entries[|entries| - 1])))
  }

  function SumEntries(entries: seq<Entry>): Tally {
    if entries == [] then ZERO
    else Add(SumEntries(entries[..|entries| - 1]), EntryTally(entries[|entries| - 1]))
  }

  lemma {:induction false} SummaryTotalsSum(entries: seq<Entry>)
    ensures TotalTally(Summarize(entries).totals) == SumEntries(entries)
    decreases |entries|
  {
    if entries != [] { SummaryTotalsSum(entries[..|entries| - 1]); }
  }

  lemma {:induction false} SummaryRowsSum(entries: seq<Entry>)
    ensures SumTotals(Summarize(entries).byModel) == SumContributions(entries)
    decreases |entries|
  {
    if entries != [] {
      var before, cs := entries[..|entries| - 1], ModelContributions(entries[|entries| - 1]);
      SummaryRowsSum(before);
      AddContributionsAdd(Summarize(before).byModel, cs, Summarize(entries).byModel);
    }
  }

  lemma {:induction false} ConservedTokensSum(entries: seq<Entry>)
    requires forall e :: e in entries ==> SameTokens(SumTotals(ModelContributions(e)), EntryTally(e))
    ensures SameTokens(SumContributions(entries), SumEntries(entries))
    decreases |entries|
  {
    if entries != [] {
      var last := entries[|entries| - 1];
      ConservedTokensSum(entries[..|entries| - 1]);
      assert SameTokens(SumTotals(ModelContributions(last)), EntryTally(last));
    }
  }

  lemma {:induction false} ConservedCostsSum(entries: seq<Entry>)
    requires forall e :: e in entries ==> SumTotals(ModelContributions(e)).cost == EntryTally(e).cost
    ensures SumContributions(entries).cost == SumEntries(entries).cost
    decreases |entries|
  {
    if entries != [] {
      var last := entries[|entries| - 1];
      ConservedCostsSum(entries[..|entries| - 1]);
      assert SumTotals(ModelContributions(last)).cost == EntryTally(last).cost;
    }
  }

  /** Entries as the two usage sources build them. */
  function BuildAll(os: seq<Options>, pricing: Pricing): (es: seq<Entry>)
    ensures |es| == |os|
  {
    seq(|os|, i requires 0 <= i < |os| => BuildCostEntry(os[i], pricing))
  }

  /**
   * A run's per-model rows sum to its totals: for all four token counters when no entry was given
   * provider totals, and for the cost too when no entry mixes a provider total cost with sample costs.
   */
  lemma RunTotalsAreConserved(os: seq<Options>, pricing: Pricing)
    ensures var s := SummarizeCosts(BuildAll(os, pricing));
            && ((forall o :: o in os ==> o.totalUsage.None?) ==> SameTokens(SumTotals(s.byModel), TotalTally(s.totals)))
            && ((forall o :: o in os ==> o.totalCost.None? || SumCost(o.samples).None?) ==>
                  SumTotals(s.byModel).cost == Or(s.totals.cost, 0))
  {
    var es := BuildAll(os, pricing);
    RankingSums(Summarize(es).byModel);
    SummaryTotalsSum(es);
    SummaryRowsSum(es);
    if forall o :: o in os ==> o.totalUsage.None? { BuiltTokensSum(os, pricing); }
    if forall o :: o in os ==> o.totalCost.None? || SumCost(o.samples).None? { BuiltCostsSum(os, pricing); }
  }

  lemma BuiltTokensSum(os: seq<Options>, pricing: Pricing)
    requires forall o :: o in os ==> o.totalUsage.None?
    ensures SameTokens(SumContributions(BuildAll(os, pricing)), SumEntries(BuildAll(os, pricing)))
  {
    var es := BuildAll(os, pricing);
    forall e | e in es ensures SameTokens(SumTotals(ModelContributions(e)), EntryTally(e)) {
      var i :| 0 <= i < |es| && es[i] == e;
      ContributionsConserveTokens(os[i], pricing);
    }
    ConservedTokensSum(es);
  }

  lemma BuiltCostsSum(os: seq<Options>, pricing: Pricing)
    requires forall o :: o in os ==> o.totalCost.None? || SumCost(o.samples).None?
    ensures SumContributions(BuildAll(os, pricing)).cost == SumEntries(BuildAll(os, pricing)).cost
  {
    var es := BuildAll(os, pricing);
    forall e | e in es ensures SumTotals(ModelContributions(e)).cost == EntryTally(e).cost {
      var i :| 0 <= i < |es| && es[i] == e;
      UnmixedCostsConserve(os[i], pricing);
    }
    ConservedCostsSum(es);
  }

  lemma UnmixedCostsConserve(o: Options, pricing: Pricing)
    requires o.totalCost.None? || SumCost(o.samples).None?
    ensures var e := BuildCostEntry(o, pricing); SumTotals(ModelContributions(e)).cost == EntryTally(e).cost
  {
    ContributionsConserveCost(o, pricing);
    if o.totalCost.Some? {
      UnpricedSamplesMergeUnpriced(o.samples, OrElse(o.model, o.fallbackModel));
    }
  }

  lemma {:induction false} MergeSampleCosts(rows: seq<Row>, sample: Row, key: Option<string>)
    requires sample.cost.None? && forall r :: r in rows ==> r.cost.None?
    ensures forall r :: r in MergeSample(rows, sample, key) ==> r.cost.None?
    decreases |rows|
  {
    if rows != [] {
      assert rows == [rows[0]] + rows[1..];
      if rows[0].model != key { MergeSampleCosts(rows[1..], sample, key); }
    }
  }

  lemma {:induction false} NoneSumsToNone(rows: seq<Row>)
    ensures SumCost(rows).None? <==> forall r :: r in rows ==> r.cost.None?
    decreases |rows|
  {
    if rows != [] {
      assert rows == rows[..|rows| - 1] + [rows[|rows| - 1]];
      NoneSumsToNone(rows[..|rows| - 1]);
    }
  }

  lemma {:induction false} UnpricedSamplesMergeUnpriced(samples: seq<Row>, default: Option<string>)
    requires SumCost(samples).None?
    ensures SumCost(MergeSamples(samples, default)).None?
    decreases |samples|
  {
    NoneSumsToNone(samples);
    NoneSumsToNone(MergeSamples(samples, default));
    if samples != [] {
      var before := samples[..|samples| - 1];
      var last := samples[|samples| - 1];
      assert last in samples;
      UnpricedSamplesMergeUnpriced(before, default);
      NoneSumsToNone(MergeSamples(before, default));
      MergeSampleCosts(MergeSamples(before, default), last, OrElse(last.model, default));
    }
  }
}
