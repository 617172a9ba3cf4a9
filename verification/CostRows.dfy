/** Each per-model row of a run's totals is exactly what the run's entries contributed for that model. */
module CostRows {
  import opened CostModel
  import opened CostConservation

  /** All the run's contributions, in the order they are added. */
  function AllContributions(entries: seq<Entry>): seq<Total> {
    if entries == [] then []
    else AllContributions(entries[..|entries| - 1]) + ModelContributions(entries[|entries| - 1])
  }

  /** What was contributed for one model. */
  function ModelSum(cs: seq<Total>, model: string): Tally {
    if cs == [] then ZERO
    else
      var last := cs[|cs| - 1];
      var before := ModelSum(cs[..|cs| - 1], model);
      if last.model == model then Add(before, TotalTally(last)) else before
  }

  predicate HasModel(cs: seq<Total>, model: string) {
    exists c :: c in cs && c.model == model
  }

  predicate ModelEstimated(cs: seq<Total>, model: string) {
    exists c :: c in cs && c.model == model && c.estimated
  }

  predicate ModelPriced(cs: seq<Total>, model: string) {
    exists c :: c in cs && c.model == model && c.cost.Some?
  }

  /** The row sums its model's contributions, is estimated if any of them is, and has a cost if any of them has one. */
  predicate RowOf(row: Total, cs: seq<Total>) {
    && HasModel(cs, row.model)
    && TotalTally(row) == ModelSum(cs, row.model)
    && (row.estimated <==> ModelEstimated(cs, row.model))
    && (row.cost.Some? <==> ModelPriced(cs, row.model))
  }

  predicate OneRowPerModel(rows: seq<Total>) {
    forall i, j :: 0 <= i < j < |rows| ==> rows[i].model != rows[j].model
  }

  /** One row for every contributed model, and each row is its model's. */
  predicate RowsOfModels(rows: seq<Total>, cs: seq<Total>) {
    && OneRowPerModel(rows)
    && (forall row :: row in rows ==> RowOf(row, cs))
    && (forall c :: c in cs ==> HasModel(rows, c.model))
  }

  lemma {:induction false} NoContributionSumsToZero(cs: seq<Total>, model: string)
    requires !HasModel(cs, model)
    ensures ModelSum(cs, model) == ZERO
    decreases |cs|
  {
    if cs != [] {
      assert cs[|cs| - 1] in cs;
      assert forall c :: c in cs[..|cs| - 1] ==> c in cs;
      NoContributionSumsToZero(cs[..|cs| - 1], model);
    }
  }

  /** Where a contribution lands: a new last row, or the row its model already has. */
  lemma {:induction false} AddContributionLands(rows: seq<Total>, c: Total) returns (i: nat)
    requires OneRowPerModel(rows)
    ensures i <= |rows| && (forall j :: 0 <= j < i ==> rows[j].model != c.model)
    ensures i == |rows| ==> AddContribution(rows, c) == rows + [c]
    ensures i < |rows| ==> rows[i].model == c.model && AddContribution(rows, c) == rows[i := AddTotal(rows[i], c)]
    decreases |rows|
  {
    if rows == [] || rows[0].model == c.model {
      i := 0;
    } else {
      i := AddContributionLands(rows[1..], c);
      i := i + 1;
    }
  }

  /** One more contribution, of another model. */
  lemma OtherRowStays(row: Total, cs: seq<Total>, c: Total)
    requires RowOf(row, cs) && row.model != c.model
    ensures RowOf(row, cs + [c])
  {
    assert (cs + [c])[..|cs|] == cs;
    assert forall d :: d in cs + [c] <==> d in cs || d == c;
  }

  lemma OwnRowGrows(row: Total, cs: seq<Total>, c: Total)
    requires RowOf(row, cs) && row.model == c.model
    ensures RowOf(AddTotal(row, c), cs + [c])
  {
    assert (cs + [c])[..|cs|] == cs;
    assert c in cs + [c] && forall d :: d in cs ==> d in cs + [c];
    assert forall d :: d in cs + [c] ==> d in cs || d == c;
  }

  lemma NewRowStarts(cs: seq<Total>, c: Total)
    requires !HasModel(cs, c.model)
    ensures RowOf(c, cs + [c])
  {
    NoContributionSumsToZero(cs, c.model);
    assert (cs + [c])[..|cs|] == cs;
    assert c in cs + [c];
    assert forall d :: d in cs + [c] ==> d in cs || d == c;
  }

  lemma AddContributionKeepsRows(rows: seq<Total>, cs: seq<Total>, c: Total)
    requires RowsOfModels(rows, cs)
    ensures RowsOfModels(AddContribution(rows, c), cs + [c])
  {
    var i := AddContributionLands(rows, c);
    var grown := AddContribution(rows, c);
    assert HasModel(cs, c.model) ==> HasModel(rows, c.model);
    forall k | 0 <= k < |grown| ensures RowOf(grown[k], cs + [c]) {
      if k == |rows| {
        NewRowStarts(cs, c);
      } else if k == i {
        OwnRowGrows(rows[k], cs, c);
      } else {
        assert rows[k] in rows;
        OtherRowStays(rows[k], cs, c);
      }
    }
    forall d | d in cs + [c] ensures HasModel(grown, d.model) {
      if d in cs && d.model != c.model {
        assert HasModel(rows, d.model);
        var k :| 0 <= k < |rows| && rows[k].model == d.model;
        assert grown[k] in grown;
      } else {
        assert grown[i] in grown;
      }
    }
  }

  lemma {:induction false} AddContributionsKeepRows(rows: seq<Total>, before: seq<Total>, cs: seq<Total>)
    requires RowsOfModels(rows, before)
    ensures RowsOfModels(AddContributions(rows, cs), before + cs)
    decreases |cs|
  {
    if cs == [] {
      assert before + cs == before;
    } else {
      var last := |cs| - 1;
      AddContributionsKeepRows(rows, before, cs[..last]);
      AddContributionKeepsRows(AddContributions(rows, cs[..last]), before + cs[..last], cs[last]);
      assert before + cs == before + cs[..last] + [cs[last]];
    }
  }

  lemma {:induction false} SummarizeKeepsRows(entries: seq<Entry>)
    ensures RowsOfModels(Summarize(entries).byModel, AllContributions(entries))
    decreases |entries|
  {
    if entries != [] {
      var before := entries[..|entries| - 1];
      SummarizeKeepsRows(before);
      AddContributionsKeepRows(Summarize(before).byModel, AllContributions(before),
          ModelContributions(entries[|entries| - 1]));
    }
  }

  /** A permutation of rows with distinct models has distinct models. */
  lemma PermutedRowsStayDistinct(a: seq<Total>, b: seq<Total>)
    requires multiset(a) == multiset(b) && OneRowPerModel(a)
    ensures OneRowPerModel(b)
  {
    forall i, j | 0 <= i < j < |b| ensures b[i].model != b[j].model {
      if b[i].model == b[j].model {
        assert b[i] in multiset(a) && b[j] in multiset(a);
        var p :| 0 <= p < |a| && a[p] == b[i];
        var q :| 0 <= q < |a| && a[q] == b[j];
        assert p == q;
        TwiceInB(b, i, j);
        OnceInA(a, p);
      }
    }
  }

  lemma TwiceInB(b: seq<Total>, i: nat, j: nat)
    requires i < j < |b| && b[i] == b[j]
    ensures multiset(b)[b[i]] >= 2
  {
    assert b == b[..j] + b[j..];
    assert b[i] in b[..j] && b[i] in b[j..] by { assert b[..j][i] == b[i] && b[j..][0] == b[i]; }
  }

  lemma OnceInA(a: seq<Total>, p: nat)
    requires OneRowPerModel(a) && p < |a|
    ensures multiset(a)[a[p]] == 1
  {
    assert a == a[..p] + [a[p]] + a[p + 1..];
    assert a[p] !in a[..p] && a[p] !in a[p + 1..];
  }

  /** At least as dear; a row without a cost goes behind any with one, and then the larger goes first. */
  predicate DearerOrLarger(a: Total, b: Total) {
    if b.cost.Some? then a.cost.Some? && a.cost.value >= b.cost.value
    else a.cost.Some? || a.input + a.output >= b.input + b.output
  }

  /** Neighbours in rank are enough. */
  lemma {:induction false} RankIsTotal(rows: seq<Total>)
    requires InRank(rows)
    ensures forall i, j :: 0 <= i < j < |rows| ==> DearerOrLarger(rows[i], rows[j])
    decreases |rows|
  {
    if |rows| > 1 {
      var rest := rows[1..];
      assert forall i :: 0 <= i < |rest| ==> rest[i] == rows[i + 1];
      RankIsTotal(rest);
      assert RanksBefore(rows[0], rows[1]) && DearerOrLarger(rows[0], rest[0]);
      forall j | 1 < j < |rows| ensures DearerOrLarger(rows[0], rows[j]) {
        assert DearerOrLarger(rest[0], rest[j - 1]);
      }
    }
  }

  /**
   * A run's per-model rows: one for every model its entries contributed to, no model twice, each
   * with exactly the tokens, cost and estimate mark of that model's contributions, dearest first.
   */
  lemma EveryRowIsItsModels(entries: seq<Entry>)
    ensures RowsOfModels(SummarizeCosts(entries).byModel, AllContributions(entries))
    ensures var rows := SummarizeCosts(entries).byModel;
            forall i, j :: 0 <= i < j < |rows| ==> DearerOrLarger(rows[i], rows[j])
  {
    var rows := Summarize(entries).byModel;
    var ranked := Ranked(rows);
    SummarizeKeepsRows(entries);
    RankingPermutes(rows);
    RankedIsInRank(rows);
    RankIsTotal(ranked);
    PermutedRowsStayDistinct(rows, ranked);
    assert forall row :: row in ranked <==> row in multiset(ranked);
    assert forall row :: row in rows <==> row in multiset(rows);
    forall c | c in AllContributions(entries) ensures HasModel(ranked, c.model) {
      assert HasModel(rows, c.model);
      var row :| row in rows && row.model == c.model;
      assert row in ranked;
    }
  }

  // ---------------------------------------------------------------- rows that tie

  /** Neither goes before the other on account of its figures. */
  predicate Tie(a: Total, b: Total) {
    if a.cost.Some? || b.cost.Some? then a.cost == b.cost else a.input + a.output == b.input + b.output
  }

  function Ties(rows: seq<Total>, with: Total): seq<Total> {
    if rows == [] then [] else (if Tie(rows[0], with) then [rows[0]] else []) + Ties(rows[1..], with)
  }

  lemma {:induction false} TiesAppend(rows: seq<Total>, last: Total, with: Total)
    ensures Ties(rows + [last], with) == Ties(rows, with) + if Tie(last, with) then [last] else []
    decreases |rows|
  {
    if rows == [] {
      assert [last][1..] == [];
    } else {
      assert (rows + [last])[1..] == rows[1..] + [last];
      TiesAppend(rows[1..], last, with);
    }
  }

  lemma {:induction false} NoTies(rows: seq<Total>, with: Total)
    requires forall row :: row in rows ==> !Tie(row, with)
    ensures Ties(rows, with) == []
    decreases |rows|
  {
    if rows != [] { NoTies(rows[1..], with); }
  }

  lemma {:induction false} InsertedBehindTies(row: Total, ranked: seq<Total>, with: Total)
    requires InRank(ranked)
    ensures Ties(InsertRanked(row, ranked), with) == Ties(ranked, with) + if Tie(row, with) then [row] else []
    decreases |ranked|
  {
    if ranked == [] {
      assert [row][1..] == [];
    } else if RanksBefore(ranked[0], row) {
      assert ([ranked[0]] + InsertRanked(row, ranked[1..]))[1..] == InsertRanked(row, ranked[1..]);
      assert forall i :: 0 <= i < |ranked| - 1 ==> ranked[1..][i] == ranked[i + 1];
      InsertedBehindTies(row, ranked[1..], with);
    } else {
      assert ([row] + ranked)[1..] == ranked;
      RankIsTotal(ranked);
      if Tie(row, with) {
        forall r | r in ranked ensures !Tie(r, with) {
          var k :| 0 <= k < |ranked| && ranked[k] == r;
          assert k > 0 ==> DearerOrLarger(ranked[0], ranked[k]);
        }
        NoTies(ranked, with);
      }
    }
  }

  /** Rows that tie keep the order in which their models were first contributed. */
  lemma {:induction false} RankingIsStable(rows: seq<Total>, with: Total)
    ensures Ties(Ranked(rows), with) == Ties(rows, with)
    decreases |rows|
  {
    if rows != [] {
      var before, last := rows[..|rows| - 1], rows[|rows| - 1];
      RankingIsStable(before, with);
      RankedIsInRank(before);
      InsertedBehindTies(last, Ranked(before), with);
      assert rows == before + [last];
      TiesAppend(before, last, with);
    }
  }

  // ---------------------------------------------------------------- what an entry contributes

  /** The row with the entry's own model, the first if there are several, else the first with the most tokens. */
  predicate IsTarget(cs: seq<Total>, model: Option<string>, t: nat) {
    && t < |cs|
    && if model.Some? && exists c :: c in cs && c.model == model.value
       then cs[t].model == model.value && forall j :: 0 <= j < t ==> cs[j].model != model.value
       else && (forall j :: 0 <= j < |cs| ==> cs[j].input + cs[j].output <= cs[t].input + cs[t].output)
            && (forall j :: 0 <= j < t ==> cs[j].input + cs[j].output < cs[t].input + cs[t].output)
  }

  lemma {:induction false} FirstOfModel(cs: seq<Total>, model: Option<string>)
    ensures var i := IndexOfModel(cs, model);
            && (forall j :: 0 <= j < i ==> model != Some(cs[j].model))
            && (i < |cs| ==> model == Some(cs[i].model))
    decreases |cs|
  {
    if cs != [] && model != Some(cs[0].model) { FirstOfModel(cs[1..], model); }
  }

  lemma {:induction false} FirstOfMost(cs: seq<Total>)
    requires cs != []
    ensures var i := IndexOfMost(cs);
            && (forall j :: 0 <= j < |cs| ==> cs[j].input + cs[j].output <= cs[i].input + cs[i].output)
            && (forall j :: 0 <= j < i ==> cs[j].input + cs[j].output < cs[i].input + cs[i].output)
    decreases |cs|
  {
    if |cs| > 1 {
      var before := cs[..|cs| - 1];
      assert forall j :: 0 <= j < |before| ==> before[j] == cs[j];
      FirstOfMost(before);
    }
  }

  lemma TargetIs(cs: seq<Total>, model: Option<string>)
    requires cs != []
    ensures IsTarget(cs, model, CostTarget(cs, model))
  {
    FirstOfModel(cs, model);
    FirstOfMost(cs);
    if model.Some? {
      if c :| c in cs && c.model == model.value {
        var k :| 0 <= k < |cs| && cs[k] == c;
        assert model == Some(cs[k].model);
      }
    }
  }

  /** The row as a contribution of its entry, at some cost. */
  function ContributedRow(row: Row, cost: Option<nat>, estimated: bool): Total {
    Total(if row.model.Some? then row.model.value else "unknown", row.usage.input, row.usage.output,
          if row.usage.cacheRead.Some? then row.usage.cacheRead.value else 0,
          if row.usage.cacheWrite.Some? then row.usage.cacheWrite.value else 0, cost, estimated)
  }

  /**
   * What an entry contributes. Without a breakdown: its own figures, under its model or "unknown".
   * With one: each row, marked as the entry is; and if the entry has a cost but no row does, the
   * whole cost goes to one row, the entry's own model's, else the first with the most tokens.
   */
  lemma ContributionsAre(e: Entry) returns (t: nat)
    ensures var cs := ModelContributions(e);
            if e.breakdown == [] then cs == [ContributedRow(Row(e.model, e.usage, e.cost), e.cost, e.estimated)]
            else if e.cost.None? || exists row :: row in e.breakdown && row.cost.Some?
            then |cs| == |e.breakdown| && forall i :: 0 <= i < |cs| ==>
                   cs[i] == ContributedRow(e.breakdown[i], e.breakdown[i].cost, e.estimated)
            else && |cs| == |e.breakdown| && IsTarget(cs, e.model, t)
                 && forall i :: 0 <= i < |cs| ==>
                      cs[i] == ContributedRow(e.breakdown[i], if i == t then e.cost else None, e.estimated)
  {
    t := 0;
    if e.breakdown != [] {
      var rows := RowTotals(e.breakdown, e.estimated);
      t := CostTarget(rows, e.model);
      TargetIs(rows, e.model);
      PricedRows(e.breakdown, e.estimated);
      if e.cost.Some? && !HasCost(rows) { SameTarget(rows, ModelContributions(e), e.model, t); }
    }
  }

  lemma PricedRows(rows: seq<Row>, estimated: bool)
    ensures HasCost(RowTotals(rows, estimated)) <==> exists row :: row in rows && row.cost.Some?
  {
    var cs := RowTotals(rows, estimated);
    if row :| row in rows && row.cost.Some? {
      var i :| 0 <= i < |rows| && rows[i] == row;
      assert cs[i].cost.Some?;
    }
    if HasCost(cs) {
      var i :| 0 <= i < |cs| && cs[i].cost.Some?;
      assert rows[i] in rows;
    }
  }

  /** Costs play no part in choosing. */
  lemma SameTarget(a: seq<Total>, b: seq<Total>, model: Option<string>, t: nat)
    requires |a| == |b| && IsTarget(a, model, t)
    requires forall i :: 0 <= i < |a| ==> b[i] == a[i].(cost := b[i].cost)
    ensures IsTarget(b, model, t)
  {
    if model.Some? {
      if c :| c in a && c.model == model.value {
        var k :| 0 <= k < |a| && a[k] == c;
        assert b[k] in b && b[k].model == model.value;
      }
      if c :| c in b && c.model == model.value {
        var k :| 0 <= k < |b| && b[k] == c;
        assert a[k] in a && a[k].model == model.value;
      }
    }
  }

  // ---------------------------------------------------------------- the run's totals

  /**
   * A run's totals are its entries' sums; they have a cost exactly when some entry has one, and are
   * marked estimated exactly when some entry is.
   */
  lemma TotalsAreTheEntries(entries: seq<Entry>)
    ensures var totals := SummarizeCosts(entries).totals;
            && TotalTally(totals) == SumEntries(entries)
            && (totals.cost.Some? <==> AnyPriced(entries))
            && (totals.estimated <==> AnyMarked(entries))
  {
    SummaryTotalsSum(entries);
    TotalsAreMarked(entries);
  }

  predicate AnyPriced(entries: seq<Entry>) { exists e :: e in entries && e.cost.Some? }

  predicate AnyMarked(entries: seq<Entry>) { exists e :: e in entries && e.estimated }

  lemma {:induction false} TotalsAreMarked(entries: seq<Entry>)
    ensures Summarize(entries).totals.cost.Some? <==> AnyPriced(entries)
    ensures Summarize(entries).totals.estimated <==> AnyMarked(entries)
    decreases |entries|
  {
    if entries != [] {
      var before, last := entries[..|entries| - 1], entries[|entries| - 1];
      assert entries == before + [last];
      TotalsAreMarked(before);
      OneOrLast(before, last);
    }
  }

  lemma OneOrLast(before: seq<Entry>, last: Entry)
    ensures AnyPriced(before + [last]) <==> AnyPriced(before) || last.cost.Some?
    ensures AnyMarked(before + [last]) <==> AnyMarked(before) || last.estimated
  {
    assert forall e :: e in before + [last] <==> e in before || e == last;
  }

  // ---------------------------------------------------------------- the order before ranking

  /** The contributed models, each once, in the order they first appear. */
  function FirstModels(cs: seq<Total>): seq<string> {
    if cs == [] then []
    else
      var before := FirstModels(cs[..|cs| - 1]);
      if cs[|cs| - 1].model in before then before else before + [cs[|cs| - 1].model]
  }

  function ModelNames(rows: seq<Total>): seq<string> {
    seq(|rows|, i requires 0 <= i < |rows| => rows[i].model)
  }

  lemma {:induction false} FirstModelsAppend(byModel: seq<Total>, before: seq<Total>, cs: seq<Total>)
    requires OneRowPerModel(byModel) && ModelNames(byModel) == FirstModels(before)
    ensures ModelNames(AddContributions(byModel, cs)) == FirstModels(before + cs)
    ensures OneRowPerModel(AddContributions(byModel, cs))
    decreases |cs|
  {
    if cs == [] {
      assert before + cs == before;
    } else {
      var last, most := cs[|cs| - 1], cs[..|cs| - 1];
      FirstModelsAppend(byModel, before, most);
      assert before + cs == (before + most) + [last];
      OneMoreModel(AddContributions(byModel, most), before + most, last);
    }
  }

  lemma OneMoreModel(rows: seq<Total>, cs: seq<Total>, last: Total)
    requires OneRowPerModel(rows) && ModelNames(rows) == FirstModels(cs)
    ensures ModelNames(AddContribution(rows, last)) == FirstModels(cs + [last])
    ensures OneRowPerModel(AddContribution(rows, last))
  {
    var i := AddContributionLands(rows, last);
    assert (cs + [last])[..|cs|] == cs;
    assert forall k :: 0 <= k < |rows| ==> ModelNames(rows)[k] == rows[k].model;
    var grown := AddContribution(rows, last);
    if i == |rows| {
      assert ModelNames(grown) == ModelNames(rows) + [last.model];
    } else {
      assert ModelNames(rows)[i] == last.model;
      assert ModelNames(grown) == ModelNames(rows);
    }
  }

  /** Rows come, before they are ranked, in the order in which their models were first contributed. */
  lemma {:induction false} RowsBeginInOrder(entries: seq<Entry>)
    ensures ModelNames(Summarize(entries).byModel) == FirstModels(AllContributions(entries))
    ensures OneRowPerModel(Summarize(entries).byModel)
    decreases |entries|
  {
    if entries != [] {
      var before := entries[..|entries| - 1];
      RowsBeginInOrder(before);
      FirstModelsAppend(Summarize(before).byModel, AllContributions(before),
          ModelContributions(entries[|entries| - 1]));
    }
  }
}
