/**
 * Cost entries and their roll-up, on values. Costs are whole micro-dollars, the precision every
 * figure is rounded to, and a `Map` is the sequence of its rows in insertion order.
 */
module CostModel {

  datatype Option<T> = None | Some(value: T)

  /** Token counts; a cache counter never seen is not the same as zero. */
  datatype Usage = Usage(input: nat, output: nat, cacheRead: Option<nat>, cacheWrite: Option<nat>)

  /** One reading, or one merged row, of a model's usage. */
  datatype Row = Row(model: Option<string>, usage: Usage, cost: Option<nat>)

  datatype Entry = Entry(model: Option<string>, usage: Usage, cost: Option<nat>, estimated: bool, breakdown: seq<Row>)

  /** The pricing table: what a model's usage is estimated to cost, if the table knows the model. */
  type Pricing = (Usage, Option<string>) -> Option<nat>

  datatype Options = Options(
    subscription: bool,
    samples: seq<Row>,
    totalUsage: Option<Usage>,
    totalCost: Option<nat>,
    model: Option<string>,
    fallbackModel: Option<string>)

  function Or(a: Option<nat>, default: nat): nat {
    if a.Some? then a.value else default
  }

  function OrElse<T>(a: Option<T>, b: Option<T>): Option<T> {
    if a.Some? then a else b
  }

  /** Add a reading to a counter that may never have been seen. */
  function Plus(acc: Option<nat>, reading: Option<nat>): Option<nat> {
    if reading.Some? then Some(Or(acc, 0) + reading.value) else acc
  }

  function Accumulate(acc: Usage, usage: Usage): Usage {
    Usage(acc.input + usage.input, acc.output + usage.output,
          Plus(acc.cacheRead, usage.cacheRead), Plus(acc.cacheWrite, usage.cacheWrite))
  }

  // ---------------------------------------------------------------- merging samples per model

  /** Add a sample to the row of its model, or start one; an unnamed sample falls to the default model. */
  function MergeSample(rows: seq<Row>, sample: Row, key: Option<string>): seq<Row>
    decreases |rows|
  {
    if rows == [] then [sample.(model := key)]
    else if rows[0].model == key
    then [Row(key, Accumulate(rows[0].usage, sample.usage), Plus(rows[0].cost, sample.cost))] + rows[1..]
    else [rows[0]] + MergeSample(rows[1..], sample, key)
  }

  function MergeSamples(samples: seq<Row>, default: Option<string>): seq<Row> {
    if samples == [] then []
    else
      var last := samples[|samples| - 1];
      MergeSample(MergeSamples(samples[..|samples| - 1], default), last, OrElse(last.model, default))
  }

  const NO_USAGE: Usage := Usage(0, 0, None, None)

  function SumUsage(rows: seq<Row>): Usage {
    if rows == [] then NO_USAGE else Accumulate(SumUsage(rows[..|rows| - 1]), rows[|rows| - 1].usage)
  }

  function SumCost(rows: seq<Row>): Option<nat> {
    if rows == [] then None else Plus(SumCost(rows[..|rows| - 1]), rows[|rows| - 1].cost)
  }

  function Tokens(u: Usage): nat { u.input + u.output }

  /** The later row takes over when it cost more, or, while neither has a cost, when it used more tokens. */
  predicate Better(row: Row, best: Row) {
    if row.cost.Some? || best.cost.Some?
    then row.cost.Some? && (best.cost.None? || row.cost.value > best.cost.value)
    else Tokens(row.usage) > Tokens(best.usage)
  }

  function BestRow(rows: seq<Row>): Option<Row> {
    if rows == [] then None
    else
      var best := BestRow(rows[..|rows| - 1]);
      var row := rows[|rows| - 1];
      if best.None? || Better(row, best.value) then Some(row) else best
  }

  /** A row that carries no cost gets the table's. */
  function Priced(row: Row, pricing: Pricing): Row {
    if row.cost.Some? then row else row.(cost := pricing(row.usage, row.model))
  }

  function FillGaps(rows: seq<Row>, pricing: Pricing): seq<Row> {
    if rows == [] then []
    else FillGaps(rows[..|rows| - 1], pricing) + [Priced(rows[|rows| - 1], pricing)]
  }

  /** The row has no cost and the table has one for it. */
  predicate Fillable(row: Row, pricing: Pricing) {
    row.cost.None? && pricing(row.usage, row.model).Some?
  }

  predicate FilledOne(rows: seq<Row>, pricing: Pricing) {
    exists i :: 0 <= i < |rows| && Fillable(rows[i], pricing)
  }

  predicate Attributed(rows: seq<Row>) {
    forall i :: 0 <= i < |rows| ==> rows[i].model.Some?
  }

  /** Only a genuinely multi-model execution whose rows are all attributed carries a breakdown. */
  function Breakdown(rows: seq<Row>): seq<Row> {
    if |rows| >= 2 && Attributed(rows) then rows else []
  }

  /** An empty model name is as good as none. */
  function Named(model: Option<string>): Option<string> {
    if model == Some("") then None else model
  }

  function BuildCostEntry(o: Options, pricing: Pricing): Entry {
    var merged := MergeSamples(o.samples, OrElse(o.model, o.fallbackModel));
    var best := BestRow(merged);
    var usage := if o.totalUsage.Some? then o.totalUsage.value else SumUsage(merged);
    var model := OrElse(o.model, OrElse(if best.Some? then best.value.model else None, o.fallbackModel));
    // Rows are priced when some row has a cost already, or when nothing at all reported one.
    var rows := if SumCost(merged).Some? || o.totalCost.None? then FillGaps(merged, pricing) else merged;
    var reported := OrElse(o.totalCost, if SumCost(merged).Some? then SumCost(rows) else None);
    if reported.Some? then
      Entry(Named(model), usage, reported,
            o.subscription || (SumCost(merged).Some? && FilledOne(merged, pricing)), Breakdown(rows))
    else
      Entry(Named(model), usage, if rows == [] then pricing(usage, model) else SumCost(rows), true, Breakdown(rows))
  }

  // ---------------------------------------------------------------- rolling entries up

  /** A row of the per-model totals, or one entry's contribution to it. */
  datatype Total = Total(model: string, input: nat, output: nat, cacheRead: nat, cacheWrite: nat,
      cost: Option<nat>, estimated: bool)

  const UNKNOWN: string := "unknown"

  function TotalOf(model: Option<string>, usage: Usage, cost: Option<nat>, estimated: bool): Total {
    Total(if model.Some? then model.value else UNKNOWN, usage.input, usage.output,
          Or(usage.cacheRead, 0), Or(usage.cacheWrite, 0), cost, estimated)
  }

  function RowTotals(rows: seq<Row>, estimated: bool): (r: seq<Total>)
    ensures |r| == |rows|
  {
    seq(|rows|, i requires 0 <= i < |rows| => TotalOf(rows[i].model, rows[i].usage, rows[i].cost, estimated))
  }

  predicate HasCost(cs: seq<Total>) {
    exists i :: 0 <= i < |cs| && cs[i].cost.Some?
  }

  function IndexOfModel(cs: seq<Total>, model: Option<string>): (i: nat)
    ensures i <= |cs|
  {
    if cs == [] then 0 else if model == Some(cs[0].model) then 0 else 1 + IndexOfModel(cs[1..], model)
  }

  /** The first row with the most tokens. */
  function IndexOfMost(cs: seq<Total>): (i: nat)
    requires cs != []
    ensures i < |cs|
  {
    if |cs| == 1 then 0
    else
      var best := IndexOfMost(cs[..|cs| - 1]);
      var last := |cs| - 1;
      if cs[last].input + cs[last].output > cs[best].input + cs[best].output then last else best
  }

  /** The row a session-level cost is attributed to: the entry's own model, else the one with the most tokens. */
  function CostTarget(cs: seq<Total>, model: Option<string>): (i: nat)
    requires cs != []
    ensures i < |cs|
  {
    if IndexOfModel(cs, model) < |cs| then IndexOfModel(cs, model) else IndexOfMost(cs)
  }

  /** What an entry contributes per model: its breakdown rows when it has any, else its own figures. */
  function ModelContributions(e: Entry): seq<Total> {
    if e.breakdown == [] then [TotalOf(e.model, e.usage, e.cost, e.estimated)]
    else
      var cs := RowTotals(e.breakdown, e.estimated);
      if e.cost.Some? && !HasCost(cs)
      then cs[CostTarget(cs, e.model) := cs[CostTarget(cs, e.model)].(cost := e.cost)]
      else cs
  }

  function AddTotal(a: Total, c: Total): Total {
    Total(a.model, a.input + c.input, a.output + c.output, a.cacheRead + c.cacheRead, a.cacheWrite + c.cacheWrite,
          Plus(a.cost, c.cost), a.estimated || c.estimated)
  }

  function AddContribution(byModel: seq<Total>, c: Total): seq<Total>
    decreases |byModel|
  {
    if byModel == [] then [c]
    else if byModel[0].model == c.model then [AddTotal(byModel[0], c)] + byModel[1..]
    else [byModel[0]] + AddContribution(byModel[1..], c)
  }

  function AddContributions(byModel: seq<Total>, cs: seq<Total>): seq<Total> {
    if cs == [] then byModel
    else AddContribution(AddContributions(byModel, cs[..|cs| - 1]), cs[|cs| - 1])
  }

  datatype Summary = Summary(totals: Total, byModel: seq<Total>)

  const NO_TOTAL: Total := Total("", 0, 0, 0, 0, None, false)

  /** Totals and per-model rows, before the rows are ordered. */
  function Summarize(entries: seq<Entry>): Summary {
    if entries == [] then Summary(NO_TOTAL, [])
    else
      var before := Summarize(entries[..|entries| - 1]);
      var e := entries[|entries| - 1];
      Summary(AddTotal(before.totals, TotalOf(None, e.usage, e.cost, e.estimated)),
              AddContributions(before.byModel, ModelContributions(e)))
  }

  /** Rows with a cost first, dearest first; rows without one by tokens. */
  predicate RanksBefore(a: Total, b: Total) {
    if a.cost.Some? && b.cost.Some? then a.cost.value >= b.cost.value
    else if a.cost.Some? then true
    else if b.cost.Some? then false
    else a.input + a.output >= b.input + b.output
  }

  /** Behind every row that ranks no lower, so rows that tie keep their order. */
  function InsertRanked(row: Total, ranked: seq<Total>): seq<Total> {
    if ranked == [] then [row]
    else if RanksBefore(ranked[0], row) then [ranked[0]] + InsertRanked(row, ranked[1..])
    else [row] + ranked
  }

  function Ranked(rows: seq<Total>): seq<Total> {
    if rows == [] then [] else InsertRanked(rows[|rows| - 1], Ranked(rows[..|rows| - 1]))
  }

  function SummarizeCosts(entries: seq<Entry>): Summary {
    var s := Summarize(entries);
    s.(byModel := Ranked(s.byModel))
  }
}
