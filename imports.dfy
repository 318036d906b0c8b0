/** The shape both CSV importers share: PapaParse hands the `complete` callback the parsed
    rows; a `forEach` classifies each row, counting failures and adding one write to a
    batch per success; after the loop the batch is committed and the counts resolve the
    import's promise. */
module Imports {
  import opened Wrappers
  import opened Seqs
  import opened Js

  /** A parsed CSV row (`header: true`): column name to cell text; a column the row
      lacks is absent, which JavaScript reads as `undefined`. */
  type Row = map<string, string>

  /** `row[column]` as a JavaScript value. */
  function Cell(row: Row, column: string): (v: JsValue)
    ensures v.Undefined? <==> column !in row
  {
    if column in row then Str(row[column]) else Undefined
  }

  /** What the loop body does with one row: counts a failure, sets one record in the
      batch and counts a success, or throws. */
  datatype RowResult<R> = Fails | Writes(record: R) | Throws

  /** The state after the loop: the writes in the batch and the two counters. */
  datatype Tally<R> = Tally(batch: seq<R>, successes: nat, failures: nat)

  /** How the promise an import returns ends. `NotStarted`: the guard returned before
      creating it. `NeverSettles`: the `complete` callback threw, so neither `resolve`
      nor `reject` runs. */
  datatype ImportOutcome = NotStarted | Rejected | NeverSettles | Resolved(successfulImports: nat, failedImports: nat)

  /** `row => classify(row).Writes?`: the rows the loop body writes. */
  function WritesRow<R>(classify: Row -> RowResult<R>): Row -> bool {
    row => classify(row).Writes?
  }

  /** The `forEach` over the rows; None when the body throws on some row. Otherwise the
      success counter is the number of rows the body writes, the failure counter the
      number of the other rows, and the batch holds the record of each written row, one
      per row and in row order. */
  function Reconcile<R>(rows: seq<Row>, classify: Row -> RowResult<R>): (r: Option<Tally<R>>)
    ensures r.None? <==> exists i :: 0 <= i < |rows| && classify(rows[i]).Throws?
    ensures r.Some? ==> r.value.successes == |Filter(rows, WritesRow(classify))|
    ensures r.Some? ==> r.value.successes + r.value.failures == |rows|
    ensures r.Some? ==> |r.value.batch| == r.value.successes
    ensures r.Some? ==> forall k :: 0 <= k < |r.value.batch| ==>
              classify(Filter(rows, WritesRow(classify))[k]) == Writes(r.value.batch[k])
    ensures r.Some? ==> forall x :: x in r.value.batch ==> exists i :: 0 <= i < |rows| && classify(rows[i]) == Writes(x)
    ensures r.Some? ==> forall i :: 0 <= i < |rows| && classify(rows[i]).Writes? ==> classify(rows[i]).record in r.value.batch
  {
    if rows == [] then Some(Tally([], 0, 0))
    else
      var init := rows[..|rows| - 1];
      var last := rows[|rows| - 1];
      assert rows == init + [last];
      assert forall i :: 0 <= i < |init| ==> init[i] == rows[i];
      FilterSnoc(init, last, WritesRow(classify));
      match Reconcile(init, classify)
      case None => None
      case Some(t) =>
        match classify(last)
        case Throws => None
        case Fails => Some(Tally(t.batch, t.successes, t.failures + 1))
        case Writes(x) => Some(Tally(t.batch + [x], t.successes + 1, t.failures))
  }

  /** The callback's `forEach`, with its counters and the batch. */
  method ForEachRow<R>(rows: seq<Row>, classify: Row -> RowResult<R>) returns (r: Option<Tally<R>>)
    ensures r == Reconcile(rows, classify)
  {
    var batch: seq<R> := [];
    var successes, failures := 0, 0;
    var i := 0;
    while i < |rows|
      invariant 0 <= i <= |rows|
      invariant Reconcile(rows[..i], classify) == Some(Tally(batch, successes, failures))
    {
      ReconcileStep(rows, i, classify);
      match classify(rows[i]) {
        case Throws =>
          return None;
        case Fails =>
          failures := failures + 1;
        case Writes(x) =>
          batch := batch + [x];
          successes := successes + 1;
      }
      i := i + 1;
    }
    assert rows[..i] == rows;
    r := Some(Tally(batch, successes, failures));
  }

  /** The `forEach` over one more row: the tally so far, then that row. */
  lemma ReconcileStep<R>(rows: seq<Row>, i: nat, classify: Row -> RowResult<R>)
    requires i < |rows|
    ensures Reconcile(rows[..i + 1], classify)
         == match Reconcile(rows[..i], classify)
            case None => None
            case Some(t) =>
              match classify(rows[i])
              case Throws => None
              case Fails => Some(Tally(t.batch, t.successes, t.failures + 1))
              case Writes(x) => Some(Tally(t.batch + [x], t.successes + 1, t.failures))
  {
    ghost var done := rows[..i + 1];
    assert done[..i] == rows[..i] && done[i] == rows[i];
  }

  /** An import: `started` is false when the guard before `new Promise` returns; `csv`
      is None when PapaParse reports an error; `commitSucceeds` is the outcome of
      `batch.commit()`. `committed` is what reaches the database. */
  method RunImport<R>(started: bool, csv: Option<seq<Row>>, classify: Row -> RowResult<R>, commitSucceeds: bool)
    returns (outcome: ImportOutcome, committed: seq<R>)
    ensures !started ==> outcome == NotStarted
    ensures started && csv.None? ==> outcome == Rejected
    ensures started && csv.Some? && Reconcile(csv.value, classify).None? ==> outcome == NeverSettles
    ensures started && csv.Some? && Reconcile(csv.value, classify).Some? ==>
      if commitSucceeds then
        outcome == Resolved(Reconcile(csv.value, classify).value.successes, Reconcile(csv.value, classify).value.failures)
        && committed == Reconcile(csv.value, classify).value.batch
      else outcome == Rejected
    ensures !outcome.Resolved? ==> committed == []
    ensures outcome.Resolved? ==>
              csv.Some? && outcome.successfulImports + outcome.failedImports == |csv.value|
              && |committed| == outcome.successfulImports
  {
    committed := [];
    if !started {
      return NotStarted, committed;
    }
    if csv.None? {
      return Rejected, committed;
    }
    var tally := ForEachRow(csv.value, classify);
    if tally.None? {
      outcome := NeverSettles;
    } else if commitSucceeds {
      outcome := Resolved(tally.value.successes, tally.value.failures);
      committed := tally.value.batch;
    } else {
      outcome := Rejected;
    }
  }
}
