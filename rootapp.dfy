/** The earlier revision of the dashboard (App.js at the repository root): the period
    filter over deals, per-partner figures that tier partners on their won revenue read
    with plain `parseFloat`, the date rule when a deal is added, and the deals CSV
    import into one chosen partner. */
module RootApp {
  import opened Wrappers
  import opened Js
  import opened JsNumbers
  import opened Seqs
  import opened Dates
  import opened Records
  import opened Tiers
  import opened Periods
  import opened Imports

  /** `!deal.submissionDate || !deal.submissionDate.toDate` drops a deal, so only
      Timestamps in the period are kept. */
  predicate Kept(d: Deal, startDate: string, endDate: string, offset: int) {
    d.submissionDate.Stamp? && InPeriod(d.submissionDate.millis, startDate, endDate, offset)
  }

  /** `filteredDeals`: every deal when neither input is set, otherwise the deals with a
      Timestamp in the period, in order. */
  function FilteredDeals(deals: seq<Deal>, startDate: string, endDate: string, offset: int): (r: seq<Deal>)
    ensures startDate == "" && endDate == "" ==> r == deals
    ensures startDate != "" || endDate != "" ==>
      forall d :: d in r <==> d in deals && Kept(d, startDate, endDate, offset)
    ensures IsSubsequence(r, deals)
    ensures startDate != "" || endDate != "" ==>
      forall d :: multiset(r)[d] == if Kept(d, startDate, endDate, offset) then multiset(deals)[d] else 0
  {
    if startDate == "" && endDate == "" then
      SubsequenceReflexive(deals);
      deals
    else
      var keep := d => Kept(d, startDate, endDate, offset);
      FilterMembership(deals, keep);
      FilterIsSubsequence(deals, keep);
      FilterCount(deals, keep);
      Filter(deals, keep)
  }

  /** `parseFloat(d.value) || 0`: a Brazilian-formatted text is read only up to its
      first dot or comma. */
  function DealAmount(d: Deal): real { OrZero(ParseFloatValue(d.value)) }

  predicate IsWon(d: Deal) { d.status == Won }
  predicate IsNotWon(d: Deal) { d.status != Won }

  function DealPartnerId(d: Deal): string { d.partnerId }

  /** One entry of `partnersWithDetails` in this revision: no payments and no commission. */
  datatype PartnerSummary = PartnerSummary(partner: Partner, revenue: real, tier: Tier,
                                           totalOpportunitiesValue: real, conversionRate: real)

  /** The figures of a partner from its deals; None when its type has no thresholds. */
  function SummaryOf(partner: Partner, partnerDeals: seq<Deal>): (r: Option<PartnerSummary>)
    ensures r.Some? <==> TypeOf(partner.kind).Some?
    ensures r.Some? ==> r.value.partner == partner
  {
    var wonDeals := Filter(partnerDeals, IsWon);
    var revenue := Sum(wonDeals, DealAmount);
    match DetailsForKind(revenue, partner.kind)
    case None => None
    case Some(tier) =>
      Some(PartnerSummary(partner, revenue, tier, Sum(partnerDeals, DealAmount),
                          ConversionRate(|wonDeals|, |partnerDeals|)))
  }

  function Summarize(partner: Partner, deals: seq<Deal>): Option<PartnerSummary> {
    SummaryOf(partner, Filter(deals, HasKey(DealPartnerId, partner.id)))
  }

  /** The mapping of `partners.map(...)`, for the deals. */
  function SummarizeWith(deals: seq<Deal>): Partner -> Option<PartnerSummary> {
    p => Summarize(p, deals)
  }

  /** `partners.map(...)`: one summary per partner, in order; None when any partner's
      type has no thresholds. */
  function PartnersWithDetails(partners: seq<Partner>, deals: seq<Deal>): (r: Option<seq<PartnerSummary>>)
    ensures r.None? <==> exists i :: 0 <= i < |partners| && TypeOf(partners[i].kind).None?
    ensures r.Some? ==> |r.value| == |partners|
    ensures r.Some? ==> forall i :: 0 <= i < |partners| ==> Some(r.value[i]) == Summarize(partners[i], deals)
  {
    var f := SummarizeWith(deals);
    MapOrThrowSpec(partners, f);
    assert forall p :: f(p).None? <==> TypeOf(p.kind).None?;
    MapOrThrow(partners, f)
  }

  /** The memo as the source computes it: a `reduce` grouping the deals by partner, then
      one pass over the partners reading the groups with `|| []`. */
  method ComputePartnersWithDetails(partners: seq<Partner>, deals: seq<Deal>) returns (r: Option<seq<PartnerSummary>>)
    ensures r == PartnersWithDetails(partners, deals)
  {
    var dealsByPartner := GroupBy(deals, DealPartnerId);
    var rows: seq<PartnerSummary> := [];
    var i := 0;
    while i < |partners|
      invariant 0 <= i <= |partners|
      invariant |rows| == i
      invariant forall j :: 0 <= j < i ==> Summarize(partners[j], deals) == Some(rows[j])
    {
      var partner := partners[i];
      var partnerDeals := if partner.id in dealsByPartner then dealsByPartner[partner.id] else [];
      assert partnerDeals == Filter(deals, HasKey(DealPartnerId, partner.id));
      var row := SummaryOf(partner, partnerDeals);
      assert Summarize(partner, deals) == row;
      if row.None? {
        assert TypeOf(partners[i].kind).None?;
        return None;
      }
      rows := rows + [row.value];
      i := i + 1;
    }
    r := Some(rows);
    DetailsFromRows(partners, deals, rows);
  }

  /** Rows holding each partner's summary, in order, are the partners' figures. */
  lemma DetailsFromRows(partners: seq<Partner>, deals: seq<Deal>, rows: seq<PartnerSummary>)
    requires |rows| == |partners|
    requires forall j :: 0 <= j < |partners| ==> Summarize(partners[j], deals) == Some(rows[j])
    ensures PartnersWithDetails(partners, deals) == Some(rows)
  {
    var r := PartnersWithDetails(partners, deals);
    assert r.value == rows;
  }

  /** The tier is read from won revenue alone: deals that are not won change neither the
      revenue nor the tier. */
  lemma {:induction false} OpenDealsKeepTier(partner: Partner, partnerDeals: seq<Deal>, open: seq<Deal>)
    requires forall j :: 0 <= j < |open| ==> !IsWon(open[j])
    requires SummaryOf(partner, partnerDeals).Some?
    ensures SummaryOf(partner, partnerDeals + open).value.revenue == SummaryOf(partner, partnerDeals).value.revenue
    ensures SummaryOf(partner, partnerDeals + open).value.tier == SummaryOf(partner, partnerDeals).value.tier
  {
    FilterAppend(partnerDeals, open, IsWon);
    FilterNone(open, IsWon);
    assert Filter(partnerDeals, IsWon) + [] == Filter(partnerDeals, IsWon);
  }

  /** The won deals' value plus the other deals' value is the value of all the partner's
      opportunities, and the conversion rate is a percentage. */
  lemma OpportunitiesSplit(partner: Partner, partnerDeals: seq<Deal>)
    requires SummaryOf(partner, partnerDeals).Some?
    ensures var s := SummaryOf(partner, partnerDeals).value;
      && s.totalOpportunitiesValue == s.revenue + Sum(Filter(partnerDeals, IsNotWon), DealAmount)
      && 0.0 <= s.conversionRate <= 100.0
      && (partnerDeals == [] ==> s.conversionRate == 0.0)
  {
    SumPartition(partnerDeals, IsWon, IsNotWon, DealAmount);
  }

  /** "1.234,56" stored as a deal value counts as 1.234 here: plain `parseFloat` stops at
      the comma and reads the dot as the decimal point. */
  lemma BrazilianTextReadAsDecimal(d: Deal)
    requires d.value == Str("1.234,56")
    ensures DealAmount(d) == 1.234
  {
    assert NatValue("234") == 234 by {
      NatDigitsValue(234);
      assert NatDigits(234) == "234";
    }
    assert NatValue("1") == 1;
    assert Pow10(|"234"|) == 1000.0 by {
      assert Pow10(1) == 10.0;
      assert Pow10(2) == 100.0;
    }
    assert "" + ("1" + "." + "234" + ",56") == "1.234,56";
    ParsePointNumeral(false, "1", "234", ",56", 1.234);
  }

  // ---------------------------------------------------------------------------
  // Adding a deal

  /** What `handleAdd` writes as `submissionDate`: nothing of its own (the form's field is
      kept as it came), or a Timestamp at an instant in UTC milliseconds. */
  datatype SubmissionWrite = KeepFormValue | SetTo(millis: int)

  /** `Added`: `addDoc` was called; `Failed`: an exception was caught and logged;
      `Skipped`: there is no database. */
  datatype AddOutcome = Skipped | Added(submission: SubmissionWrite) | Failed

  /** `handleAdd(collectionName, data)` up to the `addDoc` call, which is assumed to
      succeed: for deals, a valid `submissionDate` becomes its Timestamp, while a missing
      or invalid one becomes `Timestamp.now()` (`now`); year 0000 makes
      `Timestamp.fromDate` throw inside the `try`. */
  function HandleAdd(hasDb: bool, collectionName: string, submissionDate: string, now: int): (r: AddOutcome)
    ensures !hasDb <==> r.Skipped?
    ensures hasDb && collectionName != "deals" ==> r == Added(KeepFormValue)
    ensures hasDb && collectionName == "deals" && (submissionDate == "" || ParseDate(submissionDate).None?)
            ==> r == Added(SetTo(now))
    ensures hasDb && collectionName == "deals" && ParseCivil(submissionDate).Some? ==>
      if ParseCivil(submissionDate).value.year == 0 then r.Failed?
      else r == Added(SetTo(ParseDate(submissionDate).value))
  {
    if !hasDb then Skipped
    else if collectionName == "deals" && submissionDate != "" then
      match ParseCivil(submissionDate)
      case None => Added(SetTo(now))
      case Some(d) =>
        ParsedDateTimestamp(submissionDate);
        match TimestampFromMillis(d.Millis())
        case None => Failed
        case Some(ms) => Added(SetTo(ms))
    else if collectionName == "deals" then Added(SetTo(now))
    else Added(KeepFormValue)
  }

  // ---------------------------------------------------------------------------
  // Importing deals

  /** The record set in the batch for an imported deal (`createdAt` is the server's clock
      and is not modelled). */
  datatype DealRecord = DealRecord(clientName: string, partnerId: string, partnerName: string, value: real,
                                   status: string, submissionDate: int, authorId: string)

  /** A cell that is present and not empty, as JavaScript's truthiness reads a string. */
  predicate Filled(row: Row, column: string) {
    column in row && row[column] != ""
  }

  /** `deal.submissionDate ? deal.submissionDate.trim() : null`, with "" for null. */
  function TrimmedDate(row: Row): string {
    if "submissionDate" in row then Trim(row["submissionDate"]) else ""
  }

  /** The row's date reads as a valid date in year 0000, which the Timestamp range
      excludes. */
  predicate YearZeroDate(row: Row) {
    ParseCivil(BeforeFirstSpace(TrimmedDate(row))).Some? && ParseCivil(BeforeFirstSpace(TrimmedDate(row))).value.year == 0
  }

  /** The body of the deals import's `forEach` for one row. */
  function DealRow(selectedPartnerId: string, partnerName: string, authorId: string, row: Row): (r: RowResult<DealRecord>)
    ensures r.Writes? <==>
              (&& Filled(row, "clientName") && Filled(row, "value") && Filled(row, "status") && TrimmedDate(row) != ""
               && ParseCivil(BeforeFirstSpace(TrimmedDate(row))).Some?
               && ParseCivil(BeforeFirstSpace(TrimmedDate(row))).value.year != 0)
    ensures r.Throws? <==>
              (&& Filled(row, "clientName") && Filled(row, "value") && Filled(row, "status") && TrimmedDate(row) != ""
               && YearZeroDate(row))
    ensures r.Writes? ==>
              && r.record.partnerId == selectedPartnerId && r.record.partnerName == partnerName
              && r.record.clientName == row["clientName"] && r.record.status == row["status"]
              && r.record.value == OrZero(ParseFloat(row["value"]))
              && r.record.submissionDate == ParseDate(BeforeFirstSpace(TrimmedDate(row))).value
              && r.record.authorId == authorId
  {
    var dateText := TrimmedDate(row);
    if !(Filled(row, "clientName") && Filled(row, "value") && Filled(row, "status") && dateText != "") then Fails
    else
      var day := BeforeFirstSpace(dateText);
      match ParseCivil(day)
      case None => Fails
      case Some(d) =>
        ParsedDateTimestamp(day);
        match TimestampFromMillis(d.Millis())
        case None => Throws
        case Some(ms) =>
          Writes(DealRecord(row["clientName"], selectedPartnerId, partnerName, OrZero(ParseFloat(row["value"])),
                            row["status"], ms, authorId))
  }

  function DealBody(selectedPartnerId: string, partnerName: string, authorId: string): Row -> RowResult<DealRecord> {
    row => DealRow(selectedPartnerId, partnerName, authorId, row)
  }

  /** Every record the loop writes carries the selected partner's id and name. */
  lemma ImportedDealsBelong(selectedPartnerId: string, partnerName: string, authorId: string, rows: seq<Row>)
    requires Reconcile(rows, DealBody(selectedPartnerId, partnerName, authorId)).Some?
    ensures forall x :: x in Reconcile(rows, DealBody(selectedPartnerId, partnerName, authorId)).value.batch ==>
              x.partnerId == selectedPartnerId && x.partnerName == partnerName
  {
    var body := DealBody(selectedPartnerId, partnerName, authorId);
    forall x: DealRecord | x in Reconcile(rows, body).value.batch
      ensures x.partnerId == selectedPartnerId && x.partnerName == partnerName
    {
      var i :| 0 <= i < |rows| && body(rows[i]) == Writes(x);
    }
  }

  /** `handleImportDeals(file, selectedPartnerId)`: returns early without a file, a
      database or a selected id, or when no partner has the selected id; otherwise every
      row is checked and the valid ones are assigned to the first partner with that id.
      A parse error or a failed commit rejects; a throwing row leaves the promise
      unsettled; otherwise the import resolves with the number of valid and invalid rows,
      and the records committed are those of the valid rows, in row order. `authorId` is
      the signed-in user's id. */
  method HandleImportDeals(hasFile: bool, hasDb: bool, selectedPartnerId: string, partners: seq<Partner>,
                           authorId: string, csv: Option<seq<Row>>, commitSucceeds: bool)
    returns (outcome: ImportOutcome, committed: seq<DealRecord>)
    ensures (!hasFile || !hasDb || selectedPartnerId == ""
             || forall i :: 0 <= i < |partners| ==> partners[i].id != selectedPartnerId) ==> outcome == NotStarted
    ensures hasFile && hasDb && selectedPartnerId != "" && FirstMatch(partners, PartnerId, selectedPartnerId).Some? ==>
      var name := FirstMatch(partners, PartnerId, selectedPartnerId).value.name;
      && (csv.None? ==> outcome == Rejected)
      && (csv.Some? ==>
            (outcome == NeverSettles <==>
               exists i :: 0 <= i < |csv.value| && DealRow(selectedPartnerId, name, authorId, csv.value[i]).Throws?))
      && (csv.Some? && (forall i :: 0 <= i < |csv.value| ==> !DealRow(selectedPartnerId, name, authorId, csv.value[i]).Throws?)
          ==>
            var written := Filter(csv.value, WritesRow(DealBody(selectedPartnerId, name, authorId)));
            if commitSucceeds then
              && outcome == Resolved(|written|, |csv.value| - |written|)
              && |committed| == |written|
              && forall k :: 0 <= k < |written| ==>
                   DealRow(selectedPartnerId, name, authorId, written[k]) == Writes(committed[k])
            else outcome == Rejected)
    ensures outcome.Resolved? ==>
              && FirstMatch(partners, PartnerId, selectedPartnerId).Some?
              && forall x :: x in committed ==>
                   x.partnerId == selectedPartnerId && x.partnerName == FirstMatch(partners, PartnerId, selectedPartnerId).value.name
    ensures outcome == NeverSettles ==>
              && csv.Some?
              && exists i :: 0 <= i < |csv.value| && YearZeroDate(csv.value[i])
    ensures !outcome.Resolved? ==> committed == []
  {
    var selected := FirstMatch(partners, PartnerId, selectedPartnerId);
    if !hasFile || !hasDb || selectedPartnerId == "" || selected.None? {
      return NotStarted, [];
    }
    var body := DealBody(selectedPartnerId, selected.value.name, authorId);
    outcome, committed := RunImport(true, csv, body, commitSucceeds);
    if outcome == NeverSettles {
      var i :| 0 <= i < |csv.value| && body(csv.value[i]).Throws?;
    }
    if outcome.Resolved? {
      ImportedDealsBelong(selectedPartnerId, selected.value.name, authorId, csv.value);
    }
  }

}
