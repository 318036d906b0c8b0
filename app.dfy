/** The current dashboard (src/App.js): the period filter over deals and payments, the
    per-partner figures that tier partners on the payments they brought in, and the
    payments CSV import. */
module App {
  import opened Wrappers
  import opened Js
  import opened Seqs
  import opened Dates
  import opened Records
  import opened Formatter
  import opened Tiers
  import opened Periods
  import opened Imports

  /** The period test of one record: `date?.toDate()` is undefined for an absent date
      (not kept), a Date for a Timestamp, and throws (None) for any other stored value. */
  function DateTest(date: DateField, startDate: string, endDate: string, offset: int): (r: Option<bool>)
    ensures r.None? <==> date.Unconverted?
    ensures r == Some(true) <==> date.Stamp? && InPeriod(date.millis, startDate, endDate, offset)
  {
    match date
    case Absent => Some(false)
    case Unconverted => None
    case Stamp(ms) => Some(InPeriod(ms, startDate, endDate, offset))
  }

  /** Whether a record is in the period, for records whose date converts. */
  predicate InWindow(date: DateField, startDate: string, endDate: string, offset: int) {
    date.Stamp? && InPeriod(date.millis, startDate, endDate, offset)
  }

  /** `filteredDeals` / `filteredPayments`: the whole collection when neither input is
      set, and otherwise the records whose date lies in the period, in order; None when
      the filter throws. */
  function WindowFilter<T>(items: seq<T>, dateOf: T -> DateField, startDate: string, endDate: string, offset: int): (r: Option<seq<T>>)
    ensures startDate == "" && endDate == "" ==> r == Some(items)
    ensures r.None? <==> (startDate != "" || endDate != "") && exists i :: 0 <= i < |items| && dateOf(items[i]).Unconverted?
    ensures r.Some? && (startDate != "" || endDate != "") ==>
      r.value == Filter(items, x => InWindow(dateOf(x), startDate, endDate, offset))
  {
    if startDate == "" && endDate == "" then Some(items)
    else
      var test := x => DateTest(dateOf(x), startDate, endDate, offset);
      FilterOrThrowSpec(items, test);
      if FilterOrThrow(items, test).Some? then
        FilterCongruent(items, x => test(x) == Some(true), x => InWindow(dateOf(x), startDate, endDate, offset));
        FilterOrThrow(items, test)
      else
        FilterOrThrow(items, test)
  }

  function DealDate(d: Deal): DateField { d.submissionDate }
  function PaymentDate(p: Payment): DateField { p.paymentDate }

  function DealPartnerId(d: Deal): string { d.partnerId }
  function PaymentPartnerId(p: Payment): string { p.partnerId }

  /** `parseBrazilianCurrency(x) || 0`: the local parser never yields NaN. */
  function PaymentAmount(p: Payment): real { ParseBrazilianCurrencyInApp(p.paymentValue) }
  function DealAmount(d: Deal): real { ParseBrazilianCurrencyInApp(d.value) }

  predicate IsWon(d: Deal) { d.status == Won }
  predicate IsNotWon(d: Deal) { d.status != Won }

  /** One entry of `partnersWithDetails`. */
  datatype PartnerSummary = PartnerSummary(partner: Partner, paymentsReceived: real, tier: Tier,
                                           totalOpportunitiesValue: real, conversionRate: real,
                                           commissionToPay: real, generatedRevenue: real)

  /** `{ ...partner, paymentsReceived, tier, ... }` from the partner's payments received
      and its deals; None when its type has no thresholds, where `getPartnerDetails`
      throws. */
  function SummaryOf(partner: Partner, received: real, partnerDeals: seq<Deal>): (r: Option<PartnerSummary>)
    ensures r.Some? <==> TypeOf(partner.kind).Some?
    ensures r.Some? ==> r.value.partner == partner
  {
    var wonDeals := Filter(partnerDeals, IsWon);
    match DetailsForKind(received, partner.kind)
    case None => None
    case Some(tier) =>
      Some(PartnerSummary(partner, received, tier, Sum(partnerDeals, DealAmount),
                          ConversionRate(|wonDeals|, |partnerDeals|), Commission(received, tier),
                          Sum(wonDeals, DealAmount)))
  }

  /** The figures of one partner from the filtered payments and deals. */
  function Summarize(partner: Partner, payments: seq<Payment>, deals: seq<Deal>): (r: Option<PartnerSummary>)
  {
    SummaryOf(partner, Sum(Filter(payments, HasKey(PaymentPartnerId, partner.id)), PaymentAmount),
              Filter(deals, HasKey(DealPartnerId, partner.id)))
  }

  /** What the figures of a partner mean: its payments received are the sum over the
      payments filed under its id, its opportunities the deals filed under it, its
      revenue the won ones among them; the tier and the commission follow from the
      payments received, and the conversion rate is a percentage. */
  lemma SummaryFacts(partner: Partner, payments: seq<Payment>, deals: seq<Deal>)
    requires Summarize(partner, payments, deals).Some?
    ensures var s := Summarize(partner, payments, deals).value;
      var partnerDeals := Filter(deals, HasKey(DealPartnerId, partner.id));
      && s.paymentsReceived == Sum(Filter(payments, HasKey(PaymentPartnerId, partner.id)), PaymentAmount)
      && s.totalOpportunitiesValue == Sum(partnerDeals, DealAmount)
      && s.generatedRevenue == Sum(Filter(partnerDeals, IsWon), DealAmount)
      && s.tier == PartnerDetails(s.paymentsReceived, TypeOf(partner.kind).value)
      && s.commissionToPay == Commission(s.paymentsReceived, s.tier)
      && 0.0 <= s.conversionRate <= 100.0
      && (partnerDeals == [] ==> s.conversionRate == 0.0)
  {
  }

  /** The mapping of `partners.map(...)`, for the filtered payments and deals. */
  function SummarizeWith(payments: seq<Payment>, deals: seq<Deal>): Partner -> Option<PartnerSummary> {
    p => Summarize(p, payments, deals)
  }

  /** `partners.map(...)`: one summary per partner, in order; None when any partner's
      type has no thresholds. */
  function PartnersWithDetails(partners: seq<Partner>, payments: seq<Payment>, deals: seq<Deal>): (r: Option<seq<PartnerSummary>>)
    ensures r.None? <==> exists i :: 0 <= i < |partners| && TypeOf(partners[i].kind).None?
    ensures r.Some? ==> |r.value| == |partners|
    ensures r.Some? ==> forall i :: 0 <= i < |partners| ==> Some(r.value[i]) == Summarize(partners[i], payments, deals)
  {
    var f := SummarizeWith(payments, deals);
    MapOrThrowSpec(partners, f);
    assert forall p :: f(p).None? <==> TypeOf(p.kind).None?;
    MapOrThrow(partners, f)
  }

  /** The memo as the source computes it: two `reduce`s into per-partner objects, then one
      pass over the partners reading them with `|| 0` and `|| []`. */
  method ComputePartnersWithDetails(partners: seq<Partner>, payments: seq<Payment>, deals: seq<Deal>)
    returns (r: Option<seq<PartnerSummary>>)
    ensures r == PartnersWithDetails(partners, payments, deals)
  {
    var paymentsByPartner := SumBy(payments, PaymentPartnerId, PaymentAmount);
    var dealsByPartner := GroupBy(deals, DealPartnerId);
    var rows: seq<PartnerSummary> := [];
    var i := 0;
    while i < |partners|
      invariant 0 <= i <= |partners|
      invariant |rows| == i
      invariant forall j :: 0 <= j < i ==> Summarize(partners[j], payments, deals) == Some(rows[j])
    {
      var partner := partners[i];
      var received := if partner.id in paymentsByPartner then paymentsByPartner[partner.id] else 0.0;
      var partnerDeals := if partner.id in dealsByPartner then dealsByPartner[partner.id] else [];
      assert received == Sum(Filter(payments, HasKey(PaymentPartnerId, partner.id)), PaymentAmount);
      assert partnerDeals == Filter(deals, HasKey(DealPartnerId, partner.id));
      var row := SummaryOf(partner, received, partnerDeals);
      assert Summarize(partner, payments, deals) == row;
      if row.None? {
        assert TypeOf(partners[i].kind).None?;
        return None;
      }
      rows := rows + [row.value];
      i := i + 1;
    }
    r := Some(rows);
    DetailsFromRows(partners, payments, deals, rows);
  }

  /** Rows holding each partner's summary, in order, are the partners' figures. */
  lemma DetailsFromRows(partners: seq<Partner>, payments: seq<Payment>, deals: seq<Deal>, rows: seq<PartnerSummary>)
    requires |rows| == |partners|
    requires forall j :: 0 <= j < |partners| ==> Summarize(partners[j], payments, deals) == Some(rows[j])
    ensures PartnersWithDetails(partners, payments, deals) == Some(rows)
  {
    var r := PartnersWithDetails(partners, payments, deals);
    assert r.value == rows;
  }

  /** The won deals' value plus the other deals' value is the value of all the partner's
      opportunities. */
  lemma OpportunitiesSplit(partner: Partner, payments: seq<Payment>, deals: seq<Deal>)
    requires Summarize(partner, payments, deals).Some?
    ensures var s := Summarize(partner, payments, deals).value;
      s.totalOpportunitiesValue == s.generatedRevenue
        + Sum(Filter(Filter(deals, HasKey(DealPartnerId, partner.id)), IsNotWon), DealAmount)
  {
    SumPartition(Filter(deals, HasKey(DealPartnerId, partner.id)), IsWon, IsNotWon, DealAmount);
  }

  /** Records filed under another id do not touch a partner's filtered records. */
  lemma UnmatchedFiltered<T>(items: seq<T>, more: seq<T>, key: T -> string, id: string)
    requires forall j :: 0 <= j < |more| ==> key(more[j]) != id
    ensures Filter(items + more, HasKey(key, id)) == Filter(items, HasKey(key, id))
  {
    FilterAppend(items, more, HasKey(key, id));
    FilterNone(more, HasKey(key, id));
    assert Filter(items, HasKey(key, id)) + [] == Filter(items, HasKey(key, id));
  }

  /** Payments and deals filed under no partner's id change no partner's figures. */
  lemma {:induction false} UnmatchedRecordsIgnored(partners: seq<Partner>, payments: seq<Payment>, deals: seq<Deal>,
                                                   morePayments: seq<Payment>, moreDeals: seq<Deal>)
    requires forall i, j :: 0 <= i < |partners| && 0 <= j < |morePayments| ==> morePayments[j].partnerId != partners[i].id
    requires forall i, j :: 0 <= i < |partners| && 0 <= j < |moreDeals| ==> moreDeals[j].partnerId != partners[i].id
    ensures PartnersWithDetails(partners, payments + morePayments, deals + moreDeals)
         == PartnersWithDetails(partners, payments, deals)
  {
    if partners != [] {
      var init := partners[..|partners| - 1];
      var p := partners[|partners| - 1];
      UnmatchedRecordsIgnored(init, payments, deals, morePayments, moreDeals);
      UnmatchedFiltered(payments, morePayments, PaymentPartnerId, p.id);
      UnmatchedFiltered(deals, moreDeals, DealPartnerId, p.id);
    }
  }

  function LowerName(p: Partner): string { ToLower(p.name) }

  /** `new Map(partners.map(p => [p.name.toLowerCase(), p.id]))`: each lowercased name
      maps to the id of the last partner with that lowercased name. */
  function Directory(partners: seq<Partner>): (d: map<string, string>)
    ensures forall name :: name in d <==> LastMatch(partners, LowerName, name).Some?
    ensures forall name :: name in d ==> d[name] == LastMatch(partners, LowerName, name).value.id
  {
    if partners == [] then map[]
    else
      var last := partners[|partners| - 1];
      Directory(partners[..|partners| - 1])[ToLower(last.name) := last.id]
  }

  /** A payment's own fields in an imported record. */
  datatype PaymentFields = PaymentFields(clientName: string, paymentValue: real, paymentDate: int)

  /** The record set in the batch for a row (`createdAt` is the server's clock and is not
      modelled); `payment` is present exactly for the payments collection. */
  datatype ImportedRecord = ImportedRecord(partnerId: string, partnerName: string, payment: Option<PaymentFields>)

  /** `Timestamp.fromDate(new Date(text.split(' ')[0]))` in UTC milliseconds; None where
      the Date is invalid or the Timestamp constructor rejects year 0000. */
  function ImportedDate(text: string): (r: Option<int>)
    ensures r.Some? <==> ParseCivil(BeforeFirstSpace(text)).Some? && ParseCivil(BeforeFirstSpace(text)).value.year != 0
    ensures r.Some? ==> r == ParseDate(BeforeFirstSpace(text))
  {
    var day := BeforeFirstSpace(text);
    match ParseCivil(day)
    case None => None
    case Some(d) =>
      ParsedDateTimestamp(day);
      TimestampFromMillis(d.Millis())
  }

  /** The body of the import's `forEach` for one row. A row whose lowercased, untrimmed
      `partnerName` is not in the directory (or maps to an empty id) fails. For payments,
      a missing `paymentDate` makes `split` throw, an unusable date makes
      `Timestamp.fromDate` throw, and a missing `clientName` makes `batch.set` throw on
      the undefined field. */
  function ImportRow(directory: map<string, string>, forPayments: bool, row: Row): (r: RowResult<ImportedRecord>)
    ensures r.Fails? <==> !("partnerName" in row && ToLower(row["partnerName"]) in directory
                            && directory[ToLower(row["partnerName"])] != "")
    ensures r.Writes? ==> r.record.partnerId == directory[ToLower(row["partnerName"])]
                          && r.record.partnerName == row["partnerName"]
                          && (r.record.payment.Some? <==> forPayments)
    ensures r.Throws? <==>
              (forPayments && !r.Fails?
               && ("paymentDate" !in row || ImportedDate(row["paymentDate"]).None? || "clientName" !in row))
    ensures r.Writes? && forPayments ==>
      r.record.payment.value == PaymentFields(row["clientName"], ParseBrazilianCurrencyInApp(Cell(row, "paymentValue")),
                                              ImportedDate(row["paymentDate"]).value)
  {
    if "partnerName" !in row then Fails
    else
      var key := ToLower(row["partnerName"]);
      if key !in directory || directory[key] == "" then Fails
      else if !forPayments then Writes(ImportedRecord(directory[key], row["partnerName"], None))
      else if "paymentDate" !in row then Throws
      else
        match ImportedDate(row["paymentDate"])
        case None => Throws
        case Some(ms) =>
          if "clientName" !in row then Throws
          else
            var fields := PaymentFields(row["clientName"], ParseBrazilianCurrencyInApp(Cell(row, "paymentValue")), ms);
            Writes(ImportedRecord(directory[key], row["partnerName"], Some(fields)))
  }

  /** The loop body as a function value over the rows. */
  function ImportBody(directory: map<string, string>, forPayments: bool): Row -> RowResult<ImportedRecord> {
    row => ImportRow(directory, forPayments, row)
  }

  /** A row's record names the last partner whose lowercased name is the row's
      lowercased `partnerName`. */
  lemma ImportedPartner(partners: seq<Partner>, forPayments: bool, row: Row)
    requires ImportRow(Directory(partners), forPayments, row).Writes?
    ensures exists i ::
              && 0 <= i < |partners|
              && partners[i].id == ImportRow(Directory(partners), forPayments, row).record.partnerId
              && ToLower(partners[i].name) == ToLower(row["partnerName"])
              && forall j :: i < j < |partners| ==> ToLower(partners[j].name) != ToLower(row["partnerName"])
  {
    LastMatchSpec(partners, LowerName, ToLower(row["partnerName"]));
  }

  /** `handleImport(file, collectionName)`: returns early without a file or a database;
      otherwise the rows of the CSV go through the loop body above and the batch is
      committed. A parse error or a failed commit rejects; a throwing row leaves the
      promise unsettled; otherwise the import resolves with the number of rows written
      and the number of rows skipped, and the records committed are those of the
      written rows, in row order. */
  method HandleImport(hasFile: bool, hasDb: bool, partners: seq<Partner>, collectionName: string,
                      csv: Option<seq<Row>>, commitSucceeds: bool)
    returns (outcome: ImportOutcome, committed: seq<ImportedRecord>)
    ensures !hasFile || !hasDb ==> outcome == NotStarted
    ensures hasFile && hasDb && csv.None? ==> outcome == Rejected
    ensures hasFile && hasDb && csv.Some? ==>
      (outcome == NeverSettles <==>
        exists i :: 0 <= i < |csv.value| && ImportRow(Directory(partners), collectionName == "payments", csv.value[i]).Throws?)
    ensures hasFile && hasDb && csv.Some?
            && (forall i :: 0 <= i < |csv.value| ==> !ImportRow(Directory(partners), collectionName == "payments", csv.value[i]).Throws?)
            ==>
      var written := Filter(csv.value, WritesRow(ImportBody(Directory(partners), collectionName == "payments")));
      if commitSucceeds then
        && outcome == Resolved(|written|, |csv.value| - |written|)
        && |committed| == |written|
        && forall k :: 0 <= k < |written| ==>
             ImportRow(Directory(partners), collectionName == "payments", written[k]) == Writes(committed[k])
      else outcome == Rejected
    ensures !outcome.Resolved? ==> committed == []
  {
    var directory := Directory(partners);
    var body := ImportBody(directory, collectionName == "payments");
    outcome, committed := RunImport(hasFile && hasDb, csv, body, commitSucceeds);
    if csv.Some? {
      if outcome == NeverSettles {
        assert Reconcile(csv.value, body).None?;
      }
    }
  }

}
