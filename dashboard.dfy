/** The dashboard page: four headline figures over the partners' figures and the deals
    of the period, the five most recent opportunities and the five most recent
    activities, each activity labelled with its partner's name. */
module Dashboard {
  import opened Wrappers
  import opened Js
  import opened Seqs
  import opened Records
  import opened App
  import Pagination

  /** The four headline figures. */
  datatype Stats = Stats(partnerCount: nat, opportunityCount: nat,
                         totalGeneratedRevenue: real, totalPayments: real)

  function PaymentsReceivedOf(s: PartnerSummary): real { s.paymentsReceived }
  function GeneratedRevenueOf(s: PartnerSummary): real { s.generatedRevenue }

  /** The totals `useMemo` (two `reduce`s from 0) and the stats cards. */
  function DashboardStats(partners: seq<PartnerSummary>, deals: seq<Deal>): Stats {
    Stats(|partners|, |deals|, Sum(partners, GeneratedRevenueOf), Sum(partners, PaymentsReceivedOf))
  }

  /** The ids of a list of partners. */
  function IdsOf(partners: seq<Partner>): set<string> {
    set i | 0 <= i < |partners| :: partners[i].id
  }

  /** No two partners share an id. */
  predicate DistinctIds(partners: seq<Partner>) {
    forall i, j :: 0 <= i < j < |partners| ==> partners[i].id != partners[j].id
  }

  /** The figures of a list of partners are those of all but the last, followed by the
      figures of the last. */
  lemma DetailsSnoc(partners: seq<Partner>, payments: seq<Payment>, deals: seq<Deal>)
    requires partners != [] && PartnersWithDetails(partners, payments, deals).Some?
    ensures var init := partners[..|partners| - 1];
      && PartnersWithDetails(init, payments, deals).Some?
      && Summarize(partners[|partners| - 1], payments, deals).Some?
      && PartnersWithDetails(partners, payments, deals).value
         == PartnersWithDetails(init, payments, deals).value + [Summarize(partners[|partners| - 1], payments, deals).value]
  {
    var init := partners[..|partners| - 1];
    var rows := PartnersWithDetails(partners, payments, deals).value;
    assert Some(rows[|partners| - 1]) == Summarize(partners[|partners| - 1], payments, deals);
    var before := PartnersWithDetails(init, payments, deals).value;
    forall i | 0 <= i < |before| ensures rows[i] == before[i] {
      assert partners[i] == init[i];
    }
  }

  /** With distinct partner ids, the payments total is the sum over exactly the
      payments filed under some partner's id: each such payment is counted once, and
      payments of unknown partners are not counted. */
  lemma {:induction false} TotalPaymentsAttributed(partners: seq<Partner>, payments: seq<Payment>, deals: seq<Deal>)
    requires DistinctIds(partners)
    requires PartnersWithDetails(partners, payments, deals).Some?
    ensures Sum(PartnersWithDetails(partners, payments, deals).value, PaymentsReceivedOf)
         == Sum(Filter(payments, KeyIn(PaymentPartnerId, IdsOf(partners))), PaymentAmount)
  {
    if partners == [] {
      FilterNone(payments, KeyIn(PaymentPartnerId, IdsOf(partners)));
    } else {
      var init, last := partners[..|partners| - 1], partners[|partners| - 1];
      DetailsSnoc(partners, payments, deals);
      TotalPaymentsAttributed(init, payments, deals);
      var rows := PartnersWithDetails(init, payments, deals).value;
      var row := Summarize(last, payments, deals).value;
      SumSnoc(rows, row, PaymentsReceivedOf);
      SummaryFacts(last, payments, deals);
      SplitLastId(partners);
      SumOverKeys(payments, PaymentPartnerId, PaymentAmount, IdsOf(init), last.id);
    }
  }

  /** With distinct partner ids, the revenue total is the sum over exactly the won
      deals filed under some partner's id. */
  lemma {:induction false} TotalRevenueAttributed(partners: seq<Partner>, payments: seq<Payment>, deals: seq<Deal>)
    requires DistinctIds(partners)
    requires PartnersWithDetails(partners, payments, deals).Some?
    ensures Sum(PartnersWithDetails(partners, payments, deals).value, GeneratedRevenueOf)
         == Sum(Filter(Filter(deals, IsWon), KeyIn(DealPartnerId, IdsOf(partners))), DealAmount)
  {
    var won := Filter(deals, IsWon);
    if partners == [] {
      FilterNone(won, KeyIn(DealPartnerId, IdsOf(partners)));
    } else {
      var init, last := partners[..|partners| - 1], partners[|partners| - 1];
      DetailsSnoc(partners, payments, deals);
      TotalRevenueAttributed(init, payments, deals);
      var rows := PartnersWithDetails(init, payments, deals).value;
      var row := Summarize(last, payments, deals).value;
      SumSnoc(rows, row, GeneratedRevenueOf);
      SummaryFacts(last, payments, deals);
      FilterCommute(deals, HasKey(DealPartnerId, last.id), IsWon);
      SplitLastId(partners);
      SumOverKeys(won, DealPartnerId, DealAmount, IdsOf(init), last.id);
    }
  }

  /** The ids of a list of distinct partners are the ids of all but the last plus the
      last one's id, which is new. */
  lemma SplitLastId(partners: seq<Partner>)
    requires partners != [] && DistinctIds(partners)
    ensures var init := partners[..|partners| - 1];
      && IdsOf(partners) == IdsOf(init) + {partners[|partners| - 1].id}
      && partners[|partners| - 1].id !in IdsOf(init)
      && DistinctIds(init)
  {
    var init := partners[..|partners| - 1];
    assert forall i :: 0 <= i < |init| ==> init[i] == partners[i];
    forall x | x in IdsOf(partners) ensures x in IdsOf(init) + {partners[|partners| - 1].id} {
      var i :| 0 <= i < |partners| && partners[i].id == x;
      if i < |init| {
        assert init[i].id == x;
      }
    }
  }

  /** What the headline figures mean, for the partners' figures and the deals of the
      period: one partner count per partner, one opportunity per deal, and with distinct
      partner ids the two totals are the sums over the payments and won deals that
      belong to a known partner. */
  lemma StatsMeaning(partners: seq<Partner>, payments: seq<Payment>, deals: seq<Deal>)
    requires DistinctIds(partners)
    requires PartnersWithDetails(partners, payments, deals).Some?
    ensures var s := DashboardStats(PartnersWithDetails(partners, payments, deals).value, deals);
      && s.partnerCount == |partners|
      && s.opportunityCount == |deals|
      && s.totalPayments == Sum(Filter(payments, KeyIn(PaymentPartnerId, IdsOf(partners))), PaymentAmount)
      && s.totalGeneratedRevenue == Sum(Filter(Filter(deals, IsWon), KeyIn(DealPartnerId, IdsOf(partners))), DealAmount)
  {
    TotalPaymentsAttributed(partners, payments, deals);
    TotalRevenueAttributed(partners, payments, deals);
  }

  /** `s.slice(0, 5)`: the first five items, or all of them when there are fewer. */
  function FirstFive<T>(s: seq<T>): (r: seq<T>)
    ensures |r| == if |s| < 5 then |s| else 5
    ensures r == s[..|r|]
  {
    SliceInRange(s, 0, 5);
    Slice(s, 0, 5)
  }

  /** The mini deal list receives at most five deals, so its first page of ten shows
      all of them. */
  lemma MiniListShowsAll(deals: seq<Deal>)
    ensures Pagination.PageOf(FirstFive(deals), 1, Pagination.DefaultItemsPerPage) == FirstFive(deals)
  {
    Pagination.PageContents(FirstFive(deals), 1, Pagination.DefaultItemsPerPage);
  }

  /** The partners behind the figures, whose id and name the activity labels use. */
  function PartnersOf(rows: seq<PartnerSummary>): (r: seq<Partner>)
    ensures |r| == |rows|
    ensures forall i :: 0 <= i < |rows| ==> r[i] == rows[i].partner
  {
    if rows == [] then [] else PartnersOf(rows[..|rows| - 1]) + [rows[|rows| - 1].partner]
  }

  /** The partner line of an activity: the name the id-to-name map holds for its
      partner, or 'Desconhecido' when there is none or it is empty. */
  function ActivityPartnerLabel(rows: seq<PartnerSummary>, a: Activity): (r: string)
    ensures r != ""
    ensures NameById(PartnersOf(rows), a.partnerId).Some? && NameById(PartnersOf(rows), a.partnerId).value != ""
            ==> r == NameById(PartnersOf(rows), a.partnerId).value
    ensures NameById(PartnersOf(rows), a.partnerId).None? || NameById(PartnersOf(rows), a.partnerId).value == ""
            ==> r == "Desconhecido"
    ensures (forall i :: 0 <= i < |rows| ==> rows[i].partner.id != a.partnerId) ==> r == "Desconhecido"
  {
    LastMatchSpec(PartnersOf(rows), PartnerId, a.partnerId);
    var name := NameById(PartnersOf(rows), a.partnerId);
    if name.Some? && name.value != "" then name.value else "Desconhecido"
  }

  /** One line of the recent-activities list. */
  datatype ActivityLine = ActivityLine(title: string, partnerName: string)

  /** What the recent-activities box shows. */
  datatype RecentView = NoActivities | Lines(lines: seq<ActivityLine>)

  /** `RecentActivities`: the id-to-name map built partner by partner, then the message
      for an empty list, or one line per activity among the first five. */
  method RecentActivities(activities: seq<Activity>, rows: seq<PartnerSummary>) returns (view: RecentView)
    ensures view.NoActivities? <==> activities == []
    ensures view.Lines? ==> |view.lines| == |FirstFive(activities)|
    ensures view.Lines? ==> forall i :: 0 <= i < |view.lines| ==>
      view.lines[i] == ActivityLine(activities[i].title, ActivityPartnerLabel(rows, activities[i]))
  {
    var names := BuildNameMap(PartnersOf(rows));
    if |activities| == 0 {
      return NoActivities;
    }
    var shown := FirstFive(activities);
    var lines: seq<ActivityLine> := [];
    var i := 0;
    while i < |shown|
      invariant 0 <= i <= |shown|
      invariant |lines| == i
      invariant forall j :: 0 <= j < i ==> lines[j] == ActivityLine(activities[j].title, ActivityPartnerLabel(rows, activities[j]))
    {
      var a := shown[i];
      var name := if a.partnerId in names && names[a.partnerId] != "" then names[a.partnerId] else "Desconhecido";
      lines := lines + [ActivityLine(a.title, name)];
      i := i + 1;
    }
    view := Lines(lines);
  }
}
