/** The partner detail page, reached through the partner id in the route: the partner's
    figures, its activities, and the button that opens the form for a new activity. */
module PartnerDetail {
  import opened Wrappers
  import opened Seqs
  import opened Records
  import opened App

  function SummaryId(s: PartnerSummary): string { s.partner.id }
  function ActivityPartnerId(a: Activity): string { a.partnerId }

  /** `allActivities.filter(a => a.partnerId === partnerId)`. */
  function PartnerActivities(activities: seq<Activity>, id: string): seq<Activity> {
    Filter(activities, HasKey(ActivityPartnerId, id))
  }

  /** The partner's activities are exactly the activities carrying its id, in their
      original order. */
  lemma PartnerActivitiesSpec(activities: seq<Activity>, id: string)
    ensures forall a :: a in PartnerActivities(activities, id) <==> a in activities && a.partnerId == id
    ensures IsSubsequence(PartnerActivities(activities, id), activities)
    ensures forall a :: multiset(PartnerActivities(activities, id))[a]
                        == if a.partnerId == id then multiset(activities)[a] else 0
    ensures (forall i :: 0 <= i < |activities| ==> activities[i].partnerId == id)
            ==> PartnerActivities(activities, id) == activities
  {
    var p := HasKey(ActivityPartnerId, id);
    forall a ensures p(a) == (a.partnerId == id) {
      assert ActivityPartnerId(a) == a.partnerId;
    }
    FilterMembership(activities, p);
    FilterIsSubsequence(activities, p);
    FilterCount(activities, p);
    if forall i :: 0 <= i < |activities| ==> activities[i].partnerId == id {
      FilterKeepsAll(activities, p);
    }
  }

  /** The data the add-activity button hands to the form: the partner's id and name,
      and an `id` field only when editing an existing activity. */
  datatype ActivitySeed = ActivitySeed(id: Option<string>, partnerId: string, partnerName: string)

  /** The form's `isEditMode`: the data is present and its `id` is truthy. */
  predicate IsEditMode(initialData: Option<ActivitySeed>) {
    initialData.Some? && initialData.value.id.Some? && initialData.value.id.value != ""
  }

  /** What the page renders. */
  datatype DetailPage = NotFound | Detail(partner: PartnerSummary, activities: seq<Activity>, seed: ActivitySeed)

  /** `PartnerDetail`: the first partner whose id is the route's, its activities and
      the seed of its add-activity button; the not-found message when no partner has
      the id. */
  function PartnerDetailPage(allPartners: seq<PartnerSummary>, allActivities: seq<Activity>, routeId: string)
    : (r: DetailPage)
    ensures r.NotFound? <==> forall i :: 0 <= i < |allPartners| ==> allPartners[i].partner.id != routeId
    ensures r.Detail? ==> exists i :: 0 <= i < |allPartners| && allPartners[i] == r.partner
                                      && r.partner.partner.id == routeId
                                      && forall j :: 0 <= j < i ==> allPartners[j].partner.id != routeId
    ensures r.Detail? ==> forall a :: a in r.activities <==> a in allActivities && a.partnerId == routeId
    ensures r.Detail? ==> IsSubsequence(r.activities, allActivities)
    ensures r.Detail? ==> forall a :: multiset(r.activities)[a]
                                      == if a.partnerId == routeId then multiset(allActivities)[a] else 0
    ensures r.Detail? ==> r.activities == PartnerActivities(allActivities, routeId)
    ensures r.Detail? ==> r.seed.partnerId == routeId && r.seed.partnerName == r.partner.partner.name
    ensures r.Detail? ==> !IsEditMode(Some(r.seed))
  {
    match FirstMatch(allPartners, SummaryId, routeId)
    case None => NotFound
    case Some(p) =>
      PartnerActivitiesSpec(allActivities, routeId);
      Detail(p, PartnerActivities(allActivities, routeId), ActivitySeed(None, p.partner.id, p.partner.name))
  }
}
