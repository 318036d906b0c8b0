/** The deal table: one page of deals at a time, a checkbox per row and one in the
    header that select deals for bulk actions, and a partner column that prefers the
    partner's current name over the one stored on the deal. */
module DealList {
  import opened Seqs
  import opened Records
  import opened Wrappers
  import Pagination

  /** `page.map(d => d.id)`. */
  function PageIds(page: seq<Deal>): (r: seq<string>)
    ensures |r| == |page|
    ensures forall i :: 0 <= i < |page| ==> r[i] == page[i].id
  {
    if page == [] then [] else PageIds(page[..|page| - 1]) + [page[|page| - 1].id]
  }

  /** `id => id !== k`. */
  function Differs(k: string): string -> bool {
    x => x != k
  }

  /** `selected.filter(dealId => dealId !== id)`. */
  function Deselect(selected: seq<string>, id: string): seq<string> {
    Filter(selected, Differs(id))
  }

  /** Unchecking a row removes every occurrence of its id and keeps every other id, in
      the same order. */
  lemma DeselectSpec(selected: seq<string>, id: string)
    ensures id !in Deselect(selected, id)
    ensures forall x :: x != id ==> (x in Deselect(selected, id) <==> x in selected)
    ensures IsSubsequence(Deselect(selected, id), selected)
    ensures id !in selected ==> Deselect(selected, id) == selected
    ensures forall x :: multiset(Deselect(selected, id))[x] == if x != id then multiset(selected)[x] else 0
  {
    FilterCount(selected, Differs(id));
    FilterMembership(selected, Differs(id));
    FilterIsSubsequence(selected, Differs(id));
    if id !in selected {
      FilterKeepsAll(selected, Differs(id));
    }
  }

  /** Checking a row and unchecking it again leaves the selection as if the id had
      never been selected at all. */
  lemma SelectThenDeselect(selected: seq<string>, id: string)
    ensures Deselect(selected + [id], id) == Deselect(selected, id)
  {
    FilterSnoc(selected, id, Differs(id));
  }

  /** The selection list the parent keeps for the table. */
  class Selection {
    var selected: seq<string>

    /** The parent's `useState([])`. */
    constructor ()
      ensures selected == []
    {
      selected := [];
    }

    /** `handleSelectAll`: checking the header selects exactly the ids of the page on
        screen, in page order (not the deals of other pages); unchecking it clears the
        selection. */
    method SelectAll(checked: bool, page: seq<Deal>)
      modifies this
      ensures selected == if checked then PageIds(page) else []
    {
      selected := if checked then PageIds(page) else [];
    }

    /** `handleSelectOne`: checking a row appends its id; unchecking it removes every
        occurrence of the id. */
    method SelectOne(checked: bool, id: string)
      modifies this
      ensures checked ==> selected == old(selected) + [id]
      ensures !checked ==> selected == Deselect(old(selected), id)
    {
      if checked {
        selected := selected + [id];
      } else {
        selected := Deselect(selected, id);
      }
    }

    /** The effect on `deals.length`: when the parent supplied a setter, the selection
        is emptied; without one, nothing happens. */
    method DealsLengthChanged(hasSetter: bool)
      modifies this
      ensures selected == if hasSetter then [] else old(selected)
    {
      if hasSetter {
        selected := [];
      }
    }
  }

  /** The header checkbox as written: checked when the page is non-empty and the
      selection is as long as the page. */
  predicate HeaderChecked(page: seq<Deal>, selected: seq<string>) {
    |page| > 0 && |selected| == |page|
  }

  /** The selection survives paging. Take twenty deals with distinct ids, select all of
      page 1 and move to page 2: the header shows as checked, although no deal of the
      page on screen is selected. */
  lemma HeaderCheckedOnOtherPage(deals: seq<Deal>)
    requires |deals| == 20
    requires forall i, j :: 0 <= i < j < |deals| ==> deals[i].id != deals[j].id
    ensures var first := Pagination.PageOf(deals, 1, Pagination.DefaultItemsPerPage);
            var shown := Pagination.PageOf(deals, 2, Pagination.DefaultItemsPerPage);
            && HeaderChecked(shown, PageIds(first))
            && forall i :: 0 <= i < |shown| ==> shown[i].id !in PageIds(first)
  {
    var first := Pagination.PageOf(deals, 1, Pagination.DefaultItemsPerPage);
    var shown := Pagination.PageOf(deals, 2, Pagination.DefaultItemsPerPage);
    Pagination.PageContents(deals, 1, Pagination.DefaultItemsPerPage);
    Pagination.PageContents(deals, 2, Pagination.DefaultItemsPerPage);
    assert first == deals[..10] && shown == deals[10..];
    forall i | 0 <= i < |shown| ensures shown[i].id !in PageIds(first) {
      forall j | 0 <= j < |first| ensures PageIds(first)[j] != shown[i].id {
        assert first[j] == deals[j] && shown[i] == deals[10 + i];
      }
    }
  }

  /** The header checkbox as intended: checked when the page is non-empty and every
      deal on it is selected. */
  predicate PageFullySelected(page: seq<Deal>, selected: seq<string>) {
    |page| > 0 && forall i :: 0 <= i < |page| ==> page[i].id in selected
  }

  /** Right after checking the header, it shows as checked exactly when the page has
      deals; right after unchecking, it never does. This holds for both readings of
      the header. */
  lemma HeaderAfterSelectAll(page: seq<Deal>)
    ensures HeaderChecked(page, PageIds(page)) <==> page != []
    ensures PageFullySelected(page, PageIds(page)) <==> page != []
    ensures !HeaderChecked(page, []) && !PageFullySelected(page, [])
  {
    if page != [] {
      assert page[0].id == PageIds(page)[0];
      forall i | 0 <= i < |page| ensures page[i].id in PageIds(page) {
        assert PageIds(page)[i] == page[i].id;
      }
    }
  }

  /** On a page whose ids are distinct and which the selection holds with no extra
      ids, the two readings agree. */
  lemma HeaderReadingsAgree(page: seq<Deal>, selected: seq<string>)
    requires forall i, j :: 0 <= i < j < |page| ==> page[i].id != page[j].id
    requires forall x :: x in selected ==> exists i :: 0 <= i < |page| && page[i].id == x
    requires forall i, j :: 0 <= i < j < |selected| ==> selected[i] != selected[j]
    ensures PageFullySelected(page, selected) ==> HeaderChecked(page, selected)
  {
    if PageFullySelected(page, selected) {
      var ids := set i | 0 <= i < |page| :: page[i].id;
      var chosen := set x | x in selected;
      assert chosen == ids;
      DistinctCard(selected);
      DistinctIdsCard(page);
    }
  }

  /** A list with no repeated element has as many distinct elements as entries. */
  lemma {:induction false} DistinctCard(s: seq<string>)
    requires forall i, j :: 0 <= i < j < |s| ==> s[i] != s[j]
    ensures |set x | x in s| == |s|
  {
    if s != [] {
      var init := s[..|s| - 1];
      DistinctCard(init);
      assert (set x | x in s) == (set x | x in init) + {s[|s| - 1]};
    }
  }

  /** Deals with distinct ids have as many distinct ids as deals. */
  lemma {:induction false} DistinctIdsCard(page: seq<Deal>)
    requires forall i, j :: 0 <= i < j < |page| ==> page[i].id != page[j].id
    ensures |set i | 0 <= i < |page| :: page[i].id| == |page|
  {
    if page != [] {
      var init := page[..|page| - 1];
      DistinctIdsCard(init);
      assert (set i | 0 <= i < |page| :: page[i].id)
          == (set i | 0 <= i < |init| :: init[i].id) + {page[|page| - 1].id};
    }
  }

  /** The partner column: the name the id-to-name map holds for the deal's partner,
      else the partner name stored on the deal, else 'Desconhecido'; an empty name
      counts as missing at each step. */
  function PartnerLabel(partners: Option<seq<Partner>>, d: Deal): (r: string)
    ensures r != ""
    ensures partners.Some? && NameById(partners.value, d.partnerId).Some?
            && NameById(partners.value, d.partnerId).value != ""
            ==> r == NameById(partners.value, d.partnerId).value
    ensures (partners.None? || NameById(partners.value, d.partnerId).None?
             || NameById(partners.value, d.partnerId).value == "")
            ==> r == if d.partnerName != "" then d.partnerName else "Desconhecido"
    ensures r == "Desconhecido" || r == d.partnerName
            || (partners.Some? && NameById(partners.value, d.partnerId) == Some(r))
  {
    var mapped := if partners.Some? then NameById(partners.value, d.partnerId) else None;
    if mapped.Some? && mapped.value != "" then mapped.value
    else if d.partnerName != "" then d.partnerName
    else "Desconhecido"
  }

  /** `partnerNameMap` followed by the partner cell of every row on the page: the map is
      empty when no partner list is given, and otherwise written partner by partner. */
  method PartnerColumn(partners: Option<seq<Partner>>, page: seq<Deal>) returns (cells: seq<string>)
    ensures |cells| == |page|
    ensures forall i :: 0 <= i < |page| ==> cells[i] == PartnerLabel(partners, page[i])
  {
    var names: map<string, string> := map[];
    if partners.Some? {
      names := BuildNameMap(partners.value);
    }
    cells := [];
    var i := 0;
    while i < |page|
      invariant 0 <= i <= |page|
      invariant |cells| == i
      invariant forall j :: 0 <= j < i ==> cells[j] == PartnerLabel(partners, page[j])
    {
      var d := page[i];
      var cell := if d.partnerId in names && names[d.partnerId] != "" then names[d.partnerId]
                  else if d.partnerName != "" then d.partnerName
                  else "Desconhecido";
      cells := cells + [cell];
      i := i + 1;
    }
  }
}
