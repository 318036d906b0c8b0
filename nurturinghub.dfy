/** The nurturing-content hub: a list of articles searched by title and body. */
module NurturingHub {
  import opened Js
  import opened Seqs
  import opened Search

  /** A nurturing article. */
  datatype NurturingItem = NurturingItem(id: string, title: string, content: string)

  /** The fields the search looks at, in the order they are tried. */
  function Fields(item: NurturingItem): seq<string> { [item.title, item.content] }

  /** `filteredContent`: the whole list for an empty term, otherwise the articles whose
      title or body contains the term, ignoring letter case, in their original order. */
  function FilteredContent(items: seq<NurturingItem>, term: string): (r: seq<NurturingItem>)
    ensures term == "" ==> r == items
    ensures forall x :: x in r <==> x in items && (term == "" || Includes(ToLower(x.title), ToLower(term))
                                                            || Includes(ToLower(x.content), ToLower(term)))
    ensures IsSubsequence(r, items)
    ensures forall x :: multiset(r)[x] == if term == "" || Includes(ToLower(x.title), ToLower(term))
                                              || Includes(ToLower(x.content), ToLower(term))
                                           then multiset(items)[x] else 0
  {
    SearchFilterSpec(items, Fields, term);
    forall x: NurturingItem ensures AnyIncludes(Fields(x), ToLower(term))
        <==> Includes(ToLower(x.title), ToLower(term)) || Includes(ToLower(x.content), ToLower(term)) {
      var t := ToLower(term);
      assert Fields(x)[1..] == [x.content];
      assert !AnyIncludes(Fields(x)[1..][1..], t);
      assert AnyIncludes(Fields(x)[1..], t) == Includes(ToLower(x.content), t);
    }
    SearchFilter(items, Fields, term)
  }

  /** The result does not depend on the letter case of the term, and filtering the
      result again with the same term returns it unchanged. */
  lemma FilteredContentCaseAndRepeat(items: seq<NurturingItem>, term: string)
    ensures FilteredContent(items, ToLower(term)) == FilteredContent(items, term)
    ensures FilteredContent(FilteredContent(items, term), term) == FilteredContent(items, term)
  {
    SearchCaseAndRepeat(items, Fields, term);
  }
}
