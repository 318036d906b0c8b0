/** The resource hub: a list of sales resources searched by title, description and
    category. */
module ResourceHub {
  import opened Js
  import opened Seqs
  import opened Search

  /** A sales resource. */
  datatype Resource = Resource(id: string, title: string, description: string, category: string)

  /** The fields the search looks at, in the order they are tried. */
  function Fields(r: Resource): seq<string> { [r.title, r.description, r.category] }

  /** `filteredResources`: every resource for an empty term, otherwise the resources
      whose title, description or category contains the term, ignoring letter case, in
      their original order. */
  function FilteredResources(resources: seq<Resource>, term: string): (r: seq<Resource>)
    ensures term == "" ==> r == resources
    ensures forall x :: x in r <==> x in resources && (term == "" || Includes(ToLower(x.title), ToLower(term))
                                                                || Includes(ToLower(x.description), ToLower(term))
                                                                || Includes(ToLower(x.category), ToLower(term)))
    ensures IsSubsequence(r, resources)
    ensures forall x :: multiset(r)[x] == if term == "" || Includes(ToLower(x.title), ToLower(term))
                                              || Includes(ToLower(x.description), ToLower(term))
                                              || Includes(ToLower(x.category), ToLower(term))
                                           then multiset(resources)[x] else 0
  {
    SearchFilterSpec(resources, Fields, term);
    forall x: Resource ensures AnyIncludes(Fields(x), ToLower(term))
        <==> Includes(ToLower(x.title), ToLower(term)) || Includes(ToLower(x.description), ToLower(term))
             || Includes(ToLower(x.category), ToLower(term)) {
      var t := ToLower(term);
      assert Fields(x)[1..] == [x.description, x.category];
      assert Fields(x)[1..][1..] == [x.category];
      assert !AnyIncludes(Fields(x)[1..][1..][1..], t);
      assert AnyIncludes(Fields(x)[1..][1..], t) == Includes(ToLower(x.category), t);
      assert AnyIncludes(Fields(x)[1..], t) == (Includes(ToLower(x.description), t) || Includes(ToLower(x.category), t));
    }
    SearchFilter(resources, Fields, term)
  }

  /** Under the per-character lowering of this model, typing more of a term only
      narrows the list: when `longer` contains `shorter`, the resources found for
      `longer` are among those found for `shorter`, in the same order, and searching
      the latter for `longer` gives the former. */
  lemma LongerTermNarrows(resources: seq<Resource>, shorter: string, longer: string)
    requires Includes(longer, shorter)
    ensures IsSubsequence(FilteredResources(resources, longer), FilteredResources(resources, shorter))
    ensures FilteredResources(FilteredResources(resources, shorter), longer) == FilteredResources(resources, longer)
  {
    SearchNarrowing(resources, Fields, shorter, longer);
  }
}
