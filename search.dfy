/** The case-insensitive search box of the content hubs: with a search term, an item is
    kept when one of its text fields, lower-cased, contains the lower-cased term. */
module Search {
  import opened Js
  import opened Seqs

  /** Some field, lower-cased, contains `lowerTerm` (the fields are tried in order and
      joined with `||`). */
  predicate AnyIncludes(fields: seq<string>, lowerTerm: string) {
    fields != [] && (Includes(ToLower(fields[0]), lowerTerm) || AnyIncludes(fields[1..], lowerTerm))
  }

  /** An item matches when one of its fields contains the term. */
  lemma {:induction false} AnyIncludesSpec(fields: seq<string>, lowerTerm: string)
    ensures AnyIncludes(fields, lowerTerm) <==> exists i :: 0 <= i < |fields| && Includes(ToLower(fields[i]), lowerTerm)
  {
    if fields != [] {
      AnyIncludesSpec(fields[1..], lowerTerm);
      if AnyIncludes(fields[1..], lowerTerm) {
        var i :| 0 <= i < |fields| - 1 && Includes(ToLower(fields[1..][i]), lowerTerm);
        assert fields[i + 1] == fields[1..][i];
      }
      if exists i :: 0 <= i < |fields| && Includes(ToLower(fields[i]), lowerTerm) {
        var i :| 0 <= i < |fields| && Includes(ToLower(fields[i]), lowerTerm);
        if i > 0 {
          assert fields[1..][i - 1] == fields[i];
        }
      }
    }
  }

  /** `item => fields(item).some(f => f.toLowerCase().includes(lowerTerm))`. */
  function Matcher<T>(fields: T -> seq<string>, lowerTerm: string): T -> bool {
    x => AnyIncludes(fields(x), lowerTerm)
  }

  /** `if (!searchTerm) return items; ... items.filter(...)`: an empty term keeps every
      item, any other term is lower-cased once and matched against each item. */
  function SearchFilter<T>(items: seq<T>, fields: T -> seq<string>, term: string): seq<T> {
    if term == "" then items else Filter(items, Matcher(fields, ToLower(term)))
  }

  /** What the search keeps: everything for an empty term, and otherwise exactly the
      items with a field containing the term, both lower-cased, in their original
      order. */
  lemma SearchFilterSpec<T>(items: seq<T>, fields: T -> seq<string>, term: string)
    ensures term == "" ==> SearchFilter(items, fields, term) == items
    ensures forall x :: x in SearchFilter(items, fields, term)
                        <==> x in items && (term == "" || AnyIncludes(fields(x), ToLower(term)))
    ensures IsSubsequence(SearchFilter(items, fields, term), items)
    ensures forall x :: multiset(SearchFilter(items, fields, term))[x]
                        == if term == "" || AnyIncludes(fields(x), ToLower(term)) then multiset(items)[x] else 0
  {
    if term == "" {
      SubsequenceReflexive(items);
    } else {
      var p := Matcher(fields, ToLower(term));
      assert forall x :: p(x) == AnyIncludes(fields(x), ToLower(term));
      FilterMembership(items, p);
      FilterIsSubsequence(items, p);
      FilterCount(items, p);
    }
  }

  /** The letter case of the term does not matter, and searching the results again
      with the same term changes nothing. */
  lemma SearchCaseAndRepeat<T>(items: seq<T>, fields: T -> seq<string>, term: string)
    ensures SearchFilter(items, fields, ToLower(term)) == SearchFilter(items, fields, term)
    ensures SearchFilter(SearchFilter(items, fields, term), fields, term) == SearchFilter(items, fields, term)
  {
    ToLowerIdempotent(term);
    if term != "" {
      FilterIdempotent(items, Matcher(fields, ToLower(term)));
    }
  }

  /** Under the per-character lowering of this model, a longer term that contains a
      shorter one finds only items the shorter one finds: searching the shorter term's
      results for the longer term is searching for the longer term directly. */
  lemma SearchNarrowing<T>(items: seq<T>, fields: T -> seq<string>, shorter: string, longer: string)
    requires Includes(longer, shorter)
    ensures SearchFilter(SearchFilter(items, fields, shorter), fields, longer) == SearchFilter(items, fields, longer)
    ensures IsSubsequence(SearchFilter(items, fields, longer), SearchFilter(items, fields, shorter))
  {
    if shorter == "" {
      SearchFilterSpec(items, fields, longer);
    } else {
      assert longer != "";
      var p, q := Matcher(fields, ToLower(shorter)), Matcher(fields, ToLower(longer));
      IncludesToLower(longer, shorter);
      forall x | q(x) ensures p(x) {
        AnyIncludesSpec(fields(x), ToLower(longer));
        AnyIncludesSpec(fields(x), ToLower(shorter));
        var i :| 0 <= i < |fields(x)| && Includes(ToLower(fields(x)[i]), ToLower(longer));
        IncludesTransitive(ToLower(fields(x)[i]), ToLower(longer), ToLower(shorter));
      }
      FilterNarrowing(items, p, q);
      FilterIsSubsequence(Filter(items, p), q);
    }
  }
}
