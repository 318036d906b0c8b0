/** The documents the dashboard reads from its Firestore collections, as the fields its
    logic uses, and the id-to-name lookup both list views build from the partners. */
module Records {
  import opened Wrappers
  import opened Js
  import opened Seqs

  /** A stored date field: absent (undefined or null), a Firestore Timestamp (its instant
      in UTC milliseconds), or any other value, such as a string an edit left
      unconverted, which has no `toDate` method. */
  datatype DateField = Absent | Stamp(millis: int) | Unconverted

  /** A partner; `kind` is the `type` field, with "" standing for a missing one. */
  datatype Partner = Partner(id: string, name: string, kind: string)

  /** An opportunity registered by a partner; `value` is whatever was stored. */
  datatype Deal = Deal(id: string, partnerId: string, partnerName: string, clientName: string,
                       value: JsValue, status: string, submissionDate: DateField)

  /** A payment received from a partner's client. */
  datatype Payment = Payment(id: string, partnerId: string, partnerName: string, clientName: string,
                             paymentValue: JsValue, paymentDate: DateField)

  /** An activity logged against a partner. */
  datatype Activity = Activity(id: string, partnerId: string, title: string)

  /** The status of a won deal. */
  const Won: string := "Ganho"

  /** A partner's id, as a function value for the lookups below. */
  function PartnerId(p: Partner): string { p.id }

  /** `x => key(x) === k`: the test that selects the items filed under `k`. */
  function HasKey<T>(key: T -> string, k: string): T -> bool {
    x => key(x) == k
  }

  /** The last item filed under `k`: what a map or object holds for `k` after writing
      every item under its key in order. */
  function LastMatch<T>(items: seq<T>, key: T -> string, k: string): Option<T>
  {
    if items == [] then None
    else if key(items[|items| - 1]) == k then Some(items[|items| - 1])
    else LastMatch(items[..|items| - 1], key, k)
  }

  /** `LastMatch` finds an item exactly when some item has the key, and the item it
      finds is the last one with that key. */
  lemma {:induction false} LastMatchSpec<T>(items: seq<T>, key: T -> string, k: string)
    ensures LastMatch(items, key, k).None? <==> forall i :: 0 <= i < |items| ==> key(items[i]) != k
    ensures LastMatch(items, key, k).Some? ==>
      exists i :: 0 <= i < |items| && items[i] == LastMatch(items, key, k).value && key(items[i]) == k
        && forall j :: i < j < |items| ==> key(items[j]) != k
  {
    if items != [] {
      var init := items[..|items| - 1];
      LastMatchSpec(init, key, k);
      if key(items[|items| - 1]) != k && LastMatch(init, key, k).Some? {
        var i :| 0 <= i < |init| && init[i] == LastMatch(init, key, k).value && key(init[i]) == k
          && forall j :: i < j < |init| ==> key(init[j]) != k;
        assert items[i] == init[i];
      }
    }
  }

  /** `items.find(x => key(x) === k)`: the first item filed under `k`. */
  function FirstMatch<T(==)>(items: seq<T>, key: T -> string, k: string): (r: Option<T>)
    ensures r.None? <==> forall i :: 0 <= i < |items| ==> key(items[i]) != k
    ensures r.Some? ==> exists i :: 0 <= i < |items| && items[i] == r.value && key(r.value) == k
                                    && forall j :: 0 <= j < i ==> key(items[j]) != k
  {
    if items == [] then None
    else if key(items[0]) == k then Some(items[0])
    else
      var r := FirstMatch(items[1..], key, k);
      assert forall i :: 0 < i < |items| ==> items[i] == items[1..][i - 1];
      if r.Some? then
        var i :| 0 <= i < |items| - 1 && items[1..][i] == r.value && key(r.value) == k
                 && forall j :: 0 <= j < i ==> key(items[1..][j]) != k;
        assert items[i + 1] == r.value;
        r
      else r
  }

  /** The name the id-to-name object holds for `id` after writing `map[p.id] = p.name` for
      every partner in order: the name of the last partner with that id. */
  function NameById(partners: seq<Partner>, id: string): Option<string>
  {
    match LastMatch(partners, PartnerId, id)
    case None => None
    case Some(p) => Some(p.name)
  }

  /** `partners.forEach(p => { map[p.id] = p.name; })` on an empty object. */
  method BuildNameMap(partners: seq<Partner>) returns (names: map<string, string>)
    ensures forall id :: id in names <==> NameById(partners, id).Some?
    ensures forall id :: id in names ==> names[id] == NameById(partners, id).value
  {
    names := map[];
    var i := 0;
    while i < |partners|
      invariant 0 <= i <= |partners|
      invariant forall id :: id in names <==> NameById(partners[..i], id).Some?
      invariant forall id :: id in names ==> names[id] == NameById(partners[..i], id).value
    {
      assert partners[..i + 1][..i] == partners[..i];
      names := names[partners[i].id := partners[i].name];
      i := i + 1;
    }
    assert partners[..i] == partners;
  }

  /** `items.reduce((acc, x) => { acc[key(x)] = (acc[key(x)] || 0) + f(x); return acc; }, {})`
      for terms `f` that are never NaN: under each key that occurs, the sum of the terms
      of the items filed under it, in order. */
  method SumBy<T>(items: seq<T>, key: T -> string, f: T -> real) returns (sums: map<string, real>)
    ensures forall k :: k in sums <==> Filter(items, HasKey(key, k)) != []
    ensures forall k :: k in sums ==> sums[k] == Sum(Filter(items, HasKey(key, k)), f)
  {
    sums := map[];
    var i := 0;
    while i < |items|
      invariant 0 <= i <= |items|
      invariant sums == KeySums(items[..i], key, f)
    {
      var x := items[i];
      var k := key(x);
      assert items[..i + 1][..i] == items[..i];
      sums := sums[k := (if k in sums then sums[k] else 0.0) + f(x)];
      i := i + 1;
    }
    assert items[..i] == items;
    KeySumsSpec(items, key, f);
  }

  /** The object the `reduce` behind `SumBy` builds, item by item. */
  ghost function KeySums<T>(items: seq<T>, key: T -> string, f: T -> real): map<string, real>
  {
    if items == [] then map[]
    else
      var sums := KeySums(items[..|items| - 1], key, f);
      var k := key(items[|items| - 1]);
      sums[k := (if k in sums then sums[k] else 0.0) + f(items[|items| - 1])]
  }

  /** The object holds, under each key that occurs, the sum of the terms of the items
      filed under it, and no other key. */
  lemma {:induction false} KeySumsSpec<T>(items: seq<T>, key: T -> string, f: T -> real)
    ensures forall k :: k in KeySums(items, key, f) <==> Filter(items, HasKey(key, k)) != []
    ensures forall k :: k in KeySums(items, key, f) ==> KeySums(items, key, f)[k] == Sum(Filter(items, HasKey(key, k)), f)
  {
    if items != [] {
      var init, x := items[..|items| - 1], items[|items| - 1];
      assert items == init + [x];
      KeySumsSpec(init, key, f);
      forall k ensures Filter(items, HasKey(key, k)) == Filter(init, HasKey(key, k)) + (if key(x) == k then [x] else [])
                   && Sum(Filter(items, HasKey(key, k)), f) == Sum(Filter(init, HasKey(key, k)), f) + (if key(x) == k then f(x) else 0.0)
      {
        KeyedSnoc(init, x, key, f, k);
      }
    }
  }

  /** Adding one item to the end changes only what is filed under its own key. */
  lemma KeyedSnoc<T>(items: seq<T>, x: T, key: T -> string, f: T -> real, k: string)
    ensures Filter(items + [x], HasKey(key, k)) == Filter(items, HasKey(key, k)) + (if key(x) == k then [x] else [])
    ensures Sum(Filter(items + [x], HasKey(key, k)), f) == Sum(Filter(items, HasKey(key, k)), f) + (if key(x) == k then f(x) else 0.0)
  {
    FilterSnoc(items, x, HasKey(key, k));
    assert HasKey(key, k)(x) == (key(x) == k);
    if key(x) == k {
      SumSnoc(Filter(items, HasKey(key, k)), x, f);
    } else {
      assert Filter(items, HasKey(key, k)) + [] == Filter(items, HasKey(key, k));
    }
  }

  /** `x => ks.has(key(x))`: the test that selects the items filed under any key of `ks`. */
  function KeyIn<T>(key: T -> string, ks: set<string>): T -> bool {
    x => key(x) in ks
  }

  /** Summing over the items filed under a set of keys and one more key is summing over
      the set and adding the sum for the new key. */
  lemma {:induction false} SumOverKeys<T>(items: seq<T>, key: T -> string, f: T -> real, ks: set<string>, k: string)
    requires k !in ks
    ensures Sum(Filter(items, KeyIn(key, ks + {k})), f)
         == Sum(Filter(items, KeyIn(key, ks)), f) + Sum(Filter(items, HasKey(key, k)), f)
  {
    if items != [] {
      var init, x := items[..|items| - 1], items[|items| - 1];
      assert items == init + [x];
      SumOverKeys(init, key, f, ks, k);
      FilterSnoc(init, x, KeyIn(key, ks + {k}));
      FilterSnoc(init, x, KeyIn(key, ks));
      KeyedSnoc(init, x, key, f, k);
      if key(x) in ks + {k} {
        SumSnoc(Filter(init, KeyIn(key, ks + {k})), x, f);
      } else {
        assert Filter(init, KeyIn(key, ks + {k})) + [] == Filter(init, KeyIn(key, ks + {k}));
      }
      if key(x) in ks {
        SumSnoc(Filter(init, KeyIn(key, ks)), x, f);
      } else {
        assert Filter(init, KeyIn(key, ks)) + [] == Filter(init, KeyIn(key, ks));
      }
    }
  }

  /** `items.reduce((acc, x) => { if (!acc[key(x)]) acc[key(x)] = []; acc[key(x)].push(x);
      return acc; }, {})`: under each key that occurs, the items filed under it, in order. */
  method GroupBy<T>(items: seq<T>, key: T -> string) returns (groups: map<string, seq<T>>)
    ensures forall k :: k in groups <==> Filter(items, HasKey(key, k)) != []
    ensures forall k :: k in groups ==> groups[k] == Filter(items, HasKey(key, k))
  {
    groups := map[];
    var i := 0;
    while i < |items|
      invariant 0 <= i <= |items|
      invariant forall k :: k in groups <==> Filter(items[..i], HasKey(key, k)) != []
      invariant forall k :: k in groups ==> groups[k] == Filter(items[..i], HasKey(key, k))
    {
      var x := items[i];
      assert items[..i + 1] == items[..i] + [x];
      forall k
        ensures Filter(items[..i + 1], HasKey(key, k))
             == Filter(items[..i], HasKey(key, k)) + (if key(x) == k then [x] else [])
      {
        FilterSnoc(items[..i], x, HasKey(key, k));
      }
      var before := if key(x) in groups then groups[key(x)] else [];
      groups := groups[key(x) := before + [x]];
      i := i + 1;
    }
    assert items[..i] == items;
  }

  /** `total > 0 ? (won / total) * 100 : 0`. */
  function ConversionRate(won: nat, total: nat): (r: real)
    requires won <= total
    ensures 0.0 <= r <= 100.0
    ensures total == 0 ==> r == 0.0
    ensures r == 100.0 <==> total > 0 && won == total
    ensures r == 0.0 <==> won == 0
  {
    if total > 0 then (won as real / total as real) * 100.0 else 0.0
  }
}
