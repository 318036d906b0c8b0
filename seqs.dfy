/** Sequence helpers shared by the model: JavaScript's `Array.prototype.filter`
    and the "order-preserving subsequence" relation its results stand in. */
module Seqs {
  import opened Wrappers

  /** `s.filter(p)`: the elements of `s` that satisfy `p`, in their original order. */
  function Filter<T>(s: seq<T>, p: T -> bool): (r: seq<T>)
    ensures |r| <= |s|
  {
    if s == [] then [] else Filter(s[..|s| - 1], p) + (if p(s[|s| - 1]) then [s[|s| - 1]] else [])
  }

  /** `a` is obtained from `b` by deleting elements, keeping the order of the rest. */
  ghost predicate IsSubsequence<T>(a: seq<T>, b: seq<T>)
    decreases |b|
  {
    if a == [] then true
    else if b == [] then false
    else if a[|a| - 1] == b[|b| - 1] then IsSubsequence(a[..|a| - 1], b[..|b| - 1])
    else IsSubsequence(a, b[..|b| - 1])
  }

  lemma {:induction false} FilterAppend<T>(a: seq<T>, b: seq<T>, p: T -> bool)
    ensures Filter(a + b, p) == Filter(a, p) + Filter(b, p)
    decreases |b|
  {
    if b == [] {
      assert a + b == a;
    } else {
      var b' := b[..|b| - 1];
      assert (a + b)[..|a + b| - 1] == a + b';
      FilterAppend(a, b', p);
    }
  }

  lemma FilterSnoc<T>(s: seq<T>, x: T, p: T -> bool)
    ensures Filter(s + [x], p) == Filter(s, p) + (if p(x) then [x] else [])
  {
    assert (s + [x])[..|s|] == s;
  }

  /** An element is in the result exactly when it is in the input and passes the test. */
  lemma {:induction false} FilterMembership<T>(s: seq<T>, p: T -> bool)
    ensures forall x :: x in Filter(s, p) <==> x in s && p(x)
  {
    if s != [] {
      var s' := s[..|s| - 1];
      FilterMembership(s', p);
      assert s == s' + [s[|s| - 1]];
      forall x ensures x in s <==> x in s' || x == s[|s| - 1] {
      }
    }
  }

  /** Each element that passes the test occurs in the result as often as in the input,
      and no other element occurs in it. */
  lemma {:induction false} FilterCount<T>(s: seq<T>, p: T -> bool)
    ensures forall x :: multiset(Filter(s, p))[x] == if p(x) then multiset(s)[x] else 0
  {
    if s != [] {
      var s' := s[..|s| - 1];
      FilterCount(s', p);
      assert s == s' + [s[|s| - 1]];
    }
  }

  /** Every element of the result passes the test. */
  lemma FilterAll<T>(s: seq<T>, p: T -> bool)
    ensures forall i :: 0 <= i < |Filter(s, p)| ==> p(Filter(s, p)[i])
  {
    FilterMembership(s, p);
    forall i | 0 <= i < |Filter(s, p)| ensures p(Filter(s, p)[i]) {
      assert Filter(s, p)[i] in Filter(s, p);
    }
  }

  /** When every element passes, the input comes back unchanged. */
  lemma {:induction false} FilterKeepsAll<T>(s: seq<T>, p: T -> bool)
    requires forall i :: 0 <= i < |s| ==> p(s[i])
    ensures Filter(s, p) == s
  {
    if s != [] {
      FilterKeepsAll(s[..|s| - 1], p);
      assert s == s[..|s| - 1] + [s[|s| - 1]];
    }
  }

  /** Filters agree when their tests agree on the input. */
  lemma {:induction false} FilterCongruent<T>(s: seq<T>, p: T -> bool, q: T -> bool)
    requires forall i :: 0 <= i < |s| ==> p(s[i]) == q(s[i])
    ensures Filter(s, p) == Filter(s, q)
  {
    if s != [] {
      FilterCongruent(s[..|s| - 1], p, q);
    }
  }

  /** Filtering with a test that implies `p` after filtering with `p` is filtering once:
      a narrower search returns a subsequence of a wider one. */
  lemma {:induction false} FilterNarrowing<T>(s: seq<T>, p: T -> bool, q: T -> bool)
    requires forall x :: q(x) ==> p(x)
    ensures Filter(Filter(s, p), q) == Filter(s, q)
  {
    if s != [] {
      var s' := s[..|s| - 1];
      var x := s[|s| - 1];
      FilterNarrowing(s', p, q);
      assert s == s' + [x];
      FilterSnoc(s', x, p);
      FilterSnoc(s', x, q);
      assert q(x) ==> p(x);
      if p(x) {
        FilterSnoc(Filter(s', p), x, q);
      } else {
        assert Filter(s, p) == Filter(s', p);
      }
    }
  }

  /** Filtering twice with the same test is filtering once. */
  lemma FilterIdempotent<T>(s: seq<T>, p: T -> bool)
    ensures Filter(Filter(s, p), p) == Filter(s, p)
  {
    FilterNarrowing(s, p, p);
  }

  lemma {:induction false} SubsequenceOfEmpty<T>(b: seq<T>)
    ensures IsSubsequence([], b)
  {
  }

  lemma {:induction false} SubsequenceReflexive<T>(s: seq<T>)
    ensures IsSubsequence(s, s)
  {
    if s != [] {
      SubsequenceReflexive(s[..|s| - 1]);
    }
  }

  lemma {:induction false} SubsequenceSnocRight<T>(a: seq<T>, b: seq<T>, x: T)
    requires IsSubsequence(a, b)
    ensures IsSubsequence(a, b + [x])
    decreases |b|, 1
  {
    var bx := b + [x];
    assert bx[..|bx| - 1] == b;
    if a != [] && a[|a| - 1] == x {
      // Match the last element of a against x, then drop it.
      SubsequenceDropLast(a, b);
    }
  }

  lemma {:induction false} SubsequenceDropLast<T>(a: seq<T>, b: seq<T>)
    requires a != [] && IsSubsequence(a, b)
    ensures IsSubsequence(a[..|a| - 1], b)
    decreases |b|, 0
  {
    var a' := a[..|a| - 1];
    if b != [] {
      var b' := b[..|b| - 1];
      if a[|a| - 1] == b[|b| - 1] {
        SubsequenceSnocRight(a', b', b[|b| - 1]);
        assert b' + [b[|b| - 1]] == b;
      } else {
        SubsequenceDropLast(a, b');
        SubsequenceSnocRight(a', b', b[|b| - 1]);
        assert b' + [b[|b| - 1]] == b;
      }
    }
  }

  /** The result of a filter is an order-preserving subsequence of its input. */
  lemma {:induction false} FilterIsSubsequence<T>(s: seq<T>, p: T -> bool)
    ensures IsSubsequence(Filter(s, p), s)
  {
    if s != [] {
      var s' := s[..|s| - 1];
      var x := s[|s| - 1];
      FilterIsSubsequence(s', p);
      assert s == s' + [x];
      FilterSnoc(s', x, p);
      if p(x) {
        var f := Filter(s', p) + [x];
        assert f[..|f| - 1] == Filter(s', p);
      } else {
        assert Filter(s, p) == Filter(s', p);
        SubsequenceSnocRight(Filter(s', p), s', x);
      }
    }
  }

  /** The elements a filter keeps and the ones it drops add up to the input. */
  lemma {:induction false} FilterPartition<T>(s: seq<T>, p: T -> bool)
    ensures |Filter(s, p)| + |Filter(s, x => !p(x))| == |s|
  {
    if s != [] {
      FilterPartition(s[..|s| - 1], p);
    }
  }

  /** `s.filter(p)` with a test that may throw (None): the filter throws when the test
      throws on any element. */
  function FilterOrThrow<T>(s: seq<T>, p: T -> Option<bool>): (r: Option<seq<T>>)
  {
    if s == [] then Some([])
    else
      match FilterOrThrow(s[..|s| - 1], p)
      case None => None
      case Some(kept) =>
        match p(s[|s| - 1])
        case None => None
        case Some(keep) => Some(kept + if keep then [s[|s| - 1]] else [])
  }

  /** A filter whose test may throw throws exactly when its test throws on some element,
      and otherwise keeps the elements the test accepts. */
  lemma {:induction false} FilterOrThrowSpec<T>(s: seq<T>, p: T -> Option<bool>)
    ensures FilterOrThrow(s, p).None? <==> exists i :: 0 <= i < |s| && p(s[i]).None?
    ensures FilterOrThrow(s, p).Some? ==> FilterOrThrow(s, p).value == Filter(s, x => p(x) == Some(true))
  {
    if s != [] {
      var s' := s[..|s| - 1];
      FilterOrThrowSpec(s', p);
      if p(s[|s| - 1]).None? {
        assert 0 <= |s| - 1 < |s| && p(s[|s| - 1]).None?;
      } else if FilterOrThrow(s', p).None? {
        var i :| 0 <= i < |s'| && p(s'[i]).None?;
        assert s[i] == s'[i];
      } else {
        forall i | 0 <= i < |s| ensures p(s[i]).Some? {
          if i < |s'| {
            assert s[i] == s'[i];
          }
        }
      }
    }
  }

  /** `s.map(f)` with a mapping that may throw (None): the map throws when `f` throws
      on any element. */
  function MapOrThrow<T, U>(s: seq<T>, f: T -> Option<U>): Option<seq<U>>
  {
    if s == [] then Some([])
    else
      match MapOrThrow(s[..|s| - 1], f)
      case None => None
      case Some(mapped) =>
        match f(s[|s| - 1])
        case None => None
        case Some(y) => Some(mapped + [y])
  }

  /** A map whose mapping may throw throws exactly when the mapping throws on some
      element, and otherwise holds the mapping's value of each element, in order. */
  lemma {:induction false} MapOrThrowSpec<T, U>(s: seq<T>, f: T -> Option<U>)
    ensures MapOrThrow(s, f).None? <==> exists i :: 0 <= i < |s| && f(s[i]).None?
    ensures MapOrThrow(s, f).Some? ==> |MapOrThrow(s, f).value| == |s|
    ensures MapOrThrow(s, f).Some? ==> forall i :: 0 <= i < |s| ==> f(s[i]) == Some(MapOrThrow(s, f).value[i])
  {
    if s != [] {
      var s' := s[..|s| - 1];
      MapOrThrowSpec(s', f);
      if MapOrThrow(s', f).None? {
        var i :| 0 <= i < |s'| && f(s'[i]).None?;
        assert s[i] == s'[i];
      } else if f(s[|s| - 1]).None? {
        assert 0 <= |s| - 1 < |s| && f(s[|s| - 1]).None?;
      } else {
        forall i | 0 <= i < |s| ensures f(s[i]).Some? {
          if i < |s'| {
            assert s[i] == s'[i];
          }
        }
        forall i | 0 <= i < |s'| ensures f(s[i]) == Some(MapOrThrow(s, f).value[i]) {
          assert s[i] == s'[i];
        }
      }
    }
  }

  /** The sum of `f` over the elements of `s` (a `reduce` starting from 0). */
  function Sum<T>(s: seq<T>, f: T -> real): real
  {
    if s == [] then 0.0 else Sum(s[..|s| - 1], f) + f(s[|s| - 1])
  }

  lemma {:induction false} SumAppend<T>(a: seq<T>, b: seq<T>, f: T -> real)
    ensures Sum(a + b, f) == Sum(a, f) + Sum(b, f)
    decreases |b|
  {
    if b == [] {
      assert a + b == a;
    } else {
      var b' := b[..|b| - 1];
      assert (a + b)[..|a + b| - 1] == a + b';
      SumAppend(a, b', f);
    }
  }

  /** Summing over a filter is summing the kept elements and zero for the others. */
  lemma {:induction false} SumFilter<T>(s: seq<T>, p: T -> bool, f: T -> real)
    ensures Sum(Filter(s, p), f) == Sum(s, x => if p(x) then f(x) else 0.0)
  {
    if s != [] {
      var s' := s[..|s| - 1];
      var x := s[|s| - 1];
      SumFilter(s', p, f);
      SumAppend(Filter(s', p), if p(x) then [x] else [], f);
      assert Sum([x], f) == f(x) by {
        assert [x][..0] == [];
      }
    }
  }

  /** Sums of non-negative terms are non-negative, and bounded by the bound of each term
      times the length. */
  lemma {:induction false} SumBounds<T>(s: seq<T>, f: T -> real, hi: real)
    requires forall i :: 0 <= i < |s| ==> 0.0 <= f(s[i]) <= hi
    ensures 0.0 <= Sum(s, f) <= |s| as real * hi
  {
    if s != [] {
      SumBounds(s[..|s| - 1], f, hi);
    }
  }

  /** Summing the kept and the dropped elements of a filter gives the whole sum (`q` is
      the opposite test). */
  lemma {:induction false} SumPartition<T>(s: seq<T>, p: T -> bool, q: T -> bool, f: T -> real)
    requires forall x :: q(x) == !p(x)
    ensures Sum(s, f) == Sum(Filter(s, p), f) + Sum(Filter(s, q), f)
  {
    if s != [] {
      var s' := s[..|s| - 1];
      var x := s[|s| - 1];
      SumPartition(s', p, q, f);
      SumAppend(Filter(s', p), if p(x) then [x] else [], f);
      SumAppend(Filter(s', q), if q(x) then [x] else [], f);
      assert Sum([x], f) == f(x) by {
        assert [x][..0] == [];
      }
    }
  }

  /** A filter whose test holds of no element keeps nothing. */
  lemma {:induction false} FilterNone<T>(s: seq<T>, p: T -> bool)
    requires forall i :: 0 <= i < |s| ==> !p(s[i])
    ensures Filter(s, p) == []
  {
    if s != [] {
      FilterNone(s[..|s| - 1], p);
    }
  }

  /** A filter keeps something exactly when some element passes its test. */
  lemma {:induction false} FilterNonEmpty<T>(s: seq<T>, p: T -> bool)
    ensures Filter(s, p) != [] <==> exists i :: 0 <= i < |s| && p(s[i])
  {
    if s != [] {
      var s' := s[..|s| - 1];
      FilterNonEmpty(s', p);
      if Filter(s', p) != [] {
        var i :| 0 <= i < |s'| && p(s'[i]);
        assert s[i] == s'[i];
      } else if !p(s[|s| - 1]) {
        forall i | 0 <= i < |s| ensures !p(s[i]) {
          if i < |s'| {
            assert s[i] == s'[i];
          }
        }
      }
    }
  }

  lemma SumSnoc<T>(s: seq<T>, x: T, f: T -> real)
    ensures Sum(s + [x], f) == Sum(s, f) + f(x)
  {
    assert (s + [x])[..|s|] == s;
  }

  /** Two filters may be applied in either order. */
  lemma {:induction false} FilterCommute<T>(s: seq<T>, p: T -> bool, q: T -> bool)
    ensures Filter(Filter(s, p), q) == Filter(Filter(s, q), p)
  {
    if s != [] {
      var s' := s[..|s| - 1];
      var x := s[|s| - 1];
      FilterCommute(s', p, q);
      FilterAppend(Filter(s', p), if p(x) then [x] else [], q);
      FilterAppend(Filter(s', q), if q(x) then [x] else [], p);
    }
  }
}
