/** Results of operations that may fail, as the source's exceptions and null returns. */
module Wrappers {
  datatype Option<+T> = None | Some(value: T) {
    function GetOr(default: T): T {
      match this
      case Some(v) => v
      case None => default
    }
  }

  datatype Result<+T, +E> = Ok(value: T) | Err(error: E)
}

/**
 * The array operations the services lean on: `filter`, `map` and the stable `sort`.
 * All three recurse on the last element, so that a loop over a prefix unfolds them once.
 */
module Sequences {

  function Filter<T(!new)>(s: seq<T>, keep: T -> bool): (r: seq<T>)
    ensures |r| <= |s|
    ensures forall x :: x in r <==> x in s && keep(x)
  {
    if s == [] then []
    else
      var rest := Filter(s[..|s| - 1], keep);
      assert s == s[..|s| - 1] + [s[|s| - 1]];
      if keep(s[|s| - 1]) then rest + [s[|s| - 1]] else rest
  }

  function Members<T>(s: seq<T>): set<T> {
    set x | x in s
  }

  lemma MembersSnoc<T>(s: seq<T>, x: T)
    ensures Members(s + [x]) == Members(s) + {x}
  {
  }

  ghost predicate NoRepeats<T>(s: seq<T>) {
    forall i, j :: 0 <= i < j < |s| ==> s[i] != s[j]
  }

  function Map<T, U>(s: seq<T>, f: T -> U): (r: seq<U>)
    ensures |r| == |s|
    ensures forall i :: 0 <= i < |s| ==> r[i] == f(s[i])
  {
    seq(|s|, i requires 0 <= i < |s| => f(s[i]))
  }

  lemma FilterSnoc<T(!new)>(s: seq<T>, x: T, keep: T -> bool)
    ensures Filter(s + [x], keep) == if keep(x) then Filter(s, keep) + [x] else Filter(s, keep)
  {
    assert (s + [x])[..|s|] == s;
  }

  lemma {:induction false} FilterNothing<T(!new)>(s: seq<T>, keep: T -> bool)
    requires forall x :: x in s ==> !keep(x)
    ensures Filter(s, keep) == []
  {
    if s != [] {
      FilterNothing(s[..|s| - 1], keep);
    }
  }

  /** A coarser filter in front of a finer one takes nothing away. */
  lemma {:induction false} FilterOfFilter<T(!new)>(s: seq<T>, coarse: T -> bool, fine: T -> bool)
    requires forall x :: x in s && fine(x) ==> coarse(x)
    ensures Filter(Filter(s, coarse), fine) == Filter(s, fine)
  {
    if s != [] {
      var front, last := s[..|s| - 1], s[|s| - 1];
      FilterOfFilter(front, coarse, fine);
      FilterSnoc(Filter(front, coarse), last, fine);
    }
  }

  lemma {:induction false} FilterConcat<T(!new)>(a: seq<T>, b: seq<T>, keep: T -> bool)
    ensures Filter(a + b, keep) == Filter(a, keep) + Filter(b, keep)
  {
    if b == [] {
      assert a + b == a;
    } else {
      var last := |b| - 1;
      assert a + b == (a + b[..last]) + [b[last]];
      FilterSnoc(a + b[..last], b[last], keep);
      FilterConcat(a, b[..last], keep);
    }
  }

  lemma {:induction false} FilterCommutes<T(!new)>(s: seq<T>, f: T -> bool, g: T -> bool)
    ensures Filter(Filter(s, f), g) == Filter(Filter(s, g), f)
  {
    if s != [] {
      var front, last := s[..|s| - 1], s[|s| - 1];
      FilterCommutes(front, f, g);
      FilterSnoc(Filter(front, f), last, g);
      FilterSnoc(Filter(front, g), last, f);
    }
  }

  lemma {:induction false} FilterEverything<T(!new)>(s: seq<T>, keep: T -> bool)
    requires forall x :: x in s ==> keep(x)
    ensures Filter(s, keep) == s
  {
    if s != [] {
      FilterEverything(s[..|s| - 1], keep);
    }
  }

  lemma {:induction false} FilterMultiset<T(!new)>(s: seq<T>, keep: T -> bool, x: T)
    ensures multiset(Filter(s, keep))[x] == if keep(x) then multiset(s)[x] else 0
  {
    if s != [] {
      assert s == s[..|s| - 1] + [s[|s| - 1]];
      FilterMultiset(s[..|s| - 1], keep, x);
    }
  }

  lemma FilterPermutation<T(!new)>(a: seq<T>, b: seq<T>, keep: T -> bool)
    requires multiset(a) == multiset(b)
    ensures multiset(Filter(a, keep)) == multiset(Filter(b, keep))
  {
    forall x ensures multiset(Filter(a, keep))[x] == multiset(Filter(b, keep))[x] {
      FilterMultiset(a, keep, x);
      FilterMultiset(b, keep, x);
    }
  }

  ghost predicate SortedBy<T(!new)>(s: seq<T>, key: T -> int) {
    forall i, j :: 0 <= i < j < |s| ==> key(s[i]) <= key(s[j])
  }

  /** The elements of `s` whose key is `k`, in the order in which they stand. */
  function WithKey<T(!new)>(s: seq<T>, key: T -> int, k: int): seq<T> {
    Filter(s, x => key(x) == k)
  }

  /** Insert `x` behind every element whose key is not larger. */
  function InsertLast<T(!new)>(s: seq<T>, key: T -> int, x: T): (r: seq<T>)
    ensures multiset(r) == multiset(s) + multiset{x}
  {
    if s == [] || key(s[|s| - 1]) <= key(x) then s + [x]
    else
      assert s == s[..|s| - 1] + [s[|s| - 1]];
      InsertLast(s[..|s| - 1], key, x) + [s[|s| - 1]]
  }

  /** `Array.prototype.sort` with the comparator `key(a) - key(b)`. */
  function StableSort<T(!new)>(s: seq<T>, key: T -> int): (r: seq<T>)
    ensures multiset(r) == multiset(s)
    ensures |r| == |s|
    ensures forall x :: x in r <==> x in s
  {
    if s == [] then []
    else
      var r := InsertLast(StableSort(s[..|s| - 1], key), key, s[|s| - 1]);
      assert s == s[..|s| - 1] + [s[|s| - 1]];
      MultisetMembers(r, s);
      r
  }

  lemma {:induction false} InsertLastCongruence<T(!new)>(s: seq<T>, f: T -> int, g: T -> int, x: T)
    requires forall y :: y in s || y == x ==> f(y) == g(y)
    ensures InsertLast(s, f, x) == InsertLast(s, g, x)
  {
    if s != [] {
      InsertLastCongruence(s[..|s| - 1], f, g, x);
    }
  }

  /** Sorting looks at nothing but the keys of the rows at hand. */
  lemma {:induction false} StableSortCongruence<T(!new)>(s: seq<T>, f: T -> int, g: T -> int)
    requires forall y :: y in s ==> f(y) == g(y)
    ensures StableSort(s, f) == StableSort(s, g)
  {
    if s != [] {
      var front, last := s[..|s| - 1], s[|s| - 1];
      StableSortCongruence(front, f, g);
      InsertLastCongruence(StableSort(front, f), f, g, last);
    }
  }

  lemma MultisetMembers<T(!new)>(a: seq<T>, b: seq<T>)
    requires multiset(a) == multiset(b)
    ensures |a| == |b|
    ensures forall x :: x in a <==> x in b
  {
    assert |multiset(a)| == |a| && |multiset(b)| == |b|;
    forall x ensures x in a <==> x in b {
      assert x in a <==> x in multiset(a);
      assert x in b <==> x in multiset(b);
    }
  }

  lemma AppendLargest<T(!new)>(s: seq<T>, key: T -> int, x: T)
    requires SortedBy(s, key) && forall y :: y in s ==> key(y) <= key(x)
    ensures SortedBy(s + [x], key)
  {
    forall i, j | 0 <= i < j < |s + [x]| ensures key((s + [x])[i]) <= key((s + [x])[j]) {
      if j == |s| {
        assert s[i] in s;
      }
    }
  }

  lemma {:induction false} InsertLastSorted<T(!new)>(s: seq<T>, key: T -> int, x: T)
    requires SortedBy(s, key)
    ensures SortedBy(InsertLast(s, key, x), key)
  {
    hide SortedBy;
    if s == [] || key(s[|s| - 1]) <= key(x) {
      forall y | y in s ensures key(y) <= key(x) {
        LastIsLargest(s, key, y);
      }
      AppendLargest(s, key, x);
    } else {
      var front, last := s[..|s| - 1], s[|s| - 1];
      FrontSorted(s, key);
      InsertLastSorted(front, key, x);
      MultisetMembers(InsertLast(front, key, x), front + [x]);
      forall y | y in InsertLast(front, key, x) ensures key(y) <= key(last) {
        assert y in front + [x];
        if y in front {
          LastIsLargest(s, key, y);
        }
      }
      AppendLargest(InsertLast(front, key, x), key, last);
    }
  }

  lemma FrontSorted<T(!new)>(s: seq<T>, key: T -> int)
    requires SortedBy(s, key) && s != []
    ensures SortedBy(s[..|s| - 1], key)
  {
  }

  lemma {:induction false} InsertLastWithKey<T(!new)>(s: seq<T>, key: T -> int, x: T, k: int)
    requires SortedBy(s, key)
    ensures WithKey(InsertLast(s, key, x), key, k)
            == if key(x) == k then WithKey(s, key, k) + [x] else WithKey(s, key, k)
  {
    if s == [] || key(s[|s| - 1]) <= key(x) {
      FilterSnoc(s, x, y => key(y) == k);
    } else {
      var front, last := s[..|s| - 1], s[|s| - 1];
      assert s == front + [last];
      InsertLastWithKey(front, key, x, k);
      FilterSnoc(InsertLast(front, key, x), last, y => key(y) == k);
      FilterSnoc(front, last, y => key(y) == k);
    }
  }

  /** What `sort` promises: ascending keys, and rows of equal key keep their order. */
  lemma {:induction false} StableSortIsStable<T(!new)>(s: seq<T>, key: T -> int)
    ensures SortedBy(StableSort(s, key), key)
    ensures forall k :: WithKey(StableSort(s, key), key, k) == WithKey(s, key, k)
  {
    if s != [] {
      var front, last := s[..|s| - 1], s[|s| - 1];
      assert s == front + [last];
      StableSortIsStable(front, key);
      InsertLastSorted(StableSort(front, key), key, last);
      forall k ensures WithKey(StableSort(s, key), key, k) == WithKey(s, key, k) {
        InsertLastWithKey(StableSort(front, key), key, last, k);
        FilterSnoc(front, last, y => key(y) == k);
      }
    }
  }

  lemma {:induction false} FilterOfInsert<T(!new)>(s: seq<T>, key: T -> int, x: T, keep: T -> bool)
    requires SortedBy(s, key)
    ensures Filter(InsertLast(s, key, x), keep)
            == if keep(x) then InsertLast(Filter(s, keep), key, x) else Filter(s, keep)
  {
    if s == [] || key(s[|s| - 1]) <= key(x) {
      FilterSnoc(s, x, keep);
      if Filter(s, keep) != [] {
        LastIsLargest(s, key, Filter(s, keep)[|Filter(s, keep)| - 1]);
      }
    } else {
      var front, last := s[..|s| - 1], s[|s| - 1];
      FrontSorted(s, key);
      FilterOfInsert(front, key, x, keep);
      FilterSnoc(InsertLast(front, key, x), last, keep);
    }
  }

  /** Leaving rows out before sorting or after comes to the same. */
  lemma {:induction false} FilterOfSort<T(!new)>(s: seq<T>, key: T -> int, keep: T -> bool)
    ensures Filter(StableSort(s, key), keep) == StableSort(Filter(s, keep), key)
  {
    if s != [] {
      var front, last := s[..|s| - 1], s[|s| - 1];
      FilterOfSort(front, key, keep);
      StableSortIsStable(front, key);
      FilterOfInsert(StableSort(front, key), key, last, keep);
    }
  }

  /** Elements of equal key are the same element. */
  ghost predicate KeyIdentifies<T(!new)>(s: seq<T>, key: T -> int) {
    forall x, y :: x in s && y in s && key(x) == key(y) ==> x == y
  }

  /**
   * A sorted arrangement is unique once equal keys mean equal elements, so sorting
   * forgets the order of its input.
   */
  lemma {:induction false} SortedArrangementIsUnique<T(!new)>(a: seq<T>, b: seq<T>, key: T -> int)
    requires SortedBy(a, key) && SortedBy(b, key)
    requires multiset(a) == multiset(b)
    requires KeyIdentifies(a, key)
    ensures a == b
  {
    MultisetMembers(a, b);
    if a != [] {
      var n := |a| - 1;
      LastIsLargest(a, key, b[n]);
      LastIsLargest(b, key, a[n]);
      assert a[n] == b[n];
      DropLast(a, b);
      assert KeyIdentifies(a[..n], key);
      SortedArrangementIsUnique(a[..n], b[..n], key);
      assert a == a[..n] + [a[n]] && b == b[..n] + [b[n]];
    }
  }

  lemma DropLast<T>(a: seq<T>, b: seq<T>)
    requires multiset(a) == multiset(b) && |a| == |b| > 0
    requires a[|a| - 1] == b[|b| - 1]
    ensures multiset(a[..|a| - 1]) == multiset(b[..|b| - 1])
  {
    FrontMultiset(a);
    FrontMultiset(b);
  }

  lemma FrontMultiset<T>(s: seq<T>)
    requires s != []
    ensures multiset(s[..|s| - 1]) == multiset(s) - multiset{s[|s| - 1]}
  {
    assert s == s[..|s| - 1] + [s[|s| - 1]];
  }

  lemma LastIsLargest<T(!new)>(s: seq<T>, key: T -> int, x: T)
    requires SortedBy(s, key) && x in s
    ensures key(x) <= key(s[|s| - 1])
  {
    var i :| 0 <= i < |s| && s[i] == x;
  }

  lemma SortForgetsOrder<T(!new)>(a: seq<T>, b: seq<T>, key: T -> int)
    requires multiset(a) == multiset(b)
    requires KeyIdentifies(a, key)
    ensures StableSort(a, key) == StableSort(b, key)
  {
    StableSortIsStable(a, key);
    StableSortIsStable(b, key);
    SortedArrangementIsUnique(StableSort(a, key), StableSort(b, key), key);
  }
}
