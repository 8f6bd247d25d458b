/** `Array.sort` with a numeric comparison, largest key first; equal keys keep their order. */
module Sorting {
  import opened Common

  function Insert<T>(key: T -> int, x: T, s: seq<T>): seq<T> {
    if s == [] then [x]
    else if key(s[0]) <= key(x) then [x] + s
    else [s[0]] + Insert(key, x, s[1..])
  }

  function SortDescending<T>(key: T -> int, s: seq<T>): seq<T> {
    if s == [] then [] else Insert(key, s[0], SortDescending(key, s[1..]))
  }

  ghost predicate Descending<T>(key: T -> int, s: seq<T>) {
    forall i, j :: 0 <= i < j < |s| ==> key(s[i]) >= key(s[j])
  }

  lemma {:induction false} InsertMembers<T>(key: T -> int, x: T, s: seq<T>)
    ensures multiset(Insert(key, x, s)) == multiset(s) + multiset{x}
    ensures forall i :: 0 <= i < |Insert(key, x, s)| ==> Insert(key, x, s)[i] == x || Insert(key, x, s)[i] in s
  {
    if s != [] && key(s[0]) > key(x) {
      InsertMembers(key, x, s[1..]);
      assert s == [s[0]] + s[1..];
    }
  }

  lemma {:induction false} InsertMeaning<T>(key: T -> int, x: T, s: seq<T>)
    requires Descending(key, s)
    ensures Descending(key, Insert(key, x, s)) && multiset(Insert(key, x, s)) == multiset(s) + multiset{x}
  {
    InsertMembers(key, x, s);
    if s != [] && key(s[0]) > key(x) {
      InsertMeaning(key, x, s[1..]);
      var rest := Insert(key, x, s[1..]);
      InsertMembers(key, x, s[1..]);
      forall j | 0 <= j < |rest| ensures key(s[0]) >= key(rest[j]) {
        if rest[j] != x {
          var i :| 0 <= i < |s[1..]| && s[1..][i] == rest[j];
          assert s[i + 1] == rest[j];
        }
      }
    }
  }

  lemma SortedWithFirst<T>(key: T -> int, s: seq<T>, rest: seq<T>)
    requires s != [] && Descending(key, rest) && multiset(rest) == multiset(s[1..])
    ensures Descending(key, Insert(key, s[0], rest)) && multiset(Insert(key, s[0], rest)) == multiset(s)
  {
    InsertMeaning(key, s[0], rest);
    assert s == [s[0]] + s[1..];
  }

  lemma {:induction false} SortMeaning<T>(key: T -> int, s: seq<T>)
    ensures Descending(key, SortDescending(key, s)) && multiset(SortDescending(key, s)) == multiset(s)
    ensures |SortDescending(key, s)| == |s|
  {
    SortLength(key, s);
    if s != [] {
      SortMeaning(key, s[1..]);
      SortedWithFirst(key, s, SortDescending(key, s[1..]));
    }
  }

  lemma {:induction false} InsertLength<T>(key: T -> int, x: T, s: seq<T>)
    ensures |Insert(key, x, s)| == |s| + 1
  {
    if s != [] {
      InsertLength(key, x, s[1..]);
    }
  }

  lemma {:induction false} SortLength<T>(key: T -> int, s: seq<T>)
    ensures |SortDescending(key, s)| == |s|
  {
    if s != [] {
      SortLength(key, s[1..]);
      InsertLength(key, s[0], SortDescending(key, s[1..]));
    }
  }

  /** Elements of one key, in order. */
  ghost function WithKey<T>(key: T -> int, k: int, s: seq<T>): seq<T> {
    if s == [] then [] else (if key(s[0]) == k then [s[0]] else []) + WithKey(key, k, s[1..])
  }

  lemma {:induction false} InsertIsStable<T>(key: T -> int, k: int, x: T, s: seq<T>)
    requires Descending(key, s)
    ensures WithKey(key, k, Insert(key, x, s)) == (if key(x) == k then [x] else []) + WithKey(key, k, s)
  {
    if s != [] && key(s[0]) > key(x) {
      InsertIsStable(key, k, x, s[1..]);
    }
  }

  /** Elements with equal keys keep their order. */
  lemma {:induction false} SortIsStable<T>(key: T -> int, k: int, s: seq<T>)
    ensures WithKey(key, k, SortDescending(key, s)) == WithKey(key, k, s)
  {
    if s != [] {
      SortIsStable(key, k, s[1..]);
      SortMeaning(key, s[1..]);
      InsertIsStable(key, k, s[0], SortDescending(key, s[1..]));
    }
  }

  /** `slice(0, n)`; a negative bound counts from the end. */
  function SliceTo<T>(s: seq<T>, n: int): seq<T> {
    if n >= 0 then Take(s, n) else s[..Max(0, |s| + n)]
  }

  /** `slice(n)` for a bound that is not negative. */
  function SliceFrom<T>(s: seq<T>, n: nat): seq<T> {
    if n < |s| then s[n..] else []
  }

  lemma SortedIsDistinct<T>(key: T -> int, s: seq<T>)
    requires Distinct(s)
    ensures Distinct(SortDescending(key, s)) && Elements(SortDescending(key, s)) == Elements(s)
  {
    SortMeaning(key, s);
    var out := SortDescending(key, s);
    DistinctAsMultiset(s);
    forall x ensures x in out <==> x in s {
      assert x in multiset(out) <==> x in multiset(s);
    }
    MultisetDistinct(out);
  }

  lemma {:induction false} DistinctAsMultiset<T>(s: seq<T>)
    requires Distinct(s)
    ensures forall x :: x in s ==> multiset(s)[x] == 1
  {
    if s != [] {
      assert s == [s[0]] + s[1..];
      DistinctAsMultiset(s[1..]);
      assert s[0] !in s[1..];
    }
  }

  lemma {:induction false} MultisetDistinct<T>(s: seq<T>)
    requires forall x :: x in s ==> multiset(s)[x] == 1
    ensures Distinct(s)
  {
    if s != [] {
      var rest := s[1..];
      assert s == [s[0]] + rest;
      assert multiset(s) == multiset{s[0]} + multiset(rest);
      assert s[0] in s && multiset(s)[s[0]] == 1;
      assert s[0] !in multiset(rest);
      forall x | x in rest ensures multiset(rest)[x] == 1 {
        assert x in multiset(rest);
        assert x in s;
      }
      MultisetDistinct(rest);
      forall i, j | 0 <= i < j < |s| ensures s[i] != s[j] {
        assert s[j] == rest[j - 1] && s[j] in multiset(rest);
        if i > 0 { assert s[i] == rest[i - 1]; }
      }
    }
  }
}
