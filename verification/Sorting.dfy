/** Sorting of sequences, as far as the evaluation code relies on it: a sorted list is determined by
    the elements it holds. */
module Sorting {

  ghost predicate TotalOrder<T(!new)>(leq: (T, T) -> bool) {
    && (forall x, y :: leq(x, y) || leq(y, x))
    && (forall x, y :: leq(x, y) && leq(y, x) ==> x == y)
    && forall x, y, z :: leq(x, y) && leq(y, z) ==> leq(x, z)
  }

  ghost predicate Sorted<T>(leq: (T, T) -> bool, s: seq<T>) {
    forall i, j :: 0 <= i < j < |s| ==> leq(s[i], s[j])
  }

  function Insert<T>(leq: (T, T) -> bool, x: T, s: seq<T>): seq<T> {
    if s == [] || leq(x, s[0]) then [x] + s else [s[0]] + Insert(leq, x, s[1..])
  }

  function Sort<T>(leq: (T, T) -> bool, s: seq<T>): seq<T> {
    if s == [] then [] else Insert(leq, s[0], Sort(leq, s[1..]))
  }

  lemma {:induction false} InsertKeeps<T>(leq: (T, T) -> bool, x: T, s: seq<T>)
    ensures multiset(Insert(leq, x, s)) == multiset(s) + multiset{x}
  {
    if s == [] || leq(x, s[0]) {
    } else {
      InsertKeeps(leq, x, s[1..]);
      assert s == [s[0]] + s[1..];
    }
  }

  lemma {:induction false} InsertSorted<T(!new)>(leq: (T, T) -> bool, x: T, s: seq<T>)
    requires TotalOrder(leq) && Sorted(leq, s)
    ensures Sorted(leq, Insert(leq, x, s))
  {
    if s == [] {
    } else if leq(x, s[0]) {
      assert forall k :: 0 <= k < |s| ==> leq(x, s[k]);
    } else {
      var rest := Insert(leq, x, s[1..]);
      InsertSorted(leq, x, s[1..]);
      InsertKeeps(leq, x, s[1..]);
      forall k | 0 <= k < |rest| ensures leq(s[0], rest[k]) {
        assert rest[k] in multiset(rest);
        assert rest[k] == x || rest[k] in s[1..];
      }
    }
  }

  lemma {:induction false} SortKeeps<T>(leq: (T, T) -> bool, s: seq<T>)
    ensures multiset(Sort(leq, s)) == multiset(s)
  {
    if s != [] {
      SortKeeps(leq, s[1..]);
      InsertKeeps(leq, s[0], Sort(leq, s[1..]));
      assert s == [s[0]] + s[1..];
    }
  }

  lemma {:induction false} SortSorts<T(!new)>(leq: (T, T) -> bool, s: seq<T>)
    requires TotalOrder(leq)
    ensures Sorted(leq, Sort(leq, s))
  {
    if s != [] {
      SortSorts(leq, s[1..]);
      InsertSorted(leq, s[0], Sort(leq, s[1..]));
    }
  }

  lemma {:induction false} SortedUnique<T(!new)>(leq: (T, T) -> bool, a: seq<T>, b: seq<T>)
    requires TotalOrder(leq) && Sorted(leq, a) && Sorted(leq, b)
    requires multiset(a) == multiset(b)
    ensures a == b
  {
    hide TotalOrder, Sorted;
    if a == [] {
      assert |multiset(a)| == |b|;
    } else {
      assert |multiset(b)| == |a|;
      HeadsAgree(leq, a, b);
      TailCounts(a);
      TailCounts(b);
      SortedUnique(leq, a[1..], b[1..]);
    }
  }

  lemma HeadIsLeast<T(!new)>(leq: (T, T) -> bool, a: seq<T>, b: seq<T>)
    requires TotalOrder(leq) && Sorted(leq, a) && a != [] && b != []
    requires multiset(a) == multiset(b)
    ensures leq(a[0], b[0])
  {
    assert b[0] in multiset(a);
    var j :| 0 <= j < |a| && a[j] == b[0];
  }

  lemma TailCounts<T>(s: seq<T>)
    requires s != []
    ensures s == [s[0]] + s[1..] && multiset(s[1..]) == multiset(s) - multiset{s[0]}
  {
    assert s == [s[0]] + s[1..];
  }

  lemma HeadsAgree<T(!new)>(leq: (T, T) -> bool, a: seq<T>, b: seq<T>)
    requires TotalOrder(leq) && Sorted(leq, a) && Sorted(leq, b) && a != [] && b != []
    requires multiset(a) == multiset(b)
    ensures a[0] == b[0] && Sorted(leq, a[1..]) && Sorted(leq, b[1..])
  {
    HeadIsLeast(leq, a, b);
    HeadIsLeast(leq, b, a);
  }

  function Map<S, T>(f: S -> T, s: seq<S>): (r: seq<T>)
    ensures |r| == |s| && forall i :: 0 <= i < |s| ==> r[i] == f(s[i])
  {
    if s == [] then [] else [f(s[0])] + Map(f, s[1..])
  }

  /** f tells the listed elements apart. */
  ghost predicate InjectiveOn<S, T>(f: S -> T, all: seq<S>) {
    forall x, y | x in all && y in all && f(x) == f(y) :: x == y
  }

  lemma {:induction false} CountUnderMap<S, T>(f: S -> T, all: seq<S>, s: seq<S>, x: S)
    requires InjectiveOn(f, all) && x in all && forall e | e in s :: e in all
    ensures multiset(Map(f, s))[f(x)] == multiset(s)[x]
  {
    if s != [] {
      CountUnderMap(f, all, s[1..], x);
      assert s == [s[0]] + s[1..];
      assert Map(f, s) == [f(s[0])] + Map(f, s[1..]);
    }
  }

  lemma ImageCount<S, T>(f: S -> T, a: seq<S>, b: seq<S>, y: T)
    requires InjectiveOn(f, a + b) && multiset(a) == multiset(b) && (y in Map(f, a) || y in Map(f, b))
    ensures multiset(Map(f, a))[y] == multiset(Map(f, b))[y]
  {
    var x :| x in a + b && f(x) == y;
    CountUnderMap(f, a + b, a, x);
    CountUnderMap(f, a + b, b, x);
  }

  lemma SameMultisetUnderMap<S, T>(f: S -> T, a: seq<S>, b: seq<S>)
    requires InjectiveOn(f, a + b)
    ensures multiset(Map(f, a)) == multiset(Map(f, b)) <==> multiset(a) == multiset(b)
  {
    hide InjectiveOn, Map;
    var fa, fb := Map(f, a), Map(f, b);
    if multiset(fa) == multiset(fb) {
      forall x | x in a || x in b ensures multiset(a)[x] == multiset(b)[x] {
        CountUnderMap(f, a + b, a, x);
        CountUnderMap(f, a + b, b, x);
      }
      SameCounts(a, b);
    }
    if multiset(a) == multiset(b) {
      forall y | y in fa || y in fb ensures multiset(fa)[y] == multiset(fb)[y] {
        ImageCount(f, a, b, y);
      }
      SameCounts(fa, fb);
    }
  }

  lemma SameCounts<T>(a: seq<T>, b: seq<T>)
    requires forall y :: y in a || y in b ==> multiset(a)[y] == multiset(b)[y]
    ensures multiset(a) == multiset(b)
  {
    assert forall y :: y !in a && y !in b ==> multiset(a)[y] == 0 == multiset(b)[y];
  }

  /** Sorting the images and comparing the lists compares the multisets, when the map tells the elements apart. */
  lemma {:induction false} SortedImagesIff<S, T(!new)>(leq: (T, T) -> bool, f: S -> T, a: seq<S>, b: seq<S>)
    requires TotalOrder(leq) && InjectiveOn(f, a + b)
    ensures Sort(leq, Map(f, a)) == Sort(leq, Map(f, b)) <==> multiset(a) == multiset(b)
  {
    SameMultisetUnderMap(f, a, b);
    SortedIff(leq, Map(f, a), Map(f, b));
  }

  lemma {:induction false} SortedIff<T(!new)>(leq: (T, T) -> bool, a: seq<T>, b: seq<T>)
    requires TotalOrder(leq)
    ensures Sort(leq, a) == Sort(leq, b) <==> multiset(a) == multiset(b)
  {
    SortKeeps(leq, a);
    SortKeeps(leq, b);
    if multiset(a) == multiset(b) {
      SortSorts(leq, a);
      SortSorts(leq, b);
      SortedUnique(leq, Sort(leq, a), Sort(leq, b));
    }
  }

  /** Python's order on strings: by code point, a proper prefix first. */
  predicate LexLeq(a: string, b: string) {
    a == [] || (b != [] && (a[0] < b[0] || (a[0] == b[0] && LexLeq(a[1..], b[1..]))))
  }

  lemma LexIsTotalOrder()
    ensures TotalOrder(LexLeq)
  {
    forall a, b ensures LexLeq(a, b) || LexLeq(b, a) {
      LexTotal(a, b);
    }
    forall a, b | LexLeq(a, b) && LexLeq(b, a) ensures a == b {
      LexAntisymmetric(a, b);
    }
    forall a, b, c | LexLeq(a, b) && LexLeq(b, c) ensures LexLeq(a, c) {
      LexTransitive(a, b, c);
    }
  }

  lemma {:induction false} LexTotal(a: string, b: string)
    ensures LexLeq(a, b) || LexLeq(b, a)
  {
    if a != [] && b != [] {
      LexTotal(a[1..], b[1..]);
    }
  }

  lemma {:induction false} LexAntisymmetric(a: string, b: string)
    requires LexLeq(a, b) && LexLeq(b, a)
    ensures a == b
  {
    if a != [] && b != [] {
      LexAntisymmetric(a[1..], b[1..]);
      assert a == [a[0]] + a[1..] && b == [b[0]] + b[1..];
    }
  }

  lemma {:induction false} LexTransitive(a: string, b: string, c: string)
    requires LexLeq(a, b) && LexLeq(b, c)
    ensures LexLeq(a, c)
  {
    if a != [] && a[0] == b[0] == c[0] {
      LexTransitive(a[1..], b[1..], c[1..]);
    }
  }
}
