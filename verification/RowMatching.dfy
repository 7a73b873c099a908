/** The two greedy matching loops of backend/app/evaluation/execution_accuracy.py, over an arbitrary
    relation `rel(actual, expected)` between rows. */
module RowMatching {

  // ----- Ordered: expected rows as a subsequence of the actual rows.

  /** Index i of `expected` is matched by index f[i] of `actual`, strictly increasing. */
  ghost predicate Embedding<T>(rel: (T, T) -> bool, actual: seq<T>, expected: seq<T>, f: seq<nat>) {
    && |f| == |expected|
    && (forall i :: 0 <= i < |f| ==> f[i] < |actual| && rel(actual[f[i]], expected[i]))
    && forall i, j :: 0 <= i < j < |f| ==> f[i] < f[j]
  }

  ghost predicate Embeds<T>(rel: (T, T) -> bool, actual: seq<T>, expected: seq<T>) {
    exists f :: Embedding(rel, actual, expected, f)
  }

  /** Takes the earliest possible match for each expected row in turn. */
  function EarliestMatch<T>(rel: (T, T) -> bool, actual: seq<T>, expected: seq<T>): bool {
    if expected == [] then true
    else if actual == [] then false
    else EarliestMatch(rel, actual[1..], if rel(actual[0], expected[0]) then expected[1..] else expected)
  }

  lemma {:induction false} EarliestMatchSound<T>(rel: (T, T) -> bool, actual: seq<T>, expected: seq<T>)
    returns (f: seq<nat>)
    requires EarliestMatch(rel, actual, expected)
    ensures Embedding(rel, actual, expected, f)
  {
    f := [];
    if expected != [] {
      if rel(actual[0], expected[0]) {
        var g := EarliestMatchSound(rel, actual[1..], expected[1..]);
        f := [0] + OneLater(g);
        EmbeddingStarts(rel, actual, expected, g);
      } else {
        var g := EarliestMatchSound(rel, actual[1..], expected);
        f := OneLater(g);
        EmbeddingSkips(rel, actual, expected, g);
      }
      hide Embedding;
    }
  }

  function OneLater(g: seq<nat>): (f: seq<nat>)
    ensures |f| == |g| && forall i :: 0 <= i < |g| ==> f[i] == g[i] + 1
  {
    seq(|g|, i requires 0 <= i < |g| => g[i] + 1)
  }

  lemma EmbeddingSkips<T>(rel: (T, T) -> bool, actual: seq<T>, expected: seq<T>, g: seq<nat>)
    requires actual != [] && Embedding(rel, actual[1..], expected, g)
    ensures Embedding(rel, actual, expected, OneLater(g))
  {
    hide OneLater;
    assert forall i :: 0 <= i < |g| ==> actual[1..][g[i]] == actual[g[i] + 1];
  }

  lemma EmbeddingStarts<T>(rel: (T, T) -> bool, actual: seq<T>, expected: seq<T>, g: seq<nat>)
    requires actual != [] && expected != [] && rel(actual[0], expected[0])
    requires Embedding(rel, actual[1..], expected[1..], g)
    ensures Embedding(rel, actual, expected, [0] + OneLater(g))
  {
    hide OneLater;
    assert forall i :: 0 <= i < |g| ==> actual[1..][g[i]] == actual[g[i] + 1] && expected[1..][i] == expected[i + 1];
  }

  // Whatever embedding there is, its first match is no earlier than the greedy one.
  lemma {:induction false} EarliestMatchComplete<T>(rel: (T, T) -> bool, actual: seq<T>, expected: seq<T>, f: seq<nat>)
    requires Embedding(rel, actual, expected, f)
    ensures EarliestMatch(rel, actual, expected)
  {
    if expected != [] {
      assert f[0] < |actual|;
      if rel(actual[0], expected[0]) {
        assert forall i :: 1 <= i < |f| ==> f[0] < f[i];
        EarliestMatchComplete(rel, actual[1..], expected[1..],
                              seq(|f| - 1, i requires 0 <= i < |f| - 1 => f[i + 1] - 1));
      } else {
        assert forall i :: 0 <= i < |f| ==> f[0] <= f[i];
        EarliestMatchComplete(rel, actual[1..], expected, seq(|f|, i requires 0 <= i < |f| => f[i] - 1));
      }
    }
  }

  /** Earliest match is optimal for any relation, transitive or not. */
  lemma {:induction false} EarliestMatchIff<T>(rel: (T, T) -> bool, actual: seq<T>, expected: seq<T>)
    ensures EarliestMatch(rel, actual, expected) <==> Embeds(rel, actual, expected)
  {
    if EarliestMatch(rel, actual, expected) {
      var f := EarliestMatchSound(rel, actual, expected);
    }
    if Embeds(rel, actual, expected) {
      var f :| Embedding(rel, actual, expected, f);
      EarliestMatchComplete(rel, actual, expected, f);
    }
  }

  method SubsequenceMatch<T>(rel: (T, T) -> bool, actual: seq<T>, expected: seq<T>) returns (ok: bool)
    ensures ok <==> Embeds(rel, actual, expected)
  {
    EarliestMatchIff(rel, actual, expected);
    var next := 0;
    for e := 0 to |expected|
      invariant next <= |actual|
      invariant EarliestMatch(rel, actual, expected) == EarliestMatch(rel, actual[next..], expected[e..])
    {
      var matched := false;
      while next < |actual| && !matched
        invariant next <= |actual|
        invariant EarliestMatch(rel, actual, expected)
               == EarliestMatch(rel, actual[next..], expected[if matched then e + 1 else e..])
        decreases |actual| - next
      {
        assert actual[next..][1..] == actual[next + 1..];
        assert expected[e..][1..] == expected[e + 1..];
        matched := rel(actual[next], expected[e]);
        next := next + 1;
      }
      if !matched {
        return false;
      }
    }
    return true;
  }

  // ----- Unordered: each expected row takes the first unused actual row it relates to.

  /** An injective pairing of the expected rows into the actual rows outside `used`. */
  ghost predicate Pairing<T>(rel: (T, T) -> bool, actual: seq<T>, expected: seq<T>, used: set<nat>, f: seq<nat>) {
    && |f| == |expected|
    && (forall i :: 0 <= i < |f| ==> f[i] < |actual| && f[i] !in used && rel(actual[f[i]], expected[i]))
    && forall i, j :: 0 <= i < j < |f| ==> f[i] != f[j]
  }

  ghost predicate Pairs<T>(rel: (T, T) -> bool, actual: seq<T>, expected: seq<T>) {
    exists f :: Pairing(rel, actual, expected, {}, f)
  }

  /** The first index at or after `from` that is unused and relates to `row`; |actual| when there is none. */
  function FirstFree<T>(rel: (T, T) -> bool, actual: seq<T>, row: T, used: set<nat>, from: nat): (k: nat)
    requires from <= |actual|
    ensures from <= k <= |actual|
    ensures k < |actual| ==> k !in used && rel(actual[k], row)
    ensures forall i :: from <= i < k ==> i in used || !rel(actual[i], row)
    decreases |actual| - from
  {
    if from == |actual| then from
    else if from !in used && rel(actual[from], row) then from
    else FirstFree(rel, actual, row, used, from + 1)
  }

  function Greedy<T>(rel: (T, T) -> bool, actual: seq<T>, expected: seq<T>, used: set<nat>): bool {
    expected == [] ||
    var k := FirstFree(rel, actual, expected[0], used, 0);
    k < |actual| && Greedy(rel, actual, expected[1..], used + {k})
  }

  method GreedyMatch<T>(rel: (T, T) -> bool, actual: seq<T>, expected: seq<T>) returns (ok: bool)
    ensures ok == Greedy(rel, actual, expected, {})
  {
    var used: set<nat> := {};
    for e := 0 to |expected|
      invariant Greedy(rel, actual, expected, {}) == Greedy(rel, actual, expected[e..], used)
    {
      var k := 0;
      while k < |actual| && (k in used || !rel(actual[k], expected[e]))
        invariant k <= |actual|
        invariant FirstFree(rel, actual, expected[e], used, k) == FirstFree(rel, actual, expected[e], used, 0)
      {
        k := k + 1;
      }
      if k == |actual| {
        return false;
      }
      used := used + {k};
      assert expected[e..][1..] == expected[e + 1..];
    }
    return true;
  }

  lemma {:induction false} GreedyFrom<T>(rel: (T, T) -> bool, actual: seq<T>, expected: seq<T>, used: set<nat>)
    returns (f: seq<nat>)
    requires Greedy(rel, actual, expected, used)
    ensures Pairing(rel, actual, expected, used, f)
  {
    f := [];
    if expected != [] {
      var k := FirstFree(rel, actual, expected[0], used, 0);
      var g := GreedyFrom(rel, actual, expected[1..], used + {k});
      f := [k] + g;
    }
  }

  /** Greedy success always exhibits an injective pairing. */
  lemma {:induction false} GreedySound<T>(rel: (T, T) -> bool, actual: seq<T>, expected: seq<T>)
    requires Greedy(rel, actual, expected, {})
    ensures Pairs(rel, actual, expected)
  {
    var f := GreedyFrom(rel, actual, expected, {});
  }

  /** With equally many rows a pairing uses every actual row: it is a bijection. */
  lemma {:induction false} PairingIsOnto<T>(rel: (T, T) -> bool, actual: seq<T>, expected: seq<T>, f: seq<nat>)
    requires Pairing(rel, actual, expected, {}, f) && |actual| == |expected|
    ensures forall k: nat :: k < |actual| ==> k in f
  {
    ImageSize(f);
    assert Image(f) <= Below(|actual|);
    SubsetOfSameSize(Image(f), Below(|actual|));
    forall k: nat | k < |actual| ensures k in f {
      assert k in Below(|actual|);
    }
  }

  lemma SubsetOfSameSize(a: set<nat>, b: set<nat>)
    requires a <= b && |a| == |b|
    ensures a == b
  {
    assert b == a + (b - a);
    assert |b - a| == 0;
  }

  function Below(n: nat): (s: set<nat>)
    ensures |s| == n && forall k: nat :: k in s <==> k < n
  {
    if n == 0 then {} else Below(n - 1) + {n - 1}
  }

  function Image(f: seq<nat>): set<nat> {
    set k | k in f
  }

  lemma {:induction false} ImageSize(f: seq<nat>)
    requires forall i, j :: 0 <= i < j < |f| ==> f[i] != f[j]
    ensures |Image(f)| == |f|
  {
    if f != [] {
      ImageSize(f[1..]);
      assert Image(f) == {f[0]} + Image(f[1..]);
    }
  }

  // ----- When greedy unordered matching is complete.

  /** Two rows that share one partner share them all. */
  ghost predicate Rectangular<T>(rel: (T, T) -> bool, actual: seq<T>, expected: seq<T>) {
    forall a1, a2, e1, e2 | a1 in actual && a2 in actual && e1 in expected && e2 in expected ::
      rel(a1, e1) && rel(a1, e2) && rel(a2, e1) ==> rel(a2, e2)
  }

  // Exchange step: a pairing can be rearranged so that the first expected row takes the greedy choice k.
  lemma {:induction false} Exchange<T>(rel: (T, T) -> bool, actual: seq<T>, expected: seq<T>, used: set<nat>,
                                       f: seq<nat>, k: nat)
    returns (g: seq<nat>)
    requires Rectangular(rel, actual, expected) && expected != []
    requires Pairing(rel, actual, expected, used, f)
    requires k < |actual| && k !in used && rel(actual[k], expected[0])
    ensures Pairing(rel, actual, expected[1..], used + {k}, g)
  {
    if k in f[1..] {
      var j :| 1 <= j < |f| && f[j] == k;
      // k serves both expected[0] and expected[j]; f[0] serves expected[0], hence expected[j] as well.
      assert rel(actual[f[0]], expected[j]);
      g := f[1..][j - 1 := f[0]];
      assert forall i :: 0 <= i < |g| ==> g[i] == if i == j - 1 then f[0] else f[i + 1];
    } else {
      g := f[1..];
    }
  }

  lemma {:induction false} GreedyComplete<T>(rel: (T, T) -> bool, actual: seq<T>, expected: seq<T>,
                                             used: set<nat>, f: seq<nat>)
    requires Rectangular(rel, actual, expected)
    requires Pairing(rel, actual, expected, used, f)
    ensures Greedy(rel, actual, expected, used)
  {
    if expected != [] {
      var k := FirstFree(rel, actual, expected[0], used, 0);
      assert k <= f[0];
      var g := Exchange(rel, actual, expected, used, f, k);
      GreedyComplete(rel, actual, expected[1..], used + {k}, g);
    }
  }

  /** On rows over which the relation is rectangular, greedy succeeds exactly when a pairing exists. */
  lemma {:induction false} GreedyIffOnRectangular<T>(rel: (T, T) -> bool, actual: seq<T>, expected: seq<T>)
    requires Rectangular(rel, actual, expected)
    ensures Greedy(rel, actual, expected, {}) <==> Pairs(rel, actual, expected)
  {
    if Greedy(rel, actual, expected, {}) {
      GreedySound(rel, actual, expected);
    }
    if Pairs(rel, actual, expected) {
      var f :| Pairing(rel, actual, expected, {}, f);
      GreedyComplete(rel, actual, expected, {}, f);
    }
  }

  ghost predicate RectangularEverywhere<T(!new)>(rel: (T, T) -> bool) {
    forall a1, a2, e1, e2 :: rel(a1, e1) && rel(a1, e2) && rel(a2, e1) ==> rel(a2, e2)
  }

  ghost predicate GreedyIsExact<T(!new)>(rel: (T, T) -> bool) {
    forall actual: seq<T>, expected: seq<T> ::
      Greedy(rel, actual, expected, {}) <==> Pairs(rel, actual, expected)
  }

  /** Greedy matching is exact on all row lists for precisely the rectangular relations. */
  lemma {:induction false} GreedyExactIffRectangular<T(!new)>(rel: (T, T) -> bool)
    ensures GreedyIsExact(rel) <==> RectangularEverywhere(rel)
  {
    if RectangularEverywhere(rel) {
      forall actual: seq<T>, expected: seq<T>
        ensures Greedy(rel, actual, expected, {}) <==> Pairs(rel, actual, expected)
      {
        GreedyIffOnRectangular(rel, actual, expected);
      }
    } else {
      var a1, a2, e1, e2 :| rel(a1, e1) && rel(a1, e2) && rel(a2, e1) && !rel(a2, e2);
      CrossedRowsMissed(rel, a1, a2, e1, e2);
    }
  }

  // The first expected row takes a1, which only the second one could have used.
  lemma {:induction false} CrossedRowsMissed<T>(rel: (T, T) -> bool, a1: T, a2: T, e1: T, e2: T)
    requires rel(a1, e1) && rel(a1, e2) && rel(a2, e1) && !rel(a2, e2)
    ensures Pairs(rel, [a1, a2], [e1, e2]) && !Greedy(rel, [a1, a2], [e1, e2], {})
  {
    var actual, expected := [a1, a2], [e1, e2];
    assert Pairing(rel, actual, expected, {}, [1, 0]);
    assert FirstFree(rel, actual, e1, {}, 0) == 0;
    assert expected[1..] == [e2];
    assert FirstFree(rel, actual, e2, {0}, 0) == 2;
  }
}
