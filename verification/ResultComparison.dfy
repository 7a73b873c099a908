/** Comparison of query results (backend/app/evaluation/execution_accuracy.py): cell values, rows,
    tolerance, and the five comparison policies. */
module ResultComparison {
  import opened Sorting
  import opened RowMatching

  /** A canonical cell value; `Float` stands for a Python float without its rounding. */
  datatype Value = Null | Bool(b: bool) | Int(i: int) | Float(r: real) | Str(s: string)

  type Row = map<string, Value>

  datatype Policy = ExactOrdered | ExactUnordered | NumericTolerance | SubsetAllowed | Custom

  datatype Tolerance = Tolerance(epsilon: real, relative: bool)

  const DefaultTolerance := Tolerance(0.000001, false)

  /** The number Python compares a value as; booleans count as 0 and 1. */
  predicate HasNumber(v: Value) {
    v.Int? || v.Float? || v.Bool?
  }

  function Number(v: Value): real
    requires HasNumber(v)
  {
    match v
    case Int(i) => i as real
    case Float(r) => r
    case Bool(b) => if b then 1.0 else 0.0
  }

  /** Python's `==` on cell values: 1, 1.0 and True are equal. */
  predicate PyEqual(v: Value, w: Value) {
    if HasNumber(v) && HasNumber(w) then Number(v) == Number(w) else v == w
  }

  predicate IsNumeric(v: Value) {
    v.Int? || v.Float?
  }

  function Abs(x: real): real {
    if x < 0.0 then -x else x
  }

  predicate CompareNumeric(x: real, y: real, tol: Tolerance) {
    if tol.relative then
      var denominator := if Abs(x) >= Abs(y) then Abs(x) else Abs(y);
      denominator == 0.0 || Abs(x - y) / denominator <= tol.epsilon
    else
      Abs(x - y) <= tol.epsilon
  }

  predicate CellWithin(v: Value, w: Value, tol: Tolerance) {
    if IsNumeric(v) && IsNumeric(w) then CompareNumeric(Number(v), Number(w), tol) else PyEqual(v, w)
  }

  predicate RowsExact(x: Row, y: Row) {
    x.Keys == y.Keys && forall k | k in x :: PyEqual(x[k], y[k])
  }

  predicate RowsWithin(x: Row, y: Row, tol: Tolerance) {
    x.Keys == y.Keys && forall k | k in x :: CellWithin(x[k], y[k], tol)
  }

  function Within(tol: Tolerance): (Row, Row) -> bool {
    (x: Row, y: Row) => RowsWithin(x, y, tol)
  }

  ghost predicate Pointwise(rel: (Row, Row) -> bool, actual: seq<Row>, expected: seq<Row>) {
    |actual| == |expected| && forall i :: 0 <= i < |actual| ==> rel(actual[i], expected[i])
  }

  /** What each policy accepts. */
  ghost predicate Agrees(actual: seq<Row>, expected: seq<Row>, policy: Policy, orderSensitive: bool, tol: Tolerance) {
    match policy
    case ExactOrdered => Pointwise(RowsExact, actual, expected)
    case ExactUnordered => multiset(actual) == multiset(expected)
    case NumericTolerance =>
      if orderSensitive then Pointwise(Within(tol), actual, expected)
      else |actual| == |expected| && Greedy(Within(tol), actual, expected, {})
    case SubsetAllowed =>
      if orderSensitive then Embeds(Within(tol), actual, expected)
      else Greedy(Within(tol), actual, expected, {})
    case Custom =>
      if orderSensitive then Pointwise(RowsExact, actual, expected)
      else multiset(actual) == multiset(expected)
  }

  method ComparePointwise(rel: (Row, Row) -> bool, actual: seq<Row>, expected: seq<Row>) returns (ok: bool)
    ensures ok <==> Pointwise(rel, actual, expected)
  {
    if |actual| != |expected| {
      return false;
    }
    for i := 0 to |actual|
      invariant forall j :: 0 <= j < i ==> rel(actual[j], expected[j])
    {
      if !rel(actual[i], expected[i]) {
        return false;
      }
    }
    return true;
  }

  /** Sorts the serialised rows of both sides and compares the lists. `serialise` stands for the
      key-sorted JSON text of a row, which tells the compared rows apart. */
  method CompareSerialised(serialise: Row -> string, actual: seq<Row>, expected: seq<Row>) returns (ok: bool)
    requires InjectiveOn(serialise, actual + expected)
    ensures ok <==> multiset(actual) == multiset(expected)
  {
    LexIsTotalOrder();
    SortedImagesIff(LexLeq, serialise, actual, expected);
    ok := Sort(LexLeq, Map(serialise, actual)) == Sort(LexLeq, Map(serialise, expected));
  }

  method CompareSubset(actual: seq<Row>, expected: seq<Row>, orderSensitive: bool, tol: Tolerance) returns (ok: bool)
    ensures ok <==> if orderSensitive then Embeds(Within(tol), actual, expected)
                    else Greedy(Within(tol), actual, expected, {})
  {
    if expected == [] {
      assert Embedding(Within(tol), actual, expected, []);
      return true;
    }
    if orderSensitive {
      ok := SubsequenceMatch(Within(tol), actual, expected);
    } else {
      ok := GreedyMatch(Within(tol), actual, expected);
    }
  }

  method Compare(serialise: Row -> string, actual: seq<Row>, expected: seq<Row>, policy: Policy,
                 orderSensitive: bool, tol: Tolerance)
    returns (ok: bool)
    requires InjectiveOn(serialise, actual + expected)
    ensures ok <==> Agrees(actual, expected, policy, orderSensitive, tol)
  {
    match policy
    case ExactOrdered =>
      ok := ComparePointwise(RowsExact, actual, expected);
    case ExactUnordered =>
      if |actual| != |expected| {
        assert |multiset(actual)| != |multiset(expected)|;
        return false;
      }
      ok := CompareSerialised(serialise, actual, expected);
    case NumericTolerance =>
      if |actual| != |expected| {
        return false;
      }
      if orderSensitive {
        ok := ComparePointwise(Within(tol), actual, expected);
      } else {
        ok := GreedyMatch(Within(tol), actual, expected);
      }
    case SubsetAllowed =>
      ok := CompareSubset(actual, expected, orderSensitive, tol);
    case Custom =>
      if orderSensitive {
        ok := ComparePointwise(RowsExact, actual, expected);
      } else {
        ok := CompareSerialised(serialise, actual, expected);
      }
  }

  /** The unordered custom policy skips the length check and still accepts what exact-unordered accepts. */
  lemma CustomAgreesWithUnordered(actual: seq<Row>, expected: seq<Row>, tol: Tolerance)
    ensures Agrees(actual, expected, Custom, false, tol) <==> Agrees(actual, expected, ExactUnordered, false, tol)
    ensures Agrees(actual, expected, Custom, false, tol) ==> |actual| == |expected|
  {
    if multiset(actual) == multiset(expected) {
      assert |multiset(actual)| == |multiset(expected)|;
    }
  }

  /** A pass under unordered tolerance pairs every actual row with its own expected row, within tolerance. */
  lemma {:induction false} ToleranceMatchIsBijection(actual: seq<Row>, expected: seq<Row>, tol: Tolerance)
    returns (f: seq<nat>)
    requires Agrees(actual, expected, NumericTolerance, false, tol)
    ensures Pairing(Within(tol), actual, expected, {}, f)
    ensures forall k: nat :: k < |actual| ==> k in f
  {
    f := GreedyFrom(Within(tol), actual, expected, {});
    PairingIsOnto(Within(tol), actual, expected, f);
  }

  // ----- What tolerance means.

  function Largest(x: real, y: real): real {
    if Abs(x) >= Abs(y) then Abs(x) else Abs(y)
  }

  lemma QuotientWithin(n: real, d: real, epsilon: real)
    requires d > 0.0
    ensures n / d <= epsilon <==> n <= epsilon * d
  {
    assert n / d * d == n;
  }

  /** Two numbers agree when they are at most epsilon apart, or that part of the larger of their sizes when the
      tolerance is relative, under which 0 agrees with itself whatever epsilon is. */
  lemma WithinIff(x: real, y: real, tol: Tolerance)
    ensures !tol.relative ==> (CompareNumeric(x, y, tol) <==> -tol.epsilon <= x - y <= tol.epsilon)
    ensures tol.relative ==>
              (CompareNumeric(x, y, tol) <==> (x == 0.0 && y == 0.0) || Abs(x - y) <= tol.epsilon * Largest(x, y))
  {
    if tol.relative && Largest(x, y) > 0.0 {
      QuotientWithin(Abs(x - y), Largest(x, y), tol.epsilon);
    }
  }

  /** A number in another unit. */
  function Scaled(unit: real, x: real): real {
    unit * x
  }

  /** Agreement within tolerance does not depend on which side is expected; within a relative one, not on the unit. */
  lemma WithinIsFair(x: real, y: real, unit: real, tol: Tolerance)
    ensures CompareNumeric(x, y, tol) <==> CompareNumeric(y, x, tol)
    ensures tol.relative && unit > 0.0 ==>
              (CompareNumeric(x, y, tol) <==> CompareNumeric(Scaled(unit, x), Scaled(unit, y), tol))
  {
    hide Scaled;
    assert Abs(x - y) == Abs(y - x);
    if tol.relative && unit > 0.0 {
      DistanceScaled(unit, x, y);
      AbsScaled(unit, x);
      AbsScaled(unit, y);
      ScaledCompares(unit, Abs(x), Abs(y));
      if Largest(x, y) > 0.0 {
        QuotientScaled(unit, Abs(x - y), Largest(x, y));
      }
    }
  }

  lemma ScaledCompares(unit: real, x: real, y: real)
    requires unit > 0.0
    ensures Scaled(unit, x) >= Scaled(unit, y) <==> x >= y
    ensures Scaled(unit, x) == 0.0 <==> x == 0.0
  {
  }

  lemma AbsScaled(unit: real, x: real)
    requires unit > 0.0
    ensures Abs(Scaled(unit, x)) == Scaled(unit, Abs(x))
    ensures Scaled(unit, Abs(x)) == 0.0 <==> Abs(x) == 0.0
  {
  }

  lemma DistanceScaled(unit: real, x: real, y: real)
    requires unit > 0.0
    ensures Abs(Scaled(unit, x) - Scaled(unit, y)) == Scaled(unit, Abs(x - y))
  {
    AbsScaled(unit, x - y);
  }

  lemma QuotientScaled(unit: real, n: real, d: real)
    requires d > 0.0 && unit > 0.0
    ensures Scaled(unit, d) > 0.0 && Scaled(unit, n) / Scaled(unit, d) == n / d
  {
    assert n / d * (unit * d) == unit * n;
  }

  /** Which cells agree: numbers within tolerance, anything else when Python's == holds; a boolean is no number here,
      but equals 1 or 0. */
  lemma CellWithinIff(v: Value, w: Value, tol: Tolerance)
    ensures (v.Int? || v.Float?) && (w.Int? || w.Float?) ==>
              (CellWithin(v, w, tol) <==> CompareNumeric(Number(v), Number(w), tol))
    ensures v.Bool? || w.Bool? ==>
              (CellWithin(v, w, tol) <==>
                 || v == w
                 || (v.Bool? && w in {Int(1), Float(1.0)} && v.b) || (v.Bool? && w in {Int(0), Float(0.0)} && !v.b)
                 || (w.Bool? && v in {Int(1), Float(1.0)} && w.b) || (w.Bool? && v in {Int(0), Float(0.0)} && !w.b))
    ensures v.Str? || v.Null? || w.Str? || w.Null? ==> (CellWithin(v, w, tol) <==> v == w)
  {
  }

  // ----- Tolerance and the greedy matching.

  lemma ZeroEpsilonIsEquality(v: Value, w: Value, tol: Tolerance)
    requires tol.epsilon == 0.0
    ensures CellWithin(v, w, tol) <==> PyEqual(v, w)
  {
    if IsNumeric(v) && IsNumeric(w) && tol.relative {
      var x, y := Number(v), Number(w);
      var d := if Abs(x) >= Abs(y) then Abs(x) else Abs(y);
      if d > 0.0 && x != y {
        QuotientPositive(Abs(x - y), d);
      }
    }
  }

  lemma QuotientPositive(n: real, d: real)
    requires n > 0.0 && d > 0.0
    ensures n / d > 0.0
  {
  }

  lemma PyEqualRectangular(a1: Value, a2: Value, e1: Value, e2: Value)
    requires PyEqual(a1, e1) && PyEqual(a1, e2) && PyEqual(a2, e1)
    ensures PyEqual(a2, e2)
  {
  }

  lemma {:induction false} ZeroEpsilonIsRectangular(tol: Tolerance)
    requires tol.epsilon == 0.0
    ensures RectangularEverywhere(Within(tol))
  {
    forall a1: Row, a2: Row, e1: Row, e2: Row
      | Within(tol)(a1, e1) && Within(tol)(a1, e2) && Within(tol)(a2, e1)
      ensures Within(tol)(a2, e2)
    {
      forall k | k in a2 ensures CellWithin(a2[k], e2[k], tol) {
        ZeroEpsilonIsEquality(a1[k], e1[k], tol);
        ZeroEpsilonIsEquality(a1[k], e2[k], tol);
        ZeroEpsilonIsEquality(a2[k], e1[k], tol);
        ZeroEpsilonIsEquality(a2[k], e2[k], tol);
        PyEqualRectangular(a1[k], a2[k], e1[k], e2[k]);
      }
    }
  }

  lemma SmallQuotient(delta: real, epsilon: real)
    requires 0.0 < delta <= epsilon
    ensures delta / (1.0 + delta) <= epsilon
  {
  }

  // True equals 1 but has no tolerance of its own, which crosses the rows at any other epsilon.
  lemma {:induction false} OtherEpsilonCrosses(tol: Tolerance)
    requires tol.epsilon != 0.0
    ensures !RectangularEverywhere(Within(tol))
  {
    var yes, one := map["c" := Bool(true)], map["c" := Int(1)];
    var rel := Within(tol);
    if tol.epsilon < 0.0 {
      assert rel(yes, yes) && rel(yes, one) && rel(one, yes);
      assert Number(one["c"]) == 1.0;
      assert Abs(1.0 - 1.0) == 0.0;
      assert !CellWithin(one["c"], one["c"], tol);
      assert !rel(one, one);
    } else {
      var close := map["c" := Float(1.0 + tol.epsilon)];
      SmallQuotient(tol.epsilon, tol.epsilon);
      assert rel(yes, one) && rel(yes, yes);
      assert CellWithin(close["c"], one["c"], tol);
      assert rel(close, one);
      assert !CellWithin(close["c"], yes["c"], tol);
      assert !rel(close, yes);
    }
  }

  /** Unordered matching under tolerance finds a pairing whenever there is one, on all results,
      exactly when epsilon is 0; the default epsilon does not qualify. */
  lemma {:induction false} GreedyExactIffZeroEpsilon(tol: Tolerance)
    ensures GreedyIsExact(Within(tol)) <==> tol.epsilon == 0.0
  {
    GreedyExactIffRectangular(Within(tol));
    if tol.epsilon == 0.0 {
      ZeroEpsilonIsRectangular(tol);
    } else {
      OtherEpsilonCrosses(tol);
    }
  }

  function Single(n: int): Row {
    map["n" := Int(n)]
  }

  /** With epsilon 1, actual 0, 1, 2 against expected 1, 2, 0 has a pairing and is refused. */
  lemma {:induction false} RefusedThoughPaired()
    ensures var actual, expected := [Single(0), Single(1), Single(2)], [Single(1), Single(2), Single(0)];
            && Pairs(Within(Tolerance(1.0, false)), actual, expected)
            && !Agrees(actual, expected, NumericTolerance, false, Tolerance(1.0, false))
  {
    hide Within, Single;
    var rel := Within(Tolerance(1.0, false));
    var actual, expected := [Single(0), Single(1), Single(2)], [Single(1), Single(2), Single(0)];
    SinglesWithinOne();
    assert Pairing(rel, actual, expected, {}, [1, 2, 0]);
    assert expected[1..] == [Single(2), Single(0)] && expected[1..][1..] == [Single(0)];
    assert FirstFree(rel, actual, expected[0], {}, 0) == 0;
    assert FirstFree(rel, actual, expected[1], {0}, 0) == 1;
    assert FirstFree(rel, actual, expected[2], {0, 1}, 0) == 3;
    assert {} + {0} == {0} && {0} + {1} == {0, 1};
    assert !Greedy(rel, actual, expected[1..][1..], {0, 1});
    assert !Greedy(rel, actual, expected[1..], {0});
  }

  lemma SinglesWithinOne()
    ensures forall m, n :: Within(Tolerance(1.0, false))(Single(m), Single(n)) <==> -1 <= m - n <= 1
  {
    forall m, n ensures Within(Tolerance(1.0, false))(Single(m), Single(n)) <==> -1 <= m - n <= 1 {
      assert Single(m)["n"] == Int(m) && Single(n)["n"] == Int(n);
      assert Number(Int(m)) - Number(Int(n)) == (m - n) as real;
    }
  }

  // ----- Ordered and unordered exact comparison.

  /** No two different values that Python calls equal. */
  ghost predicate NoTwins(allowed: Value -> bool) {
    forall v, w :: allowed(v) && allowed(w) && PyEqual(v, w) ==> v == w
  }

  ghost predicate Uses(allowed: Value -> bool, rows: seq<Row>) {
    forall i, k :: 0 <= i < |rows| && k in rows[i] ==> allowed(rows[i][k])
  }

  ghost predicate OrderedImpliesUnordered(allowed: Value -> bool) {
    forall actual: seq<Row>, expected: seq<Row>, tol: Tolerance ::
      Uses(allowed, actual) && Uses(allowed, expected) && Agrees(actual, expected, ExactOrdered, true, tol)
      ==> Agrees(actual, expected, ExactUnordered, true, tol)
  }

  /** Passing the ordered comparison implies passing the unordered one on all results built from the
      allowed values exactly when those hold no twins such as 1, 1.0 and True: `==` identifies them
      while their JSON text differs. */
  lemma {:induction false} OrderedImpliesUnorderedIff(allowed: Value -> bool)
    ensures OrderedImpliesUnordered(allowed) <==> NoTwins(allowed)
  {
    if NoTwins(allowed) {
      forall actual: seq<Row>, expected: seq<Row>, tol: Tolerance
        | Uses(allowed, actual) && Uses(allowed, expected) && Agrees(actual, expected, ExactOrdered, true, tol)
        ensures Agrees(actual, expected, ExactUnordered, true, tol)
      {
        forall i | 0 <= i < |actual| ensures actual[i] == expected[i] {
          assert RowsExact(actual[i], expected[i]);
        }
        assert actual == expected;
      }
    } else {
      var v, w :| allowed(v) && allowed(w) && PyEqual(v, w) && v != w;
      var x: Row, y: Row := map["c" := v], map["c" := w];
      assert x["c"] != y["c"];
      assert x in multiset([x]) && x !in multiset([y]);
      assert Agrees([x], [y], ExactOrdered, true, DefaultTolerance);
      assert !Agrees([x], [y], ExactUnordered, true, DefaultTolerance);
    }
  }
}
