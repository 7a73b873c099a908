/** Judging evaluation cases and classifying the failures (backend/app/evaluation/execution_accuracy.py,
    backend/app/evaluation/failure_analytics.py). */
module FailureAnalytics {
  import opened Wrappers
  import opened Sorting
  import opened RowMatching
  import opened ResultComparison

  datatype Category =
    | Passed | EmptyPredictedSql | UnsafeSqlRejected | SqlExecutionError | FixtureNotFound
    | ExpectedResultInvalid | GoldSqlExecutionError | RowCountMismatch | ColumnShapeMismatch
    | ValueMismatch | OrderMismatch | NumericToleranceMismatch | DialectMismatchWarning
    | BlockedLiveConnection | RejectedByOrchestrator | UnknownFailure

  const CATEGORIES := [
    Passed, EmptyPredictedSql, UnsafeSqlRejected, SqlExecutionError, FixtureNotFound,
    ExpectedResultInvalid, GoldSqlExecutionError, RowCountMismatch, ColumnShapeMismatch,
    ValueMismatch, OrderMismatch, NumericToleranceMismatch, DialectMismatchWarning,
    BlockedLiveConnection, RejectedByOrchestrator, UnknownFailure
  ]

  /** Place of a category in the enumeration. */
  function Position(c: Category): (p: nat)
    ensures p < |CATEGORIES| && CATEGORIES[p] == c
  {
    match c
    case Passed => 0
    case EmptyPredictedSql => 1
    case UnsafeSqlRejected => 2
    case SqlExecutionError => 3
    case FixtureNotFound => 4
    case ExpectedResultInvalid => 5
    case GoldSqlExecutionError => 6
    case RowCountMismatch => 7
    case ColumnShapeMismatch => 8
    case ValueMismatch => 9
    case OrderMismatch => 10
    case NumericToleranceMismatch => 11
    case DialectMismatchWarning => 12
    case BlockedLiveConnection => 13
    case RejectedByOrchestrator => 14
    case UnknownFailure => 15
  }

  datatype Severity = Info | Low | Medium | High | Critical

  /** What running a statement gave: its rows, or an exception with a message. */
  datatype Execution = Rows(rows: seq<Row>) | Raised(message: string)

  datatype CaseResult = CaseResult(
    caseId: string, policy: Policy, passed: bool,
    expectedRowCount: Option<nat>, actualRowCount: Option<nat>,
    expected: Option<seq<Row>>, actual: Option<seq<Row>>, executionError: string)

  datatype Analysis = Analysis(caseId: string, category: Category, severity: Severity, passed: bool)

  // ----- Judging one case.

  function RowsOrNone(e: Execution): Option<seq<Row>> {
    match e
    case Rows(rows) => Some(rows)
    case Raised(_) => None
  }

  /** A missing result is canonicalised to no rows. */
  function Canonical(rows: Option<seq<Row>>): seq<Row> {
    match rows
    case Some(r) => r
    case None => []
  }

  const GOLD_FAILED := "Gold SQL execution failed: "

  /** The verdict on one case. An error counts as an error only when its message is non-empty. */
  ghost function Judge(caseId: string, predicted: Execution, gold: Execution,
                       policy: Policy, orderSensitive: bool, tol: Tolerance): CaseResult
  {
    var actual, expected := RowsOrNone(predicted), RowsOrNone(gold);
    var actualCount, expectedCount := |Canonical(actual)|, |Canonical(expected)|;
    var predictedError := if predicted.Raised? then predicted.message else "";
    var goldError := if gold.Raised? then GOLD_FAILED + gold.message else "";
    if predictedError != "" || goldError != "" then
      CaseResult(caseId, policy, false, Some(expectedCount), Some(actualCount), expected, actual,
                 if predictedError != "" then predictedError else goldError)
    else
      CaseResult(caseId, policy, Agrees(Canonical(actual), Canonical(expected), policy, orderSensitive, tol),
                 Some(expectedCount), Some(actualCount), expected, actual, "")
  }

  lemma NoRowsAgreeOnlyWithNoRows(expected: seq<Row>, policy: Policy, orderSensitive: bool, tol: Tolerance)
    ensures Agrees([], expected, policy, orderSensitive, tol) <==> expected == []
  {
    if expected == [] {
      assert Embedding(Within(tol), [], expected, []);
    } else {
      assert expected[0] in multiset(expected);
      assert !Embeds(Within(tol), [], expected);
    }
  }

  /** A case whose SQL raised passes exactly when the exception carried no message and no rows were expected. */
  lemma RaisedCasePassesIff(caseId: string, message: string, gold: Execution,
                            policy: Policy, orderSensitive: bool, tol: Tolerance)
    ensures Judge(caseId, Raised(message), gold, policy, orderSensitive, tol).passed
       <==> message == "" && gold == Rows([])
  {
    NoRowsAgreeOnlyWithNoRows(Canonical(RowsOrNone(gold)), policy, orderSensitive, tol);
  }

  // ----- Classifying one case.

  function LowerChar(c: char): char {
    if 'A' <= c <= 'Z' then (c as int + 32) as char else c
  }

  function Lower(s: string): string {
    if s == [] then [] else [LowerChar(s[0])] + Lower(s[1..])
  }

  predicate Contains(s: string, part: string) {
    part <= s || (s != [] && Contains(s[1..], part))
  }

  const EMPTY_SQL := "predicted_sql cannot be empty"
  const WRITE_DETECTED := "write operation detected"
  const ONLY_SELECTS := "only read-only select statements are allowed"
  const READ_ONLY_VIOLATION := "read_only_violation"
  const NO_FIXTURE := "fixture database not found"
  const NO_DATABASE := "database_not_found"
  const CANNOT_OPEN := "unable to open database file"
  const GOLD_RAISED := "gold sql execution failed"
  const EXPECTED_INVALID := "expected result canonicalization failed"
  const LIVE_BLOCKED := "blocked_live_connection"
  const REJECTED_BY := "rejected_by_orchestrator"
  const REJECTED := "rejected"
  const REJECTED_WITH := "rejected:"
  const REJECTED_TEXT := "rejected by orchestrator"

  function ClassifyError(err: string): (Category, Severity) {
    var e := Lower(err);
    if Contains(e, EMPTY_SQL) then (EmptyPredictedSql, High)
    else if Contains(e, WRITE_DETECTED) || Contains(e, ONLY_SELECTS) || Contains(e, READ_ONLY_VIOLATION) then
      (UnsafeSqlRejected, Critical)
    else if Contains(e, NO_FIXTURE) || Contains(e, NO_DATABASE) || Contains(e, CANNOT_OPEN) then
      (FixtureNotFound, Critical)
    else if Contains(e, GOLD_RAISED) then (GoldSqlExecutionError, High)
    else if Contains(e, EXPECTED_INVALID) then (ExpectedResultInvalid, High)
    else if e == LIVE_BLOCKED then (BlockedLiveConnection, Critical)
    else if REJECTED_BY <= e || e == REJECTED || REJECTED_WITH <= e || Contains(e, REJECTED_TEXT) then
      (RejectedByOrchestrator, High)
    else (SqlExecutionError, Medium)
  }

  predicate SameShapes(actual: seq<Row>, expected: seq<Row>)
    requires |actual| == |expected|
  {
    forall i | 0 <= i < |actual| :: actual[i].Keys == expected[i].Keys
  }

  function ClassifyMismatch(r: CaseResult): (Category, Severity) {
    if r.expectedRowCount.Some? && r.actualRowCount.Some? && r.expectedRowCount != r.actualRowCount then
      (RowCountMismatch, Medium)
    else if r.actual.None? || r.expected.None? then
      (UnknownFailure, Medium)
    else if |r.actual.value| == |r.expected.value| && !SameShapes(r.actual.value, r.expected.value) then
      (ColumnShapeMismatch, Medium)
    else if r.policy == ExactOrdered && multiset(r.actual.value) == multiset(r.expected.value) then
      (OrderMismatch, Low)
    else if r.policy == NumericTolerance then
      (NumericToleranceMismatch, Low)
    else
      (ValueMismatch, Medium)
  }

  function AnalyzeCase(r: CaseResult): Analysis {
    if r.passed then Analysis(r.caseId, Passed, Info, true)
    else
      var (category, severity) :=
        if r.executionError != "" then ClassifyError(r.executionError) else ClassifyMismatch(r);
      Analysis(r.caseId, category, severity, false)
  }

  lemma PassedIff(r: CaseResult)
    ensures AnalyzeCase(r).category == Passed <==> r.passed
    ensures AnalyzeCase(r).passed == r.passed && AnalyzeCase(r).caseId == r.caseId
  {
  }

  /** A judged case reported as an order mismatch holds the same rows, each as often, in another order. */
  lemma OrderMismatchMeans(caseId: string, predicted: Execution, gold: Execution,
                           policy: Policy, orderSensitive: bool, tol: Tolerance)
    requires AnalyzeCase(Judge(caseId, predicted, gold, policy, orderSensitive, tol)).category == OrderMismatch
    ensures predicted.Rows? && gold.Rows?
    ensures multiset(predicted.rows) == multiset(gold.rows) && predicted.rows != gold.rows
    ensures !Pointwise(RowsExact, predicted.rows, gold.rows)
  {
    hide ClassifyError, SameShapes, Pointwise;
    ErrorsAreNoMismatches(Judge(caseId, predicted, gold, policy, orderSensitive, tol).executionError);
    if predicted.Rows? && gold.Rows? && predicted.rows == gold.rows {
      SameRowsMatch(gold.rows);
    }
  }

  lemma ErrorsAreNoMismatches(err: string)
    ensures ClassifyError(err).0 !in {OrderMismatch, RowCountMismatch, ColumnShapeMismatch, ValueMismatch,
                                      NumericToleranceMismatch, UnknownFailure}
  {
    hide Contains, Lower;
  }

  lemma SameRowsMatch(rows: seq<Row>)
    ensures Pointwise(RowsExact, rows, rows)
  {
  }

  /** No judged case is ever an unknown failure. */
  lemma NeverUnknown(caseId: string, predicted: Execution, gold: Execution,
                     policy: Policy, orderSensitive: bool, tol: Tolerance)
    ensures AnalyzeCase(Judge(caseId, predicted, gold, policy, orderSensitive, tol)).category != UnknownFailure
  {
    hide ClassifyError, SameShapes, Agrees;
    ErrorsAreNoMismatches(Judge(caseId, predicted, gold, policy, orderSensitive, tol).executionError);
    NoRowsAgreeOnlyWithNoRows(Canonical(RowsOrNone(gold)), policy, orderSensitive, tol);
  }

  // ----- What a category means.

  /** A part stands in a text when the text has it at some position. */
  lemma {:induction false} ContainsIff(s: string, part: string)
    ensures Contains(s, part) <==> exists k :: 0 <= k <= |s| && part <= s[k..]
  {
    if part <= s {
      assert part <= s[0..];
    }
    if s != [] {
      ContainsIff(s[1..], part);
      forall k | 0 <= k < |s| ensures s[1..][k..] == s[k + 1..] {
      }
      if Contains(s[1..], part) {
        var k :| 0 <= k <= |s[1..]| && part <= s[1..][k..];
        assert part <= s[k + 1..];
      }
      if k :| 0 < k <= |s| && part <= s[k..] {
        assert part <= s[1..][k - 1..];
      }
    }
  }

  /** Capital letters become small ones and nothing else changes. */
  lemma {:induction false} LowerIs(s: string)
    ensures |Lower(s)| == |s|
    ensures forall i | 0 <= i < |s| ::
              if 'A' <= s[i] <= 'Z' then Lower(s)[i] as int - 'a' as int == s[i] as int - 'A' as int
              else Lower(s)[i] == s[i]
  {
    if s != [] {
      LowerIs(s[1..]);
    }
  }

  /** Which category an error text leads to: the first whose phrase it has, whatever the case of its letters. */
  lemma ErrorCategoryIff(err: string)
    ensures var e, c := Lower(err), ClassifyError(err).0;
            var empty := Contains(e, "predicted_sql cannot be empty");
            var unsafe := || Contains(e, "write operation detected") || Contains(e, "read_only_violation")
                          || Contains(e, "only read-only select statements are allowed");
            var fixture := || Contains(e, "fixture database not found") || Contains(e, "database_not_found")
                           || Contains(e, "unable to open database file");
            var gold, expected := Contains(e, "gold sql execution failed"),
                                  Contains(e, "expected result canonicalization failed");
            var known := empty || unsafe || fixture || gold || expected;
            var rejected := || "rejected_by_orchestrator" <= e || "rejected:" <= e || e == "rejected"
                            || Contains(e, "rejected by orchestrator");
            && (c == EmptyPredictedSql <==> empty)
            && (c == UnsafeSqlRejected <==> unsafe && !empty)
            && (c == FixtureNotFound <==> fixture && !empty && !unsafe)
            && (c == GoldSqlExecutionError <==> gold && !empty && !unsafe && !fixture)
            && (c == ExpectedResultInvalid <==> expected && !empty && !unsafe && !fixture && !gold)
            && (c == BlockedLiveConnection <==> e == "blocked_live_connection" && !known)
            && (c == RejectedByOrchestrator <==> rejected && !known && e != "blocked_live_connection")
            && (c == SqlExecutionError <==> !known && !rejected && e != "blocked_live_connection")
  {
    hide Contains, Lower;
  }

  /** How severe a category is. */
  function SeverityOf(c: Category): Severity {
    match c
    case Passed => Info
    case UnsafeSqlRejected => Critical
    case FixtureNotFound => Critical
    case BlockedLiveConnection => Critical
    case EmptyPredictedSql => High
    case GoldSqlExecutionError => High
    case ExpectedResultInvalid => High
    case RejectedByOrchestrator => High
    case OrderMismatch => Low
    case NumericToleranceMismatch => Low
    case _ => Medium
  }

  /** The severity of a case depends on its category alone, whatever branch it came from. */
  lemma SeverityFollowsCategory(r: CaseResult)
    ensures AnalyzeCase(r).severity == SeverityOf(AnalyzeCase(r).category)
  {
    hide Contains, Lower, SameShapes;
  }

  /** The category of a case, told from what its two statements gave: an error of the predicted statement counts first,
      then one of the gold statement, unless its message is empty; then the number of rows, their columns, and whether
      only their order differs. */
  lemma CaseCategoryIff(caseId: string, predicted: Execution, gold: Execution,
                        policy: Policy, orderSensitive: bool, tol: Tolerance)
    ensures var c := AnalyzeCase(Judge(caseId, predicted, gold, policy, orderSensitive, tol)).category;
            var actual, expected := (if predicted.Rows? then predicted.rows else []),
                                    (if gold.Rows? then gold.rows else []);
            if predicted.Raised? && predicted.message != "" then c == ClassifyError(predicted.message).0
            else if gold.Raised? then c == ClassifyError("Gold SQL execution failed: " + gold.message).0
            else if Agrees(actual, expected, policy, orderSensitive, tol) then c == Passed
            else if |actual| != |expected| then c == RowCountMismatch
            else
              && predicted.Rows?
              && (c == ColumnShapeMismatch <==> exists i :: 0 <= i < |actual| && actual[i].Keys != expected[i].Keys)
              && (c == OrderMismatch <==>
                    && policy == ExactOrdered && multiset(actual) == multiset(expected)
                    && forall i :: 0 <= i < |actual| ==> actual[i].Keys == expected[i].Keys)
              && (c == NumericToleranceMismatch <==>
                    && policy == NumericTolerance
                    && forall i :: 0 <= i < |actual| ==> actual[i].Keys == expected[i].Keys)
              && c in {ColumnShapeMismatch, OrderMismatch, NumericToleranceMismatch, ValueMismatch}
  {
    hide ClassifyError, Agrees;
    NoRowsAgreeOnlyWithNoRows(Canonical(RowsOrNone(gold)), policy, orderSensitive, tol);
    assert |GOLD_FAILED| == 27;
  }

  // ----- Which categories are ever reported.

  lemma {:induction false} ContainedFits(s: string, part: string, c: char)
    requires Contains(s, part)
    ensures |part| <= |s| && (c in part ==> c in s)
  {
    if !(part <= s) {
      ContainedFits(s[1..], part, c);
      assert s == [s[0]] + s[1..];
    }
  }

  lemma NotContained(s: string, part: string, c: char)
    requires |part| > |s| || (c in part && c !in s)
    ensures !Contains(s, part)
  {
    if Contains(s, part) {
      ContainedFits(s, part, c);
    }
  }

  lemma ContainsItself(s: string)
    ensures Contains(s, s)
  {
  }

  predicate NoCapitals(s: string) {
    forall c | c in s :: !('A' <= c <= 'Z')
  }

  lemma {:induction false} LowerKeeps(s: string)
    requires NoCapitals(s)
    ensures Lower(s) == s
  {
    if s != [] {
      assert s[0] in s && forall c | c in s[1..] :: c in s;
      LowerKeeps(s[1..]);
      assert s == [s[0]] + s[1..];
    }
  }

  lemma PhraseLengths()
    ensures |EMPTY_SQL| == 29 && |WRITE_DETECTED| == 24 && |ONLY_SELECTS| == 44 && |READ_ONLY_VIOLATION| == 19
    ensures |NO_FIXTURE| == 26 && |NO_DATABASE| == 18 && |CANNOT_OPEN| == 28 && |GOLD_RAISED| == 25
    ensures |EXPECTED_INVALID| == 39 && |LIVE_BLOCKED| == 23 && |REJECTED_BY| == 24 && |REJECTED| == 8
    ensures |REJECTED_WITH| == 9 && |REJECTED_TEXT| == 24
  {
  }

  // A character of each phrase that others lack.
  lemma PhraseCharacters()
    ensures '_' in EMPTY_SQL && 'w' in WRITE_DETECTED && '_' in READ_ONLY_VIOLATION && 'a' in READ_ONLY_VIOLATION
    ensures 'b' in NO_FIXTURE && '_' in NO_DATABASE && 'a' in NO_DATABASE && 'b' in CANNOT_OPEN && 'g' in GOLD_RAISED
  {
  }

  lemma GoldLacks()
    ensures NoCapitals(GOLD_RAISED) && 'w' !in GOLD_RAISED && '_' !in GOLD_RAISED
  {
  }

  lemma ExpectedLacks()
    ensures '_' !in EXPECTED_INVALID && 'w' !in EXPECTED_INVALID
  {
  }

  lemma ExpectedLacksMore()
    ensures 'b' !in EXPECTED_INVALID && 'g' !in EXPECTED_INVALID
  {
  }

  lemma ExpectedIsLower()
    ensures NoCapitals(EXPECTED_INVALID)
  {
  }

  lemma BlockedLacks()
    ensures NoCapitals(LIVE_BLOCKED) && 'a' !in LIVE_BLOCKED
  {
  }

  lemma EmptyIsLower()
    ensures NoCapitals(EMPTY_SQL)
  {
  }

  lemma OthersAreLower()
    ensures NoCapitals(READ_ONLY_VIOLATION) && NoCapitals(NO_DATABASE) && NoCapitals(REJECTED)
  {
  }

  /** An error text for each category that error texts lead to. */
  function ErrorText(c: Category): string {
    match c
    case EmptyPredictedSql => EMPTY_SQL
    case UnsafeSqlRejected => READ_ONLY_VIOLATION
    case FixtureNotFound => NO_DATABASE
    case GoldSqlExecutionError => GOLD_RAISED
    case ExpectedResultInvalid => EXPECTED_INVALID
    case BlockedLiveConnection => LIVE_BLOCKED
    case RejectedByOrchestrator => REJECTED
    case SqlExecutionError => "x"
    case _ => ""
  }

  lemma EmptyText()
    ensures ClassifyError(EMPTY_SQL).0 == EmptyPredictedSql
  {
    hide EMPTY_SQL, WRITE_DETECTED, ONLY_SELECTS, READ_ONLY_VIOLATION, NO_FIXTURE, NO_DATABASE, CANNOT_OPEN,
         GOLD_RAISED, EXPECTED_INVALID, LIVE_BLOCKED, REJECTED_BY, REJECTED, REJECTED_WITH, REJECTED_TEXT, Lower,
         Contains;
    PhraseLengths();
    PhraseCharacters();
    EmptyIsLower();
    LowerKeeps(EMPTY_SQL);
    ContainsItself(EMPTY_SQL);
  }

  lemma UnsafeText()
    ensures ClassifyError(READ_ONLY_VIOLATION).0 == UnsafeSqlRejected
  {
    hide EMPTY_SQL, WRITE_DETECTED, ONLY_SELECTS, READ_ONLY_VIOLATION, NO_FIXTURE, NO_DATABASE, CANNOT_OPEN,
         GOLD_RAISED, EXPECTED_INVALID, LIVE_BLOCKED, REJECTED_BY, REJECTED, REJECTED_WITH, REJECTED_TEXT, Lower,
         Contains;
    PhraseLengths();
    PhraseCharacters();
    OthersAreLower();
    LowerKeeps(READ_ONLY_VIOLATION);
    NotContained(READ_ONLY_VIOLATION, EMPTY_SQL, 'p');
    ContainsItself(READ_ONLY_VIOLATION);
  }

  lemma FixtureText()
    ensures ClassifyError(NO_DATABASE).0 == FixtureNotFound
  {
    hide EMPTY_SQL, WRITE_DETECTED, ONLY_SELECTS, READ_ONLY_VIOLATION, NO_FIXTURE, NO_DATABASE, CANNOT_OPEN,
         GOLD_RAISED, EXPECTED_INVALID, LIVE_BLOCKED, REJECTED_BY, REJECTED, REJECTED_WITH, REJECTED_TEXT, Lower,
         Contains;
    PhraseLengths();
    PhraseCharacters();
    OthersAreLower();
    LowerKeeps(NO_DATABASE);
    NotContained(NO_DATABASE, EMPTY_SQL, 'p');
    NotContained(NO_DATABASE, WRITE_DETECTED, 'w');
    NotContained(NO_DATABASE, ONLY_SELECTS, 'o');
    NotContained(NO_DATABASE, READ_ONLY_VIOLATION, 'r');
    ContainsItself(NO_DATABASE);
  }

  lemma GoldText()
    ensures ClassifyError(GOLD_RAISED).0 == GoldSqlExecutionError
  {
    hide EMPTY_SQL, WRITE_DETECTED, ONLY_SELECTS, READ_ONLY_VIOLATION, NO_FIXTURE, NO_DATABASE, CANNOT_OPEN,
         GOLD_RAISED, EXPECTED_INVALID, LIVE_BLOCKED, REJECTED_BY, REJECTED, REJECTED_WITH, REJECTED_TEXT, Lower,
         Contains;
    PhraseLengths();
    PhraseCharacters();
    GoldLacks();
    LowerKeeps(GOLD_RAISED);
    NotContained(GOLD_RAISED, EMPTY_SQL, 'p');
    NotContained(GOLD_RAISED, WRITE_DETECTED, 'w');
    NotContained(GOLD_RAISED, ONLY_SELECTS, 'o');
    NotContained(GOLD_RAISED, READ_ONLY_VIOLATION, '_');
    NotContained(GOLD_RAISED, NO_FIXTURE, 'f');
    NotContained(GOLD_RAISED, NO_DATABASE, '_');
    NotContained(GOLD_RAISED, CANNOT_OPEN, 'u');
    ContainsItself(GOLD_RAISED);
  }

  lemma ExpectedText()
    ensures ClassifyError(EXPECTED_INVALID).0 == ExpectedResultInvalid
  {
    hide EMPTY_SQL, WRITE_DETECTED, ONLY_SELECTS, READ_ONLY_VIOLATION, NO_FIXTURE, NO_DATABASE, CANNOT_OPEN,
         GOLD_RAISED, EXPECTED_INVALID, LIVE_BLOCKED, REJECTED_BY, REJECTED, REJECTED_WITH, REJECTED_TEXT, Lower,
         Contains;
    PhraseLengths();
    PhraseCharacters();
    ExpectedLacks();
    ExpectedLacksMore();
    ExpectedIsLower();
    LowerKeeps(EXPECTED_INVALID);
    NotContained(EXPECTED_INVALID, EMPTY_SQL, '_');
    NotContained(EXPECTED_INVALID, WRITE_DETECTED, 'w');
    NotContained(EXPECTED_INVALID, ONLY_SELECTS, 'o');
    NotContained(EXPECTED_INVALID, READ_ONLY_VIOLATION, '_');
    NotContained(EXPECTED_INVALID, NO_FIXTURE, 'b');
    NotContained(EXPECTED_INVALID, NO_DATABASE, '_');
    NotContained(EXPECTED_INVALID, CANNOT_OPEN, 'b');
    NotContained(EXPECTED_INVALID, GOLD_RAISED, 'g');
    ContainsItself(EXPECTED_INVALID);
  }

  lemma BlockedText()
    ensures ClassifyError(LIVE_BLOCKED).0 == BlockedLiveConnection
  {
    hide EMPTY_SQL, WRITE_DETECTED, ONLY_SELECTS, READ_ONLY_VIOLATION, NO_FIXTURE, NO_DATABASE, CANNOT_OPEN,
         GOLD_RAISED, EXPECTED_INVALID, LIVE_BLOCKED, REJECTED_BY, REJECTED, REJECTED_WITH, REJECTED_TEXT, Lower,
         Contains;
    PhraseLengths();
    PhraseCharacters();
    BlockedLacks();
    LowerKeeps(LIVE_BLOCKED);
    NotContained(LIVE_BLOCKED, EMPTY_SQL, 'p');
    NotContained(LIVE_BLOCKED, WRITE_DETECTED, 'w');
    NotContained(LIVE_BLOCKED, ONLY_SELECTS, 'o');
    NotContained(LIVE_BLOCKED, READ_ONLY_VIOLATION, 'a');
    NotContained(LIVE_BLOCKED, NO_FIXTURE, 'f');
    NotContained(LIVE_BLOCKED, NO_DATABASE, 'a');
    NotContained(LIVE_BLOCKED, CANNOT_OPEN, 'u');
    NotContained(LIVE_BLOCKED, GOLD_RAISED, 'g');
    NotContained(LIVE_BLOCKED, EXPECTED_INVALID, 'e');
  }

  lemma RejectedText()
    ensures ClassifyError(REJECTED).0 == RejectedByOrchestrator
  {
    hide EMPTY_SQL, WRITE_DETECTED, ONLY_SELECTS, READ_ONLY_VIOLATION, NO_FIXTURE, NO_DATABASE, CANNOT_OPEN,
         GOLD_RAISED, EXPECTED_INVALID, LIVE_BLOCKED, REJECTED_BY, REJECTED, REJECTED_WITH, REJECTED_TEXT, Lower,
         Contains;
    PhraseLengths();
    PhraseCharacters();
    OthersAreLower();
    LowerKeeps(REJECTED);
    NotContained(REJECTED, EMPTY_SQL, 'p');
    NotContained(REJECTED, WRITE_DETECTED, 'w');
    NotContained(REJECTED, ONLY_SELECTS, 'o');
    NotContained(REJECTED, READ_ONLY_VIOLATION, 'r');
    NotContained(REJECTED, NO_FIXTURE, 'f');
    NotContained(REJECTED, NO_DATABASE, 'd');
    NotContained(REJECTED, CANNOT_OPEN, 'u');
    NotContained(REJECTED, GOLD_RAISED, 'g');
    NotContained(REJECTED, EXPECTED_INVALID, 'e');
  }

  lemma OtherText()
    ensures ClassifyError("x").0 == SqlExecutionError
  {
    hide EMPTY_SQL, WRITE_DETECTED, ONLY_SELECTS, READ_ONLY_VIOLATION, NO_FIXTURE, NO_DATABASE, CANNOT_OPEN,
         GOLD_RAISED, EXPECTED_INVALID, LIVE_BLOCKED, REJECTED_BY, REJECTED, REJECTED_WITH, REJECTED_TEXT, Contains;
    PhraseLengths();
    LowerKeeps("x");
    NotContained("x", EMPTY_SQL, 'x');
    NotContained("x", WRITE_DETECTED, 'x');
    NotContained("x", ONLY_SELECTS, 'x');
    NotContained("x", READ_ONLY_VIOLATION, 'x');
    NotContained("x", NO_FIXTURE, 'x');
    NotContained("x", NO_DATABASE, 'x');
    NotContained("x", CANNOT_OPEN, 'x');
    NotContained("x", GOLD_RAISED, 'x');
    NotContained("x", EXPECTED_INVALID, 'x');
    NotContained("x", REJECTED_TEXT, 'x');
  }

  /** A failing result of each category, DIALECT_MISMATCH_WARNING aside. */
  function SampleOf(c: Category): CaseResult {
    var some, other: Row := map["c" := Int(1)], map["c" := Int(2)];
    var sample := CaseResult("case", ExactUnordered, false, Some(1), Some(1), Some([some]), Some([some]), ErrorText(c));
    match c
    case RowCountMismatch => sample.(actualRowCount := Some(0))
    case ColumnShapeMismatch => sample.(actual := Some([map[]]))
    case OrderMismatch => sample.(policy := ExactOrdered)
    case NumericToleranceMismatch => sample.(policy := NumericTolerance)
    case ValueMismatch => sample.(actual := Some([other]))
    case UnknownFailure => sample.(actual := None)
    case _ => sample
  }

  lemma ErrorTextLeads(c: Category)
    ensures ErrorText(c) == "" || ClassifyError(ErrorText(c)).0 == c
    ensures ErrorText(c) == "" <==> c in {Passed, RowCountMismatch, ColumnShapeMismatch, ValueMismatch, OrderMismatch,
                                          NumericToleranceMismatch, DialectMismatchWarning, UnknownFailure}
  {
    hide ClassifyError, EMPTY_SQL, READ_ONLY_VIOLATION, NO_DATABASE, GOLD_RAISED, EXPECTED_INVALID, LIVE_BLOCKED,
         REJECTED;
    PhraseLengths();
    EmptyText();
    UnsafeText();
    FixtureText();
    GoldText();
    ExpectedText();
    BlockedText();
    RejectedText();
    OtherText();
  }

  lemma SampleIsOf(c: Category)
    requires c != Passed && c != DialectMismatchWarning
    ensures !SampleOf(c).passed && AnalyzeCase(SampleOf(c)).category == c
  {
    hide ClassifyError, ErrorText;
    ErrorTextLeads(c);
    var some: Row, other: Row, none: Row := map["c" := Int(1)], map["c" := Int(2)], map[];
    assert some["c"] != other["c"] && "c" in some.Keys && "c" !in none.Keys;
    assert some in multiset([some]) && some !in multiset([other]);
  }

  /** A failing case can be reported under every category but PASSED and DIALECT_MISMATCH_WARNING, which the analysis
      never gives. */
  lemma ReportableIff(c: Category)
    ensures (exists r: CaseResult :: !r.passed && AnalyzeCase(r).category == c) <==>
              c != Passed && c != DialectMismatchWarning
  {
    if c != Passed && c != DialectMismatchWarning {
      SampleIsOf(c);
    }
  }

  // ----- Analysing a run.

  datatype CategoryCount = CategoryCount(category: Category, count: nat)

  datatype RunAnalysis = RunAnalysis(
    total: int, passed: int, failed: int, passRate: real,
    categoryCounts: seq<CategoryCount>, cases: seq<Analysis>)

  function Count(results: seq<Analysis>, c: Category): nat {
    if results == [] then 0 else (if results[0].category == c then 1 else 0) + Count(results[1..], c)
  }

  function CountPassed(results: seq<Analysis>): nat {
    if results == [] then 0 else (if results[0].passed then 1 else 0) + CountPassed(results[1..])
  }

  function ByCaseId(x: Analysis, y: Analysis): bool {
    LexLeq(x.caseId, y.caseId)
  }

  function Rate(part: int, total: int): real {
    if total > 0 then part as real / total as real else 0.0
  }

  /** The count a report shows for a category; 0 when it is not listed. */
  function Shown(counts: seq<CategoryCount>, c: Category): nat {
    if counts == [] then 0
    else if counts[|counts| - 1].category == c then counts[|counts| - 1].count
    else Shown(counts[..|counts| - 1], c)
  }

  /** What an analysis of `results` says, whichever order the results are listed in. */
  ghost predicate Summarises(run: RunAnalysis, results: seq<Analysis>) {
    && multiset(run.cases) == multiset(results)
    && run.total == |results|
    && run.passed == CountPassed(results)
    && run.failed == |results| - run.passed
    && run.passRate == Rate(run.passed, run.total)
    && forall c :: Shown(run.categoryCounts, c) == Count(results, c)
  }

  lemma {:induction false} CountSnoc(results: seq<Analysis>, r: Analysis, c: Category)
    ensures Count(results + [r], c) == Count(results, c) + if r.category == c then 1 else 0
    ensures CountPassed(results + [r]) == CountPassed(results) + if r.passed then 1 else 0
  {
    if results == [] {
      assert results + [r] == [r];
    } else {
      assert (results + [r])[1..] == results[1..] + [r];
      CountSnoc(results[1..], r, c);
    }
  }

  lemma {:induction false} CountInsert(x: Analysis, results: seq<Analysis>, c: Category)
    ensures Count(Insert(ByCaseId, x, results), c) == Count(results, c) + if x.category == c then 1 else 0
    ensures CountPassed(Insert(ByCaseId, x, results)) == CountPassed(results) + if x.passed then 1 else 0
  {
    var placed := Insert(ByCaseId, x, results);
    if results == [] || ByCaseId(x, results[0]) {
      assert placed[1..] == results;
    } else {
      assert placed[1..] == Insert(ByCaseId, x, results[1..]);
      CountInsert(x, results[1..], c);
    }
  }

  lemma {:induction false} CountSorted(results: seq<Analysis>, c: Category)
    ensures Count(Sort(ByCaseId, results), c) == Count(results, c)
    ensures CountPassed(Sort(ByCaseId, results)) == CountPassed(results)
  {
    if results != [] {
      CountSorted(results[1..], c);
      CountInsert(results[0], Sort(ByCaseId, results[1..]), c);
    }
  }

  method AnalyzeRun(caseResults: seq<CaseResult>, includeZeroCounts: bool) returns (run: RunAnalysis)
    ensures Summarises(run, Map(AnalyzeCase, caseResults))
    ensures run.cases == Sort(ByCaseId, Map(AnalyzeCase, caseResults))
    ensures includeZeroCounts ==> |run.categoryCounts| == |CATEGORIES|
  {
    hide AnalyzeCase, Rate, ByCaseId;
    ghost var results := Map(AnalyzeCase, caseResults);
    var sorted := Sort(ByCaseId, Map(AnalyzeCase, caseResults));
    SortKeeps(ByCaseId, results);
    assert |multiset(sorted)| == |multiset(results)|;
    var counts, passed, failed := CountResults(sorted);
    var listed := ListCounts(counts, includeZeroCounts);
    run := RunAnalysis(|sorted|, passed, failed, Rate(passed, |sorted|), listed, sorted);
    CountSorted(results, Passed);
    forall c ensures Shown(listed, c) == Count(results, c) {
      CountSorted(results, c);
    }
  }

  method CountResults(results: seq<Analysis>) returns (counts: map<Category, nat>, passed: nat, failed: nat)
    ensures forall c :: c in counts && counts[c] == Count(results, c)
    ensures passed == CountPassed(results) && failed == |results| - passed
  {
    counts := map c | c in CATEGORIES :: 0;
    forall c: Category ensures c in counts {
      assert c == CATEGORIES[Position(c)];
    }
    passed, failed := 0, 0;
    assert results[..0] == [];
    for i := 0 to |results|
      invariant forall c :: c in counts && counts[c] == Count(results[..i], c)
      invariant passed == CountPassed(results[..i]) && failed == i - passed
    {
      var r := results[i];
      assert results[..i + 1] == results[..i] + [r];
      CountSnoc(results[..i], r, r.category);
      forall c ensures Count(results[..i + 1], c) == Count(results[..i], c) + if r.category == c then 1 else 0 {
        CountSnoc(results[..i], r, c);
      }
      counts := counts[r.category := counts[r.category] + 1];
      if r.passed {
        passed := passed + 1;
      } else {
        failed := failed + 1;
      }
    }
    assert results[..|results|] == results;
  }

  method ListCounts(counts: map<Category, nat>, includeZeroCounts: bool) returns (listed: seq<CategoryCount>)
    requires forall c :: c in counts
    ensures forall c :: Shown(listed, c) == counts[c]
    ensures includeZeroCounts ==> |listed| == |CATEGORIES|
  {
    listed := [];
    for i := 0 to |CATEGORIES|
      invariant forall c :: Shown(listed, c) == if c in CATEGORIES[..i] then counts[c] else 0
      invariant includeZeroCounts ==> |listed| == i
    {
      var c := CATEGORIES[i];
      if counts[c] > 0 || includeZeroCounts {
        ghost var shorter := listed;
        listed := listed + [CategoryCount(c, counts[c])];
        assert listed[..|listed| - 1] == shorter;
      }
    }
    assert CATEGORIES[..|CATEGORIES|] == CATEGORIES;
    forall c: Category ensures c in CATEGORIES {
      assert c == CATEGORIES[Position(c)];
    }
  }

  function SumCounts(results: seq<Analysis>, categories: seq<Category>): nat {
    if categories == [] then 0 else Count(results, categories[0]) + SumCounts(results, categories[1..])
  }

  function Occurrences(categories: seq<Category>, c: Category): nat {
    if categories == [] then 0 else (if categories[0] == c then 1 else 0) + Occurrences(categories[1..], c)
  }

  lemma {:induction false} SumCountsStep(results: seq<Analysis>, categories: seq<Category>)
    requires results != []
    ensures SumCounts(results, categories) ==
            SumCounts(results[1..], categories) + Occurrences(categories, results[0].category)
  {
    if categories != [] {
      SumCountsStep(results, categories[1..]);
    }
  }

  lemma {:induction false} OccursOnce(categories: seq<Category>, p: nat)
    requires p < |categories|
    requires forall i :: 0 <= i < |categories| && i != p ==> categories[i] != categories[p]
    ensures Occurrences(categories, categories[p]) == 1
  {
    if p == 0 {
      NeverOccurs(categories[1..], categories[0]);
    } else {
      OccursOnce(categories[1..], p - 1);
      assert categories[0] != categories[p];
    }
  }

  lemma {:induction false} NeverOccurs(categories: seq<Category>, c: Category)
    requires c !in categories
    ensures Occurrences(categories, c) == 0
  {
    if categories != [] {
      NeverOccurs(categories[1..], c);
    }
  }

  lemma EachCategoryOnce(c: Category)
    ensures Occurrences(CATEGORIES, c) == 1
  {
    assert forall i :: 0 <= i < |CATEGORIES| ==> Position(CATEGORIES[i]) == i;
    OccursOnce(CATEGORIES, Position(c));
  }

  /** The category counts of a run add up to its number of cases. */
  lemma {:induction false} CountsAddUp(results: seq<Analysis>)
    ensures SumCounts(results, CATEGORIES) == |results|
  {
    if results == [] {
      NothingCounted(CATEGORIES);
    } else {
      CountsAddUp(results[1..]);
      SumCountsStep(results, CATEGORIES);
      EachCategoryOnce(results[0].category);
    }
  }

  lemma {:induction false} NothingCounted(categories: seq<Category>)
    ensures SumCounts([], categories) == 0
  {
    if categories != [] {
      NothingCounted(categories[1..]);
    }
  }

  /** The PASSED count is the number of passed cases. */
  lemma {:induction false} PassedCountIsPassedCases(caseResults: seq<CaseResult>)
    ensures var results := Map(AnalyzeCase, caseResults);
            Count(results, Passed) == CountPassed(results) <= |results|
  {
    if caseResults != [] {
      PassedCountIsPassedCases(caseResults[1..]);
      assert Map(AnalyzeCase, caseResults)[1..] == Map(AnalyzeCase, caseResults[1..]);
      PassedIff(caseResults[0]);
    }
  }
}
