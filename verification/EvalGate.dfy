/** The evaluation gate over an analysed run (backend/app/evaluation/eval_gate.py). */
module EvalGate {
  import opened Wrappers
  import opened Sorting
  import opened FailureAnalytics

  datatype Status = Pass | Warn | Fail

  function Rank(s: Status): nat {
    match s
    case Pass => 0
    case Warn => 1
    case Fail => 2
  }

  function Worse(s: Status, t: Status): Status {
    if Rank(s) >= Rank(t) then s else t
  }

  datatype RuleType =
    | MinPassRate | MaxFailureCount | MaxFailureRate
    | BlockFailureCategory | MaxUnknownFailureRate | RequireP0Pass

  datatype RuleResult = RuleResult(rule: RuleType, status: Status, severity: Severity)

  datatype Config = Config(
    minPassRate: real, maxUnknownFailureRate: real,
    blocked: seq<Category>, warn: seq<Category>,
    failOnEmptyDataset: bool, unknownFailureRateStatus: Status, emptyDatasetStatus: Status,
    maxFailureCount: Option<int>, maxFailureRate: Option<real>) {

    /** What the constructor insists on. */
    predicate Valid() {
      && 0.0 <= minPassRate <= 1.0
      && 0.0 <= maxUnknownFailureRate <= 1.0
      && unknownFailureRateStatus != Pass
      && (maxFailureCount.Some? ==> maxFailureCount.value >= 0)
      && (maxFailureRate.Some? ==> 0.0 <= maxFailureRate.value <= 1.0)
    }
  }

  datatype Decision = Decision(status: Status, passed: bool, rules: seq<RuleResult>,
                               failedRules: seq<RuleResult>, warningRules: seq<RuleResult>)

  datatype Result<T> = Ok(value: T) | ContractError

  predicate AnyShown(run: RunAnalysis, categories: seq<Category>) {
    exists c | c in categories :: Shown(run.categoryCounts, c) > 0
  }

  function EmptyStatus(config: Config): Status {
    if config.failOnEmptyDataset then Fail else config.emptyDatasetStatus
  }

  predicate TooManyFailures(run: RunAnalysis, config: Config) {
    config.maxFailureCount.Some? && run.failed > config.maxFailureCount.value
  }

  predicate TooHighFailureRate(run: RunAnalysis, config: Config) {
    config.maxFailureRate.Some? && Rate(run.failed, run.total) > config.maxFailureRate.value
  }

  predicate TooManyUnknown(run: RunAnalysis, config: Config) {
    Rate(Shown(run.categoryCounts, UnknownFailure), run.total) > config.maxUnknownFailureRate
  }

  function PassRateRule(run: RunAnalysis, config: Config): RuleResult {
    if run.total == 0 then
      var status := EmptyStatus(config);
      RuleResult(MinPassRate, status, if status == Fail then Critical else if status == Warn then Medium else Info)
    else
      RuleResult(MinPassRate, if run.passRate >= config.minPassRate then Pass else Fail, Critical)
  }

  function CategoryRule(run: RunAnalysis, config: Config): RuleResult {
    if AnyShown(run, config.blocked) then RuleResult(BlockFailureCategory, Fail, Critical)
    else if AnyShown(run, config.warn) then RuleResult(BlockFailureCategory, Warn, Medium)
    else RuleResult(BlockFailureCategory, Pass, Low)
  }

  function UnknownRule(run: RunAnalysis, config: Config): RuleResult {
    var status := if TooManyUnknown(run, config) then config.unknownFailureRateStatus else Pass;
    RuleResult(MaxUnknownFailureRate, status, if status == Fail then High else Medium)
  }

  function Rules(run: RunAnalysis, config: Config): seq<RuleResult> {
    [ PassRateRule(run, config),
      RuleResult(MaxFailureCount, if TooManyFailures(run, config) then Fail else Pass, High),
      RuleResult(MaxFailureRate, if TooHighFailureRate(run, config) then Fail else Pass, High),
      CategoryRule(run, config),
      UnknownRule(run, config),
      RuleResult(RequireP0Pass, Pass, High) ]
  }

  /** The status, decided by its own chain of priorities rather than from the rules. */
  function GateStatus(run: RunAnalysis, config: Config): Status {
    if run.total == 0 then EmptyStatus(config)
    else if AnyShown(run, config.blocked) then Fail
    else if run.passRate < config.minPassRate then Fail
    else if TooManyFailures(run, config) then Fail
    else if TooHighFailureRate(run, config) then Fail
    else if TooManyUnknown(run, config) then config.unknownFailureRateStatus
    else if AnyShown(run, config.warn) then Warn
    else Pass
  }

  function WithStatus(rules: seq<RuleResult>, status: Status): seq<RuleResult> {
    if rules == [] then []
    else (if rules[0].status == status then [rules[0]] else []) + WithStatus(rules[1..], status)
  }

  /** The consistency the run summary insists on. */
  predicate Consistent(run: RunAnalysis) {
    && run.total >= 0 && run.passed >= 0 && run.failed >= 0
    && 0.0 <= run.passRate <= 1.0
    && run.total == run.passed + run.failed
    && -0.000001 <= run.passRate - Rate(run.passed, run.total) <= 0.000001
  }

  function Aggregate(run: RunAnalysis, config: Config): Result<Decision>
    requires config.Valid()
  {
    if !Consistent(run) then ContractError
    else
      var rules, status := Rules(run, config), GateStatus(run, config);
      Ok(Decision(status, status != Fail, rules, WithStatus(rules, Fail), WithStatus(rules, Warn)))
  }

  // ----- Whole evaluation runs.

  function WorstOf(rules: seq<RuleResult>): Status {
    if rules == [] then Pass else Worse(rules[0].status, WorstOf(rules[1..]))
  }

  lemma RateInUnit(part: int, total: int)
    requires 0 <= part <= total
    ensures 0.0 <= Rate(part, total) <= 1.0
  {
  }

  /** The gate never rejects an analysed run. */
  lemma {:induction false} NeverRejects(run: RunAnalysis, caseResults: seq<CaseResult>, config: Config)
    requires config.Valid() && Summarises(run, Map(AnalyzeCase, caseResults))
    ensures Aggregate(run, config).Ok?
  {
    PassedCountIsPassedCases(caseResults);
    RateInUnit(run.passed, run.total);
  }

  /** Which configurations the constructor refuses: rates outside 0 and 1, a negative count, or unknown failures that
      would neither warn nor fail. */
  lemma ConfigRefusedIff(config: Config)
    ensures !config.Valid() <==>
              || config.minPassRate < 0.0 || config.minPassRate > 1.0
              || config.maxUnknownFailureRate < 0.0 || config.maxUnknownFailureRate > 1.0
              || (config.maxFailureRate.Some? && config.maxFailureRate.value < 0.0)
              || (config.maxFailureRate.Some? && config.maxFailureRate.value > 1.0)
              || (config.maxFailureCount.Some? && config.maxFailureCount.value < 0)
              || config.unknownFailureRateStatus == Pass
  {
  }

  /** Which summaries are refused: negative figures, figures that do not add up, or a rate they do not give. */
  lemma RefusedIff(run: RunAnalysis, config: Config)
    requires config.Valid()
    ensures var rate := if run.total > 0 then run.passed as real / run.total as real else 0.0;
            Aggregate(run, config).ContractError? <==>
              || run.passed < 0 || run.failed < 0 || run.total != run.passed + run.failed
              || run.passRate < 0.0 || run.passRate > 1.0
              || run.passRate - rate > 0.000001 || rate - run.passRate > 0.000001
  {
  }

  /** On an analysed run the gate status is the worst of its rule statuses, although the two are decided
      separately; the failed rules are then exactly the reason for a failure. */
  lemma {:induction false} StatusIsWorstRule(run: RunAnalysis, caseResults: seq<CaseResult>, config: Config)
    requires config.Valid() && Summarises(run, Map(AnalyzeCase, caseResults))
    ensures Aggregate(run, config).Ok?
    ensures var d := Aggregate(run, config).value;
            && d.status == WorstOf(d.rules)
            && (d.passed <==> d.failedRules == [])
  {
    hide Consistent, WorstOf, WithStatus, AnalyzeCase;
    NeverRejects(run, caseResults, config);
    if run.total == 0 {
      assert forall c :: Count(Map(AnalyzeCase, caseResults), c) == 0;
      assert Rate(0, 0) == 0.0;
    }
    var rules := Rules(run, config);
    WorstOfSix(rules);
    FailIffFailedRules(rules);
  }

  /** Some case of the run is reported under one of the categories. */
  ghost predicate Reports(results: seq<Analysis>, categories: seq<Category>) {
    exists r :: r in results && r.category in categories
  }

  lemma {:induction false} CountedIff(results: seq<Analysis>, c: Category)
    ensures Count(results, c) > 0 <==> exists r :: r in results && r.category == c
  {
    if results != [] {
      CountedIff(results[1..], c);
      assert results[0] in results;
      assert forall r :: r in results <==> r == results[0] || r in results[1..];
    }
  }

  lemma ReportsIff(run: RunAnalysis, results: seq<Analysis>, categories: seq<Category>)
    requires Summarises(run, results)
    ensures AnyShown(run, categories) <==> Reports(results, categories)
  {
    forall c ensures Shown(run.categoryCounts, c) > 0 <==> exists r :: r in results && r.category == c {
      CountedIff(results, c);
    }
    hide Shown, Count;
    if r :| r in results && r.category in categories {
      assert r.category in categories;
    }
  }

  /** So many cases are the part x of n. */
  function Share(x: real, n: nat): real {
    x * n as real
  }

  lemma RateCompares(part: int, total: nat, x: real)
    requires total > 0
    ensures Rate(part, total) > x <==> part as real > Share(x, total)
    ensures Rate(part, total) < x <==> (part as real) < Share(x, total)
  {
    assert Rate(part, total) * total as real == part as real;
  }

  /** Fewer cases passed than asked for, more failed, or more failed for no known reason, in numbers of cases. */
  predicate TooFewPass(results: seq<Analysis>, config: Config) {
    (CountPassed(results) as real) < Share(config.minPassRate, |results|)
  }

  predicate TooManyFail(results: seq<Analysis>, config: Config) {
    config.maxFailureCount.Some? && |results| - CountPassed(results) > config.maxFailureCount.value
  }

  predicate TooMuchFails(results: seq<Analysis>, config: Config) {
    && config.maxFailureRate.Some?
    && (|results| - CountPassed(results)) as real > Share(config.maxFailureRate.value, |results|)
  }

  predicate TooMuchUnknown(results: seq<Analysis>, config: Config) {
    Count(results, UnknownFailure) as real > Share(config.maxUnknownFailureRate, |results|)
  }

  lemma FiguresMean(run: RunAnalysis, results: seq<Analysis>, config: Config)
    requires Summarises(run, results) && results != []
    ensures run.passRate < config.minPassRate <==> TooFewPass(results, config)
    ensures TooManyFailures(run, config) <==> TooManyFail(results, config)
    ensures TooHighFailureRate(run, config) <==> TooMuchFails(results, config)
    ensures TooManyUnknown(run, config) <==> TooMuchUnknown(results, config)
  {
    hide Rate, Share, Count, CountPassed, Shown;
    RateCompares(run.passed, run.total, config.minPassRate);
    RateCompares(Shown(run.categoryCounts, UnknownFailure), run.total, config.maxUnknownFailureRate);
    if config.maxFailureRate.Some? {
      RateCompares(run.failed, run.total, config.maxFailureRate.value);
    }
  }

  /** What fails a run: no case at all, when the gate objects to that, or a case of a blocked category, fewer passes
      than asked for, or more failures or unknown failures than allowed. */
  ghost predicate Fails(results: seq<Analysis>, config: Config) {
    if results == [] then config.failOnEmptyDataset || config.emptyDatasetStatus == Fail
    else
      || Reports(results, config.blocked) || TooFewPass(results, config)
      || TooManyFail(results, config) || TooMuchFails(results, config)
      || (TooMuchUnknown(results, config) && config.unknownFailureRateStatus == Fail)
  }

  /** What is worth a warning in a run that does not fail. */
  ghost predicate Warns(results: seq<Analysis>, config: Config) {
    if results == [] then config.emptyDatasetStatus == Warn
    else TooMuchUnknown(results, config) || Reports(results, config.warn)
  }

  /** The decision on an analysed run, told from its cases. */
  lemma DecisionIff(run: RunAnalysis, caseResults: seq<CaseResult>, config: Config)
    requires config.Valid() && Summarises(run, Map(AnalyzeCase, caseResults))
    ensures Aggregate(run, config).Ok?
    ensures var d, results := Aggregate(run, config).value, Map(AnalyzeCase, caseResults);
            && (d.status == Fail <==> Fails(results, config))
            && (d.status == Warn <==> !Fails(results, config) && Warns(results, config))
            && (d.passed <==> !Fails(results, config))
  {
    hide AnalyzeCase, AnyShown, Rules, Reports, TooFewPass, TooManyFail, TooMuchFails, TooMuchUnknown, TooManyFailures,
         TooHighFailureRate, TooManyUnknown, Count, CountPassed, Shown, Rate, Consistent, WithStatus;
    var results := Map(AnalyzeCase, caseResults);
    NeverRejects(run, caseResults, config);
    ReportsIff(run, results, config.blocked);
    ReportsIff(run, results, config.warn);
    if results != [] {
      FiguresMean(run, results, config);
    }
  }

  lemma EmptyFigures(run: RunAnalysis, config: Config)
    requires config.Valid() && Summarises(run, [])
    ensures run.total == 0 && !TooManyFailures(run, config) && !TooHighFailureRate(run, config)
    ensures !TooManyUnknown(run, config) && !TooManyFail([], config)
  {
  }

  lemma PassRateRuleMeans(run: RunAnalysis, results: seq<Analysis>, config: Config)
    requires Summarises(run, results)
    ensures results != [] ==>
              PassRateRule(run, config) ==
                RuleResult(MinPassRate, if TooFewPass(results, config) then Fail else Pass, Critical)
    ensures results == [] && config.failOnEmptyDataset ==>
              PassRateRule(run, config) == RuleResult(MinPassRate, Fail, Critical)
    ensures results == [] && !config.failOnEmptyDataset ==>
              PassRateRule(run, config) ==
                match config.emptyDatasetStatus
                case Pass => RuleResult(MinPassRate, Pass, Info)
                case Warn => RuleResult(MinPassRate, Warn, Medium)
                case Fail => RuleResult(MinPassRate, Fail, Critical)
  {
    hide TooFewPass, TooManyFailures, TooHighFailureRate, TooManyUnknown, TooManyFail, TooMuchFails, TooMuchUnknown;
    if results != [] {
      FiguresMean(run, results, config);
    }
  }

  lemma CategoryRuleMeans(run: RunAnalysis, results: seq<Analysis>, config: Config)
    requires Summarises(run, results)
    ensures CategoryRule(run, config) ==
              if Reports(results, config.blocked) then RuleResult(BlockFailureCategory, Fail, Critical)
              else if Reports(results, config.warn) then RuleResult(BlockFailureCategory, Warn, Medium)
              else RuleResult(BlockFailureCategory, Pass, Low)
  {
    ReportsIff(run, results, config.blocked);
    ReportsIff(run, results, config.warn);
    hide AnyShown, Reports;
  }

  lemma UnknownRuleMeans(run: RunAnalysis, results: seq<Analysis>, config: Config)
    requires config.Valid() && Summarises(run, results)
    ensures UnknownRule(run, config) ==
              if results == [] || !TooMuchUnknown(results, config) then RuleResult(MaxUnknownFailureRate, Pass, Medium)
              else if config.unknownFailureRateStatus == Fail then RuleResult(MaxUnknownFailureRate, Fail, High)
              else RuleResult(MaxUnknownFailureRate, Warn, Medium)
  {
    hide TooFewPass, TooManyFailures, TooHighFailureRate, TooManyUnknown, TooManyFail, TooMuchFails, TooMuchUnknown;
    if results != [] {
      FiguresMean(run, results, config);
    } else {
      EmptyFigures(run, config);
    }
  }

  /** listed holds the rules of a status, as often as evaluated and in their order. */
  ghost predicate Lists(listed: seq<RuleResult>, rules: seq<RuleResult>, status: Status) {
    && (forall r :: multiset(listed)[r] == if r.status == status then multiset(rules)[r] else 0)
    && forall k | 0 <= k <= |rules| :: listed == WithStatus(rules[..k], status) + WithStatus(rules[k..], status)
  }

  lemma WithStatusLists(rules: seq<RuleResult>, status: Status)
    ensures Lists(WithStatus(rules, status), rules, status)
  {
    hide WithStatus;
    forall r ensures multiset(WithStatus(rules, status))[r] == if r.status == status then multiset(rules)[r] else 0 {
      WithStatusCount(rules, status, r);
    }
    forall k | 0 <= k <= |rules|
      ensures WithStatus(rules, status) == WithStatus(rules[..k], status) + WithStatus(rules[k..], status)
    {
      assert rules == rules[..k] + rules[k..];
      WithStatusInOrder(rules[..k], rules[k..], status);
    }
  }

  /** A decision lists the rules it evaluated, those that failed and those that warn, in order. */
  lemma RulesListed(run: RunAnalysis, config: Config)
    requires config.Valid() && Aggregate(run, config).Ok?
    ensures var d := Aggregate(run, config).value;
            && d.rules == Rules(run, config)
            && Lists(d.failedRules, d.rules, Fail) && Lists(d.warningRules, d.rules, Warn)
  {
    hide Consistent, GateStatus, Rules, WithStatus, Lists;
    WithStatusLists(Rules(run, config), Fail);
    WithStatusLists(Rules(run, config), Warn);
  }

  /** What the rules say of an analysed run, and how severe that is. */
  lemma RulesMean(run: RunAnalysis, caseResults: seq<CaseResult>, config: Config)
    requires config.Valid() && Summarises(run, Map(AnalyzeCase, caseResults))
    ensures var rules, results := Rules(run, config), Map(AnalyzeCase, caseResults);
            && |rules| == 6
            && (results != [] ==>
                  rules[0] == RuleResult(MinPassRate, if TooFewPass(results, config) then Fail else Pass, Critical))
            && (results == [] && config.failOnEmptyDataset ==> rules[0] == RuleResult(MinPassRate, Fail, Critical))
            && (results == [] && !config.failOnEmptyDataset ==>
                  rules[0] == match config.emptyDatasetStatus
                              case Pass => RuleResult(MinPassRate, Pass, Info)
                              case Warn => RuleResult(MinPassRate, Warn, Medium)
                              case Fail => RuleResult(MinPassRate, Fail, Critical))
            && rules[1] == RuleResult(MaxFailureCount, if TooManyFail(results, config) then Fail else Pass, High)
            && rules[2] == RuleResult(MaxFailureRate,
                                      if results != [] && TooMuchFails(results, config) then Fail else Pass, High)
            && rules[3] == (if Reports(results, config.blocked) then RuleResult(BlockFailureCategory, Fail, Critical)
                            else if Reports(results, config.warn) then RuleResult(BlockFailureCategory, Warn, Medium)
                            else RuleResult(BlockFailureCategory, Pass, Low))
            && rules[4] == (if results == [] || !TooMuchUnknown(results, config)
                            then RuleResult(MaxUnknownFailureRate, Pass, Medium)
                            else if config.unknownFailureRateStatus == Fail
                            then RuleResult(MaxUnknownFailureRate, Fail, High)
                            else RuleResult(MaxUnknownFailureRate, Warn, Medium))
            && rules[5] == RuleResult(RequireP0Pass, Pass, High)
  {
    hide TooFewPass, TooManyFailures, TooHighFailureRate, TooManyUnknown, TooManyFail, TooMuchFails, TooMuchUnknown,
         PassRateRule, CategoryRule, UnknownRule, Reports, AnalyzeCase, Summarises;
    var results := Map(AnalyzeCase, caseResults);
    PassRateRuleMeans(run, results, config);
    CategoryRuleMeans(run, results, config);
    UnknownRuleMeans(run, results, config);
    if results != [] {
      FiguresMean(run, results, config);
    } else {
      EmptyFigures(run, config);
    }
  }

  /** The rules of a status: as often as evaluated, and in their order. */
  lemma {:induction false} WithStatusCount(rules: seq<RuleResult>, status: Status, r: RuleResult)
    ensures multiset(WithStatus(rules, status))[r] == if r.status == status then multiset(rules)[r] else 0
  {
    if rules != [] {
      WithStatusCount(rules[1..], status, r);
      assert rules == [rules[0]] + rules[1..];
      assert multiset(rules) == multiset{rules[0]} + multiset(rules[1..]);
    }
  }

  function Only(r: RuleResult, status: Status): seq<RuleResult> {
    if r.status == status then [r] else []
  }

  lemma WithStatusStep(rules: seq<RuleResult>, status: Status)
    ensures WithStatus(rules, status) ==
              if rules == [] then [] else Only(rules[0], status) + WithStatus(rules[1..], status)
  {
  }

  lemma {:induction false} WithStatusInOrder(a: seq<RuleResult>, b: seq<RuleResult>, status: Status)
    ensures WithStatus(a + b, status) == WithStatus(a, status) + WithStatus(b, status)
  {
    hide WithStatus, Only;
    WithStatusStep(a, status);
    WithStatusStep(a + b, status);
    if a == [] {
      assert a + b == b;
    } else {
      assert (a + b)[1..] == a[1..] + b;
      WithStatusInOrder(a[1..], b, status);
    }
  }

  lemma WorstOfSix(rules: seq<RuleResult>)
    requires |rules| == 6
    ensures WorstOf(rules) ==
            Worse(rules[0].status, Worse(rules[1].status, Worse(rules[2].status,
              Worse(rules[3].status, Worse(rules[4].status, rules[5].status)))))
  {
    assert rules[4..][1..] == rules[5..] && rules[3..][1..] == rules[4..];
    assert rules[2..][1..] == rules[3..] && rules[1..][1..] == rules[2..];
    assert rules[5..] == [rules[5]];
    assert WorstOf(rules[5..]) == rules[5].status;
    assert WorstOf(rules[4..]) == Worse(rules[4].status, WorstOf(rules[5..]));
    assert WorstOf(rules[3..]) == Worse(rules[3].status, WorstOf(rules[4..]));
    assert WorstOf(rules[2..]) == Worse(rules[2].status, WorstOf(rules[3..]));
    assert WorstOf(rules[1..]) == Worse(rules[1].status, WorstOf(rules[2..]));
  }

  lemma {:induction false} FailIffFailedRules(rules: seq<RuleResult>)
    ensures WorstOf(rules) == Fail <==> WithStatus(rules, Fail) != []
  {
    if rules != [] {
      FailIffFailedRules(rules[1..]);
    }
  }

  lemma {:induction false} CountUpdate(results: seq<Analysis>, i: nat, r: Analysis, c: Category)
    requires i < |results|
    ensures Count(results[i := r], c)
         == Count(results, c) - (if results[i].category == c then 1 else 0) + (if r.category == c then 1 else 0)
    ensures CountPassed(results[i := r])
         == CountPassed(results) - (if results[i].passed then 1 else 0) + (if r.passed then 1 else 0)
    ensures Count(results, c) >= if results[i].category == c then 1 else 0
  {
    if i == 0 {
      assert results[i := r][1..] == results[1..];
    } else {
      assert results[i := r][1..] == results[1..][i - 1 := r];
      CountUpdate(results[1..], i - 1, r, c);
    }
  }

  lemma RateMonotone(part: int, part': int, total: int)
    requires part <= part'
    ensures Rate(part, total) <= Rate(part', total)
  {
    if total > 0 {
      QuotientMonotone(part as real, part' as real, total as real);
    }
  }

  lemma QuotientMonotone(x: real, y: real, d: real)
    requires x <= y && d > 0.0
    ensures x / d <= y / d
  {
  }

  // The figures of `better` are those of `worse` with one more pass and no more of any failure.
  ghost predicate NoWorse(better: RunAnalysis, worse: RunAnalysis) {
    && better.total == worse.total && better.failed <= worse.failed && better.passRate >= worse.passRate
    && forall c :: c != Passed ==> Shown(better.categoryCounts, c) <= Shown(worse.categoryCounts, c)
  }

  lemma {:induction false} FixIsNoWorse(worse: RunAnalysis, better: RunAnalysis, caseResults: seq<CaseResult>,
                                        i: nat, fixed: CaseResult)
    requires i < |caseResults| && !caseResults[i].passed && fixed.passed
    requires Summarises(worse, Map(AnalyzeCase, caseResults))
    requires Summarises(better, Map(AnalyzeCase, caseResults[i := fixed]))
    ensures NoWorse(better, worse) && worse.total > 0
  {
    hide AnalyzeCase, Rate, Shown, Count, CountPassed;
    PassedIff(fixed);
    PassedIff(caseResults[i]);
    var results := Map(AnalyzeCase, caseResults);
    var r := AnalyzeCase(fixed);
    assert Map(AnalyzeCase, caseResults[i := fixed]) == results[i := r];
    forall c ensures c != Passed ==> Shown(better.categoryCounts, c) <= Shown(worse.categoryCounts, c) {
      CountUpdate(results, i, r, c);
    }
    CountUpdate(results, i, r, Passed);
    RateMonotone(worse.passed, better.passed, worse.total);
  }

  // ----- Exactly which gates can punish a fix.

  /** Passing the i-th case, as fixed, moves the gate from the decision on worse to a worse one on better. */
  ghost predicate Worsens(config: Config, caseResults: seq<CaseResult>, i: nat, fixed: CaseResult,
                          worse: RunAnalysis, better: RunAnalysis)
  {
    && i < |caseResults| && !caseResults[i].passed && fixed.passed
    && Summarises(worse, Map(AnalyzeCase, caseResults))
    && Summarises(better, Map(AnalyzeCase, caseResults[i := fixed]))
    && Rank(GateStatus(better, config)) > Rank(GateStatus(worse, config))
  }

  ghost predicate SomeFixWorsens(config: Config) {
    exists caseResults, i, fixed, worse, better :: Worsens(config, caseResults, i, fixed, worse, better)
  }

  /** A case failing in category c is let off by the gate where a passing one is not. */
  predicate LetsOff(config: Config, c: Category) {
    && c != Passed && c != DialectMismatchWarning && c !in config.blocked
    && (Passed in config.blocked || (Passed in config.warn && c !in config.warn))
    && (c == UnknownFailure ==>
          config.maxUnknownFailureRate == 1.0 || (Passed in config.blocked && config.unknownFailureRateStatus == Warn))
  }

  /** No other rule objects to runs in which everything fails. */
  predicate ToleratesFailure(config: Config) {
    && config.minPassRate == 0.0
    && (config.maxFailureCount.None? || config.maxFailureCount.value >= 1)
    && (config.maxFailureRate.None? || config.maxFailureRate.value == 1.0)
  }

  predicate PunishesFixes(config: Config) {
    ToleratesFailure(config) && exists c | c in CATEGORIES :: LetsOff(config, c)
  }

  lemma RateOfAll(n: int)
    requires n > 0
    ensures Rate(n, n) == 1.0 && Rate(0, n) == 0.0
  {
  }

  // Whatever else changes, a decision that got worse was no failure, and nothing passed that the gate objects to.
  lemma WhatWorsened(worse: RunAnalysis, better: RunAnalysis, config: Config)
    requires config.Valid() && NoWorse(better, worse) && worse.total > 0
    requires Rank(GateStatus(better, config)) > Rank(GateStatus(worse, config))
    ensures GateStatus(worse, config) != Fail
    ensures Passed in config.blocked || (Passed in config.warn && GateStatus(worse, config) == Pass)
    ensures Shown(worse.categoryCounts, Passed) == 0
  {
    RateMonotone(better.failed, worse.failed, worse.total);
    RateMonotone(Shown(better.categoryCounts, UnknownFailure), Shown(worse.categoryCounts, UnknownFailure),
                 worse.total);
    hide Rate, Shown;
    assert AnyShown(better, config.blocked) ==> AnyShown(worse, config.blocked) || Passed in config.blocked;
    assert AnyShown(better, config.warn) ==> AnyShown(worse, config.warn) || Passed in config.warn;
  }

  lemma {:induction false} SomeOtherCategory(results: seq<Analysis>, c: Category) returns (j: nat)
    requires Count(results, c) != |results|
    ensures j < |results| && results[j].category != c
  {
    if results[0].category != c {
      j := 0;
    } else {
      j := SomeOtherCategory(results[1..], c);
      j := j + 1;
    }
  }

  lemma CountBounds(results: seq<Analysis>, j: nat)
    requires j < |results|
    ensures Count(results, results[j].category) > 0
  {
    CountUpdate(results, j, results[j], results[j].category);
  }

  lemma OnlyPunishersWorsen(config: Config, caseResults: seq<CaseResult>, i: nat, fixed: CaseResult,
                            worse: RunAnalysis, better: RunAnalysis)
    requires config.Valid() && Worsens(config, caseResults, i, fixed, worse, better)
    ensures PunishesFixes(config)
  {
    hide AnalyzeCase, Count, CountPassed, Shown, Rate, Rank, GateStatus, LetsOff, ToleratesFailure, NoWorse,
         Config.Valid;
    var results := Map(AnalyzeCase, caseResults);
    FixIsNoWorse(worse, better, caseResults, i, fixed);
    WhatWorsened(worse, better, config);
    PassedCountIsPassedCases(caseResults);
    Tolerated(worse, config);
    if Count(results, UnknownFailure) == |results| {
      LetOff(worse, config, UnknownFailure);
      InCategories(UnknownFailure);
    } else {
      var j := SomeOtherCategory(results, UnknownFailure);
      CountBounds(results, j);
      NeverDialectMismatch(caseResults[j]);
      LetOff(worse, config, results[j].category);
      InCategories(results[j].category);
    }
  }

  lemma Tolerated(worse: RunAnalysis, config: Config)
    requires config.Valid() && GateStatus(worse, config) != Fail
    requires worse.total > 0 && worse.failed == worse.total && worse.passRate == Rate(0, worse.total)
    ensures ToleratesFailure(config)
  {
    RateOfAll(worse.total);
    hide Rate, Shown;
  }

  lemma LetOff(worse: RunAnalysis, config: Config, c: Category)
    requires config.Valid() && GateStatus(worse, config) != Fail && worse.total > 0
    requires Passed in config.blocked || (Passed in config.warn && GateStatus(worse, config) == Pass)
    requires Shown(worse.categoryCounts, c) > 0 && c != Passed && c != DialectMismatchWarning
    requires c == UnknownFailure ==> Shown(worse.categoryCounts, c) == worse.total
    ensures LetsOff(config, c)
  {
    RateOfAll(worse.total);
    hide Rate, Shown;
    assert c in config.blocked ==> AnyShown(worse, config.blocked);
    assert c in config.warn ==> AnyShown(worse, config.warn);
  }

  lemma InCategories(c: Category)
    ensures c in CATEGORIES
  {
    assert CATEGORIES[Position(c)] == c;
  }

  lemma NeverDialectMismatch(r: CaseResult)
    ensures AnalyzeCase(r).category != DialectMismatchWarning
  {
    hide Contains, Lower;
  }

  /** The report of a run of one case. */
  function RunOfOne(a: Analysis): RunAnalysis {
    var passed := if a.passed then 1 else 0;
    RunAnalysis(1, passed, 1 - passed, Rate(passed, 1), [CategoryCount(a.category, 1)], [a])
  }

  lemma RunOfOneSummarises(r: CaseResult)
    ensures Map(AnalyzeCase, [r]) == [AnalyzeCase(r)]
    ensures Summarises(RunOfOne(AnalyzeCase(r)), Map(AnalyzeCase, [r]))
  {
    hide AnalyzeCase, Rate;
    var a := AnalyzeCase(r);
    assert Map(AnalyzeCase, [r]) == [a] && [a][1..] == [];
    var run := RunOfOne(a);
    assert CountPassed([a]) == run.passed;
    forall c ensures Shown(run.categoryCounts, c) == Count([a], c) {
      assert run.categoryCounts[..0] == [];
      assert Count([a], c) == (if a.category == c then 1 else 0) + Count([], c);
    }
  }

  /** A gate that punishes fixes does so on a run of one case. */
  lemma PunishedFix(config: Config, c: Category)
    requires config.Valid() && ToleratesFailure(config) && LetsOff(config, c)
    ensures SomeFixWorsens(config)
  {
    var failing := SampleOf(c);
    var fixed := failing.(passed := true);
    hide AnalyzeCase, SampleOf, GateStatus, Summarises, ToleratesFailure, RunOfOne, Config.Valid;
    SampleIsOf(c);
    PassedIff(failing);
    PassedIff(fixed);
    RunOfOneSummarises(failing);
    RunOfOneSummarises(fixed);
    var worse, better := RunOfOne(AnalyzeCase(failing)), RunOfOne(AnalyzeCase(fixed));
    StatusOfOne(AnalyzeCase(failing), config);
    StatusOfOne(AnalyzeCase(fixed), config);
    assert [failing][0 := fixed] == [fixed];
    assert Worsens(config, [failing], 0, fixed, worse, better);
  }

  lemma StatusOfOne(a: Analysis, config: Config)
    requires config.Valid() && ToleratesFailure(config) && (a.category == Passed <==> a.passed)
    ensures GateStatus(RunOfOne(a), config) ==
            if a.category in config.blocked then Fail
            else if a.category == UnknownFailure && config.maxUnknownFailureRate < 1.0
                 then config.unknownFailureRateStatus
            else if a.category in config.warn then Warn
            else Pass
  {
    RateOfAll(1);
    hide Rate;
    var run := RunOfOne(a);
    assert forall c :: Shown(run.categoryCounts, c) == if c == a.category then 1 else 0 by {
      forall c ensures Shown(run.categoryCounts, c) == if c == a.category then 1 else 0 {
        assert Shown(run.categoryCounts[..0], c) == 0;
      }
    }
    hide Shown;
    assert AnyShown(run, config.blocked) <==> a.category in config.blocked;
    assert AnyShown(run, config.warn) <==> a.category in config.warn;
  }

  /** Some run gets a worse decision from passing one more of its cases if and only if the gate tolerates runs of
      failures alone and lets off some category of failures where it does not let off PASSED; never a gate that asks
      for any pass rate at all, or that neither blocks nor warns on PASSED. */
  lemma WorsensIff(config: Config)
    requires config.Valid()
    ensures SomeFixWorsens(config) <==> PunishesFixes(config)
    ensures config.minPassRate > 0.0 || (Passed !in config.blocked && Passed !in config.warn) ==>
              !SomeFixWorsens(config)
  {
    hide Worsens, Config.Valid;
    if SomeFixWorsens(config) {
      var caseResults, i, fixed, worse, better :| Worsens(config, caseResults, i, fixed, worse, better);
      OnlyPunishersWorsen(config, caseResults, i, fixed, worse, better);
    }
    if PunishesFixes(config) {
      var c :| c in CATEGORIES && LetsOff(config, c);
      PunishedFix(config, c);
    }
  }

  /** Every other gate: turning any failing case of a run into a passing one never worsens its decision. */
  lemma {:induction false} PassingMoreNeverHurts(worse: RunAnalysis, better: RunAnalysis, caseResults: seq<CaseResult>,
                                                 i: nat, fixed: CaseResult, config: Config)
    requires config.Valid() && !PunishesFixes(config)
    requires i < |caseResults| && !caseResults[i].passed && fixed.passed
    requires Summarises(worse, Map(AnalyzeCase, caseResults))
    requires Summarises(better, Map(AnalyzeCase, caseResults[i := fixed]))
    ensures Aggregate(better, config).Ok? && Aggregate(worse, config).Ok?
    ensures Rank(Aggregate(better, config).value.status) <= Rank(Aggregate(worse, config).value.status)
  {
    hide Summarises, Map, AnalyzeCase, GateStatus, Rank, Consistent, Rules, WithStatus, Config.Valid, PunishesFixes;
    NeverRejects(worse, caseResults, config);
    NeverRejects(better, caseResults[i := fixed], config);
    if Rank(GateStatus(better, config)) > Rank(GateStatus(worse, config)) {
      OnlyPunishersWorsen(config, caseResults, i, fixed, worse, better);
    }
  }
}
