/** The validation chain, the writer-critic loop and the result cache around them (backend/app/sql_pipeline.py). */
module SqlPipeline {
  import opened Wrappers
  import ResultCacheKey
  import Separators

  type Schema = set<string>

  datatype Stage = Guardrail | SandboxSafety | AstParse | Semantic | LlmGeneration

  datatype Error = Error(kind: string, stage: Stage, message: string)

  const SQL_PARSE_ERROR := "sql_parse_error"
  const UNSAFE_SANDBOX_REJECTED := "unsafe_sandbox_rejected"
  const LLM_API_ERROR := "llm_api_error"

  /** What one component of the chain answers; any of them may also raise something unexpected. */
  datatype GuardrailReply = Errors(errors: seq<(string, string)>) | GuardrailRaised
  datatype SafetyReply = ReadOnly | SafetyParseError | NotReadOnly(message: string) | SafetyRaised
  datatype ParseReply = Parsed | ParseError(message: string) | ParseRaised
  datatype SemanticReply = Meaningful | Meaningless(message: string) | SemanticRaised

  /** The components, taken as given; they are deterministic. */
  datatype Checks = Checks(
    oracleCase: string -> string,
    guardrail: (string, string) -> GuardrailReply,
    safety: string -> SafetyReply,
    parse: (string, string) -> ParseReply,
    semantic: (string, Schema, string) -> SemanticReply,
    classify: string -> string,
    pretty: (string, string) -> Option<string>,
    lower: string -> string)

  datatype Verdict =
    | Accepted(sql: string)
    | Rejected(sql: string, retry: bool, errors: seq<Error>)
    | Crashed

  // ----- The validation chain.

  function GuardrailErrors(errors: seq<(string, string)>): (r: seq<Error>)
    ensures |r| == |errors|
    ensures forall i | 0 <= i < |r| :: r[i] == Error(errors[i].0, Guardrail, errors[i].1)
  {
    if errors == [] then []
    else GuardrailErrors(errors[..|errors| - 1]) + [Error(errors[|errors| - 1].0, Guardrail, errors[|errors| - 1].1)]
  }

  /** The statement the chain works on. */
  function Prepared(checks: Checks, sql: string, dialect: string): string {
    if checks.lower(dialect) == "oracle" then checks.oracleCase(sql) else sql
  }

  function ValidateSql(checks: Checks, sql: string, schema: Schema, dialect: string): Verdict {
    var current := Prepared(checks, sql, dialect);
    match checks.guardrail(current, dialect)
    case GuardrailRaised => Crashed
    case Errors(errors) =>
      if errors != [] then Rejected(current, errors[0].0 == SQL_PARSE_ERROR, GuardrailErrors(errors))
      else
        match checks.safety(current)
        case SafetyRaised => Crashed
        case NotReadOnly(message) =>
          Rejected(current, false, [Error(UNSAFE_SANDBOX_REJECTED, SandboxSafety, message)])
        case _ =>
          match checks.parse(current, dialect)
          case ParseRaised => Crashed
          case ParseError(message) => Rejected(current, true, [Error(checks.classify(message), AstParse, message)])
          case Parsed =>
            match checks.semantic(current, schema, dialect)
            case SemanticRaised => Crashed
            case Meaningless(message) => Rejected(current, true, [Error(checks.classify(message), Semantic, message)])
            case Meaningful =>
              var pretty := checks.pretty(current, dialect);
              Accepted(if pretty.Some? then pretty.value else current)
  }

  /** The guardrail found nothing and the sandbox check did not object. */
  predicate JudgedSafe(checks: Checks, sql: string, dialect: string) {
    && checks.guardrail(sql, dialect) == Errors([])
    && (checks.safety(sql).ReadOnly? || checks.safety(sql).SafetyParseError?)
  }

  /** Some component that the chain reaches raises. */
  predicate Raises(checks: Checks, sql: string, schema: Schema, dialect: string) {
    || checks.guardrail(sql, dialect).GuardrailRaised?
    || (checks.guardrail(sql, dialect) == Errors([]) && checks.safety(sql).SafetyRaised?)
    || (JudgedSafe(checks, sql, dialect)
        && (|| checks.parse(sql, dialect).ParseRaised?
            || (checks.parse(sql, dialect).Parsed? && checks.semantic(sql, schema, dialect).SemanticRaised?)))
  }

  /** The guardrail names errors, or names none and the sandbox check objects. */
  predicate Refused(checks: Checks, sql: string, dialect: string) {
    var found := checks.guardrail(sql, dialect);
    found.Errors? && (found.errors != [] || checks.safety(sql).NotReadOnly?)
  }

  /** The first error the guardrail names is that it could not parse. */
  predicate GuardrailCannotParse(checks: Checks, sql: string, dialect: string) {
    var found := checks.guardrail(sql, dialect);
    found.Errors? && found.errors != [] && found.errors[0].0 == "sql_parse_error"
  }

  /** Judged safe, but it does not parse or does not fit the schema. */
  predicate Criticised(checks: Checks, sql: string, schema: Schema, dialect: string) {
    && JudgedSafe(checks, sql, dialect)
    && (|| checks.parse(sql, dialect).ParseError?
        || (checks.parse(sql, dialect).Parsed? && checks.semantic(sql, schema, dialect).Meaningless?))
  }

  predicate Passes(checks: Checks, sql: string, schema: Schema, dialect: string) {
    && JudgedSafe(checks, sql, dialect) && checks.parse(sql, dialect).Parsed?
    && checks.semantic(sql, schema, dialect).Meaningful?
  }

  /** The errors are those of the first component that objects. */
  ghost predicate Named(checks: Checks, sql: string, schema: Schema, dialect: string, errors: seq<Error>) {
    match checks.guardrail(sql, dialect)
    case GuardrailRaised => false
    case Errors(found) =>
      if found != [] then
        && |errors| == |found|
        && forall i | 0 <= i < |found| ::
             errors[i].kind == found[i].0 && errors[i].stage == Guardrail && errors[i].message == found[i].1
      else if checks.safety(sql).NotReadOnly? then
        errors == [Error("unsafe_sandbox_rejected", SandboxSafety, checks.safety(sql).message)]
      else if checks.parse(sql, dialect).ParseError? then
        var message := checks.parse(sql, dialect).message;
        errors == [Error(checks.classify(message), AstParse, message)]
      else
        && checks.semantic(sql, schema, dialect).Meaningless?
        && var message := checks.semantic(sql, schema, dialect).message;
           errors == [Error(checks.classify(message), Semantic, message)]
  }

  /** The verdict, told from the components' replies alone: a crash exactly when one that is reached raises,
      acceptance exactly when all agree, and otherwise the errors of the first that objects. A rejection asks for
      another attempt exactly when it is no security refusal, a parse failure of the guardrail aside. */
  lemma VerdictIff(checks: Checks, sql: string, schema: Schema, dialect: string)
    ensures var current := if checks.lower(dialect) == "oracle" then checks.oracleCase(sql) else sql;
            var v := ValidateSql(checks, sql, schema, dialect);
            && (v.Crashed? <==> Raises(checks, current, schema, dialect))
            && (v.Accepted? <==> Passes(checks, current, schema, dialect))
            && (v.Accepted? ==>
                  v.sql == if checks.pretty(current, dialect).None? then current
                           else checks.pretty(current, dialect).value)
            && (v.Rejected? <==> Refused(checks, current, dialect) || Criticised(checks, current, schema, dialect))
            && (v.Rejected? ==>
                  && v.sql == current && Named(checks, current, schema, dialect, v.errors)
                  && (v.retry <==> GuardrailCannotParse(checks, current, dialect)
                                   || Criticised(checks, current, schema, dialect)))
  {
  }

  /** Security errors come from security components alone, and the disposition can be read off the first error. */
  lemma StagesMean(checks: Checks, sql: string, schema: Schema, dialect: string)
    ensures var v := ValidateSql(checks, sql, schema, dialect);
            v.Rejected? ==>
              && v.sql == Prepared(checks, sql, dialect) && v.errors != []
              && (v.errors[0].stage in {Guardrail, SandboxSafety} <==> !JudgedSafe(checks, v.sql, dialect))
              && (v.retry <==> v.errors[0].stage in {AstParse, Semantic}
                               || (v.errors[0].stage == Guardrail && v.errors[0].kind == SQL_PARSE_ERROR))
              && (forall e | e in v.errors :: e.stage == v.errors[0].stage)
  {
  }

  // ----- The writer-critic loop.

  datatype Attempt = Attempt(number: nat, sql: string, valid: bool, errors: seq<Error>)

  /** The one error of an attempt whose model call or validation raised. */
  const LLM_FAILED := Error(LLM_API_ERROR, LlmGeneration, "")

  datatype Task = Task(schema: Schema, dialect: string, maxAttempts: nat)

  /** reply(k) is what the model returns at attempt k, or nothing when the call raises. */
  function Tried(checks: Checks, task: Task, reply: nat -> Option<string>, k: nat): Attempt {
    match reply(k)
    case None => Attempt(k, "", false, [LLM_FAILED])
    case Some(sql) =>
      match ValidateSql(checks, sql, task.schema, task.dialect)
      case Accepted(final) => Attempt(k, final, true, [])
      case Rejected(final, _, errors) => Attempt(k, final, false, errors)
      case Crashed => Attempt(k, sql, false, [LLM_FAILED])
  }

  /** An attempt is followed by another unless it succeeded or was refused for good. */
  predicate Retryable(a: Attempt) {
    && !a.valid && a.errors != []
    && (a.errors[0].stage in {AstParse, Semantic, LlmGeneration}
        || (a.errors[0].stage == Guardrail && a.errors[0].kind == SQL_PARSE_ERROR))
  }

  function AttemptsFrom(checks: Checks, task: Task, reply: nat -> Option<string>, k: nat): seq<Attempt>
    decreases task.maxAttempts + 1 - k
  {
    if k > task.maxAttempts then []
    else
      var a := Tried(checks, task, reply, k);
      if Retryable(a) then [a] + AttemptsFrom(checks, task, reply, k + 1) else [a]
  }

  predicate SecurityRejected(a: Attempt) {
    exists e | e in a.errors :: e.stage in {Guardrail, SandboxSafety}
  }

  datatype Result = Result(success: bool, sql: string, attempts: seq<Attempt>)

  /** A failed run publishes its last statement unless that was refused for security. */
  function Concluded(attempts: seq<Attempt>): Result {
    if attempts == [] then Result(false, "", [])
    else
      var last := attempts[|attempts| - 1];
      Result(last.valid, if !last.valid && SecurityRejected(last) then "" else last.sql, attempts)
  }

  function Written(checks: Checks, task: Task, reply: nat -> Option<string>): Result {
    Concluded(AttemptsFrom(checks, task, reply, 1))
  }

  lemma NextAttempt(checks: Checks, task: Task, reply: nat -> Option<string>, k: nat)
    ensures AttemptsFrom(checks, task, reply, k) ==
            if k > task.maxAttempts then []
            else [Tried(checks, task, reply, k)] +
                 if Retryable(Tried(checks, task, reply, k)) then AttemptsFrom(checks, task, reply, k + 1) else []
  {
    hide Tried, Retryable;
  }

  /** The disposition a verdict carries is whether its attempt is retried. */
  lemma DispositionIsRetry(checks: Checks, task: Task, reply: nat -> Option<string>, k: nat)
    ensures var a := Tried(checks, task, reply, k);
            if reply(k).None? then Retryable(a) && a == Attempt(k, "", false, [LLM_FAILED])
            else
              match ValidateSql(checks, reply(k).value, task.schema, task.dialect)
              case Accepted(final) => !Retryable(a) && a == Attempt(k, final, true, [])
              case Rejected(final, retry, errors) => (Retryable(a) <==> retry) && a == Attempt(k, final, false, errors)
              case Crashed => Retryable(a) && a == Attempt(k, reply(k).value, false, [LLM_FAILED])
  {
    if reply(k).Some? {
      StagesMean(checks, reply(k).value, task.schema, task.dialect);
      hide ValidateSql, JudgedSafe;
    }
  }

  lemma OneMore(checks: Checks, task: Task, reply: nat -> Option<string>, before: seq<Attempt>, k: nat)
    requires 1 <= k <= task.maxAttempts
    requires AttemptsFrom(checks, task, reply, 1) == before + AttemptsFrom(checks, task, reply, k)
    ensures var a := Tried(checks, task, reply, k);
            AttemptsFrom(checks, task, reply, 1) ==
              before + [a] + if Retryable(a) then AttemptsFrom(checks, task, reply, k + 1) else []
  {
    hide Tried, Retryable, AttemptsFrom;
    NextAttempt(checks, task, reply, k);
  }

  lemma TriedValid(checks: Checks, task: Task, reply: nat -> Option<string>, k: nat)
    requires Tried(checks, task, reply, k).valid
    ensures reply(k).Some?
    ensures ValidateSql(checks, reply(k).value, task.schema, task.dialect)
            == Accepted(Tried(checks, task, reply, k).sql)
  {
    hide ValidateSql;
  }

  /** One pass of the loop: the model is asked, its statement validated, and the errors say whether to ask again. */
  method TryOnce(checks: Checks, task: Task, reply: nat -> Option<string>, k: nat) returns (a: Attempt, again: bool)
    ensures a == Tried(checks, task, reply, k) && (again <==> Retryable(a)) && !(again && a.valid)
  {
    hide ValidateSql, Tried, LLM_FAILED;
    DispositionIsRetry(checks, task, reply, k);
    var generated := reply(k);
    if generated.None? {
      return Attempt(k, "", false, [LLM_FAILED]), true;
    }
    var outcome := ValidateSql(checks, generated.value, task.schema, task.dialect);
    match outcome {
      case Crashed => return Attempt(k, generated.value, false, [LLM_FAILED]), true;
      case Rejected(final, retry, errors) => return Attempt(k, final, false, errors), retry;
      case Accepted(final) => return Attempt(k, final, true, []), false;
    }
  }

  method StageWriterCritic(checks: Checks, task: Task, reply: nat -> Option<string>) returns (r: Result)
    ensures r == Written(checks, task, reply)
  {
    hide Tried, Retryable, AttemptsFrom, SecurityRejected;
    ghost var all := AttemptsFrom(checks, task, reply, 1);
    var success, sql, attempts := false, "", [];
    var attempt, again := 1, true;
    while again && attempt <= task.maxAttempts
      invariant 1 <= attempt <= task.maxAttempts + 1
      invariant all == attempts + if again then AttemptsFrom(checks, task, reply, attempt) else []
      invariant success <==> attempts != [] && attempts[|attempts| - 1].valid
      invariant sql == if success then attempts[|attempts| - 1].sql else ""
      invariant again ==> !success
      decreases task.maxAttempts + 1 - attempt
    {
      OneMore(checks, task, reply, attempts, attempt);
      var a;
      a, again := TryOnce(checks, task, reply, attempt);
      attempts := attempts + [a];
      if a.valid {
        success, sql := true, a.sql;
      }
      attempt := attempt + 1;
    }
    NextAttempt(checks, task, reply, task.maxAttempts + 1);
    if !success && attempts != [] {
      var last := attempts[|attempts| - 1];
      sql := if SecurityRejected(last) then "" else last.sql;
    }
    r := Result(success, sql, attempts);
  }

  /** At most so many attempts, each of them the next one due; every attempt before the last asked for another, and a
      run that stopped early did not. */
  lemma {:induction false} AttemptsFollow(checks: Checks, task: Task, reply: nat -> Option<string>, k: nat)
    requires 1 <= k <= task.maxAttempts + 1
    ensures var all := AttemptsFrom(checks, task, reply, k);
            && |all| <= task.maxAttempts + 1 - k && (all == [] <==> k == task.maxAttempts + 1)
            && (forall i | 0 <= i < |all| :: all[i] == Tried(checks, task, reply, k + i))
            && (forall i | 0 <= i < |all| - 1 :: Retryable(all[i]))
            && (all != [] && |all| < task.maxAttempts + 1 - k ==> !Retryable(all[|all| - 1]))
    decreases task.maxAttempts + 1 - k
  {
    hide Tried, Retryable, AttemptsFrom;
    NextAttempt(checks, task, reply, k);
    if k <= task.maxAttempts && Retryable(Tried(checks, task, reply, k)) {
      AttemptsFollow(checks, task, reply, k + 1);
      var rest := AttemptsFrom(checks, task, reply, k + 1);
      var all := AttemptsFrom(checks, task, reply, k);
      assert all == [Tried(checks, task, reply, k)] + rest && all[1..] == rest;
      forall i | 1 <= i < |all| ensures all[i] == Tried(checks, task, reply, k + i) {
        assert all[i] == rest[i - 1] == Tried(checks, task, reply, k + 1 + (i - 1));
      }
    }
  }

  /** What an attempt was, told from the components' replies: accepted exactly when the statement passes them all, and
      followed by another exactly when the model failed, a component raised, the guardrail could not parse, or the
      statement was safe and only criticised. A refused statement leaves security errors and nothing else does. */
  lemma AttemptIff(checks: Checks, task: Task, reply: nat -> Option<string>, k: nat)
    ensures var a := Tried(checks, task, reply, k);
            && a.number == k
            && (reply(k).None? ==>
                  && !a.valid && a.sql == "" && a.errors == [Error("llm_api_error", LlmGeneration, "")]
                  && Retryable(a) && !SecurityRejected(a))
            && (reply(k).Some? ==>
                  var current := Prepared(checks, reply(k).value, task.dialect);
                  && (a.valid <==> Passes(checks, current, task.schema, task.dialect))
                  && (Retryable(a) <==>
                        || Raises(checks, current, task.schema, task.dialect)
                        || GuardrailCannotParse(checks, current, task.dialect)
                        || Criticised(checks, current, task.schema, task.dialect))
                  && (SecurityRejected(a) <==> Refused(checks, current, task.dialect))
                  && (Raises(checks, current, task.schema, task.dialect) ==>
                        a.errors == [Error("llm_api_error", LlmGeneration, "")])
                  && (!a.valid ==> a.sql == if Raises(checks, current, task.schema, task.dialect) then reply(k).value
                                            else current)
                  && (a.valid ==> a.sql == OrElse(checks.pretty(current, task.dialect), current)))
  {
    if reply(k).Some? {
      var sql := reply(k).value;
      VerdictIff(checks, sql, task.schema, task.dialect);
      StagesMean(checks, sql, task.schema, task.dialect);
      Apart(checks, Prepared(checks, sql, task.dialect), task.schema, task.dialect);
      hide ValidateSql, Passes, Refused, Criticised, Raises, GuardrailCannotParse;
      var a := Tried(checks, task, reply, k);
      assert a.errors != [] ==> a.errors[0] in a.errors;
    }
  }

  function OrElse(pretty: Option<string>, sql: string): string {
    if pretty.Some? then pretty.value else sql
  }

  /** Every statement is in one class: it passes, is criticised or refused, or something raises. */
  lemma Apart(checks: Checks, sql: string, schema: Schema, dialect: string)
    ensures var passes, criticised := Passes(checks, sql, schema, dialect), Criticised(checks, sql, schema, dialect);
            var refused, raises := Refused(checks, sql, dialect), Raises(checks, sql, schema, dialect);
            && (passes || criticised || refused || raises) && !(passes && criticised) && !(refused && raises)
            && !((passes || criticised) && (refused || raises))
            && ((passes || criticised) ==> JudgedSafe(checks, sql, dialect))
            && (refused ==> !JudgedSafe(checks, sql, dialect))
            && (GuardrailCannotParse(checks, sql, dialect) ==> refused)
  {
  }

  /** The statement a run returns: on success one that every component passed, pretty-printed; on failure nothing, or
      one that was judged safe and criticised, or one on which a component raised. */
  lemma PublishedSql(checks: Checks, task: Task, reply: nat -> Option<string>)
    ensures var r := Written(checks, task, reply);
            r.sql == ""
            || exists raw :: reply(|r.attempts|) == Some(raw)
                 && var current := Prepared(checks, raw, task.dialect);
                    if Raises(checks, current, task.schema, task.dialect) then !r.success && r.sql == raw
                    else if r.success then
                      && Passes(checks, current, task.schema, task.dialect)
                      && r.sql == OrElse(checks.pretty(current, task.dialect), current)
                    else Criticised(checks, current, task.schema, task.dialect) && r.sql == current
  {
    hide Tried, Retryable, AttemptsFrom, Raises, Passes, Criticised, Refused, GuardrailCannotParse, OrElse, JudgedSafe,
         SecurityRejected, Prepared;
    AttemptsFollow(checks, task, reply, 1);
    var all := AttemptsFrom(checks, task, reply, 1);
    if all != [] {
      assert all[|all| - 1] == Tried(checks, task, reply, |all|);
      AttemptIff(checks, task, reply, |all|);
      if reply(|all|).Some? {
        Apart(checks, Prepared(checks, reply(|all|).value, task.dialect), task.schema, task.dialect);
      }
    }
  }

  /** A refused statement is never published, and unless the guardrail only failed to parse it, it ends the run. */
  lemma RefusedIsFinal(checks: Checks, task: Task, reply: nat -> Option<string>, k: nat)
    requires 1 <= k <= |Written(checks, task, reply).attempts| && reply(k).Some?
    requires Refused(checks, Prepared(checks, reply(k).value, task.dialect), task.dialect)
    ensures var r := Written(checks, task, reply);
            && !r.attempts[k - 1].valid
            && (!GuardrailCannotParse(checks, Prepared(checks, reply(k).value, task.dialect), task.dialect) ==>
                  k == |r.attempts|)
            && (k == |r.attempts| ==> !r.success && r.sql == "")
  {
    hide Tried, Retryable, AttemptsFrom, Raises, Passes, Criticised, Refused, GuardrailCannotParse, OrElse, JudgedSafe,
         SecurityRejected, Prepared;
    AttemptsFollow(checks, task, reply, 1);
    var all := AttemptsFrom(checks, task, reply, 1);
    assert all[k - 1] == Tried(checks, task, reply, 1 + (k - 1));
    AttemptIff(checks, task, reply, k);
    Apart(checks, Prepared(checks, reply(k).value, task.dialect), task.schema, task.dialect);
  }

  /** Attempt k ends no run within the limit. */
  predicate GoesOn(checks: Checks, task: Task, reply: nat -> Option<string>, k: nat) {
    reply(k).Some? ==>
      var current := Prepared(checks, reply(k).value, task.dialect);
      || Raises(checks, current, task.schema, task.dialect) || GuardrailCannotParse(checks, current, task.dialect)
      || Criticised(checks, current, task.schema, task.dialect)
  }

  /** The loop succeeds exactly when the statement of some attempt within the limit passes every component and no
      attempt before it ends the run. */
  lemma SucceedsIff(checks: Checks, task: Task, reply: nat -> Option<string>)
    ensures Written(checks, task, reply).success <==>
              exists k :: 1 <= k <= task.maxAttempts && reply(k).Some?
                && Passes(checks, Prepared(checks, reply(k).value, task.dialect), task.schema, task.dialect)
                && forall j :: 1 <= j < k ==> GoesOn(checks, task, reply, j)
  {
    hide Tried, Retryable, AttemptsFrom, Raises, Passes, Criticised, Refused, GuardrailCannotParse, OrElse, JudgedSafe,
         SecurityRejected, Prepared, GoesOn;
    AttemptsFollow(checks, task, reply, 1);
    var all := AttemptsFrom(checks, task, reply, 1);
    forall j | 1 <= j <= |all|
      ensures all[j - 1] == Tried(checks, task, reply, j)
      ensures j < |all| ==> GoesOn(checks, task, reply, j)
    {
      assert all[j - 1] == Tried(checks, task, reply, 1 + (j - 1));
      RetriedGoesOn(checks, task, reply, j);
    }
    if all != [] {
      AttemptIff(checks, task, reply, |all|);
    }
    if k :| 1 <= k <= task.maxAttempts && reply(k).Some?
            && Passes(checks, Prepared(checks, reply(k).value, task.dialect), task.schema, task.dialect)
            && forall j :: 1 <= j < k ==> GoesOn(checks, task, reply, j) {
      AttemptIff(checks, task, reply, k);
      RetriedGoesOn(checks, task, reply, |all|);
      RetriedGoesOn(checks, task, reply, k);
    }
  }

  lemma RetriedGoesOn(checks: Checks, task: Task, reply: nat -> Option<string>, k: nat)
    ensures Retryable(Tried(checks, task, reply, k)) <==> GoesOn(checks, task, reply, k)
    ensures Tried(checks, task, reply, k).valid ==> !GoesOn(checks, task, reply, k)
  {
    hide Tried, Raises, Criticised, GuardrailCannotParse, Prepared;
    AttemptIff(checks, task, reply, k);
  }

  /** When a failed run publishes a statement that was not judged safe: exactly when no attempt before the last
      allowed one ends it, and a component raises there on a non-empty statement that is not judged safe. */
  lemma UnjudgedIff(checks: Checks, task: Task, reply: nat -> Option<string>)
    ensures var r, n := Written(checks, task, reply), task.maxAttempts;
            !r.success && r.sql != "" && !JudgedSafe(checks, r.sql, task.dialect) <==>
              && n >= 1 && reply(n).Some? && reply(n).value != ""
              && Raises(checks, Prepared(checks, reply(n).value, task.dialect), task.schema, task.dialect)
              && !JudgedSafe(checks, reply(n).value, task.dialect)
              && forall j :: 1 <= j < n ==> GoesOn(checks, task, reply, j)
  {
    hide Tried, JudgedSafe, Retryable, AttemptsFrom, Raises, Passes, Criticised, Refused, GuardrailCannotParse, OrElse,
         SecurityRejected, Prepared, GoesOn;
    AttemptsFollow(checks, task, reply, 1);
    var n, all := task.maxAttempts, AttemptsFrom(checks, task, reply, 1);
    if all != [] {
      assert all[|all| - 1] == Tried(checks, task, reply, |all|);
      AttemptIff(checks, task, reply, |all|);
      RetriedGoesOn(checks, task, reply, |all|);
      if reply(|all|).Some? {
        Apart(checks, Prepared(checks, reply(|all|).value, task.dialect), task.schema, task.dialect);
      }
      forall j | 1 <= j < |all| ensures GoesOn(checks, task, reply, j) {
        assert all[j - 1] == Tried(checks, task, reply, 1 + (j - 1));
        RetriedGoesOn(checks, task, reply, j);
      }
    }
  }

  // ----- The result cache.

  datatype Row = Row(sql: string, dialect: string, signature: string, hits: nat)

  type Cache = map<string, Row>

  /** One run: the question, the revision it may ask for, the cached schema signature, and what the model replies. */
  datatype Request = Request(query: Option<string>, previousSql: Option<string>, signature: Option<string>,
                             enabled: bool, task: Task, reply: nat -> Option<string>)

  datatype Environment = Environment(checks: Checks, fold: string -> string, hash: string -> string)

  datatype Run = Finished(result: Result, hit: bool) | Raised

  predicate IsRevision(r: Request) {
    r.previousSql.Some? && exists c | c in r.previousSql.value :: !Separators.IsSpace(c)
  }

  predicate CacheActive(r: Request) {
    !IsRevision(r) && r.enabled && r.signature.Some?
  }

  function KeyOf(env: Environment, r: Request): string {
    ResultCacheKey.CacheKey(env.fold, env.hash, r.query, Some(r.task.dialect), r.signature)
  }

  predicate Stored(env: Environment, cache: Cache, r: Request) {
    CacheActive(r) && KeyOf(env, r) in cache && cache[KeyOf(env, r)].sql != ""
  }

  /** A stored statement is validated again before it is served; rejected, it is generated anew. */
  function Answer(env: Environment, cache: Cache, r: Request): Run {
    var generated := Finished(Written(env.checks, r.task, r.reply), false);
    if !Stored(env, cache, r) then generated
    else
      match ValidateSql(env.checks, cache[KeyOf(env, r)].sql, r.task.schema, r.task.dialect)
      case Accepted(final) => Finished(Result(true, final, [Attempt(1, final, true, [])]), true)
      case Rejected(_, _, _) => generated
      case Crashed => Raised
  }

  /** A hit is counted; a statement generated with the cache active replaces the row and keeps its count. */
  function CacheAfter(env: Environment, cache: Cache, r: Request): Cache {
    var key := KeyOf(env, r);
    match Answer(env, cache, r)
    case Raised => cache
    case Finished(result, hit) =>
      if hit && key in cache then cache[key := cache[key].(hits := cache[key].hits + 1)]
      else if !hit && CacheActive(r) && result.success then
        cache[key := Row(result.sql, r.task.dialect, r.signature.value, if key in cache then cache[key].hits else 0)]
      else cache
  }

  class Pipeline {
    const env: Environment
    var cache: Cache

    constructor (env: Environment)
      ensures this.env == env && cache == map[]
    {
      this.env := env;
      cache := map[];
    }

    method RunPipeline(r: Request) returns (run: Run)
      modifies this
      ensures run == Answer(env, old(cache), r)
      ensures cache == CacheAfter(env, old(cache), r)
    {
      hide ValidateSql, Written, ResultCacheKey.CacheKey;
      var active := CacheActive(r);
      if active {
        var key := KeyOf(env, r);
        if key in cache && cache[key].sql != "" {
          var outcome := ValidateSql(env.checks, cache[key].sql, r.task.schema, r.task.dialect);
          if outcome.Crashed? {
            return Raised;
          }
          if outcome.Accepted? {
            cache := cache[key := cache[key].(hits := cache[key].hits + 1)];
            return Finished(Result(true, outcome.sql, [Attempt(1, outcome.sql, true, [])]), true);
          }
        }
      }
      var result := StageWriterCritic(env.checks, r.task, r.reply);
      if active && result.success {
        var key := KeyOf(env, r);
        var hits := if key in cache then cache[key].hits else 0;
        cache := cache[key := Row(result.sql, r.task.dialect, r.signature.value, hits)];
      }
      run := Finished(result, false);
    }
  }

  // ----- Over any sequence of runs.

  function CacheBefore(env: Environment, requests: seq<Request>, n: nat): Cache
    requires n <= |requests|
  {
    if n == 0 then map[] else CacheAfter(env, CacheBefore(env, requests, n - 1), requests[n - 1])
  }

  function RunAt(env: Environment, requests: seq<Request>, n: nat): Run
    requires n < |requests|
  {
    Answer(env, CacheBefore(env, requests, n), requests[n])
  }

  /** Whatever ran before, a successful answer, hit or not, passes every component on the current schema. */
  lemma SuccessIsAccepted(env: Environment, requests: seq<Request>, n: nat) returns (raw: string)
    requires n < |requests| && RunAt(env, requests, n).Finished? && RunAt(env, requests, n).result.success
    ensures var t := requests[n].task;
            var current := Prepared(env.checks, raw, t.dialect);
            && Passes(env.checks, current, t.schema, t.dialect)
            && RunAt(env, requests, n).result.sql == OrElse(env.checks.pretty(current, t.dialect), current)
  {
    hide ValidateSql, AttemptsFrom, Tried, ResultCacheKey.CacheKey, Passes;
    var r, cache := requests[n], CacheBefore(env, requests, n);
    if RunAt(env, requests, n).hit {
      raw := cache[KeyOf(env, r)].sql;
    } else {
      AttemptsFollow(env.checks, r.task, r.reply, 1);
      var all := AttemptsFrom(env.checks, r.task, r.reply, 1);
      assert all[|all| - 1] == Tried(env.checks, r.task, r.reply, 1 + (|all| - 1));
      TriedValid(env.checks, r.task, r.reply, |all|);
      raw := r.reply(|all|).value;
    }
    VerdictIff(env.checks, raw, r.task.schema, r.task.dialect);
  }

  /** Revisions, failures and inactive caches leave the cache as it was, and a hit changes a count at most. */
  lemma CacheChangesOnlyBySuccess(env: Environment, requests: seq<Request>, n: nat)
    requires n < |requests|
    ensures var before, after := CacheBefore(env, requests, n), CacheBefore(env, requests, n + 1);
            var run := RunAt(env, requests, n);
            && (IsRevision(requests[n]) || run.Raised? || !run.result.success ==> after == before)
            && (run.Finished? && run.hit ==>
                  after.Keys == before.Keys && forall k | k in before :: after[k].sql == before[k].sql)
            && (forall k | k in before && k != KeyOf(env, requests[n]) :: k in after && after[k] == before[k])
  {
    hide ValidateSql, Written, ResultCacheKey.CacheKey;
  }

  /** Run k stores its statement under a key: it is no revision, the cache is on and the schema known, and it generated
      the statement itself. */
  ghost predicate Stores(env: Environment, requests: seq<Request>, k: nat, key: string)
    requires k < |requests|
  {
    var r, run := requests[k], RunAt(env, requests, k);
    && r.enabled && r.signature.Some? && KeyOf(env, r) == key
    && (r.previousSql.Some? ==> forall c | c in r.previousSql.value :: Separators.IsSpace(c))
    && run.Finished? && !run.hit && run.result.success
  }

  /** The rows of the cache at any time: the latest statement stored under each key, with all hits on it counted. */
  lemma {:induction false} RowsAre(env: Environment, requests: seq<Request>, n: nat, key: string)
    returns (latest: Option<nat>)
    requires n <= |requests|
    ensures latest.Some? <==> key in CacheBefore(env, requests, n)
    ensures latest.None? ==> forall k | 0 <= k < n :: !Stores(env, requests, k, key)
    ensures latest.Some? ==>
              && latest.value < n && Stores(env, requests, latest.value, key)
              && (forall k | latest.value < k < n :: !Stores(env, requests, k, key))
              && var i, row := latest.value, CacheBefore(env, requests, n)[key];
                 && row.sql == RunAt(env, requests, i).result.sql && row.dialect == requests[i].task.dialect
                 && Some(row.signature) == requests[i].signature && row.hits == HitCount(env, requests, n, key)
    ensures latest.None? ==> HitCount(env, requests, n, key) == 0
  {
    hide Answer, ResultCacheKey.CacheKey, CacheAfter;
    if n == 0 {
      latest := None;
    } else {
      latest := RowsAre(env, requests, n - 1, key);
      RowStep(env, requests, n - 1, key);
      hide Stores, HitCount;
      if Stores(env, requests, n - 1, key) {
        latest := Some(n - 1);
      }
    }
  }

  /** How often the first n runs were hits under a key. */
  ghost function HitCount(env: Environment, requests: seq<Request>, n: nat, key: string): nat
    requires n <= |requests|
  {
    if n == 0 then 0
    else
      var run := RunAt(env, requests, n - 1);
      HitCount(env, requests, n - 1, key) +
        if run.Finished? && run.hit && KeyOf(env, requests[n - 1]) == key then 1 else 0
  }

  lemma RowStep(env: Environment, requests: seq<Request>, n: nat, key: string)
    requires n < |requests|
    ensures var before, after := CacheBefore(env, requests, n), CacheBefore(env, requests, n + 1);
            var hits := HitCount(env, requests, n + 1, key) - HitCount(env, requests, n, key);
            && (key in after <==> key in before || Stores(env, requests, n, key))
            && (hits == 0 || (hits == 1 && key in before && !Stores(env, requests, n, key)))
            && (key in after ==>
                  && after[key].hits == (if key in before then before[key].hits else 0) + hits
                  && if Stores(env, requests, n, key) then
                       && after[key].sql == RunAt(env, requests, n).result.sql
                       && after[key].dialect == requests[n].task.dialect
                       && Some(after[key].signature) == requests[n].signature
                     else after[key].sql == before[key].sql && after[key].dialect == before[key].dialect
                          && after[key].signature == before[key].signature)
  {
    hide ValidateSql, Written, ResultCacheKey.CacheKey;
  }

  /** What a run answers: the latest statement stored under its key, validated anew, if it may look and there is one
      that passes; a crash if a component raises on it; and otherwise what its own writer-critic loop gives. */
  lemma AnswerIff(env: Environment, requests: seq<Request>, n: nat) returns (latest: Option<nat>)
    requires n < |requests|
    ensures latest.None? ==> forall k | 0 <= k < n :: !Stores(env, requests, k, KeyOf(env, requests[n]))
    ensures latest.Some? ==>
              && latest.value < n && Stores(env, requests, latest.value, KeyOf(env, requests[n]))
              && forall k | latest.value < k < n :: !Stores(env, requests, k, KeyOf(env, requests[n]))
    ensures var r, run := requests[n], RunAt(env, requests, n);
            if && latest.Some? && RunAt(env, requests, latest.value).result.sql != "" && r.enabled && r.signature.Some?
               && (r.previousSql.Some? ==> forall c | c in r.previousSql.value :: Separators.IsSpace(c)) then
              var current := Prepared(env.checks, RunAt(env, requests, latest.value).result.sql, r.task.dialect);
              && (run.Raised? <==> Raises(env.checks, current, r.task.schema, r.task.dialect))
              && (run.Finished? && run.hit <==> Passes(env.checks, current, r.task.schema, r.task.dialect))
              && (run.Finished? && run.hit ==>
                    var sql := OrElse(env.checks.pretty(current, r.task.dialect), current);
                    run.result == Result(true, sql, [Attempt(1, sql, true, [])]))
              && (run.Finished? && !run.hit ==> run.result == Written(env.checks, r.task, r.reply))
            else
              run == Finished(Written(env.checks, r.task, r.reply), false)
  {
    hide ValidateSql, Written, ResultCacheKey.CacheKey, Passes, Raises, Refused, Criticised;
    var r := requests[n];
    latest := RowsAre(env, requests, n, KeyOf(env, r));
    if latest.Some? {
      var sql := RunAt(env, requests, latest.value).result.sql;
      VerdictIff(env.checks, sql, r.task.schema, r.task.dialect);
      Apart(env.checks, Prepared(env.checks, sql, r.task.dialect), r.task.schema, r.task.dialect);
    }
  }

  /** Run i generated the statement stored under a key. */
  ghost predicate Generated(env: Environment, requests: seq<Request>, i: nat, key: string, sql: string)
    requires i < |requests|
  {
    var run := RunAt(env, requests, i);
    CacheActive(requests[i]) && KeyOf(env, requests[i]) == key && run.Finished? && !run.hit
    && run.result.success && run.result.sql == sql
  }

  lemma {:induction false} Provenance(env: Environment, requests: seq<Request>, n: nat, key: string) returns (i: nat)
    requires n <= |requests| && key in CacheBefore(env, requests, n)
    ensures i < n && Generated(env, requests, i, key, CacheBefore(env, requests, n)[key].sql)
  {
    hide ValidateSql, Written, ResultCacheKey.CacheKey;
    var before := CacheBefore(env, requests, n - 1);
    if key in before && before[key].sql == CacheBefore(env, requests, n)[key].sql {
      i := Provenance(env, requests, n - 1, key);
    } else {
      i := n - 1;
    }
  }

  /** A cache hit serves what an earlier run generated for the same dialect, schema signature and words, validated
      again on the current schema. */
  lemma HitAnswersTheSameQuestion(env: Environment, requests: seq<Request>, n: nat) returns (i: nat)
    requires n < |requests| && RunAt(env, requests, n).Finished? && RunAt(env, requests, n).hit
    requires forall a, b :: env.hash(a) == env.hash(b) ==> a == b
    requires forall r | r in requests :: Separators.UNIT !in ResultCacheKey.OrEmpty(r.signature)
    ensures i < n && !IsRevision(requests[i]) && !IsRevision(requests[n])
    ensures requests[i].task.dialect == requests[n].task.dialect && requests[i].signature == requests[n].signature
    ensures ResultCacheKey.FoldedWords(env.fold, requests[i].query)
            == ResultCacheKey.FoldedWords(env.fold, requests[n].query)
    ensures RunAt(env, requests, i).Finished? && RunAt(env, requests, i).result.success
    ensures var t := requests[n].task;
            Passes(env.checks, Prepared(env.checks, RunAt(env, requests, i).result.sql, t.dialect), t.schema, t.dialect)
  {
    var r := requests[n];
    i := Provenance(env, requests, n, KeyOf(env, r));
    assert r in requests && requests[i] in requests;
    ResultCacheKey.KeyIdentifies(env.fold, env.hash, requests[i].query, Some(requests[i].task.dialect),
                                 requests[i].signature, r.query, Some(r.task.dialect), r.signature);
    VerdictIff(env.checks, RunAt(env, requests, i).result.sql, r.task.schema, r.task.dialect);
  }
}
