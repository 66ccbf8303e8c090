/** The latency gate (scripts/perf_baseline.py): contract checks over case and result
    identifiers, one judgement per measured case, and the verdict. */
module Gate {
  import opened Seqs
  import Tolerance
  import opened Wrappers

  /** One measured case: the p95 and the samples of its evaluator delta, in milliseconds. */
  datatype Measurement = Measurement(id: string, p95: real, samples: seq<real>)

  datatype Status = Passed | Failed | Unavailable

  /** `over` and `allowed` count samples; they mean nothing for an unavailable case. */
  datatype CaseReport = CaseReport(id: string, status: Status, over: nat, allowed: int)

  datatype Violation = SlowTail(id: string) | TooManyOver(id: string)

  datatype ContractError =
    | Reported(message: string)
    | DuplicateCases(ids: set<string>)
    | DuplicateResults(ids: set<string>)
    | UnexpectedResults(ids: set<string>)
    | MissingResults(ids: set<string>)
    | MissingRequired(ids: set<string>)
    | NothingToEvaluate
    | CountMismatch(evaluated: nat, expected: nat)

  datatype Verdict = ERROR | NOT_RUN | FAIL | PASS

  datatype LatencyGate = LatencyGate(
    cases: seq<CaseReport>, violations: seq<Violation>, errors: seq<ContractError>, verdict: Verdict)

  const REQUIRED: set<string> := {
    "quick_reject", "safe_keyword", "destructive_keyword", "heredoc_inline", "full_eval_redirect",
    "full_eval_copy", "posix_test_probe", "xargs_fixed_template", "multi_construct_245" }

  const BYPASS := "bypass"

  // ------------------------------------------------------- the vocabulary

  function Ids(s: seq<string>): set<string> {
    set x | x in s
  }

  function Duplicates(s: seq<string>): set<string> {
    set k | 0 <= k < |s| && s[k] in s[k + 1..] :: s[k]
  }

  /** The identifiers that occur twice. */
  lemma DuplicatesAre(s: seq<string>, id: string)
    ensures id in Duplicates(s) <==> exists j, k :: 0 <= j < k < |s| && s[j] == id && s[k] == id
  {
    if j, k :| 0 <= j < k < |s| && s[j] == id && s[k] == id {
      assert s[j + 1..][k - j - 1] == id;
    }
  }

  function ResultIds(results: seq<Measurement>): (ids: seq<string>)
    ensures |ids| == |results| && forall k :: 0 <= k < |results| ==> ids[k] == results[k].id
  {
    if results == [] then [] else [results[0].id] + ResultIds(results[1..])
  }

  /** The result a dictionary keyed by identifier would keep: the last one. */
  function ResultFor(results: seq<Measurement>, id: string): Option<Measurement> {
    if results == [] then None
    else if results[|results| - 1].id == id then Some(results[|results| - 1])
    else ResultFor(results[..|results| - 1], id)
  }

  function Evaluable(specs: seq<string>): seq<string> {
    if specs == [] then []
    else Evaluable(specs[..|specs| - 1]) + if specs[|specs| - 1] == BYPASS then [] else [specs[|specs| - 1]]
  }

  function Consumed(delta: real): real {
    if delta > 0.0 then delta else 0.0
  }

  function CountOver(samples: seq<real>, limit: real): (n: nat)
    ensures n <= |samples|
  {
    if samples == [] then 0 else (if Consumed(samples[0]) > limit then 1 else 0) + CountOver(samples[1..], limit)
  }

  function Limit(shippedBudgetMs: int, marginPct: int): real {
    (shippedBudgetMs * marginPct) as real / 100.0
  }

  /** The limit is the budget's share in hundredths. */
  lemma LimitIsExact(shippedBudgetMs: int, marginPct: int, limit: real)
    ensures limit == Limit(shippedBudgetMs, marginPct) <==> 100.0 * limit == shippedBudgetMs as real * marginPct as real
  {
    assert (shippedBudgetMs * marginPct) as real == shippedBudgetMs as real * marginPct as real;
  }

  /** What a case has to show: a p95 within the limit, and so few samples over it that a process
      leaving it on one run in twenty would show so few at most one time in twenty. */
  ghost predicate Meets(m: Measurement, limit: real) {
    && 0.0 <= limit && m.p95 <= limit
    && Tolerance.AtMost(|m.samples|, |Over(m.samples, limit)|, 1.0 / 20.0) <= 1.0 / 20.0
  }

  /** The samples over the limit, by position; a gain counts as no time consumed. */
  ghost function Over(samples: seq<real>, limit: real): set<nat> {
    set k: nat | k < |samples| && (samples[k] > limit || 0.0 > limit)
  }

  lemma OverStep(samples: seq<real>, limit: real)
    requires samples != []
    ensures Over(samples, limit)
            == Shifted(Over(samples[1..], limit)) + if samples[0] > limit || 0.0 > limit then {0} else {}
  {
    forall k: nat | k in Over(samples, limit) && k > 0 ensures k in Shifted(Over(samples[1..], limit)) {
      assert samples[1..][k - 1] == samples[k];
      assert k - 1 in Over(samples[1..], limit);
    }
  }

  /** The count is the number of those samples. */
  lemma {:induction false} CountIsExact(samples: seq<real>, limit: real)
    ensures CountOver(samples, limit) == |Over(samples, limit)|
  {
    if samples != [] {
      OverStep(samples, limit);
      ShiftedSize(Over(samples[1..], limit));
      CountIsExact(samples[1..], limit);
    }
  }

  lemma MeetsIs(m: Measurement, limit: real)
    ensures Meets(m, limit) <==>
              && Consumed(m.p95) <= limit
              && Tolerance.AtMost(|m.samples|, CountOver(m.samples, limit), Tolerance.EXCEEDANCE) <= Tolerance.ALPHA
  {
    CountIsExact(m.samples, limit);
    assert Tolerance.EXCEEDANCE == 1.0 / 20.0 && Tolerance.ALPHA == 1.0 / 20.0;
    hide Tolerance.AtMost;
  }

  ghost predicate Describes(r: CaseReport, id: string, results: seq<Measurement>, limit: real) {
    && r.id == id
    && match ResultFor(results, id)
       case None => r.status == Unavailable
       case Some(m) =>
         && r.over == |Over(m.samples, limit)|
         && Tolerance.IsAllowance(|m.samples|, r.allowed)
         && r.status == if Meets(m, limit) then Passed else Failed
  }

  /** One report for each case except the bypass, in order, and violations for exactly the failed ones. */
  ghost predicate Judged(specs: seq<string>, cases: seq<CaseReport>, violations: seq<Violation>,
                         results: seq<Measurement>, limit: real) {
    && |cases| == |Evaluable(specs)|
    && (forall k :: 0 <= k < |cases| ==> Describes(cases[k], Evaluable(specs)[k], results, limit))
    && Flagged(violations) == FailedIds(cases)
  }

  function Flagged(violations: seq<Violation>): set<string> {
    set v | v in violations :: v.id
  }

  function FailedIds(cases: seq<CaseReport>): set<string> {
    set c | c in cases && c.status == Failed :: c.id
  }

  function CountEvaluated(cases: seq<CaseReport>): (n: nat)
    ensures n <= |cases|
    ensures n == |cases| <==> forall k :: 0 <= k < |cases| ==> cases[k].status != Unavailable
  {
    if cases == [] then 0
    else
      assert forall k :: 0 < k < |cases| ==> cases[k] == cases[1..][k - 1];
      (if cases[0].status != Unavailable then 1 else 0) + CountEvaluated(cases[1..])
  }

  // --------------------------------------------------------- the contract

  /** Cases and results are the same identifiers, each once. */
  ghost predicate Consistent(specs: seq<string>, results: seq<Measurement>) {
    Duplicates(specs) == {} && Duplicates(ResultIds(results)) == {} && Ids(specs) == Ids(ResultIds(results))
  }

  /** Nothing went wrong, in measuring or in what was measured. */
  ghost predicate Sound(enabled: bool, specs: seq<string>, results: seq<Measurement>, errors: seq<string>) {
    errors == [] && Consistent(specs, results) && (enabled ==> REQUIRED <= Ids(specs))
  }

  ghost predicate CaseMeets(id: string, results: seq<Measurement>, limit: real) {
    ResultFor(results, id).Some? && Meets(ResultFor(results, id).value, limit)
  }

  ghost predicate AllMeet(specs: seq<string>, results: seq<Measurement>, limit: real) {
    forall id :: id in specs && id != BYPASS ==> CaseMeets(id, results, limit)
  }

  /** The verdict, declared. */
  ghost function VerdictOf(enabled: bool, specs: seq<string>, results: seq<Measurement>, errors: seq<string>,
                           limit: real): Verdict {
    if !Sound(enabled, specs, results, errors) then ERROR
    else if !enabled then NOT_RUN
    else if AllMeet(specs, results, limit) then PASS
    else FAIL
  }

  /** The faults there are, each with exactly the identifiers that have it. */
  ghost predicate Due(e: ContractError, enabled: bool, specs: seq<string>, results: seq<string>, errors: seq<string>,
                      evaluated: nat) {
    match e
    case Reported(message) => message in errors
    case DuplicateCases(ids) => ids == Duplicates(specs) && ids != {}
    case DuplicateResults(ids) => ids == Duplicates(results) && ids != {}
    case UnexpectedResults(ids) => ids == Ids(results) - Ids(specs) && ids != {}
    case MissingResults(ids) => errors == [] && Ids(results) != Ids(specs) && ids == Ids(specs) - Ids(results)
    case MissingRequired(ids) => enabled && ids == REQUIRED - Ids(specs) && ids != {}
    case NothingToEvaluate => enabled && Evaluable(specs) == []
    case CountMismatch(n, m) => enabled && n == evaluated && m == |Evaluable(specs)| && n != m
  }

  lemma {:induction false} EvaluableIs(specs: seq<string>)
    ensures forall id :: id in Evaluable(specs) <==> id in specs && id != BYPASS
  {
    if specs != [] {
      EvaluableIs(specs[..|specs| - 1]);
      assert specs == specs[..|specs| - 1] + [specs[|specs| - 1]];
    }
  }

  lemma {:induction false} ResultForIs(results: seq<Measurement>, id: string)
    ensures ResultFor(results, id).Some? <==> id in ResultIds(results)
    ensures ResultFor(results, id).Some? ==>
              ResultFor(results, id).value in results && ResultFor(results, id).value.id == id
  {
    if results != [] {
      var n := |results| - 1;
      hide ResultIds;
      ResultForIs(results[..n], id);
      LastResultId(results, id);
      assert results[..n] <= results;
    }
  }

  lemma LastResultId(results: seq<Measurement>, id: string)
    requires results != []
    ensures var n := |results| - 1;
            id in ResultIds(results) <==> id in ResultIds(results[..n]) || results[n].id == id
  {
    hide *;
    var n, ids := |results| - 1, ResultIds(results);
    FrontIds(results);
    LastMember(ids, id);
    assert ids[n] == results[n].id;
  }

  lemma FrontIds(results: seq<Measurement>)
    requires results != []
    ensures ResultIds(results)[..|results| - 1] == ResultIds(results[..|results| - 1])
  {
    hide *;
    var n := |results| - 1;
    var front, ids := ResultIds(results[..n]), ResultIds(results);
    forall k | 0 <= k < n ensures ids[k] == front[k] {
      assert front[k] == results[..n][k].id && ids[k] == results[k].id;
    }
  }

  lemma EvaluableSnoc(specs: seq<string>, i: nat)
    requires i < |specs|
    ensures Evaluable(specs[..i + 1]) == Evaluable(specs[..i]) + if specs[i] == BYPASS then [] else [specs[i]]
  {
    assert specs[..i + 1][..i] == specs[..i];
  }

  lemma JudgedSnoc(specs: seq<string>, i: nat, cases: seq<CaseReport>, violations: seq<Violation>,
                   results: seq<Measurement>, limit: real,
                   r: CaseReport, more: seq<Violation>)
    requires i < |specs| && specs[i] != BYPASS && Judged(specs[..i], cases, violations, results, limit)
    requires Describes(r, specs[i], results, limit)
    requires (more != [] <==> r.status == Failed) && forall v :: v in more ==> v.id == r.id
    ensures Judged(specs[..i + 1], cases + [r], violations + more, results, limit)
  {
    hide Describes;
    EvaluableSnoc(specs, i);
    var cs, vs := cases + [r], violations + more;
    forall k | 0 <= k < |cs| ensures Describes(cs[k], Evaluable(specs[..i + 1])[k], results, limit) {
      if k < |cases| { assert cs[k] == cases[k]; }
    }
    assert r.id == specs[i] by { DescribesId(r, specs[i], results, limit); }
    assert Flagged(vs) == Flagged(violations) + Flagged(more);
    assert FailedIds(cs) == FailedIds(cases) + FailedIds([r]);
    assert Flagged(more) == FailedIds([r]) by {
      if more != [] { assert more[0].id in Flagged(more); }
      assert r in [r];
    }
  }

  function When(faulty: bool, e: ContractError): seq<ContractError> {
    if faulty then [e] else []
  }

  function AsErrors(messages: seq<string>): seq<ContractError> {
    if messages == [] then [] else [Reported(messages[0])] + AsErrors(messages[1..])
  }

  /** The checks made before any case is judged. */
  function ContractErrors(enabled: bool, specs: seq<string>, results: seq<string>, measured: bool): seq<ContractError> {
    When(Duplicates(specs) != {}, DuplicateCases(Duplicates(specs)))
    + When(Duplicates(results) != {}, DuplicateResults(Duplicates(results)))
    + When(Ids(results) - Ids(specs) != {}, UnexpectedResults(Ids(results) - Ids(specs)))
    + When(measured && Ids(results) != Ids(specs), MissingResults(Ids(specs) - Ids(results)))
    + When(enabled && REQUIRED - Ids(specs) != {}, MissingRequired(REQUIRED - Ids(specs)))
  }

  /** The checks made after. */
  function CountErrors(enabled: bool, expected: nat, evaluated: nat): seq<ContractError> {
    When(enabled && expected <= 0, NothingToEvaluate)
      + When(enabled && evaluated != expected, CountMismatch(evaluated, expected))
  }

  lemma {:induction false} AsErrorsAre(messages: seq<string>)
    ensures forall e :: e in AsErrors(messages) <==> e.Reported? && e.message in messages
    ensures AsErrors(messages) == [] <==> messages == []
  {
    if messages != [] {
      AsErrorsAre(messages[1..]);
      assert messages == [messages[0]] + messages[1..];
    }
  }

  lemma ContractErrorsAre(enabled: bool, specs: seq<string>, results: seq<string>, errors: seq<string>, evaluated: nat,
                          e: ContractError)
    ensures e in ContractErrors(enabled, specs, results, errors == []) <==>
            !e.Reported? && !e.NothingToEvaluate? && !e.CountMismatch?
              && Due(e, enabled, specs, results, errors, evaluated)
  {
    hide Duplicates;
    hide Ids;
  }

  lemma CountErrorsAre(enabled: bool, specs: seq<string>, results: seq<string>, errors: seq<string>, evaluated: nat,
                       e: ContractError)
    ensures e in CountErrors(enabled, |Evaluable(specs)|, evaluated) <==>
            (e.NothingToEvaluate? || e.CountMismatch?) && Due(e, enabled, specs, results, errors, evaluated)
  {
    hide Evaluable;
  }

  lemma ErrorsAccount(enabled: bool, specs: seq<string>, results: seq<string>, errors: seq<string>, evaluated: nat)
    ensures var es := AsErrors(errors) + ContractErrors(enabled, specs, results, errors == [])
            + CountErrors(enabled, |Evaluable(specs)|, evaluated);
            forall e :: e in es <==> Due(e, enabled, specs, results, errors, evaluated)
  {
    AsErrorsAre(errors);
    var a, b := AsErrors(errors), ContractErrors(enabled, specs, results, errors == []);
    var c := CountErrors(enabled, |Evaluable(specs)|, evaluated);
    hide AsErrors;
    hide ContractErrors;
    hide CountErrors;
    hide Evaluable;
    forall e ensures e in a + b + c <==> Due(e, enabled, specs, results, errors, evaluated) {
      ContractErrorsAre(enabled, specs, results, errors, evaluated, e);
      CountErrorsAre(enabled, specs, results, errors, evaluated, e);
    }
  }

  lemma EmptyDifference(a: set<string>, b: set<string>)
    ensures a - b == {} <==> a <= b
  {
    forall x | a - b == {} && x in a ensures x in b {
      assert x !in a - b;
    }
  }

  lemma NoContractErrors(enabled: bool, specs: seq<string>, results: seq<string>, measured: bool)
    ensures ContractErrors(enabled, specs, results, measured) == [] <==>
            && Duplicates(specs) == {} && Duplicates(results) == {} && Ids(results) <= Ids(specs)
            && (measured ==> Ids(results) == Ids(specs)) && (enabled ==> REQUIRED <= Ids(specs))
  {
    EmptyDifference(Ids(results), Ids(specs));
    EmptyDifference(REQUIRED, Ids(specs));
    hide Duplicates;
    hide Ids;
  }

  /** The error list is empty exactly if nothing was wrong, and then violations decide. */
  lemma SoundMeansNoError(enabled: bool, specs: seq<string>, results: seq<Measurement>, errors: seq<string>,
                          cases: seq<CaseReport>, violations: seq<Violation>, limit: real)
    requires enabled ==> Judged(specs, cases, violations, results, limit)
    ensures var es := AsErrors(errors) + ContractErrors(enabled, specs, ResultIds(results), errors == [])
                        + CountErrors(enabled, |Evaluable(specs)|, CountEvaluated(cases));
            && (es == [] <==> Sound(enabled, specs, results, errors))
            && (es == [] && enabled ==> (violations == [] <==> AllMeet(specs, results, limit)))
  {
    AsErrorsAre(errors);
    NoContractErrors(enabled, specs, ResultIds(results), errors == []);
    var a, b := AsErrors(errors), ContractErrors(enabled, specs, ResultIds(results), errors == []);
    assert Sound(enabled, specs, results, errors) <==> a == [] && b == [];
    if enabled && a == [] && b == [] {
      ContractHolds(specs, results, cases, violations, limit);
    }
    var c := CountErrors(enabled, |Evaluable(specs)|, CountEvaluated(cases));
    assert a == [] && b == [] ==> c == [];
    hide *;
    assert a + b + c == [] <==> a == [] && b == [] && c == [];
  }

  lemma DescribesId(r: CaseReport, id: string, results: seq<Measurement>, limit: real)
    requires Describes(r, id, results, limit)
    ensures r.id == id
  {}

  /** One iteration of the loop over the cases. */
  method JudgeCase(m: Measurement, limit: real) returns (r: CaseReport, violations: seq<Violation>)
    ensures r.id == m.id && r.over == |Over(m.samples, limit)| && Tolerance.IsAllowance(|m.samples|, r.allowed)
    ensures r.status == if Meets(m, limit) then Passed else Failed
    ensures (violations != [] <==> r.status == Failed) && forall v :: v in violations ==> v.id == m.id
  {
    var consumed := Consumed(m.p95);
    var over := CountOver(m.samples, limit);
    var allowed := Tolerance.MaxAllowedTailExceedances(|m.samples|);
    Tolerance.AllowanceIsUnique(|m.samples|, allowed, over);
    MeetsIs(m, limit);
    CountIsExact(m.samples, limit);
    hide Meets;
    r := CaseReport(m.id, if consumed <= limit && over <= allowed then Passed else Failed, over, allowed);
    violations := [];
    if consumed > limit {
      violations := violations + [SlowTail(m.id)];
    }
    if over > allowed {
      violations := violations + [TooManyOver(m.id)];
    }
  }

  /** `build_latency_gate`. */
  method BuildLatencyGate(enabled: bool, shippedBudgetMs: int, marginPct: int, specs: seq<string>,
                          results: seq<Measurement>,
                          errors: seq<string>)
    returns (gate: LatencyGate)
    ensures gate.verdict == VerdictOf(enabled, specs, results, errors, Limit(shippedBudgetMs, marginPct))
    ensures enabled ==> Judged(specs, gate.cases, gate.violations, results, Limit(shippedBudgetMs, marginPct))
    ensures !enabled ==> gate.cases == [] && gate.violations == []
    ensures gate.verdict == ERROR <==> gate.errors != []
    ensures forall e :: e in gate.errors <==>
              Due(e, enabled, specs, ResultIds(results), errors, CountEvaluated(gate.cases))
  {
    var limit := Limit(shippedBudgetMs, marginPct);
    var contract := ContractErrors(enabled, specs, ResultIds(results), errors == []);
    var cases: seq<CaseReport> := [];
    var violations: seq<Violation> := [];
    if enabled {
      cases, violations := JudgeCases(specs, results, limit);
    }
    var late := CountErrors(enabled, |Evaluable(specs)|, CountEvaluated(cases));
    var allErrors := AsErrors(errors) + contract + late;
    ErrorsAccount(enabled, specs, ResultIds(results), errors, CountEvaluated(cases));
    SoundMeansNoError(enabled, specs, results, errors, cases, violations, limit);
    hide Sound;
    hide AllMeet;
    hide Judged;
    hide Due;
    hide AsErrors;
    hide ContractErrors;
    hide CountErrors;
    var verdict :=
      if allErrors != [] then ERROR
      else if !enabled then NOT_RUN
      else if violations != [] then FAIL
      else PASS;
    gate := LatencyGate(cases, violations, allErrors, verdict);
  }

  method JudgeCases(specs: seq<string>, results: seq<Measurement>, limit: real)
    returns (cases: seq<CaseReport>, violations: seq<Violation>)
    ensures Judged(specs, cases, violations, results, limit)
  {
    cases, violations := [], [];
    var i := 0;
    while i < |specs|
      invariant 0 <= i <= |specs|
      invariant Judged(specs[..i], cases, violations, results, limit)
    {
      var id := specs[i];
      if id != BYPASS {
        var found := ResultFor(results, id);
        var r, more := CaseReport(id, Unavailable, 0, 0), [];
        if found.Some? {
          ResultForIs(results, id);
          r, more := JudgeCase(found.value, limit);
        }
        JudgedSnoc(specs, i, cases, violations, results, limit, r, more);
        cases := cases + [r];
        violations := violations + more;
      } else {
        EvaluableSnoc(specs, i);
      }
      i := i + 1;
    }
    assert specs[..i] == specs;
  }

  lemma EachIsJudged(specs: seq<string>, results: seq<Measurement>, cases: seq<CaseReport>, violations: seq<Violation>,
                     limit: real, k: nat)
    requires Ids(specs) == Ids(ResultIds(results)) && Judged(specs, cases, violations, results, limit) && k < |cases|
    ensures cases[k].status == if CaseMeets(Evaluable(specs)[k], results, limit) then Passed else Failed
  {
    hide Meets;
    EvaluableIs(specs);
    var id := Evaluable(specs)[k];
    assert id in Ids(specs);
    ResultForIs(results, id);
    assert Describes(cases[k], id, results, limit);
  }

  lemma NoFailureNoViolation(cases: seq<CaseReport>, violations: seq<Violation>)
    requires Flagged(violations) == FailedIds(cases)
    ensures violations == [] <==> forall k :: 0 <= k < |cases| ==> cases[k].status != Failed
  {
    if k :| 0 <= k < |cases| && cases[k].status == Failed {
      assert cases[k].id in FailedIds(cases);
    }
    if violations != [] {
      assert violations[0].id in Flagged(violations);
    }
  }

  /** With a sound contract every case was evaluated, there was one, and there are violations
      exactly if one of them fails. */
  lemma ContractHolds(specs: seq<string>, results: seq<Measurement>, cases: seq<CaseReport>, violations: seq<Violation>,
                      limit: real)
    requires Consistent(specs, results) && REQUIRED <= Ids(specs) && Judged(specs, cases, violations, results, limit)
    ensures CountEvaluated(cases) == |Evaluable(specs)| > 0
    ensures violations == [] <==> AllMeet(specs, results, limit)
  {
    EvaluableIs(specs);
    RequiredAreCases(specs, "quick_reject");
    assert "quick_reject" in Evaluable(specs);
    NoFailureNoViolation(cases, violations);
    var ids := Evaluable(specs);
    assert |cases| == |ids|;
    forall k | 0 <= k < |cases|
      ensures cases[k].status == if CaseMeets(ids[k], results, limit) then Passed else Failed
    {
      EachIsJudged(specs, results, cases, violations, limit, k);
    }
    AllAreListed(specs, ids, results, cases, limit);
  }

  lemma AllAreListed(specs: seq<string>, ids: seq<string>, results: seq<Measurement>, cases: seq<CaseReport>,
                     limit: real)
    requires forall id :: id in ids <==> id in specs && id != BYPASS
    requires |cases| == |ids|
    requires forall k :: 0 <= k < |cases| ==>
               cases[k].status == if CaseMeets(ids[k], results, limit) then Passed else Failed
    ensures (forall k :: 0 <= k < |cases| ==> cases[k].status != Failed) <==> AllMeet(specs, results, limit)
  {
    hide CaseMeets;
    forall k | 0 <= k < |cases| ensures ids[k] in specs && ids[k] != BYPASS {
      assert ids[k] in ids;
    }
    if forall k :: 0 <= k < |cases| ==> cases[k].status != Failed {
      forall id | id in specs && id != BYPASS ensures CaseMeets(id, results, limit) {
        assert id in ids;
        var k :| 0 <= k < |ids| && ids[k] == id;
        assert cases[k].status != Failed;
      }
    }
  }

  // ---------------------------------------------------- what a pass means

  lemma RequiredAreCases(specs: seq<string>, id: string)
    ensures id in REQUIRED && REQUIRED <= Ids(specs) ==> id in specs && id != BYPASS
  {
    if id in REQUIRED && REQUIRED <= Ids(specs) {
      assert id in Ids(specs);
    }
  }

  lemma MeetsIsEvidence(m: Measurement, limit: real, p: real)
    requires Meets(m, limit) && 1.0 / 20.0 <= p <= 1.0
    ensures 0.0 <= limit && m.p95 <= limit
    ensures |m.samples| >= 59
    ensures Tolerance.AtMost(|m.samples|, |Over(m.samples, limit)|, p) <= 1.0 / 20.0
  {
    MeetsIs(m, limit);
    CountIsExact(m.samples, limit);
    var n, over := |m.samples|, CountOver(m.samples, limit);
    Tolerance.AllowedUpTo(n, 0, over, Tolerance.EXCEEDANCE);
    Tolerance.NoneExceeds(n, Tolerance.EXCEEDANCE);
    Tolerance.GuardIsExact(n);
    Tolerance.LikelierExceedance(n, over, Tolerance.EXCEEDANCE, p);
  }

  /** The cases that a pass has to be about. */
  const ABSOLUTE_CASES: set<string> := {
    "safe_keyword", "quick_reject", "destructive_keyword", "full_eval_copy", "full_eval_redirect", "heredoc_inline",
    "multi_construct_245", "posix_test_probe", "xargs_fixed_template" }

  /** A pass is about every required case. */
  lemma PassCoversRequired(enabled: bool, specs: seq<string>, results: seq<Measurement>, errors: seq<string>,
                           limit: real)
    requires VerdictOf(enabled, specs, results, errors, limit) == PASS
    ensures enabled && errors == [] && Consistent(specs, results)
    ensures forall id :: id in ABSOLUTE_CASES ==> id in specs && id != "bypass"
  {
    forall id | id in REQUIRED ensures id in specs && id != BYPASS { RequiredAreCases(specs, id); }
    assert "quick_reject" in REQUIRED;
  }

  lemma OnlyResult(results: seq<Measurement>, j: nat, k: nat)
    requires Duplicates(ResultIds(results)) == {} && j < |results| && k < |results| && results[j].id == results[k].id
    ensures j == k
  {
    hide *;
    var ids := ResultIds(results);
    DuplicatesAre(ids, results[j].id);
    assert ids[j] == results[j].id && ids[k] == results[k].id;
  }

  /** A pass says of every case that it was measured, once, on at least 59 samples, within the
      limit; and if its true chance of leaving the limit were one in twenty or more, so good a
      sample would have had a chance of at most one in twenty. */
  lemma PassIsEvidence(enabled: bool, specs: seq<string>, results: seq<Measurement>, errors: seq<string>, limit: real,
                                          id: string, p: real)
    requires VerdictOf(enabled, specs, results, errors, limit) == PASS
    requires id in specs && id != "bypass"
    requires 1.0 / 20.0 <= p <= 1.0
    ensures exists k ::
              && 0 <= k < |results| && results[k].id == id
              && |results[k].samples| >= 59
              && results[k].p95 <= limit
              && Tolerance.AtMost(|results[k].samples|, |Over(results[k].samples, limit)|, p) <= 1.0 / 20.0
              && forall j :: 0 <= j < |results| && results[j].id == id ==> j == k
  {
    assert CaseMeets(id, results, limit) && Duplicates(ResultIds(results)) == {};
    hide VerdictOf;
    hide Meets;
    hide Duplicates;
    ResultForIs(results, id);
    var k :| 0 <= k < |results| && results[k] == ResultFor(results, id).value;
    hide ResultFor;
    MeetsIsEvidence(results[k], limit, p);
    forall j | 0 <= j < |results| && results[j].id == id ensures j == k { OnlyResult(results, j, k); }
  }

  lemma {:induction false} FewerOver(fast: seq<real>, slow: seq<real>, high: real, low: real)
    requires |fast| == |slow| && low <= high && forall k :: 0 <= k < |fast| ==> fast[k] <= slow[k]
    ensures CountOver(fast, high) <= CountOver(slow, low)
  {
    if fast != [] {
      FewerOver(fast[1..], slow[1..], high, low);
    }
  }

  /** Faster samples, a lower p95 or a larger budget never cost a case its pass. */
  lemma FasterStillMeets(fast: Measurement, slow: Measurement, high: real, low: real)
    requires |fast.samples| == |slow.samples| && low <= high && fast.p95 <= slow.p95
    requires forall k :: 0 <= k < |fast.samples| ==> fast.samples[k] <= slow.samples[k]
    requires Meets(slow, low)
    ensures Meets(fast, high)
  {
    FewerOver(fast.samples, slow.samples, high, low);
    MeetsIs(fast, high);
    MeetsIs(slow, low);
    Tolerance.AllowedUpTo(|fast.samples|, CountOver(fast.samples, high), CountOver(slow.samples, low),
        Tolerance.EXCEEDANCE);
  }
}
