/** Checking cross-project compatibility assertions and counting their outcomes. */
module CompatReport {
  import opened Model
  import opened ResolverSpec

  datatype Condition = Condition(optionId: string, equals: Value)

  datatype Action = RequiresAction | ForbidsAction

  datatype Assertion = Assertion(when: Condition, action: Action, condition: Condition, message: string, source: string)

  datatype CompatProject = CompatProject(name: Option<string>, config: Option<seq<ResolvedValue>>)

  datatype Outcome = Skipped | Pass | Fail

  /** What evaluating one condition leaves behind. */
  datatype Evaluation = Unknown | Known(actual: Value, project: string, matches: bool)

  datatype Result = Result(index: nat, outcome: Outcome, assertion: Assertion, when: Evaluation, condition: Evaluation,
                           message: string)

  const UNKNOWN_OPTION := "unknown compatibility option"

  /** Texts of all three kinds compare by content; floating-point values never compare equal. */
  predicate ValuesEqual(v: Value, w: Value) {
    if IsText(v) && IsText(w) then v.text == w.text
    else
      match (v, w)
      case (Bool(b), Bool(c)) => b == c
      case (Int(i), Int(j)) => i == j
      case (UInt(i), UInt(j)) => i == j
      case (Empty, Empty) => true
      case _ => false
  }

  ghost predicate HasEntry(config: Option<seq<ResolvedValue>>, id: string, k: nat) {
    && config.Some? && k < |config.value| && config.value[k].Resolved? && config.value[k].id == id
    && forall m :: 0 <= m < k ==> !(config.value[m].Resolved? && config.value[m].id == id)
  }

  ghost predicate HasOption(config: Option<seq<ResolvedValue>>, id: string) {
    config.Some? && exists k :: 0 <= k < |config.value| && config.value[k].Resolved? && config.value[k].id == id
  }

  /** Entry k of project i is the first entry for the option in the first configuration that has one. */
  ghost predicate IsFirstEntry(projects: seq<CompatProject>, id: string, i: nat, k: nat) {
    && i < |projects| && HasEntry(projects[i].config, id, k)
    && forall m :: 0 <= m < i ==> !HasOption(projects[m].config, id)
  }

  ghost predicate IsEvaluation(projects: seq<CompatProject>, c: Condition, e: Evaluation) {
    match e
    case Unknown => forall i :: 0 <= i < |projects| ==> !HasOption(projects[i].config, c.optionId)
    case Known(actual, project, matches) =>
      && matches == ValuesEqual(actual, c.equals)
      && exists i: nat, k: nat :: IsFirstEntry(projects, c.optionId, i, k)
           && actual == projects[i].config.value[k].value
           && project == (if projects[i].name.Some? then projects[i].name.value else "")
  }

  method FindInConfig(config: seq<ResolvedValue>, id: string) returns (index: Option<nat>)
    ensures index.None? ==> !HasOption(Some(config), id)
    ensures index.Some? ==> HasEntry(Some(config), id, index.value)
  {
    for k := 0 to |config|
      invariant forall m :: 0 <= m < k ==> !(config[m].Resolved? && config[m].id == id)
    {
      if config[k].Resolved? && config[k].id == id {
        return Some(k);
      }
    }
    return None;
  }

  method EvaluateCondition(projects: seq<CompatProject>, c: Condition) returns (e: Evaluation)
    ensures IsEvaluation(projects, c, e)
  {
    for i := 0 to |projects|
      invariant forall m :: 0 <= m < i ==> !HasOption(projects[m].config, c.optionId)
    {
      if projects[i].config.None? {
        continue;
      }
      var config := projects[i].config.value;
      var found := FindInConfig(config, c.optionId);
      if found.Some? {
        var actual := config[found.value].value;
        assert IsFirstEntry(projects, c.optionId, i, found.value);
        return Known(actual, if projects[i].name.Some? then projects[i].name.value else "", ValuesEqual(actual, c.equals));
      }
    }
    return Unknown;
  }

  /** An evaluation is determined by the projects and the condition. */
  lemma EvaluationUnique(projects: seq<CompatProject>, c: Condition, d: Evaluation, e: Evaluation)
    requires IsEvaluation(projects, c, d) && IsEvaluation(projects, c, e)
    ensures d == e
  {
    if d.Known? {
      var i: nat, k: nat :| IsFirstEntry(projects, c.optionId, i, k) && d.actual == projects[i].config.value[k].value
                       && d.project == (if projects[i].name.Some? then projects[i].name.value else "");
      assert HasOption(projects[i].config, c.optionId);
      if e.Known? {
        var j: nat, m: nat :| IsFirstEntry(projects, c.optionId, j, m) && e.actual == projects[j].config.value[m].value
                         && e.project == (if projects[j].name.Some? then projects[j].name.value else "");
        assert HasOption(projects[j].config, c.optionId);
      }
    }
  }

  /** The outcome that the two evaluations of an assertion lead to. */
  function Judge(a: Assertion, when: Evaluation, condition: Evaluation): Outcome {
    if when.Unknown? then Fail
    else if !when.matches then Skipped
    else if condition.Unknown? then Fail
    else if condition.matches == (a.action == RequiresAction) then Pass
    else Fail
  }

  /** Result `i` belongs to assertion `i` and records its evaluations, outcome and message. */
  ghost predicate IsResult(projects: seq<CompatProject>, a: Assertion, i: nat, r: Result) {
    && r.index == i && r.assertion == a
    && IsEvaluation(projects, a.when, r.when)
    && (r.when.Known? && r.when.matches ==> IsEvaluation(projects, a.condition, r.condition))
    && (!(r.when.Known? && r.when.matches) ==> r.condition == Unknown)
    && r.outcome == Judge(a, r.when, r.condition)
    && r.message == (if MissesOption(r) then UNKNOWN_OPTION else a.message)
  }

  predicate MissesOption(r: Result) {
    r.when.Unknown? || (r.when.matches && r.condition.Unknown?)
  }

  /** The first failure is reported with the option or the source it is about. */
  function FailureDiagnostic(r: Result): Diagnostic {
    if r.when.Unknown? then Diagnostic(CompatibilityError, Some(r.assertion.when.optionId), UNKNOWN_OPTION)
    else if r.condition.Unknown? then Diagnostic(CompatibilityError, Some(r.assertion.condition.optionId), UNKNOWN_OPTION)
    else Diagnostic(CompatibilityError, Some(r.assertion.source), r.assertion.message)
  }

  function Count(results: seq<Result>, o: Outcome): nat {
    if results == [] then 0
    else Count(results[..|results| - 1], o) + if results[|results| - 1].outcome == o then 1 else 0
  }

  lemma {:induction false} CountsAddUp(results: seq<Result>)
    ensures Count(results, Pass) + Count(results, Fail) + Count(results, Skipped) == |results|
  {
    if results != [] {
      CountsAddUp(results[..|results| - 1]);
    }
  }

  lemma CountNext(results: seq<Result>, i: nat, o: Outcome)
    requires i < |results|
    ensures Count(results[..i + 1], o) == Count(results[..i], o) + if results[i].outcome == o then 1 else 0
  {
    assert results[..i + 1][..i] == results[..i];
  }

  lemma {:induction false} CountsFailures(results: seq<Result>)
    ensures Count(results, Fail) > 0 <==> exists i :: 0 <= i < |results| && results[i].outcome == Fail
  {
    if results != [] {
      var n := |results| - 1;
      CountsFailures(results[..n]);
      assert forall i :: 0 <= i < n ==> results[..n][i] == results[i];
    }
  }

  class Report {
    const results: array<Result>
    var passCount: nat
    var failCount: nat
    var skippedCount: nat

    constructor (suite: seq<Assertion>)
      ensures fresh(results) && results.Length == |suite|
      ensures passCount == failCount == skippedCount == 0
    {
      results := new Result[|suite|](i requires 0 <= i < |suite| =>
        Result(i, Skipped, suite[i], Unknown, Unknown, suite[i].message));
      passCount, failCount, skippedCount := 0, 0, 0;
    }

    /** Each counter is the number of results with its outcome. */
    ghost predicate Tallied(n: nat)
      reads this, results
    {
      && n <= results.Length
      && passCount == Count(results[..n], Pass)
      && failCount == Count(results[..n], Fail)
      && skippedCount == Count(results[..n], Skipped)
    }

    /** Stores a result and advances the counter of its outcome. */
    method Record(i: nat, r: Result)
      requires i < results.Length && Tallied(i)
      modifies this, results
      ensures Tallied(i + 1) && results[..] == old(results[..])[i := r]
    {
      hide Count;
      results[i] := r;
      assert results[..i] == old(results[..i]);
      CountNext(results[..], i, Pass);
      CountNext(results[..], i, Fail);
      CountNext(results[..], i, Skipped);
      assert results[..][..i + 1] == results[..i + 1] && results[..][..i] == results[..i];
      match r.outcome {
        case Pass => passCount := passCount + 1;
        case Fail => failCount := failCount + 1;
        case Skipped => skippedCount := skippedCount + 1;
      }
    }
  }

  method CheckAssertion(projects: seq<CompatProject>, a: Assertion, i: nat) returns (r: Result)
    ensures IsResult(projects, a, i, r)
  {
    hide IsEvaluation;
    var when := EvaluateCondition(projects, a.when);
    if when.Unknown? {
      return Result(i, Fail, a, when, Unknown, UNKNOWN_OPTION);
    }
    if !when.matches {
      return Result(i, Skipped, a, when, Unknown, a.message);
    }
    var condition := EvaluateCondition(projects, a.condition);
    if condition.Unknown? {
      return Result(i, Fail, a, when, condition, UNKNOWN_OPTION);
    }
    if (a.action == RequiresAction && !condition.matches) || (a.action == ForbidsAction && condition.matches) {
      return Result(i, Fail, a, when, condition, a.message);
    }
    return Result(i, Pass, a, when, condition, a.message);
  }

  /**
   Checks all assertions. The counters add up to the number of assertions, the status is an error
   exactly when some assertion fails, and the diagnostic belongs to the first that does.
   */
  method CheckReport(suite: seq<Assertion>, projects: seq<CompatProject>)
    returns (status: Status, report: Report, diagnostic: Option<Diagnostic>)
    ensures fresh(report) && fresh(report.results) && report.results.Length == |suite|
    ensures forall i :: 0 <= i < |suite| ==> IsResult(projects, suite[i], i, report.results[i])
    ensures report.Tallied(|suite|)
    ensures report.passCount + report.failCount + report.skippedCount == |suite|
    ensures status == if report.failCount > 0 then CompatibilityError else Ok
    ensures status != Ok ==>
      exists i :: 0 <= i < |suite| && report.results[i].outcome == Fail
                  && diagnostic == Some(FailureDiagnostic(report.results[i]))
                  && forall m :: 0 <= m < i ==> report.results[m].outcome != Fail
    ensures status == Ok ==> diagnostic == None && forall i :: 0 <= i < |suite| ==> report.results[i].outcome != Fail
  {
    hide IsResult, Count, FailureDiagnostic;
    report := new Report(suite);
    diagnostic := None;
    status := Ok;
    NothingCounted();
    assert report.results[..0] == [];
    for index := 0 to |suite|
      invariant fresh(report) && fresh(report.results) && report.results.Length == |suite|
      invariant forall i :: 0 <= i < index ==> IsResult(projects, suite[i], i, report.results[i])
      invariant report.Tallied(index)
      invariant status == Ok ==> diagnostic == None && forall i :: 0 <= i < index ==> report.results[i].outcome != Fail
      invariant status == Ok || status == CompatibilityError
      invariant status != Ok ==>
        exists i :: 0 <= i < index && report.results[i].outcome == Fail
                    && diagnostic == Some(FailureDiagnostic(report.results[i]))
                    && forall m :: 0 <= m < i ==> report.results[m].outcome != Fail
    {
      var r := CheckAssertion(projects, suite[index], index);
      ghost var before := report.results[..];
      report.Record(index, r);
      assert report.results[..] == before[index := r];
      assert forall i :: 0 <= i < |suite| ==> report.results[i] == before[index := r][i];
      if r.outcome == Fail {
        if status == Ok {
          diagnostic := Some(FailureDiagnostic(r));
        }
        status := CompatibilityError;
      }
    }
    assert report.results[..|suite|] == report.results[..];
    CountsAddUp(report.results[..]);
    CountsFailures(report.results[..]);
  }

  lemma NothingCounted()
    ensures forall o :: Count([], o) == 0
  {
  }

  /** What an assertion demands, without evaluations: the options are known and the action is satisfied. */
  ghost predicate Respected(projects: seq<CompatProject>, a: Assertion) {
    exists when, condition ::
      && IsEvaluation(projects, a.when, when) && IsEvaluation(projects, a.condition, condition)
      && when.Known?
      && (when.matches ==> condition.Known? && (a.action == RequiresAction <==> condition.matches))
  }

  lemma EvaluationExists(projects: seq<CompatProject>, c: Condition) returns (e: Evaluation)
    ensures IsEvaluation(projects, c, e)
  {
    if forall i :: 0 <= i < |projects| ==> !HasOption(projects[i].config, c.optionId) {
      e := Unknown;
    } else {
      var i := FirstProject(projects, c.optionId);
      var k := FirstEntry(projects[i].config, c.optionId);
      var actual := projects[i].config.value[k].value;
      assert IsFirstEntry(projects, c.optionId, i, k);
      e := Known(actual, if projects[i].name.Some? then projects[i].name.value else "", ValuesEqual(actual, c.equals));
    }
  }

  lemma FirstProject(projects: seq<CompatProject>, id: string) returns (i: nat)
    requires exists m :: 0 <= m < |projects| && HasOption(projects[m].config, id)
    ensures i < |projects| && HasOption(projects[i].config, id)
    ensures forall m :: 0 <= m < i ==> !HasOption(projects[m].config, id)
  {
    i := 0;
    while !HasOption(projects[i].config, id)
      invariant i < |projects| && forall m :: 0 <= m < i ==> !HasOption(projects[m].config, id)
      decreases |projects| - i
    {
      i := i + 1;
    }
  }

  lemma FirstEntry(config: Option<seq<ResolvedValue>>, id: string) returns (k: nat)
    requires HasOption(config, id)
    ensures HasEntry(config, id, k)
  {
    k := 0;
    while !(config.value[k].Resolved? && config.value[k].id == id)
      invariant k < |config.value| && forall m :: 0 <= m < k ==> !(config.value[m].Resolved? && config.value[m].id == id)
      decreases |config.value| - k
    {
      k := k + 1;
    }
  }

  /** A result fails exactly when its assertion is not respected. */
  lemma FailsIffNotRespected(projects: seq<CompatProject>, a: Assertion, i: nat, r: Result)
    requires IsResult(projects, a, i, r)
    ensures r.outcome == Fail <==> !Respected(projects, a)
  {
    hide IsEvaluation;
    var condition := EvaluationExists(projects, a.condition);
    if r.when.Known? && r.when.matches {
      EvaluationUnique(projects, a.condition, condition, r.condition);
    }
    forall w, c | IsEvaluation(projects, a.when, w) && IsEvaluation(projects, a.condition, c)
      ensures w == r.when && c == condition
    {
      EvaluationUnique(projects, a.when, w, r.when);
      EvaluationUnique(projects, a.condition, c, condition);
    }
  }

  // Outcomes in terms of the values compared.

  /** Values compare by kind and content; the three kinds of text compare by their text, and no float is ever equal. */
  lemma EqualValues(v: Value, w: Value)
    ensures ValuesEqual(v, w) <==>
      || (v == w && !v.Float?)
      || ((v.Str? || v.Enum? || v.Path?) && (w.Str? || w.Enum? || w.Path?) && v.text == w.text)
  {
  }

  /** The value the first configuration with the option gives it. */
  ghost predicate IsActual(projects: seq<CompatProject>, id: string, v: Value) {
    exists i: nat, k: nat :: IsFirstEntry(projects, id, i, k) && projects[i].config.value[k].value == v
  }

  lemma EvaluationByActual(projects: seq<CompatProject>, c: Condition, e: Evaluation)
    requires IsEvaluation(projects, c, e)
    ensures e.Known? <==> exists v :: IsActual(projects, c.optionId, v)
    ensures e.Known? ==> IsActual(projects, c.optionId, e.actual) && (e.matches <==> ValuesEqual(e.actual, c.equals))
  {
    if e.Known? {
      var i: nat, k: nat :| IsFirstEntry(projects, c.optionId, i, k) && e.actual == projects[i].config.value[k].value;
      assert IsActual(projects, c.optionId, e.actual);
    } else {
      forall v | IsActual(projects, c.optionId, v)
        ensures false
      {
        ActualIsListed(projects, c.optionId, v);
      }
    }
  }

  lemma ActualIsListed(projects: seq<CompatProject>, id: string, v: Value)
    requires IsActual(projects, id, v)
    ensures exists i :: 0 <= i < |projects| && HasOption(projects[i].config, id)
  {
    var i: nat, k: nat :| IsFirstEntry(projects, id, i, k) && projects[i].config.value[k].value == v;
    assert HasOption(projects[i].config, id);
  }

  lemma ActualUnique(projects: seq<CompatProject>, id: string, v: Value, w: Value)
    requires IsActual(projects, id, v) && IsActual(projects, id, w)
    ensures v == w
  {
    var i: nat, k: nat :| IsFirstEntry(projects, id, i, k) && projects[i].config.value[k].value == v;
    var j: nat, m: nat :| IsFirstEntry(projects, id, j, m) && projects[j].config.value[m].value == w;
    assert HasOption(projects[i].config, id) && HasOption(projects[j].config, id);
  }

  /**
   Skipped: the option asked about first is known and has another value. Passed: it has that value,
   and the second one is known and has its value if required, or another one if that is forbidden.
   */
  lemma OutcomeByValues(projects: seq<CompatProject>, a: Assertion, i: nat, r: Result)
    requires IsResult(projects, a, i, r)
    ensures r.outcome == Skipped <==>
      exists v :: IsActual(projects, a.when.optionId, v) && !ValuesEqual(v, a.when.equals)
    ensures r.outcome == Pass <==>
      exists v, w :: && IsActual(projects, a.when.optionId, v) && ValuesEqual(v, a.when.equals)
                     && IsActual(projects, a.condition.optionId, w)
                     && (ValuesEqual(w, a.condition.equals) <==> a.action == RequiresAction)
  {
    hide IsActual, ValuesEqual, IsEvaluation;
    EvaluationByActual(projects, a.when, r.when);
    forall v, w | IsActual(projects, a.when.optionId, v) && IsActual(projects, a.when.optionId, w)
      ensures v == w
    {
      ActualUnique(projects, a.when.optionId, v, w);
    }
    if r.when.Known? && r.when.matches {
      EvaluationByActual(projects, a.condition, r.condition);
      forall v, w | IsActual(projects, a.condition.optionId, v) && IsActual(projects, a.condition.optionId, w)
        ensures v == w
      {
        ActualUnique(projects, a.condition.optionId, v, w);
      }
    }
  }

  /** The diagnostic of a failure names the unknown option, or else carries the message of the assertion. */
  lemma FailureNames(projects: seq<CompatProject>, a: Assertion, i: nat, r: Result)
    requires IsResult(projects, a, i, r) && r.outcome == Fail
    ensures FailureDiagnostic(r)
         == if r.when == Unknown then
              Diagnostic(CompatibilityError, Some(a.when.optionId), "unknown compatibility option")
            else if r.condition == Unknown then
              Diagnostic(CompatibilityError, Some(a.condition.optionId), "unknown compatibility option")
            else Diagnostic(CompatibilityError, Some(a.source), a.message)
  {
  }
}
