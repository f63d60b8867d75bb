/**
 Executing a rule on the tree walk (execute_metric_rule, execute_simple_rule and
 cdsl_vm_execute in src/vm/eval.c).

 An execution is a report and the registered actions it triggered, in order. Of a report
 whose status is ERROR only the status is kept.
 */
module Reports {
  import opened Values
  import opened Ast
  import opened TreeWalk

  datatype Execution = Execution(report: Report, actions: seq<string>)

  const ErrorReport := Report(Errored, [], 0, 0)

  // ----- case selection -----

  datatype Selection = Chosen(k: nat) | NoCase | SelectionErr(st: Status)

  function Select(cs: seq<Case>, env: Env): (r: Selection)
    ensures r.Chosen? ==> r.k < |cs|
  {
    if cs == [] then NoCase
    else match Eval(cs[0].cond, env, 0)
      case Err(st) => SelectionErr(st)
      case Val(v) =>
        if v == BoolV(true) then Chosen(0)
        else match Select(cs[1..], env)
          case Chosen(k) => Chosen(k + 1)
          case other => other
  }

  /** The condition neither holds nor errs: the next case is tried. */
  ghost predicate Skipped(e: Expr, env: Env) {
    var r := Eval(e, env, 0);
    r.Val? && r.v != BoolV(true)
  }

  /** A case is chosen exactly when its condition is the BOOL true and every case before it was
      skipped; if the first condition not skipped errs, so does the selection. */
  lemma {:induction false} SelectIsFirst(cs: seq<Case>, env: Env, k: nat)
    requires k < |cs|
    ensures (Select(cs, env) == Chosen(k) <==>
             Eval(cs[k].cond, env, 0) == Val(BoolV(true)) && forall j :: 0 <= j < k ==> Skipped(cs[j].cond, env))
    ensures Eval(cs[k].cond, env, 0).Err? && (forall j :: 0 <= j < k ==> Skipped(cs[j].cond, env))
            ==> Select(cs, env).SelectionErr?
  {
    if k > 0 {
      SelectIsFirst(cs[1..], env, k - 1);
      if Skipped(cs[0].cond, env) {
        assert (forall j :: 0 <= j < k ==> Skipped(cs[j].cond, env)) <==>
               (forall j :: 0 <= j < k - 1 ==> Skipped(cs[1..][j].cond, env)) by {
          if forall j :: 0 <= j < k - 1 ==> Skipped(cs[1..][j].cond, env) {
            forall j | 0 <= j < k ensures Skipped(cs[j].cond, env) { if j > 0 { assert cs[j] == cs[1..][j - 1]; } }
          }
        }
      } else {
        assert !Skipped(cs[0].cond, env);
      }
    }
  }

  // ----- scoring -----

  /** The score an action gives its metric; `fallback` is for an action that is neither a score
      nor a fail_metric. */
  function ScoreOf(a: Action, fallback: int32, env: Env): (r: Res)
    ensures r.Val? ==> r.v.IntV?
  {
    if a.name == "score" && a.args != [] then
      match Eval(a.args[0], env, 0)
      case Err(st) => Err(st)
      case Val(v) => if v.IntV? then Val(v) else Val(IntV(0))
    else if a.name == "fail_metric" then
      if |a.args| > 1 && Eval(a.args[1], env, 0).Err? then Eval(a.args[1], env, 0) else Val(IntV(0))
    else Val(IntV(fallback))
  }

  datatype Tally = Tally(metrics: seq<MetricResult>, actions: seq<string>, failed: bool)

  function Noted(actions: seq<string>, name: string, env: Env): seq<string> {
    if name in env.callbacks then actions + [name] else actions
  }

  function Scored(m: Metric, a: Action, fallback: int32, env: Env, t: Tally): Tally {
    var t1 := t.(actions := Noted(t.actions, a.name, env));
    match ScoreOf(a, fallback, env)
    case Err(_) => t1.(failed := true)
    case Val(v) => t1.(metrics := t.metrics + [MetricResult(m.name, m.weight, m.critical, v.i, v.i > 0)])
  }

  function TallyMetric(m: Metric, env: Env, t: Tally): Tally {
    match Select(m.cases, env)
    case SelectionErr(_) => t.(failed := true)
    case Chosen(k) => Scored(m, m.cases[k].action, m.weight, env, t)
    case NoCase => Scored(m, m.otherwise, 0, env, t)
  }

  function TallyMetrics(ms: seq<Metric>, env: Env, t: Tally): Tally
    decreases |ms|
  {
    if ms == [] || t.failed then t else TallyMetrics(ms[1..], env, TallyMetric(ms[0], env, t))
  }

  // ----- the verdict -----

  function TotalWeight(rs: seq<MetricResult>): int {
    if rs == [] then 0 else TotalWeight(rs[..|rs| - 1]) + rs[|rs| - 1].weight
  }

  function TotalScore(rs: seq<MetricResult>): int {
    if rs == [] then 0 else TotalScore(rs[..|rs| - 1]) + rs[|rs| - 1].score
  }

  predicate CriticalFailure(rs: seq<MetricResult>) {
    exists k :: 0 <= k < |rs| && rs[k].critical && !rs[k].passed
  }

  function Verdict(criticalFailure: bool, total: int, passAt: int, partialAt: int): RuleStatus {
    if criticalFailure then Failed
    else if total >= passAt then Passed
    else if total >= partialAt then PartiallyPassed
    else Failed
  }

  function Conclude(rs: seq<MetricResult>, passAt: int, partialAt: int): Report {
    Report(Verdict(CriticalFailure(rs), TotalScore(rs), passAt, partialAt), rs, TotalWeight(rs), TotalScore(rs))
  }

  function SimpleReport(name: string, triggered: bool): Report {
    var score := if triggered then 0 else 100;
    Report(if triggered then Failed else Passed, [MetricResult(name, 100, false, score, !triggered)], 100, score)
  }

  function TreeExecution(rule: Rule, env: Env): Execution {
    match rule
    case SimpleRule(name, when, act) =>
      (match Eval(when, env, 0)
       case Err(_) => Execution(ErrorReport, [])
       case Val(v) =>
         var triggered := v == BoolV(true);
         Execution(SimpleReport(name, triggered), if triggered then Noted([], act.name, env) else []))
    case MetricRule(_, passAt, partialAt, ms) =>
      var t := TallyMetrics(ms, env, Tally([], [], false));
      Execution(if t.failed then ErrorReport else Conclude(t.metrics, passAt, partialAt), t.actions)
  }

  // ----- the executor as the source writes it -----

  class TreeExecutor {
    var failed: bool
    var actions: seq<string>

    constructor ()
      ensures !failed && actions == []
    {
      failed, actions := false, [];
    }

    method Trigger(env: Env, a: Action)
      modifies this
      ensures actions == Noted(old(actions), a.name, env) && failed == old(failed)
    {
      if a.name in env.callbacks { actions := actions + [a.name]; }
    }

    /** Triggers the action and computes its score, setting the error state if that fails. */
    method Act(env: Env, a: Action, fallback: int32) returns (score: int32)
      requires !failed
      modifies this
      ensures actions == Noted(old(actions), a.name, env)
      ensures match ScoreOf(a, fallback, env)
              case Err(_) => failed
              case Val(v) => !failed && score == v.i
    {
      Trigger(env, a);
      score := 0;
      if a.name == "score" && a.args != [] {
        var r := Eval(a.args[0], env, 0);
        match r {
          case Err(_) => failed := true;
          case Val(v) => if v.IntV? { score := v.i; }
        }
      } else if a.name == "fail_metric" {
        if |a.args| > 1 {
          var r := Eval(a.args[1], env, 0);
          failed := r.Err?;
        }
      } else {
        score := fallback;
      }
    }

    /** The loop over the cases of one metric: the first that matches acts and ends it. */
    method RunMetric(env: Env, m: Metric) returns (score: int32)
      requires !failed
      modifies this
      ensures var t := TallyMetric(m, env, Tally([], old(actions), false));
              && actions == t.actions && failed == t.failed
              && (!failed ==> t.metrics == [MetricResult(m.name, m.weight, m.critical, score, score > 0)])
    {
      score := 0;
      var k := 0;
      while k < |m.cases|
        invariant k <= |m.cases| && !failed && actions == old(actions)
        invariant Select(m.cases, env) ==
                  match Select(m.cases[k..], env) case Chosen(j) => Chosen(j + k) case other => other
      {
        var r := Eval(m.cases[k].cond, env, 0);
        assert m.cases[k..][1..] == m.cases[k + 1..];
        if r.Err? {
          failed := true;
          return;
        }
        if r.v == BoolV(true) {
          score := Act(env, m.cases[k].action, m.weight);
          return;
        }
        k := k + 1;
      }
      score := Act(env, m.otherwise, 0);
    }

    /** execute_metric_rule: totals and the critical flag accumulate metric by metric. */
    method RunMetricRule(env: Env, rule: Rule) returns (report: Report)
      requires rule.MetricRule? && !failed && actions == []
      modifies this
      ensures Execution(report, actions) == TreeExecution(rule, env)
      ensures report.status != Errored ==> Judged(report, rule.passAt, rule.partialAt)
    {
      MetricReportIsJudged(rule, env);
      ghost var all := TallyMetrics(rule.metrics, env, Tally([], [], false));
      var results: seq<MetricResult> := [];
      var totalMax, totalObtained, anyCriticalFailed := 0, 0, false;
      assert Accumulated(results, totalMax, totalObtained, anyCriticalFailed);
      assert rule.metrics[0..] == rule.metrics;
      hide TallyMetric, TallyMetrics, Accumulated, Verdict, Judged;
      var k := 0;
      while k < |rule.metrics|
        invariant k <= |rule.metrics| && !failed
        invariant all == TallyMetrics(rule.metrics[k..], env, Tally(results, actions, false))
        invariant Accumulated(results, totalMax, totalObtained, anyCriticalFailed)
      {
        var m := rule.metrics[k];
        TallyStep(rule.metrics, k, env, results, actions);
        var score := RunMetric(env, m);
        if failed {
          return ErrorReport;
        }
        var mr := MetricResult(m.name, m.weight, m.critical, score, score > 0);
        AccumulatesOne(results, totalMax, totalObtained, anyCriticalFailed, mr);
        results := results + [mr];
        totalMax, totalObtained := totalMax + mr.weight, totalObtained + mr.score;
        if mr.critical && !mr.passed { anyCriticalFailed := true; }
        k := k + 1;
      }
      NoMoreMetrics(env, Tally(results, actions, false));
      Totalled(results, totalMax, totalObtained, anyCriticalFailed, rule.passAt, rule.partialAt);
      report :=
        Report(Verdict(anyCriticalFailed, totalObtained, rule.passAt, rule.partialAt),
               results, totalMax, totalObtained);
    }

    method RunSimpleRule(env: Env, rule: Rule) returns (report: Report)
      requires rule.SimpleRule? && !failed && actions == []
      modifies this
      ensures Execution(report, actions) == TreeExecution(rule, env)
    {
      var r := Eval(rule.when, env, 0);
      if r.Err? {
        failed := true;
        return ErrorReport;
      }
      var triggered := r.v.BoolV? && r.v.b;
      if triggered {
        Trigger(env, rule.then_);
      }
      report := SimpleReport(rule.name, triggered);
    }
  }

  /** The running totals and the critical flag are those of the results so far. */
  ghost predicate Accumulated(rs: seq<MetricResult>, totalMax: int, totalObtained: int, criticalFailure: bool) {
    totalMax == TotalWeight(rs) && totalObtained == TotalScore(rs) && criticalFailure == CriticalFailure(rs)
  }

  lemma AccumulatesOne(rs: seq<MetricResult>, totalMax: int, totalObtained: int, criticalFailure: bool, r: MetricResult)
    requires Accumulated(rs, totalMax, totalObtained, criticalFailure)
    ensures Accumulated(rs + [r], totalMax + r.weight, totalObtained + r.score,
                        criticalFailure || (r.critical && !r.passed))
  {
    assert (rs + [r])[..|rs|] == rs;
    CriticalGrows(rs, r);
    hide CriticalFailure;
  }

  lemma Totalled(rs: seq<MetricResult>, totalMax: int, totalObtained: int, criticalFailure: bool, passAt: int,
      partialAt: int)
    requires Accumulated(rs, totalMax, totalObtained, criticalFailure)
    ensures Conclude(rs, passAt, partialAt) ==
            Report(Verdict(criticalFailure, totalObtained, passAt, partialAt), rs, totalMax, totalObtained)
  {
  }

  lemma NoMoreMetrics(env: Env, t: Tally)
    ensures TallyMetrics([], env, t) == t
  {
  }

  /** One metric, tallied on its own, is what the tally of the remaining ones starts with. */
  lemma TallyStep(ms: seq<Metric>, k: nat, env: Env, results: seq<MetricResult>, actions: seq<string>)
    requires k < |ms|
    ensures
      var alone := TallyMetric(ms[k], env, Tally([], actions, false));
      var next := alone.(metrics := results + alone.metrics);
      TallyMetrics(ms[k..], env, Tally(results, actions, false)) ==
      if next.failed then next else TallyMetrics(ms[k + 1..], env, next)
  {
    hide TallyMetric;
    assert ms[k..][1..] == ms[k + 1..];
    TallyIsLocal(ms[k], env, Tally(results, actions, false));
  }

  /** What a metric adds does not depend on the metrics before it. */
  lemma TallyIsLocal(m: Metric, env: Env, t: Tally)
    ensures var alone := TallyMetric(m, env, t.(metrics := []));
            TallyMetric(m, env, t) == alone.(metrics := t.metrics + alone.metrics)
  {
    assert t.metrics + [] == t.metrics;
  }

  lemma CriticalGrows(rs: seq<MetricResult>, r: MetricResult)
    ensures CriticalFailure(rs + [r]) <==> CriticalFailure(rs) || (r.critical && !r.passed)
  {
    if CriticalFailure(rs) {
      var k :| 0 <= k < |rs| && rs[k].critical && !rs[k].passed;
      assert (rs + [r])[k] == rs[k];
    }
    if r.critical && !r.passed { assert (rs + [r])[|rs|] == r; }
  }

  // ----- what a report says -----

  function Sum(xs: seq<int>): int {
    if xs == [] then 0 else xs[0] + Sum(xs[1..])
  }

  lemma {:induction false} SumSnoc(xs: seq<int>, x: int)
    ensures Sum(xs + [x]) == Sum(xs) + x
  {
    if xs == [] {
      assert xs + [x] == [x] && [x][1..] == [];
    } else {
      assert (xs + [x])[1..] == xs[1..] + [x];
      SumSnoc(xs[1..], x);
    }
  }

  function Scores(rs: seq<MetricResult>): seq<int> {
    seq(|rs|, k requires 0 <= k < |rs| => rs[k].score)
  }

  function Weights(rs: seq<MetricResult>): seq<int> {
    seq(|rs|, k requires 0 <= k < |rs| => rs[k].weight)
  }

  lemma {:induction false} TotalsAreSums(rs: seq<MetricResult>)
    ensures TotalScore(rs) == Sum(Scores(rs)) && TotalWeight(rs) == Sum(Weights(rs))
  {
    if rs != [] {
      var n := |rs| - 1;
      TotalsAreSums(rs[..n]);
      assert Scores(rs) == Scores(rs[..n]) + [rs[n].score] && Weights(rs) == Weights(rs[..n]) + [rs[n].weight];
      SumSnoc(Scores(rs[..n]), rs[n].score);
      SumSnoc(Weights(rs[..n]), rs[n].weight);
    }
  }

  /** What a metric rule's report has to say of its metrics: a critical one that has not passed fails
      the rule whatever the scores; otherwise the sum of the scores is held against both thresholds. */
  ghost predicate Judged(r: Report, passAt: int, partialAt: int) {
    var sum := Sum(Scores(r.metrics));
    var veto := exists k :: 0 <= k < |r.metrics| && r.metrics[k].critical && !r.metrics[k].passed;
    && r.totalObtained == sum && r.totalMax == Sum(Weights(r.metrics))
    && (veto ==> r.status == Failed)
    && (!veto ==> (r.status == Passed <==> sum >= passAt))
    && (!veto ==> (r.status == PartiallyPassed <==> partialAt <= sum < passAt))
    && (!veto ==> (r.status == Failed <==> sum < passAt && sum < partialAt))
  }

  lemma ConclusionIsJudged(rs: seq<MetricResult>, passAt: int, partialAt: int)
    ensures Judged(Conclude(rs, passAt, partialAt), passAt, partialAt)
    ensures Conclude(rs, passAt, partialAt).metrics == rs && Conclude(rs, passAt, partialAt).status != Errored
  {
    TotalsAreSums(rs);
  }

  /** The score a metric is given, or the error of its selection or of its score. */
  ghost function ScoreAt(m: Metric, env: Env): Res {
    match Select(m.cases, env)
    case SelectionErr(st) => Err(st)
    case Chosen(k) => ScoreOf(m.cases[k].action, m.weight, env)
    case NoCase => ScoreOf(m.otherwise, 0, env)
  }

  /** The score of an action: what its argument says if it is called score and has one, 0 for any
      value but an INT; 0 if it is called fail_metric, which still evaluates its second argument;
      the weight of the case, or 0 for a default, if it is called anything else. */
  lemma ScoresExactly(a: Action, fallback: int32, env: Env)
    ensures a.name == "score" && a.args != [] ==>
              var r := Eval(a.args[0], env, 0);
              ScoreOf(a, fallback, env) == if r.Val? && !r.v.IntV? then Val(IntV(0)) else r
    ensures a.name == "fail_metric" ==>
              ScoreOf(a, fallback, env) ==
              if |a.args| >= 2 && Eval(a.args[1], env, 0).Err? then Eval(a.args[1], env, 0) else Val(IntV(0))
    ensures a.name !in {"score", "fail_metric"} || (a.name == "score" && a.args == []) ==>
              ScoreOf(a, fallback, env) == Val(IntV(fallback))
  {
    hide Eval;
  }

  /** The results are the metrics' own, in order, each passed exactly when its score is positive. */
  ghost predicate Lists(rs: seq<MetricResult>, ms: seq<Metric>, env: Env) {
    |rs| == |ms| && forall k :: 0 <= k < |ms| ==>
      var s := ScoreAt(ms[k], env);
      s.Val? && s.v.IntV? && rs[k] == ResultOf(ms[k], s.v.i)
  }

  ghost function ResultOf(m: Metric, n: int32): MetricResult {
    MetricResult(m.name, m.weight, m.critical, n, n > 0)
  }

  lemma OneMetric(m: Metric, env: Env, t: Tally)
    requires !t.failed
    ensures var s, t' := ScoreAt(m, env), TallyMetric(m, env, t);
            && (t'.failed <==> s.Err?)
            && (s.Val? ==> s.v.IntV? && t'.metrics == t.metrics + [ResultOf(m, s.v.i)])
  {
    hide Select, ScoreOf;
  }

  ghost predicate Scorable(m: Metric, env: Env) { ScoreAt(m, env).Val? }

  /** The first metric, and the others. */
  lemma TallyFirst(ms: seq<Metric>, env: Env, t: Tally)
    requires ms != [] && !t.failed
    ensures var t1 := TallyMetric(ms[0], env, t);
            TallyMetrics(ms, env, t) == if t1.failed then t1 else TallyMetrics(ms[1..], env, t1)
    ensures TallyMetric(ms[0], env, t).failed <==> !Scorable(ms[0], env)
  {
    OneMetric(ms[0], env, t);
    hide ScoreAt, TallyMetric;
  }

  lemma {:induction false} TallyFails(ms: seq<Metric>, env: Env, t: Tally)
    requires !t.failed
    ensures TallyMetrics(ms, env, t).failed <==> exists k :: 0 <= k < |ms| && !Scorable(ms[k], env)
    decreases |ms|
  {
    hide Scorable, TallyMetric, TallyMetrics;
    if ms == [] {
      NoMoreMetrics(env, t);
    } else {
      TallyFirst(ms, env, t);
      var t1 := TallyMetric(ms[0], env, t);
      if !t1.failed {
        TallyFails(ms[1..], env, t1);
        if k :| 0 <= k < |ms| && !Scorable(ms[k], env) { assert ms[k] == ms[1..][k - 1]; }
      }
    }
  }

  lemma {:induction false} TallyLists(ms: seq<Metric>, env: Env, t: Tally)
    requires !t.failed && !TallyMetrics(ms, env, t).failed
    ensures exists rs :: TallyMetrics(ms, env, t).metrics == t.metrics + rs && Lists(rs, ms, env)
    decreases |ms|
  {
    hide ScoreAt, TallyMetric, TallyMetrics, Scorable;
    if ms == [] {
      NoMoreMetrics(env, t);
      assert t.metrics == t.metrics + [] && Lists([], ms, env);
    } else {
      TallyFirst(ms, env, t);
      OneMetric(ms[0], env, t);
      var t1 := TallyMetric(ms[0], env, t);
      TallyLists(ms[1..], env, t1);
      hide Lists;
      var rest :| TallyMetrics(ms[1..], env, t1).metrics == t1.metrics + rest && Lists(rest, ms[1..], env);
      OneMoreListed(ms, env, rest);
      var first := ResultOf(ms[0], ScoreAt(ms[0], env).v.i);
      assert (t.metrics + [first]) + rest == t.metrics + ([first] + rest);
    }
  }

  lemma OneMoreListed(ms: seq<Metric>, env: Env, rest: seq<MetricResult>)
    requires ms != [] && Lists(rest, ms[1..], env) && ScoreAt(ms[0], env).Val? && ScoreAt(ms[0], env).v.IntV?
    ensures Lists([ResultOf(ms[0], ScoreAt(ms[0], env).v.i)] + rest, ms, env)
  {
    hide ScoreAt;
    forall k | 0 < k < |ms| ensures ms[k] == ms[1..][k - 1] {}
  }

  /** The report of a metric rule on the tree walk: ERROR exactly when a metric's selection or score
      errs; otherwise the metrics in order and their verdict. */
  lemma MetricReportExactly(rule: Rule, env: Env)
    requires rule.MetricRule?
    ensures var r := TreeExecution(rule, env).report;
            && (r.status == Errored <==> exists k :: 0 <= k < |rule.metrics| && !Scorable(rule.metrics[k], env))
            && (r.status != Errored ==> Lists(r.metrics, rule.metrics, env) && Judged(r, rule.passAt, rule.partialAt))
  {
    hide TallyMetrics, Scorable, Conclude, Judged, Lists;
    var t := TallyMetrics(rule.metrics, env, Tally([], [], false));
    TallyFails(rule.metrics, env, Tally([], [], false));
    ConclusionIsJudged(t.metrics, rule.passAt, rule.partialAt);
    if !t.failed {
      TallyLists(rule.metrics, env, Tally([], [], false));
      var rs :| t.metrics == [] + rs && Lists(rs, rule.metrics, env);
      assert rs == t.metrics;
    }
  }

  lemma MetricReportIsJudged(rule: Rule, env: Env)
    requires rule.MetricRule?
    ensures var r := TreeExecution(rule, env).report;
            r.status != Errored ==> Judged(r, rule.passAt, rule.partialAt)
  {
    MetricReportExactly(rule, env);
  }

  /** The report of a simple rule on the tree walk: one metric of weight 100 under the rule's name,
      failed with score 0 when WHEN is the BOOL true, passed with 100 when it is anything else. */
  lemma SimpleReportExactly(rule: Rule, env: Env)
    requires rule.SimpleRule?
    ensures var c := Eval(rule.when, env, 0);
            var x := TreeExecution(rule, env);
            if c.Err? then x.report.status == Errored && x.actions == []
            else if c.v == BoolV(true) then
              && x.report == Report(Failed, [MetricResult(rule.name, 100, false, 0, false)], 100, 0)
              && x.actions == if rule.then_.name in env.callbacks then [rule.then_.name] else []
            else
              && x.report == Report(Passed, [MetricResult(rule.name, 100, false, 100, true)], 100, 100)
              && x.actions == []
  {
  }
}
