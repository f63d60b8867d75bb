/**
 Report equivalence: compiling a rule and running its bytecode gives the report and the actions
 the tree walk gives.
 */
module ReportAgreement {
  import opened Values
  import opened Ast
  import opened TreeWalk
  import opened Machine
  import opened Agreement
  import opened Reports
  import opened RuleCompiler
  import opened CompiledRules

  // ----- what a rule must meet, on the path its execution takes -----

  /** The expression means the same to both engines, wherever it is compiled. */
  ghost predicate Legible(e: Expr, env: Env) {
    Clean(e, env) && WithinDepth(e, 0, env.maxDepth)
  }

  ghost predicate FineExpr(e: Expr, h: Host) {
    PlacedExpr(e, h) && Legible(e, h.env)
  }

  /** A condition that yields a value yields a BOOL. */
  ghost predicate FineCondition(e: Expr, h: Host) {
    FineExpr(e, h) && (Eval(e, h.env, 0).Val? ==> Eval(e, h.env, 0).v.BoolV?)
  }

  /** The compiled action evaluates all its arguments, one above the other, and none errs; the tree
      walk passes them on unevaluated. */
  predicate Evaluates(a: Action, h: Host) {
    PlacedAction(a, h) && RawEvalAll(a.args, h.env).Vals?
  }

  /** An action that scores a metric: what both engines read of its arguments is the same. */
  ghost predicate FineAction(a: Action, h: Host) {
    && Evaluates(a, h)
    && (a.name == "score" && a.args != [] ==> Legible(a.args[0], h.env))
    && (a.name == "fail_metric" && |a.args| > 1 ==> Eval(a.args[1], h.env, 0).Val?)
  }

  ghost predicate FineCases(cs: seq<Case>, otherwise: Action, h: Host) {
    if cs == [] then FineAction(otherwise, h)
    else
      && FineCondition(cs[0].cond, h)
      && match Eval(cs[0].cond, h.env, 0)
         case Err(_) => true
         case Val(v) => if v == BoolV(true) then FineAction(cs[0].action, h) else FineCases(cs[1..], otherwise, h)
  }

  ghost predicate FineMetrics(ms: seq<Metric>, h: Host) {
    ms == [] || (FineCases(ms[0].cases, ms[0].otherwise, h) && FineMetrics(ms[1..], h))
  }

  ghost predicate FineRule(rule: Rule, h: Host) {
    match rule
    case SimpleRule(_, when, act) =>
      FineCondition(when, h) && (Eval(when, h.env, 0) == Val(BoolV(true)) ==> Evaluates(act, h))
    case MetricRule(_, passAt, partialAt, ms) =>
      ms != [] && passAt > 0 && partialAt > 0 && FineMetrics(ms, h)
  }

  // ----- simple rules -----

  /** What the tree walk makes of a simple rule and what compiled code makes of it, exactly: on every
      rule whose code has its slots and its place, in every world, the engines give the same report
      and actions if and only if these results of WHEN and the arguments go together. */
  lemma SimpleExecutionsAgreeExactly(rule: Rule, env: Env, slots: nat)
    requires PlacedSimple(rule, HostFor(rule, env, slots)) && 1 <= slots <= INT_MAX
    ensures VmExecution(rule, env, slots) == TreeExecution(rule, env) <==>
            (var c, r := Eval(rule.when, env, 0), RawEval(rule.when, env);
             var called := RawEvalAll(rule.then_.args, env).Vals?;
             if c.Err? then r.Val? ==> if Truth(r.v) then !called else !r.v.BoolV?
             else if c.v == BoolV(true) then r.Val? && Truth(r.v) && called
             else r == Val(BoolV(false)))
  {
    hide VmExecution, PlacedExpr, PlacedAction, Eval, RawEval, RawEvalAll;
    RawSimpleRuleRuns(rule, env, slots);
  }

  /** A simple rule whose condition means the same to both engines, and whose code has its slots and
      its place on the path it takes. */
  ghost predicate CodableSimple(rule: Rule, h: Host) {
    rule.SimpleRule? && PlacedSimple(rule, h) && Legible(rule.when, h.env)
  }

  /** Simple rules, exactly: if the condition means the same to both engines, they give the same
      report and actions if and only if the condition errs or yields a BOOL, and, when it is true,
      the action's arguments evaluate without an error. */
  lemma SimpleRulesAgreeExactly(rule: Rule, env: Env, slots: nat)
    requires CodableSimple(rule, HostFor(rule, env, slots)) && 1 <= slots <= INT_MAX
    ensures VmExecution(rule, env, slots) == TreeExecution(rule, env) <==>
            (var c := Eval(rule.when, env, 0);
             c.Val? ==> c.v.BoolV? && (c.v.b ==> RawEvalAll(rule.then_.args, env).Vals?))
  {
    hide VmExecution, TreeExecution, PlacedSimple, Eval, RawEval, RawEvalAll, Clean, WithinDepth;
    RawIsTreeWalk(rule.when, env, 0);
    SimpleExecutionsAgreeExactly(rule, env, slots);
  }

  lemma FineSimpleIsPlaced(rule: Rule, h: Host)
    requires rule.SimpleRule? && FineRule(rule, h)
    ensures PlacedSimple(rule, h)
  {
    hide Eval, RawEval, Clean, WithinDepth, PlacedExpr, PlacedAction, RawEvalAll;
    RawIsTreeWalk(rule.when, h.env, 0);
  }

  /** The two engines are equivalent: on every rule and every world that meet the conditions,
      compiling and running gives the tree walk's status, metric scores, flags and totals, and
      triggers the same actions in the same order. A condition that errs makes both ERROR. */
  lemma ReportsAgree(rule: Rule, env: Env, slots: nat)
    requires FineRule(rule, HostFor(rule, env, slots)) && 1 <= slots <= INT_MAX
    ensures VmExecution(rule, env, slots) == TreeExecution(rule, env)
  {
    hide VmExecution, TreeExecution, PlacedSimple, PlacedExpr, PlacedAction, Eval, RawEval, RawEvalAll, Clean,
         WithinDepth, FineMetrics;
    if rule.SimpleRule? {
      FineSimpleIsPlaced(rule, HostFor(rule, env, slots));
      SimpleRulesAgreeExactly(rule, env, slots);
    } else {
      MetricReportsAgree(rule, env, slots);
    }
  }

  // ----- metric rules -----

  predicate IsBool(r: Res) { r.Val? && r.v.BoolV? }

  ghost predicate LegibleConditions(cs: seq<Case>, env: Env) {
    forall c <- cs :: Legible(c.cond, env)
  }

  /** Both engines choose the same case, whatever the types of the conditions, exactly when the case
      compiled code chooses has a BOOL for its condition: it takes the first one with a bit set,
      the tree walk the first one that is the BOOL true. */
  lemma {:induction false} CasesAgreeExactly(cs: seq<Case>, env: Env)
    requires LegibleConditions(cs, env)
    ensures RawSelect(cs, env) == Select(cs, env) <==>
            (var s := RawSelect(cs, env); s.Chosen? ==> IsBool(RawEval(cs[s.k].cond, env)))
    decreases |cs|
  {
    hide Legible, Eval, RawEval;
    if cs != [] {
      ConditionSettled(cs[0], env);
      CasesAgreeExactly(cs[1..], env);
    }
  }

  lemma ConditionSettled(c: Case, env: Env)
    requires Legible(c.cond, env)
    ensures Alike(RawEval(c.cond, env), Eval(c.cond, env, 0))
    ensures Eval(c.cond, env, 0).Val? && Eval(c.cond, env, 0).v.BoolV? ==> RawEval(c.cond, env) == Eval(c.cond, env, 0)
  {
    hide Eval, RawEval, Clean, WithinDepth;
    RawIsTreeWalk(c.cond, env, 0);
  }

  lemma {:induction false} FineCasesAgree(cs: seq<Case>, otherwise: Action, h: Host)
    requires FineCases(cs, otherwise, h)
    ensures PlacedCases(cs, otherwise, h) && RawSelect(cs, h.env) == Select(cs, h.env)
    ensures match Select(cs, h.env)
            case SelectionErr(_) => true
            case Chosen(k) => FineAction(cs[k].action, h)
            case NoCase => FineAction(otherwise, h)
    decreases |cs|
  {
    hide Legible, Eval, RawEval, RawEvalAll, PlacedExpr, PlacedAction;
    if cs != [] {
      ConditionSettled(cs[0], h.env);
      var r := Eval(cs[0].cond, h.env, 0);
      if r.Val? && r.v != BoolV(true) { FineCasesAgree(cs[1..], otherwise, h); }
    }
  }

  lemma FineScore(a: Action, fallback: int32, h: Host)
    requires FineAction(a, h)
    ensures RawEvalAll(a.args, h.env).Vals?
    ensures ScoreOf(a, fallback, h.env) == Val(IntV(RawScoreOf(a, fallback, h.env)))
  {
    hide Eval, Clean, WithinDepth, PlacedAction;
    if a.name == "score" && a.args != [] { RawIsTreeWalk(a.args[0], h.env, 0); }
  }

  lemma FineMetricAgrees(m: Metric, h: Host, t: Tally)
    requires FineCases(m.cases, m.otherwise, h)
    ensures RawTallyMetric(m, h.env, t) == TallyMetric(m, h.env, t)
  {
    hide FineCases, PlacedCases, Select, RawSelect, RawScoreOf, ScoreOf, FineAction;
    FineCasesAgree(m.cases, m.otherwise, h);
    match Select(m.cases, h.env)
    case SelectionErr(_) =>
    case Chosen(k) => FineScore(m.cases[k].action, m.weight, h);
    case NoCase => FineScore(m.otherwise, 0, h);
  }

  lemma {:induction false} FineMetricsAgree(ms: seq<Metric>, h: Host, t: Tally)
    requires FineMetrics(ms, h)
    ensures PlacedMetrics(ms, h) && RawTallyMetrics(ms, h.env, t) == TallyMetrics(ms, h.env, t)
    decreases |ms|
  {
    hide FineCases, PlacedCases, RawTallyMetric, TallyMetric;
    if ms != [] {
      FineCasesAgree(ms[0].cases, ms[0].otherwise, h);
      FineMetricAgrees(ms[0], h, t);
      FineMetricsAgree(ms[1..], h, TallyMetric(ms[0], h.env, t));
    }
  }

  /** What executing a compiled metric rule gives, whatever its thresholds. */
  lemma MetricRuleRuns(rule: Rule, env: Env, slots: nat)
    requires rule.MetricRule? && rule.metrics != [] && 1 <= slots <= INT_MAX
    requires FineMetrics(rule.metrics, HostFor(rule, env, slots))
    ensures
      var t := TallyMetrics(rule.metrics, env, Tally([], [], false));
      VmExecution(rule, env, slots) ==
      Execution(if t.failed then ErrorReport
                else Conclude(t.metrics, Effective(rule.passAt, 80), Effective(rule.partialAt, 60)), t.actions)
  {
    hide FineMetrics, PlacedMetrics, VmExecution, TallyMetrics, RawTallyMetrics, Conclude;
    FineMetricsAgree(rule.metrics, HostFor(rule, env, slots), Tally([], [], false));
    RawMetricRuleRuns(rule, env, slots);
  }

  lemma MetricReportsAgree(rule: Rule, env: Env, slots: nat)
    requires rule.MetricRule? && FineRule(rule, HostFor(rule, env, slots)) && 1 <= slots <= INT_MAX
    ensures VmExecution(rule, env, slots) == TreeExecution(rule, env)
  {
    hide FineMetrics, VmExecution, TallyMetrics, Conclude;
    MetricRuleRuns(rule, env, slots);
  }

  // ----- thresholds -----

  /** A metric without cases whose default is neither a score nor a fail_metric: it scores 0. */
  const ZERO_METRIC := Metric("m", 100, false, [], Action("note", []))

  lemma ScoreOfOne(rs: seq<MetricResult>)
    requires |rs| == 1
    ensures TotalScore(rs) == rs[0].score && (CriticalFailure(rs) <==> rs[0].critical && !rs[0].passed)
  {
    assert rs[..0] == [];
  }

  lemma ZeroScores(passAt: int, partialAt: int, env: Env, slots: nat)
    requires 1 <= slots <= INT_MAX
    ensures
      var rule := MetricRule("r", passAt, partialAt, [ZERO_METRIC]);
      && FineMetrics(rule.metrics, HostFor(rule, env, slots))
      && TreeExecution(rule, env).report.status == Verdict(false, 0, passAt, partialAt)
      && VmExecution(rule, env, slots).report.status
         == Verdict(false, 0, Effective(passAt, 80), Effective(partialAt, 60))
  {
    var rule := MetricRule("r", passAt, partialAt, [ZERO_METRIC]);
    var h := HostFor(rule, env, slots);
    assert FineCases([], ZERO_METRIC.otherwise, h);
    assert rule.metrics[1..] == [];
    var blank := Tally([], [], false);
    var t := TallyMetric(ZERO_METRIC, env, blank);
    assert t.metrics == [MetricResult("m", 100, false, 0, false)];
    assert TallyMetrics(rule.metrics, env, blank) == TallyMetrics([], env, t) == t;
    ScoreOfOne(t.metrics);
    MetricRuleRuns(rule, env, slots);
  }

  /** On metric rules with given thresholds whose parts mean the same to both engines, the
      executions are the same for all of them exactly when both thresholds are positive. */
  lemma ThresholdsAgreeExactly(passAt: int, partialAt: int, env: Env, slots: nat)
    requires 1 <= slots <= INT_MAX
    ensures (forall ms :: ms != [] && FineMetrics(ms, HostFor(MetricRule("r", passAt, partialAt, ms), env, slots)) ==>
               VmExecution(MetricRule("r", passAt, partialAt, ms), env, slots) ==
               TreeExecution(MetricRule("r", passAt, partialAt, ms), env))
            <==> passAt > 0 && partialAt > 0
  {
    hide FineMetrics, VmExecution, TreeExecution;
    if passAt > 0 && partialAt > 0 {
      forall ms | ms != [] && FineMetrics(ms, HostFor(MetricRule("r", passAt, partialAt, ms), env, slots))
        ensures VmExecution(MetricRule("r", passAt, partialAt, ms), env, slots) ==
                TreeExecution(MetricRule("r", passAt, partialAt, ms), env)
      {
        MetricReportsAgree(MetricRule("r", passAt, partialAt, ms), env, slots);
      }
    } else {
      ZeroScores(passAt, partialAt, env, slots);
      assert Verdict(false, 0, Effective(passAt, 80), Effective(partialAt, 60)) != Verdict(false, 0, passAt, partialAt);
    }
  }
}
