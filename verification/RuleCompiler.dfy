/**
 Compiling whole rules (compile_action_call and cdsl_bytecode_compile in src/vm/bytecode.c) and
 what executing a compiled rule reports (cdsl_bytecode_execute_rule).
 */
module RuleCompiler {
  import opened Values
  import opened Ast
  import opened Machine
  import opened Compiler
  import opened Reports

  const BYTECODE_MAX_STACK: nat := 256

  function CodeAction(fpu: Fpu, a: Action): Program {
    CodeAll(fpu, a.args) + [PushLit(IntV(CountOf(|a.args|))), ActionI(a.name)]
  }

  /** Setting the metric's score after its action. */
  function CodeScore(fpu: Fpu, a: Action, fallback: int32): Program {
    if a.name == "score" && a.args != [] then Code(fpu, a.args[0]) + [SetScore]
    else if a.name == "fail_metric" then
      [PushLit(IntV(0)), SetScore] +
      (if |a.args| > 1 && a.args[1].Lit? && a.args[1].lit.StrV? then [FailMetric(a.args[1].lit.s)] else [])
    else [PushLit(IntV(fallback)), SetScore]
  }

  function CodeDo(fpu: Fpu, a: Action, fallback: int32): Program {
    CodeAction(fpu, a) + CodeScore(fpu, a, fallback)
  }

  /** One case, given the length of the code after it in the metric: the matched branch jumps
      over all of that. */
  function CodeCase(fpu: Fpu, c: Case, weight: int32, after: nat): Program {
    var act := CodeDo(fpu, c.action, weight);
    Code(fpu, c.cond) + ([JmpIfFalse(|act| + 3), Pop] + (act + [Jmp(after + 2), Pop]))
  }

  function CodeCases(fpu: Fpu, cs: seq<Case>, weight: int32, otherwise: Program): Program {
    if cs == [] then otherwise
    else
      var rest := CodeCases(fpu, cs[1..], weight, otherwise);
      CodeCase(fpu, cs[0], weight, |rest|) + rest
  }

  function CodeMetric(fpu: Fpu, m: Metric): Program {
    [MetricStart(m.name)] + CodeCases(fpu, m.cases, m.weight, CodeDo(fpu, m.otherwise, 0))
  }

  function CodeMetrics(fpu: Fpu, ms: seq<Metric>): Program {
    if ms == [] then [] else CodeMetric(fpu, ms[0]) + CodeMetrics(fpu, ms[1..])
  }

  function CodeRule(fpu: Fpu, rule: Rule): Program {
    match rule
    case SimpleRule(_, when, act) =>
      var action := CodeAction(fpu, act);
      Code(fpu, when) + ([JmpIfFalse(|action| + 2)] + (action + [PushLit(BoolV(true)), Ret]))
    case MetricRule(_, _, _, ms) => CodeMetrics(fpu, ms) + [RuleEnd]
  }

  function InfosOf(ms: seq<Metric>): (infos: seq<MetricInfo>)
    ensures |infos| == |ms|
    ensures forall k :: 0 <= k < |ms| ==> infos[k] == MetricInfo(ms[k].weight, ms[k].critical)
  {
    seq(|ms|, k requires 0 <= k < |ms| => MetricInfo(ms[k].weight, ms[k].critical))
  }

  function RuleInfos(rule: Rule): seq<MetricInfo> {
    if rule.MetricRule? then InfosOf(rule.metrics) else []
  }

  /** A threshold of zero or less falls back to the default. */
  function Effective(threshold: int, default: int): int {
    if threshold > 0 then threshold else default
  }

  /** The report built from the machine's final state. */
  function ReportOf(name: string, passAt: int, partialAt: int, r: RunResult): Report {
    if r.final.fault != NoFault then ErrorReport
    else if r.final.metrics != [] then Conclude(r.final.metrics, Effective(passAt, 80), Effective(partialAt, 60))
    else if r.result.BoolV? then SimpleReport(name, r.result.b)
    else ErrorReport
  }

  function HostFor(rule: Rule, env: Env, slots: nat): Host {
    Host(env, slots, RuleInfos(rule))
  }

  /** The thresholds stored in the chunk; a rule without metrics has the defaults. */
  function Thresholds(rule: Rule): (int, int) {
    if rule.MetricRule? then (rule.passAt, rule.partialAt) else (80, 60)
  }

  /** Executing the compiled rule on a machine with the given number of stack slots. */
  function VmExecution(rule: Rule, env: Env, slots: nat): Execution {
    var r := Run(HostFor(rule, env, slots), CodeRule(env.fpu, rule), 0, Start);
    var (passAt, partialAt) := Thresholds(rule);
    Execution(ReportOf(rule.name, passAt, partialAt, r), r.final.actions)
  }
}
