/**
 Rules the schema verifier has passed (verify_action and cdsl_verify_rule_detailed in
 src/schema/schema.c): which of the conditions for the engines' agreement follow from that.
 */
module VerifiedRules {
  import opened Values
  import opened Ast
  import opened TreeWalk
  import opened Machine
  import opened Agreement
  import opened Types
  import opened Reports
  import opened RuleCompiler
  import opened CompiledRules
  import opened ReportAgreement
  import opened StackBound

  predicate VerifyAction(a: Action, sc: Schema) {
    a.name in sc.actions && |a.args| == |sc.actions[a.name].args| &&
    ArgumentsSilent(sc.actions[a.name].args, a.args, sc)
  }

  /** A CASE condition may have any type but an array's. */
  predicate VerifyCase(c: Case, sc: Schema) {
    Silent(c.cond, sc) && !ResolveType(c.cond, sc).TArray? && VerifyAction(c.action, sc)
  }

  predicate VerifyMetric(m: Metric, sc: Schema) {
    (forall k :: 0 <= k < |m.cases| ==> VerifyCase(m.cases[k], sc)) && VerifyAction(m.otherwise, sc)
  }

  /** No error is reported. The types the checker resolves to are not looked at, so a WHEN or an
      argument may be VOID. */
  predicate VerifyRule(rule: Rule, sc: Schema) {
    match rule
    case SimpleRule(_, when, act) => Silent(when, sc) && VerifyAction(act, sc)
    case MetricRule(_, _, _, ms) => forall k :: 0 <= k < |ms| ==> VerifyMetric(ms[k], sc)
  }

  // ----- the functions a rule calls -----

  function CasesCalls(cs: seq<Case>): set<string>
    decreases |cs|
  {
    if cs == [] then {} else Calls(cs[0].cond) + AllCalls(cs[0].action.args) + CasesCalls(cs[1..])
  }

  function MetricsCalls(ms: seq<Metric>): set<string>
    decreases |ms|
  {
    if ms == [] then {} else CasesCalls(ms[0].cases) + AllCalls(ms[0].otherwise.args) + MetricsCalls(ms[1..])
  }

  function RuleCalls(rule: Rule): set<string> {
    match rule
    case SimpleRule(_, when, act) => Calls(when) + AllCalls(act.args)
    case MetricRule(_, _, _, ms) => MetricsCalls(ms)
  }

  lemma {:induction false} CaseCallsAreIn(cs: seq<Case>, k: nat)
    requires k < |cs|
    ensures Calls(cs[k].cond) <= CasesCalls(cs) && AllCalls(cs[k].action.args) <= CasesCalls(cs)
    decreases k
  {
    if k > 0 { CaseCallsAreIn(cs[1..], k - 1); }
  }

  // ----- what the verifier does not look at -----

  ghost predicate CompilableExpr(e: Expr, sc: Schema, limit: nat) {
    Placed(e, true) && WithinDepth(e, 0, limit) && NoArrayComparison(e, sc)
  }

  ghost predicate BoolCondition(e: Expr, sc: Schema, limit: nat) {
    ResolveType(e, sc) == TBool && CompilableExpr(e, sc, limit)
  }

  ghost predicate CompilableMetric(m: Metric, sc: Schema, limit: nat) {
    && (forall k :: 0 <= k < |m.cases| ==>
          BoolCondition(m.cases[k].cond, sc, limit) && AllPlaced(m.cases[k].action.args, true))
    && AllPlaced(m.otherwise.args, true)
  }

  /** Static conditions beyond the verifier's: conditions of type BOOL, ANDs and ORs at the
      stack bottom, nesting within the limit, no array comparisons, positive thresholds. */
  ghost predicate CompilableRule(rule: Rule, sc: Schema, limit: nat) {
    match rule
    case SimpleRule(_, when, act) => BoolCondition(when, sc, limit) && AllPlaced(act.args, true)
    case MetricRule(_, passAt, partialAt, ms) =>
      ms != [] && passAt > 0 && partialAt > 0 && forall k :: 0 <= k < |ms| ==> CompilableMetric(ms[k], sc, limit)
  }

  /** Both engines read the same from an argument: it has a type, or it means the same to both in
      this world. */
  ghost predicate ReadAlike(e: Expr, sc: Schema, env: Env) {
    && WithinDepth(e, 0, env.maxDepth)
    && ((ResolveType(e, sc) != TVoid && NoArrayComparison(e, sc)) || Clean(e, env))
  }

  /** What is left to run time: the arguments of the action that scores a metric evaluate, and the
      one the engines read means the same to both, as it does if it has a type. */
  ghost predicate ActionEvaluates(a: Action, sc: Schema, env: Env) {
    && RawEvalAll(a.args, env).Vals?
    && (a.name == "score" && a.args != [] ==> ReadAlike(a.args[0], sc, env))
    && (a.name == "fail_metric" && |a.args| > 1 ==> ReadAlike(a.args[1], sc, env))
  }

  ghost predicate MetricEvaluates(m: Metric, sc: Schema, env: Env) {
    match Select(m.cases, env)
    case SelectionErr(_) => true
    case Chosen(k) => ActionEvaluates(m.cases[k].action, sc, env)
    case NoCase => ActionEvaluates(m.otherwise, sc, env)
  }

  ghost predicate ActionsEvaluate(rule: Rule, sc: Schema, env: Env) {
    match rule
    case SimpleRule(_, when, act) => Eval(when, env, 0) == Val(BoolV(true)) ==> RawEvalAll(act.args, env).Vals?
    case MetricRule(_, _, _, ms) => forall k :: 0 <= k < |ms| ==> MetricEvaluates(ms[k], sc, env)
  }

  lemma ConditionIsFine(e: Expr, sc: Schema, h: Host, fs: set<string>)
    requires Conforms(h.env, sc, fs) && Calls(e) <= fs && BoolCondition(e, sc, h.env.maxDepth)
      && Depth(h.env.fpu, e) <= h.slots
    ensures FineCondition(e, h)
  {
    hide Eval, ResolveType, Conforms, Clean, Placed, WithinDepth, Depth, RawEval;
    TypeSoundness(e, sc, h.env, 0, fs);
  }

  lemma {:induction false} ArgumentIsIn(es: seq<Expr>, k: nat, env: Env)
    requires k < |es|
    ensures Calls(es[k]) <= AllCalls(es) && (RawEvalAll(es, env).Vals? ==> RawEval(es[k], env).Val?)
    decreases k
  {
    if k > 0 { ArgumentIsIn(es[1..], k - 1, env); }
  }

  /** An argument read by both engines. */
  lemma ReadIsLegible(es: seq<Expr>, k: nat, sc: Schema, env: Env, fs: set<string>)
    requires Conforms(env, sc, fs) && AllCalls(es) <= fs && k < |es|
    requires ReadAlike(es[k], sc, env) && RawEvalAll(es, env).Vals?
    ensures Legible(es[k], env) && Eval(es[k], env, 0).Val?
  {
    hide Eval, ResolveType, Conforms, Clean, WithinDepth, RawEval, RawEvalAll, Calls, AllCalls;
    ArgumentIsIn(es, k, env);
    if !Clean(es[k], env) { TypeSoundness(es[k], sc, env, 0, fs); }
    RawIsTreeWalk(es[k], env, 0);
  }

  lemma ActionIsFine(a: Action, sc: Schema, h: Host, fs: set<string>)
    requires Conforms(h.env, sc, fs) && AllCalls(a.args) <= fs && ActionEvaluates(a, sc, h.env)
    requires AllPlaced(a.args, true) && RoomForAction(h.env.fpu, a, h.slots)
    ensures FineAction(a, h)
  {
    hide Conforms, AllCalls, AllPlaced, DepthAll, RawEvalAll, ReadAlike, Eval, Legible;
    if a.name == "score" && a.args != [] { ReadIsLegible(a.args, 0, sc, h.env, fs); }
    if a.name == "fail_metric" && |a.args| > 1 { ReadIsLegible(a.args, 1, sc, h.env, fs); }
  }

  ghost predicate CompilableCase(c: Case, sc: Schema, h: Host) {
    && BoolCondition(c.cond, sc, h.env.maxDepth) && Depth(h.env.fpu, c.cond) <= h.slots
    && AllPlaced(c.action.args, true) && RoomForAction(h.env.fpu, c.action, h.slots)
  }

  lemma {:induction false} CasesAreFine(cs: seq<Case>, otherwise: Action, sc: Schema, h: Host, fs: set<string>)
    requires Conforms(h.env, sc, fs) && CasesCalls(cs) <= fs && AllCalls(otherwise.args) <= fs
    requires forall c <- cs :: CompilableCase(c, sc, h)
    requires AllPlaced(otherwise.args, true) && RoomForAction(h.env.fpu, otherwise, h.slots)
    requires match Select(cs, h.env)
             case SelectionErr(_) => true
             case Chosen(k) => ActionEvaluates(cs[k].action, sc, h.env)
             case NoCase => ActionEvaluates(otherwise, sc, h.env)
    ensures FineCases(cs, otherwise, h)
    decreases |cs|
  {
    hide Conforms, BoolCondition, RoomForAction, AllPlaced, ActionEvaluates, Eval, FineCondition, FineAction, Depth,
         Calls, AllCalls;
    if cs == [] {
      ActionIsFine(otherwise, sc, h, fs);
    } else {
      assert CompilableCase(cs[0], sc, h);
      ConditionIsFine(cs[0].cond, sc, h, fs);
      var r := Eval(cs[0].cond, h.env, 0);
      if r == Val(BoolV(true)) {
        ActionIsFine(cs[0].action, sc, h, fs);
      } else if r.Val? {
        CasesAreFine(cs[1..], otherwise, sc, h, fs);
      }
    }
  }

  lemma MetricIsFine(m: Metric, sc: Schema, h: Host, fs: set<string>)
    requires Conforms(h.env, sc, fs) && CasesCalls(m.cases) <= fs && AllCalls(m.otherwise.args) <= fs
    requires CompilableMetric(m, sc, h.env.maxDepth)
    requires RoomForMetric(h.env.fpu, m, h.slots) && MetricEvaluates(m, sc, h.env)
    ensures FineCases(m.cases, m.otherwise, h)
  {
    hide Conforms, BoolCondition, ActionEvaluates, AllPlaced, Depth, RoomForAction, Select, FineCases;
    forall c <- m.cases ensures CompilableCase(c, sc, h) {
      var k :| 0 <= k < |m.cases| && m.cases[k] == c;
    }
    CasesAreFine(m.cases, m.otherwise, sc, h, fs);
  }

  lemma {:induction false} MetricsAreFine(ms: seq<Metric>, sc: Schema, h: Host, fs: set<string>)
    requires Conforms(h.env, sc, fs) && MetricsCalls(ms) <= fs
    requires forall k :: 0 <= k < |ms| ==>
               && CompilableMetric(ms[k], sc, h.env.maxDepth)
               && RoomForMetric(h.env.fpu, ms[k], h.slots) && MetricEvaluates(ms[k], sc, h.env)
    ensures FineMetrics(ms, h)
    decreases |ms|
  {
    hide Conforms, CompilableMetric, RoomForMetric, MetricEvaluates, FineCases;
    if ms != [] {
      MetricIsFine(ms[0], sc, h, fs);
      MetricsAreFine(ms[1..], sc, h, fs);
    }
  }

  /** A verified rule that meets the static conditions gives the same report and actions on both
      engines in every context that conforms on the functions it calls and in which the actions it
      takes evaluate their arguments, on any stack with room for it. */
  lemma VerifiedRulesAgree(rule: Rule, sc: Schema, env: Env, slots: nat)
    requires VerifyRule(rule, sc) && CompilableRule(rule, sc, env.maxDepth)
    requires Conforms(env, sc, RuleCalls(rule)) && ActionsEvaluate(rule, sc, env)
    requires RoomFor(env.fpu, rule, slots) && 1 <= slots <= INT_MAX
    ensures VmExecution(rule, env, slots) == TreeExecution(rule, env)
  {
    hide Conforms, VmExecution, TreeExecution, CompilableMetric, RoomForMetric, VerifyAction, BoolCondition,
         AllPlaced, RawEvalAll, Eval, Depth, ResolveType, FineCondition, Silent, FineMetrics, MetricEvaluates;
    var h := HostFor(rule, env, slots);
    match rule
    case SimpleRule(_, when, act) =>
      ConditionIsFine(when, sc, h, RuleCalls(rule));
      ReportsAgree(rule, env, slots);
    case MetricRule(_, _, _, ms) =>
      MetricsAreFine(ms, sc, h, RuleCalls(rule));
      ReportsAgree(rule, env, slots);
  }

  lemma BoundIsPositive(fpu: Fpu, rule: Rule, sc: Schema, limit: nat)
    requires CompilableRule(rule, sc, limit)
    ensures MaxStack(fpu, rule) >= 1
  {
  }

  /** For rules without arrays and calls room needs no condition of its own: once the compiler
      has accepted the rule, the reports are the same on its 256 slots, and would be on exactly
      `max_stack` slots. */
  lemma AcceptedRulesAgree(rule: Rule, sc: Schema, env: Env)
    requires VerifyRule(rule, sc) && CompilableRule(rule, sc, env.maxDepth)
    requires Conforms(env, sc, RuleCalls(rule)) && ActionsEvaluate(rule, sc, env)
    requires PlainRule(rule) && Accepted(env.fpu, rule)
    ensures VmExecution(rule, env, BYTECODE_MAX_STACK) == TreeExecution(rule, env)
    ensures VmExecution(rule, env, MaxStack(env.fpu, rule)) == TreeExecution(rule, env)
  {
    hide Conforms, VmExecution, TreeExecution, VerifyRule, CompilableRule, ActionsEvaluate, RoomFor, MaxStack,
         PlainRule;
    BoundSuffices(env.fpu, rule);
    VerifiedRulesAgree(rule, sc, env, BYTECODE_MAX_STACK);
    BoundIsPositive(env.fpu, rule, sc, env.maxDepth);
    VerifiedRulesAgree(rule, sc, env, MaxStack(env.fpu, rule));
  }

  /** The verifier lets a simple rule's WHEN have any type. On a verified rule whose parts can be
      compiled and whose arguments evaluate, the engines agree exactly when WHEN has type BOOL or
      its evaluation errs. Where WHEN has no type because something in it is declared VOID, only
      the two results can tell. */
  lemma VerifiedWhenAgreesExactly(rule: Rule, sc: Schema, env: Env, slots: nat)
    requires rule.SimpleRule? && VerifyRule(rule, sc) && Conforms(env, sc, RuleCalls(rule))
    requires CompilableExpr(rule.when, sc, env.maxDepth) && AllPlaced(rule.then_.args, true)
    requires RoomFor(env.fpu, rule, slots) && 1 <= slots <= INT_MAX
    requires RawEvalAll(rule.then_.args, env).Vals?
    ensures VmExecution(rule, env, slots) == TreeExecution(rule, env) <==>
            (var t, c, r := ResolveType(rule.when, sc), Eval(rule.when, env, 0), RawEval(rule.when, env);
             if t != TVoid then t == TBool || c.Err?
             else if c.Err? then r.Val? ==> !Truth(r.v) && !r.v.BoolV?
             else if c.v == BoolV(true) then r.Val? && Truth(r.v)
             else r == Val(BoolV(false)))
  {
    hide Conforms, VmExecution, TreeExecution, Eval, RawEvalAll, Depth, ResolveType, VerifyAction, AllPlaced,
         Clean, Placed, WithinDepth, RawEval, Silent;
    if ResolveType(rule.when, sc) != TVoid { TypeSoundness(rule.when, sc, env, 0, RuleCalls(rule)); }
    SimpleExecutionsAgreeExactly(rule, env, slots);
  }

  /** The verifier lets a CASE condition have any type but an array's. Both engines choose the same
      case exactly when the one compiled code chooses has a condition of type BOOL. */
  lemma VerifiedCasesAgreeExactly(m: Metric, sc: Schema, env: Env)
    requires VerifyMetric(m, sc) && Conforms(env, sc, CasesCalls(m.cases))
    requires forall c <- m.cases :: CompilableExpr(c.cond, sc, env.maxDepth) && ResolveType(c.cond, sc) != TVoid
    ensures RawSelect(m.cases, env) == Select(m.cases, env) <==>
            (var s := RawSelect(m.cases, env); s.Chosen? ==> ResolveType(m.cases[s.k].cond, sc) == TBool)
  {
    hide Conforms, Eval, RawEval, ResolveType, Clean, WithinDepth, Placed, NoArrayComparison, Select, RawSelect,
         VerifyMetric;
    forall k | 0 <= k < |m.cases|
      ensures Legible(m.cases[k].cond, env)
      ensures Sound(RawEval(m.cases[k].cond, env), ResolveType(m.cases[k].cond, sc))
    {
      CaseCallsAreIn(m.cases, k);
      TypeSoundness(m.cases[k].cond, sc, env, 0, CasesCalls(m.cases));
    }
    CasesAgreeExactly(m.cases, env);
    RawChosenHolds(m.cases, env);
  }

  lemma {:induction false} RawChosenHolds(cs: seq<Case>, env: Env)
    ensures var s := RawSelect(cs, env);
            s.Chosen? ==> RawEval(cs[s.k].cond, env).Val? && Truth(RawEval(cs[s.k].cond, env).v)
    decreases |cs|
  {
    hide RawEval, Truth;
    if cs != [] { RawChosenHolds(cs[1..], env); }
  }

  // ----- what the verifier accepts -----

  /** The action is declared, with as many parameters as it has arguments, each argument of the
      declared type or an INT for a FLOAT. */
  ghost predicate TypedAction(a: Action, sc: Schema) {
    a.name in sc.actions && |a.args| == |sc.actions[a.name].args| &&
    forall k :: 0 <= k < |a.args| ==>
      var t, d := ResolveType(a.args[k], sc), sc.actions[a.name].args[k];
      t != TVoid && (t == d || (t == TInt && d == TFloat))
  }

  ghost predicate TypedMetric(m: Metric, sc: Schema) {
    && (forall c <- m.cases ::
          ResolveType(c.cond, sc) !in {TVoid, TArray} && TypedAction(c.action, sc))
    && TypedAction(m.otherwise, sc)
  }

  lemma {:induction false} ResolvedAt(es: seq<Expr>, k: nat, sc: Schema)
    requires k < |es|
    ensures ResolveAll(es, sc)[k] == ResolveType(es[k], sc)
    decreases k
  {
    if k > 0 { ResolvedAt(es[1..], k - 1, sc); }
  }

  lemma VerifiedActionExactly(a: Action, sc: Schema)
    requires NothingVoid(sc, AllCalls(a.args))
    ensures VerifyAction(a, sc) <==> TypedAction(a, sc)
  {
    hide ResolveType, ResolveAll, ArgumentsSilent, AcceptsAll;
    if a.name in sc.actions && |a.args| == |sc.actions[a.name].args| {
      ArgumentsAreTyped(sc.actions[a.name].args, a.args, sc);
      AcceptedExactly(sc.actions[a.name].args, ResolveAll(a.args, sc));
      forall k | 0 <= k < |a.args| ensures ResolveAll(a.args, sc)[k] == ResolveType(a.args[k], sc) {
        ResolvedAt(a.args, k, sc);
      }
    }
  }

  lemma VerifiedMetricExactly(m: Metric, sc: Schema)
    requires NothingVoid(sc, CasesCalls(m.cases) + AllCalls(m.otherwise.args))
    ensures VerifyMetric(m, sc) <==> TypedMetric(m, sc)
  {
    hide ResolveType, Silent, VerifyAction, TypedAction;
    VerifiedActionExactly(m.otherwise, sc);
    forall k | 0 <= k < |m.cases|
      ensures VerifyCase(m.cases[k], sc) <==>
              ResolveType(m.cases[k].cond, sc) !in {TVoid, TArray} && TypedAction(m.cases[k].action, sc)
    {
      CaseCallsAreIn(m.cases, k);
      SilentIsTyped(m.cases[k].cond, sc);
      VerifiedActionExactly(m.cases[k].action, sc);
    }
    assert forall c <- m.cases :: exists k :: 0 <= k < |m.cases| && m.cases[k] == c;
  }

  lemma {:induction false} MetricCallsAreIn(ms: seq<Metric>, k: nat)
    requires k < |ms|
    ensures CasesCalls(ms[k].cases) + AllCalls(ms[k].otherwise.args) <= MetricsCalls(ms)
    decreases k
  {
    hide CasesCalls, AllCalls;
    if k > 0 { MetricCallsAreIn(ms[1..], k - 1); }
  }

  /** Where nothing it uses is declared VOID, a rule is accepted exactly when its condition or its
      conditions have a type, no CASE is an array, and every action is called as it is declared. */
  lemma VerifiedExactly(rule: Rule, sc: Schema)
    requires NothingVoid(sc, RuleCalls(rule))
    ensures VerifyRule(rule, sc) <==>
            if rule.SimpleRule? then ResolveType(rule.when, sc) != TVoid && TypedAction(rule.then_, sc)
            else forall m <- rule.metrics :: TypedMetric(m, sc)
  {
    hide ResolveType, Silent, VerifyAction, TypedAction, VerifyMetric, TypedMetric;
    match rule
    case SimpleRule(_, when, act) =>
      SilentIsTyped(when, sc);
      VerifiedActionExactly(act, sc);
    case MetricRule(_, _, _, ms) =>
      forall k | 0 <= k < |ms| ensures VerifyMetric(ms[k], sc) <==> TypedMetric(ms[k], sc) {
        MetricCallsAreIn(ms, k);
        VerifiedMetricExactly(ms[k], sc);
      }
      assert forall m <- ms :: exists k :: 0 <= k < |ms| && ms[k] == m;
  }
}
