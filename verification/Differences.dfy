/**
 Rules on which the engines differ, or on which a checked rule fails: one for each condition of
 the agreement theorems.
 */
module Differences {
  import opened Values
  import opened Ast
  import opened TreeWalk
  import opened Machine
  import opened Compiler
  import opened Agreement
  import opened Types
  import opened Reports
  import opened RuleCompiler
  import opened CompiledRules
  import opened ReportAgreement
  import opened VerifiedRules

  function WorldOf(a: Value, fpu: Fpu, maxDepth: nat): Env {
    Env(map["a" := a], map[], {}, fpu, maxDepth)
  }

  function RuleOn(when: Expr): Rule {
    SimpleRule("r", when, Action("note", []))
  }

  /** A simple rule with such an action, through the value its compiled condition has. */
  lemma CompiledOutcome(when: Expr, env: Env, slots: nat)
    requires Placed(when, true) && 1 <= slots <= INT_MAX && Depth(env.fpu, when) <= slots
    ensures
      VmExecution(RuleOn(when), env, slots).report ==
      match RawEval(when, env)
      case Err(_) => ErrorReport
      case Val(v) =>
        if Truth(v) then SimpleReport("r", true)
        else if v.BoolV? then SimpleReport("r", false)
        else ErrorReport
  {
    hide VmExecution, Depth, Placed, RawEval;
    assert RawEvalAll([], env) == Vals([]);
    RawSimpleRuleRuns(RuleOn(when), env, slots);
  }

  /** WHEN is a variable that holds the INT 1: the rule passes on the tree walk, which waits for a
      BOOL, and fails when compiled, which tests bits. */
  lemma NonBoolWhenWitness(fpu: Fpu, slots: nat)
    requires 1 <= slots <= INT_MAX
    ensures
      var rule, env := RuleOn(Id("a")), WorldOf(IntV(1), fpu, 64);
      TreeExecution(rule, env).report.status == Passed && VmExecution(rule, env, slots).report.status == Failed
  {
    hide VmExecution;
    CompiledOutcome(Id("a"), WorldOf(IntV(1), fpu, 64), slots);
  }

  /** WHEN is `a AND a` with the INT 0 in a: the tree walk makes it the BOOL false and the rule
      passes; compiled code leaves the INT, which is no result for a rule. */
  lemma NonBoolOperandWitness(fpu: Fpu, slots: nat)
    requires 1 <= slots <= INT_MAX
    ensures
      var rule, env := RuleOn(Bin(And, Id("a"), Id("a"))), WorldOf(IntV(0), fpu, 64);
      TreeExecution(rule, env).report.status == Passed && VmExecution(rule, env, slots).report == ErrorReport
  {
    hide VmExecution;
    var env, both := WorldOf(IntV(0), fpu, 64), Bin(And, Id("a"), Id("a"));
    assert RawEval(Id("a"), env) == Val(IntV(0)) && Eval(Id("a"), env, 1) == Val(IntV(0));
    assert RawEval(both, env) == Val(IntV(0)) && Eval(both, env, 0) == Val(BoolV(false));
    assert Depth(fpu, Id("a")) == 1 && Depth(fpu, both) == 1;
    CompiledOutcome(both, env, slots);
  }

  /** A schema with an action that is declared VOID and takes a string. */
  const BLOCK_SCHEMA := Schema(
    map["a" := TBool],
    map["block" := Signature([TString], TVoid), "note" := Signature([], TVoid)])

  const BLOCK_OR_A: Expr := Bin(Or, Call("block", [Lit(StrV("x"))]), Id("a"))

  /** WHEN is `block("x") OR a` with a false, where block is an action and no function. The verifier
      reports nothing, as the call is VOID. The tree walk takes that VOID for false and the rule
      passes; compiled code finds the argument count in it and the rule fails. */
  lemma UnregisteredCallWitness(fpu: Fpu, slots: nat)
    requires 2 <= slots <= INT_MAX
    ensures
      var rule, env := RuleOn(BLOCK_OR_A), WorldOf(BoolV(false), fpu, 64);
      && VerifyRule(rule, BLOCK_SCHEMA) && ResolveType(BLOCK_OR_A, BLOCK_SCHEMA) == TVoid
      && TreeExecution(rule, env).report.status == Passed && VmExecution(rule, env, slots).report.status == Failed
  {
    hide VmExecution;
    var env := WorldOf(BoolV(false), fpu, 64);
    BlockIsSilent();
    BlockCompiled(env);
    BlockOnTheTree(env);
    hide Eval, RawEval, Depth, Placed, VerifyRule, ResolveType;
    CompiledOutcome(BLOCK_OR_A, env, slots);
  }

  lemma BlockCompiled(env: Env)
    requires "block" !in env.fns
    ensures Depth(env.fpu, BLOCK_OR_A) == 2 && Placed(BLOCK_OR_A, true) && RawEval(BLOCK_OR_A, env) == Val(Void(1))
  {
    CallOfOne(env, "block", Lit(StrV("x")));
    hide DepthAll, AllPlaced, RawEvalAll;
  }

  lemma BlockOnTheTree(env: Env)
    requires "block" !in env.fns && env.vars == map["a" := BoolV(false)] && env.maxDepth >= 2
    ensures Eval(BLOCK_OR_A, env, 0) == Val(BoolV(false))
  {
    hide EvalAll;
    assert Eval(Id("a"), env, 1) == Val(BoolV(false)) && Eval(BLOCK_OR_A.left, env, 1) == Val(VoidV);
  }

  lemma BlockIsSilent()
    ensures VerifyRule(RuleOn(BLOCK_OR_A), BLOCK_SCHEMA) && ResolveType(BLOCK_OR_A, BLOCK_SCHEMA) == TVoid
  {
    var x := Lit(StrV("x"));
    assert [x][1..] == [] && [TString][1..] == [];
    assert ArgumentsSilent([], [], BLOCK_SCHEMA) && Accepts(TString, TString);
    assert ArgumentsSilent([TString], [x], BLOCK_SCHEMA);
    assert ResolveAll([x], BLOCK_SCHEMA) == [TString];
  }

  /** What one call with one placed argument that has a value needs and gives. */
  lemma CallOfOne(env: Env, f: string, e: Expr)
    requires (e.Lit? || e.Id?)
    ensures Depth(env.fpu, Call(f, [e])) == 2 && Placed(Call(f, [e]), true)
    ensures RawEvalAll([e], env) == Vals([RawEval(e, env).v])
    ensures f !in env.fns ==> RawEval(Call(f, [e]), env) == Val(Void(1))
  {
    assert [e][1..] == [] && AllPlaced([], false) && RawEvalAll([], env) == Vals([]);
    assert [RawEval(e, env).v] + [] == [RawEval(e, env).v];
    assert DepthAll(env.fpu, []) == 0 && Depth(env.fpu, e) == 1;
    assert DepthAll(env.fpu, [e]) == 1;
  }

  /** A function that asks whether it was given the INT 0. */
  const IS_ZERO: seq<Value> -> Value := vs => BoolV(vs == [IntV(0)])

  /** WHEN is f(a) with a unbound: f gets VOID on the tree walk and INT 0 from compiled code. */
  lemma VoidArgumentWitness(fpu: Fpu, slots: nat)
    requires 2 <= slots <= INT_MAX
    ensures
      var rule, env := RuleOn(Call("f", [Id("a")])), Env(map[], map["f" := IS_ZERO], {}, fpu, 64);
      TreeExecution(rule, env).report.status == Passed && VmExecution(rule, env, slots).report.status == Failed
  {
    hide VmExecution;
    var env, a := Env(map[], map["f" := IS_ZERO], {}, fpu, 64), Id("a");
    var call := Call("f", [a]);
    CallOfOne(env, "f", a);
    assert [a][1..] == [] && EvalAll([], env, 0) == Vals([]) && Eval(a, env, 0) == Val(VoidV);
    assert EvalAll([a], env, 0) == Vals([VoidV]);
    assert Eval(call, env, 0) == Val(IS_ZERO([VoidV])) == Val(BoolV(false));
    assert TidyAll([VoidV]) == [IntV(0)] by { assert [VoidV][1..] == [] && TidyAll([]) == []; }
    assert RawEval(call, env) == Val(IS_ZERO([IntV(0)])) == Val(BoolV(true));
    CompiledOutcome(call, env, slots);
  }

  /** THEN is note(1 / 0): the tree walk triggers the action without looking at its argument;
      compiled code evaluates it and ends in the error. */
  lemma ActionArgumentWitness(env: Env, slots: nat)
    requires 2 <= slots <= INT_MAX && env.maxDepth >= 1
    ensures
      var rule := SimpleRule("r", Lit(BoolV(true)), Action("note", [Bin(Div, Lit(IntV(1)), Lit(IntV(0)))]));
      TreeExecution(rule, env).report.status == Failed && VmExecution(rule, env, slots).report == ErrorReport
  {
    hide VmExecution;
    var zero, one, yes := Lit(IntV(0)), Lit(IntV(1)), Lit(BoolV(true));
    var by0 := Bin(Div, one, zero);
    var rule := SimpleRule("r", yes, Action("note", [by0]));
    assert RawEval(one, env) == Val(IntV(1)) && RawEval(zero, env) == Val(IntV(0));
    assert RawEval(by0, env) == Err(DivZero);
    assert RawEvalAll([by0], env) == SeqErr(DivZero);
    assert [by0][1..] == [] && AllPlaced([], false) && DepthAll(env.fpu, []) == 0;
    assert Placed(by0, true) && Depth(env.fpu, by0) <= 2;
    assert AllPlaced([by0], true) && DepthAll(env.fpu, [by0]) <= 2;
    assert RawEval(yes, env) == Val(BoolV(true)) && Eval(yes, env, 0) == Val(BoolV(true));
    assert PlacedExpr(yes, HostFor(rule, env, slots));
    RawSimpleRuleRuns(rule, env, slots);
  }

  /** One case on a variable, and an action that scores the weight when taken and 0 as a default. */
  const CASE_ON_A := Metric("m", 100, false, [Case(Id("a"), Action("note", []))], Action("note", []))

  /** CASE a with the INT 1 in a: compiled code takes the case and the rule passes, the tree walk
      takes the default and it fails. */
  lemma TruthyCaseWitness(fpu: Fpu, slots: nat)
    requires 1 <= slots <= INT_MAX
    ensures
      var rule, env := MetricRule("r", 80, 60, [CASE_ON_A]), WorldOf(IntV(1), fpu, 64);
      TreeExecution(rule, env).report.status == Failed && VmExecution(rule, env, slots).report.status == Passed
  {
    hide VmExecution;
    var rule, env := MetricRule("r", 80, 60, [CASE_ON_A]), WorldOf(IntV(1), fpu, 64);
    var blank := Tally([], [], false);
    CaseTallies(env);
    assert PlacedCases(CASE_ON_A.cases, CASE_ON_A.otherwise, HostFor(rule, env, slots));
    hide RawTallyMetric, TallyMetric, PlacedCases;
    var raw, tree := RawTallyMetric(CASE_ON_A, env, blank), TallyMetric(CASE_ON_A, env, blank);
    assert [CASE_ON_A][1..] == [];
    assert RawTallyMetrics([CASE_ON_A], env, blank) == RawTallyMetrics([], env, raw) == raw;
    assert TallyMetrics([CASE_ON_A], env, blank) == TallyMetrics([], env, tree) == tree;
    ScoreOfOne(raw.metrics);
    ScoreOfOne(tree.metrics);
    RawMetricRuleRuns(rule, env, slots);
  }

  lemma CaseTallies(env: Env)
    requires env.vars == map["a" := IntV(1)] && env.maxDepth >= 1
    ensures
      var blank := Tally([], [], false);
      var raw, tree := RawTallyMetric(CASE_ON_A, env, blank), TallyMetric(CASE_ON_A, env, blank);
      && !raw.failed && raw.metrics == [MetricResult("m", 100, false, 100, true)]
      && !tree.failed && tree.metrics == [MetricResult("m", 100, false, 0, false)]
  {
    var cs := CASE_ON_A.cases;
    assert cs[1..] == [] && RawEvalAll([], env) == Vals([]);
    assert RawEval(Id("a"), env) == Val(IntV(1)) && Eval(Id("a"), env, 0) == Val(IntV(1));
    assert Select([], env) == NoCase;
    assert RawSelect(cs, env) == Chosen(0) && Select(cs, env) == NoCase;
  }

  /** WHEN is NOT true under a nesting limit of 1: the operand is beyond the limit, so the tree walk
      sees VOID, takes NOT of it for true and the rule fails; compiled code is not limited. */
  lemma NestingLimitWitness(fpu: Fpu, slots: nat)
    requires 1 <= slots <= INT_MAX
    ensures
      var rule, env := RuleOn(Un(Not, Lit(BoolV(true)))), WorldOf(VoidV, fpu, 1);
      TreeExecution(rule, env).report.status == Failed && VmExecution(rule, env, slots).report.status == Passed
  {
    hide VmExecution;
    var env, e := WorldOf(VoidV, fpu, 1), Un(Not, Lit(BoolV(true)));
    assert Eval(Lit(BoolV(true)), env, 1) == Val(VoidV) && RawEval(Lit(BoolV(true)), env) == Val(BoolV(true));
    assert Eval(e, env, 0) == Val(BoolV(true)) && RawEval(e, env) == Val(BoolV(false));
    CompiledOutcome(e, env, slots);
  }

  /** A metric rule that scores 0 with a pass threshold of 0: it passes on the tree walk and fails
      when compiled, where the threshold has become 80. */
  lemma ThresholdWitness(env: Env, slots: nat)
    requires 1 <= slots <= INT_MAX
    ensures
      var rule := MetricRule("r", 0, 60, [ZERO_METRIC]);
      TreeExecution(rule, env).report.status == Passed && VmExecution(rule, env, slots).report.status == Failed
  {
    hide TreeExecution, VmExecution;
    ZeroScores(0, 60, env, slots);
  }

  /** `[1] == [1]` is a BOOL to the checker and a type error to both engines. */
  lemma ArrayComparisonWitness(sc: Schema, env: Env, slots: nat)
    requires 2 <= slots <= INT_MAX && env.maxDepth >= 3
    ensures
      var one := Arr([Lit(IntV(1))]);
      var when := Bin(Eq, one, one);
      && ResolveType(when, sc) == TBool && Eval(when, env, 0) == Err(TypeError)
      && TreeExecution(RuleOn(when), env).report == ErrorReport
      && VmExecution(RuleOn(when), env, slots).report == ErrorReport
  {
    hide VmExecution;
    var lit := Lit(IntV(1));
    var one := Arr([lit]);
    var when := Bin(Eq, one, one);
    OneElement(env, sc);
    hide Depth, Placed;
    assert RawEval(when, env) == Err(TypeError);
    CompiledOutcome(when, env, slots);
  }

  lemma OneElement(env: Env, sc: Schema)
    requires env.maxDepth >= 3
    ensures
      var one := Arr([Lit(IntV(1))]);
      && Eval(one, env, 1) == RawEval(one, env) == Val(ArrV([IntV(1)])) && ResolveType(one, sc) == TArray
      && Depth(env.fpu, Bin(Eq, one, one)) == 2 && Placed(Bin(Eq, one, one), true)
  {
    var lit := Lit(IntV(1));
    OneLiteral(env, lit, sc);
    hide EvalAll, RawEvalAll, ResolveAll, DepthAll, AllPlaced;
    assert Depth(env.fpu, Arr([lit])) == 1;
  }

  /** A list of one literal. */
  lemma OneLiteral(env: Env, e: Expr, sc: Schema)
    requires e.Lit? && env.maxDepth >= 3
    ensures EvalAll([e], env, 2) == RawEvalAll([e], env) == Vals([e.lit])
    ensures ResolveAll([e], sc) == [TypeOf(e.lit)] && DepthAll(env.fpu, [e]) == 1
    ensures AllPlaced([e], true) && AllPlaced([e], false)
  {
    assert AllPlaced([], false) && Placed(e, true) && Placed(e, false);
    assert [e][1..] == [] && [e.lit] + [] == [e.lit] && [TypeOf(e.lit)] + [] == [TypeOf(e.lit)];
    assert EvalAll([], env, 2) == Vals([]) && RawEvalAll([], env) == Vals([]);
  }
}
