/**
 Forward progress and the instruction quota (bc_patch_jmp and the head of the loop in
 bc_run_instructions, src/vm/bytecode.c).
 */
module Quota {
  import opened Values
  import opened Ast
  import opened Machine
  import opened Compiler
  import opened Reports
  import opened RuleCompiler

  // ----- every jump the compiler emits goes strictly forward -----

  lemma ForwardConcat(a: Program, b: Program)
    requires Forward(a) && Forward(b)
    ensures Forward(a + b)
  {
    forall k | 0 <= k < |a + b| ensures JumpInside((a + b)[k], |a + b| - k) {
      if k < |a| {
        assert (a + b)[k] == a[k] && JumpInside(a[k], |a| - k);
      } else {
        assert (a + b)[k] == b[k - |a|] && JumpInside(b[k - |a|], |b| - (k - |a|));
      }
    }
  }

  /** A jump in front of enough code. */
  lemma ForwardJump(inst: Inst<string>, rest: Program)
    requires Forward(rest) && JumpInside(inst, |rest| + 1)
    ensures Forward([inst] + rest)
  {
    forall k | 0 <= k < |rest| + 1 ensures JumpInside(([inst] + rest)[k], |rest| + 1 - k) {
      if k > 0 { assert ([inst] + rest)[k] == rest[k - 1] && JumpInside(rest[k - 1], |rest| - (k - 1)); }
    }
  }

  lemma ForwardPlain(p: Program)
    requires forall k :: 0 <= k < |p| ==> !IsJump(p[k])
    ensures Forward(p)
  {
  }

  lemma {:induction false} CodeIsForward(fpu: Fpu, e: Expr)
    ensures Forward(Code(fpu, e)) && |Code(fpu, e)| >= 1
    decreases e, 1
  {
    hide Fold, IsConst, Forward;
    if FoldsTo(fpu, e).Some? || e.Lit? || e.Id? {
      ForwardPlain(Code(fpu, e));
    } else if IsConnective(e) {
      LogicalIsForward(fpu, e);
    } else if e.Bin? {
      CodeIsForward(fpu, e.left);
      CodeIsForward(fpu, e.right);
      ForwardPlain([BinOpI(e.bop)]);
      ForwardConcat(Code(fpu, e.left), Code(fpu, e.right));
      ForwardConcat(Code(fpu, e.left) + Code(fpu, e.right), [BinOpI(e.bop)]);
    } else if e.Un? {
      CodeIsForward(fpu, e.arg);
      ForwardPlain([UnOpI(e.uop)]);
      ForwardConcat(Code(fpu, e.arg), [UnOpI(e.uop)]);
    } else {
      ListIsForward(fpu, e);
    }
  }

  lemma {:induction false} ListIsForward(fpu: Fpu, e: Expr)
    requires (e.Arr? || e.Call?) && FoldsTo(fpu, e).None?
    ensures Forward(Code(fpu, e)) && |Code(fpu, e)| >= 1
    decreases e, 0
  {
    hide Fold, Forward;
    var es := if e.Arr? then e.elems else e.args;
    var tail: Program := if e.Arr? then [PushArr(CountOf(|es|))] else [PushLit(IntV(CountOf(|es|))), CallI(e.fn)];
    AllIsForward(fpu, es);
    ForwardPlain(tail);
    ForwardConcat(CodeAll(fpu, es), tail);
  }

  lemma {:induction false} LogicalIsForward(fpu: Fpu, e: Expr)
    requires IsConnective(e)
    ensures Forward(Code(fpu, e)) && |Code(fpu, e)| >= 1
    decreases e, 0
  {
    hide Forward;
    var cl, cr := Code(fpu, e.left), Code(fpu, e.right);
    var jump := Branch(e.bop.Or?, |cr| + 2);
    CodeIsForward(fpu, e.left);
    CodeIsForward(fpu, e.right);
    ForwardJump(Pop, cr);
    ForwardJump(jump, [Pop] + cr);
    ForwardConcat(cl, [jump] + ([Pop] + cr));
    assert Code(fpu, e) == cl + [jump, Pop] + cr;
    assert cl + [jump, Pop] + cr == cl + ([jump] + ([Pop] + cr));
  }

  lemma {:induction false} AllIsForward(fpu: Fpu, es: seq<Expr>)
    ensures Forward(CodeAll(fpu, es))
    decreases es, 0
  {
    if es != [] {
      CodeIsForward(fpu, es[0]);
      AllIsForward(fpu, es[1..]);
      ForwardConcat(Code(fpu, es[0]), CodeAll(fpu, es[1..]));
    }
  }

  lemma ActionIsForward(fpu: Fpu, a: Action)
    ensures Forward(CodeAction(fpu, a))
  {
    hide CodeAll, Forward;
    var tail: Program := [PushLit(IntV(CountOf(|a.args|))), ActionI(a.name)];
    AllIsForward(fpu, a.args);
    ForwardPlain(tail);
    ForwardConcat(CodeAll(fpu, a.args), tail);
  }

  lemma DoIsForward(fpu: Fpu, a: Action, fallback: int32)
    ensures Forward(CodeDo(fpu, a, fallback))
  {
    hide Code, CodeAction, Forward;
    ActionIsForward(fpu, a);
    if a.name == "score" && a.args != [] {
      CodeIsForward(fpu, a.args[0]);
      ForwardPlain([SetScore]);
      ForwardConcat(Code(fpu, a.args[0]), [SetScore]);
    } else {
      ForwardPlain(CodeScore(fpu, a, fallback));
    }
    ForwardConcat(CodeAction(fpu, a), CodeScore(fpu, a, fallback));
  }

  lemma {:induction false} CasesAreForward(fpu: Fpu, cs: seq<Case>, weight: int32, otherwise: Program)
    requires Forward(otherwise)
    ensures Forward(CodeCases(fpu, cs, weight, otherwise))
    decreases |cs|
  {
    hide Forward, Code, CodeDo;
    if cs != [] {
      var rest := CodeCases(fpu, cs[1..], weight, otherwise);
      var cond, act := Code(fpu, cs[0].cond), CodeDo(fpu, cs[0].action, weight);
      var jf, jend := JmpIfFalse(|act| + 3), Jmp(|rest| + 2);
      CasesAreForward(fpu, cs[1..], weight, otherwise);
      CodeIsForward(fpu, cs[0].cond);
      DoIsForward(fpu, cs[0].action, weight);
      ForwardJump(Pop, rest);
      ForwardJump(jend, [Pop] + rest);
      ForwardConcat(act, [jend] + ([Pop] + rest));
      var tail := act + ([jend] + ([Pop] + rest));
      ForwardJump(Pop, tail);
      ForwardJump(jf, [Pop] + tail);
      ForwardConcat(cond, [jf] + ([Pop] + tail));
      CaseShape(cond, act, rest);
    }
  }

  lemma CaseShape(cond: Program, act: Program, rest: Program)
    ensures (cond + ([JmpIfFalse(|act| + 3), Pop] + (act + [Jmp(|rest| + 2), Pop]))) + rest
         == cond + ([JmpIfFalse(|act| + 3)] + ([Pop] + (act + ([Jmp(|rest| + 2)] + ([Pop] + rest)))))
  {
  }

  lemma {:induction false} MetricsAreForward(fpu: Fpu, ms: seq<Metric>)
    ensures Forward(CodeMetrics(fpu, ms))
    decreases |ms|
  {
    hide Forward, CodeCases, CodeDo;
    if ms == [] {
      ForwardPlain([]);
    } else {
      var otherwise := CodeDo(fpu, ms[0].otherwise, 0);
      DoIsForward(fpu, ms[0].otherwise, 0);
      CasesAreForward(fpu, ms[0].cases, ms[0].weight, otherwise);
      ForwardJump(MetricStart(ms[0].name), CodeCases(fpu, ms[0].cases, ms[0].weight, otherwise));
      MetricsAreForward(fpu, ms[1..]);
      ForwardConcat(CodeMetric(fpu, ms[0]), CodeMetrics(fpu, ms[1..]));
    }
  }

  /** Every jump of a compiled rule goes strictly forward and lands inside the program. */
  lemma RuleIsForward(fpu: Fpu, rule: Rule)
    ensures Forward(CodeRule(fpu, rule))
  {
    hide Forward, CodeMetrics, Code, CodeAction;
    match rule
    case MetricRule(_, _, _, ms) =>
      MetricsAreForward(fpu, ms);
      ForwardPlain([RuleEnd]);
      ForwardConcat(CodeMetrics(fpu, ms), [RuleEnd]);
    case SimpleRule(_, when, act) =>
      var cond, action := Code(fpu, when), CodeAction(fpu, act);
      var tail: Program := [PushLit(BoolV(true)), Ret];
      CodeIsForward(fpu, when);
      ActionIsForward(fpu, act);
      ForwardPlain(tail);
      ForwardConcat(action, tail);
      ForwardJump(JmpIfFalse(|action| + 2), action + tail);
      ForwardConcat(cond, [JmpIfFalse(|action| + 2)] + (action + tail));
  }

  // ----- counting instructions -----

  /** The number of instructions a run dispatches. */
  function Steps(h: Host, code: Program, ip: int, s: State): nat
    decreases |code| - ip
  {
    if ip < 0 || ip >= |code| then 0
    else match Step(h, code[ip], s)
      case Halt(_, _) => 1
      case Next(off, s') => if off < 1 then 1 else 1 + Steps(h, code, ip + off, s')
  }

  lemma NextOffset(h: Host, inst: Inst<string>, s: State, room: int)
    requires JumpInside(inst, room) && room >= 1 && Step(h, inst, s).Next?
    ensures 1 <= Step(h, inst, s).off <= room
  {
  }

  /** A run of a forward program executes no instruction twice. */
  lemma {:induction false} StepsBounded(h: Host, code: Program, ip: nat, s: State)
    requires Forward(code) && ip <= |code|
    ensures Steps(h, code, ip, s) <= |code| - ip
    decreases |code| - ip
  {
    hide Step;
    if ip < |code| && Step(h, code[ip], s).Next? {
      assert JumpInside(code[ip], |code| - ip);
      NextOffset(h, code[ip], s, |code| - ip);
      StepsBounded(h, code, ip + Step(h, code[ip], s).off, Step(h, code[ip], s).s);
    }
  }

  /** The loop with `left` instructions to go before the quota is exceeded. */
  function RunLimited(h: Host, code: Program, ip: int, s: State, left: nat): RunResult
    decreases |code| - ip
  {
    if ip < 0 || ip >= |code| then RunResult(s.(stk := []), VoidV)
    else if left == 0 then RunResult(Raise(s, QuotaExceeded).(stk := []), VoidV)
    else match Step(h, code[ip], s)
      case Halt(s', v) => RunResult(s', v)
      case Next(off, s') => if off < 1 then RunResult(s', VoidV) else RunLimited(h, code, ip + off, s', left - 1)
  }

  /** A quota the run stays within changes nothing; a smaller one always ends it with an error. */
  lemma {:induction false} QuotaTransparency(h: Host, code: Program, ip: nat, s: State, left: nat)
    ensures if Steps(h, code, ip, s) <= left then RunLimited(h, code, ip, s, left) == Run(h, code, ip, s)
            else RunLimited(h, code, ip, s, left).final.fault != NoFault
    decreases |code| - ip
  {
    hide Step;
    if ip < |code| && left > 0 && Step(h, code[ip], s).Next? && Step(h, code[ip], s).off >= 1 {
      QuotaTransparency(h, code, ip + Step(h, code[ip], s).off, Step(h, code[ip], s).s, left - 1);
    }
  }

  /** Executing a compiled rule under an instruction limit; zero means no limit. */
  function VmExecutionLimited(rule: Rule, env: Env, slots: nat, limit: nat): Execution {
    var h, code := HostFor(rule, env, slots), CodeRule(env.fpu, rule);
    var r := if limit == 0 then Run(h, code, 0, Start) else RunLimited(h, code, 0, Start, limit);
    var (passAt, partialAt) := Thresholds(rule);
    Execution(ReportOf(rule.name, passAt, partialAt, r), r.final.actions)
  }

  predicate CallFree(code: Program) {
    forall k :: 0 <= k < |code| ==> !code[k].CallI?
  }

  /** For call-free rules: a limit at or above the instructions the unlimited run dispatches,
      which are at most the program's length, gives the unlimited execution; any smaller one
      gives an ERROR report. */
  lemma {:induction false} QuotaDecidesReports(rule: Rule, env: Env, slots: nat, limit: nat)
    requires CallFree(CodeRule(env.fpu, rule))
    ensures
      var n := Steps(HostFor(rule, env, slots), CodeRule(env.fpu, rule), 0, Start);
      && n <= |CodeRule(env.fpu, rule)|
      && (limit == 0 || limit >= n ==> VmExecutionLimited(rule, env, slots, limit) == VmExecution(rule, env, slots))
      && (0 < limit < n ==> VmExecutionLimited(rule, env, slots, limit).report == ErrorReport)
  {
    hide CodeRule, Run, RunLimited, Steps;
    var h, code := HostFor(rule, env, slots), CodeRule(env.fpu, rule);
    RuleIsForward(env.fpu, rule);
    StepsBounded(h, code, 0, Start);
    QuotaTransparency(h, code, 0, Start, limit);
  }
}
