/**
 Running a compiled rule never misuses the stack: what holds of every state the run reaches.

 Nothing is asked of types, variables, thresholds or the nesting limit: only that the ANDs and
 ORs of the rule sit at the stack bottom.
 */
module StackSafety {
  import opened Values
  import opened Ast
  import opened TreeWalk
  import opened Machine
  import opened Compiler
  import opened Agreement
  import opened RuleCompiler
  import opened CompiledRules
  import opened ReportAgreement
  import opened StackBound

  predicate Tolerable(f: Fault) {
    f != Underflow && f != StackFull
  }

  /** From this state on the run never holds more than `bound` values, never pops an empty stack or
      pushes on a full one, has an empty stack at every METRIC_START, and always moves forward. */
  ghost predicate Safe(h: Host, code: Program, ip: nat, s: State, bound: nat)
    decreases |code| - ip
  {
    && |s.stk| <= bound && Tolerable(s.fault)
    && (ip < |code| ==>
          && (code[ip].MetricStart? ==> s.stk == [])
          && match Step(h, code[ip], s)
             case Halt(s', _) => Tolerable(s'.fault)
             case Next(off, s') => off >= 1 && Safe(h, code, ip + off, s', bound))
  }

  /** The state after n instructions, if the run gets that far, and the one to come next. */
  function Reached(h: Host, code: Program, ip: nat, s: State, n: nat): Option<(nat, State)>
    decreases n
  {
    if n == 0 then Some((ip, s))
    else if ip >= |code| then None
    else match Step(h, code[ip], s)
      case Halt(_, _) => None
      case Next(off, s') => if off < 1 then None else Reached(h, code, ip + off, s', n - 1)
  }

  /** Safe speaks of every state the run reaches, and of how the run ends. */
  lemma {:induction false} SafeEverywhere(h: Host, code: Program, ip: nat, s: State, bound: nat, n: nat)
    requires Safe(h, code, ip, s, bound)
    ensures match Reached(h, code, ip, s, n)
            case None => true
            case Some((at, t)) =>
              |t.stk| <= bound && Tolerable(t.fault) && (at < |code| && code[at].MetricStart? ==> t.stk == [])
    decreases n
  {
    hide Step;
    if n > 0 && ip < |code| && Step(h, code[ip], s).Next? {
      SafeEverywhere(h, code, ip + Step(h, code[ip], s).off, Step(h, code[ip], s).s, bound, n - 1);
    }
  }

  lemma {:induction false} SafeAtTheEnd(h: Host, code: Program, ip: nat, s: State, bound: nat)
    requires Safe(h, code, ip, s, bound)
    ensures Tolerable(Run(h, code, ip, s).final.fault)
    decreases |code| - ip
  {
    hide Step;
    if ip < |code| && Step(h, code[ip], s).Next? {
      SafeAtTheEnd(h, code, ip + Step(h, code[ip], s).off, Step(h, code[ip], s).s, bound);
    }
  }

  // ----- expressions -----

  /** Room for some more values. */
  predicate Within(h: Host, s: State, need: nat, bound: nat) {
    s.fault == NoFault && |s.stk| + need <= bound <= h.slots <= INT_MAX
  }

  /** One instruction that does not jump. */
  lemma SafeOne(h: Host, code: Program, i: nat, inst: Inst<string>, s: State, bound: nat)
    requires At(code, i, [inst]) && !IsJump(inst) && !inst.MetricStart? && |s.stk| <= bound && Tolerable(s.fault)
    requires match One(h, inst, s)
             case Go(s') => Safe(h, code, i + 1, s', bound)
             case Stop(s', _) => Tolerable(s'.fault)
    ensures Safe(h, code, i, s, bound)
  {
    hide Step;
    AtOne(code, i, inst);
    PlainOffset(h, inst, s);
  }

  lemma PlainOffset(h: Host, inst: Inst<string>, s: State)
    requires !IsJump(inst)
    ensures Step(h, inst, s).Next? ==> Step(h, inst, s).off == 1
  {
  }

  /** The code of a placed expression is next, with room for it, and what follows is safe once its
      value has been added. */
  ghost predicate Ready(h: Host, code: Program, i: nat, e: Expr, s: State, bound: nat) {
    && At(code, i, Code(h.env.fpu, e)) && Placed(e, s.stk == []) && Within(h, s, Depth(h.env.fpu, e), bound)
    && (RawEval(e, h.env).Val? ==>
          Safe(h, code, i + |Code(h.env.fpu, e)|, Pushed(s, RawEval(e, h.env).v), bound))
  }

  /** Then everything from here on is safe. */
  lemma {:induction false} ExprSafe(h: Host, code: Program, i: nat, e: Expr, s: State, bound: nat)
    requires Ready(h, code, i, e, s, bound)
    ensures Safe(h, code, i, s, bound)
    decreases e, 1
  {
    hide Safe, Fold, RawEval;
    if FoldsTo(h.env.fpu, e).Some? || e.Lit? || e.Id? {
      LeafSafe(h, code, i, e, s, bound);
    } else if e.Un? {
      UnarySafe(h, code, i, e, s, bound);
    } else if e.Bin? {
      if IsLogical(e.bop) { LogicalSafe(h, code, i, e, s, bound); } else { BinarySafe(h, code, i, e, s, bound); }
    } else {
      ListSafe(h, code, i, e, s, bound);
    }
  }

  lemma LeafSafe(h: Host, code: Program, i: nat, e: Expr, s: State, bound: nat)
    requires FoldsTo(h.env.fpu, e).Some? || e.Lit? || e.Id?
    requires At(code, i, Code(h.env.fpu, e)) && Within(h, s, 1, bound)
    requires RawEval(e, h.env).Val? ==> Safe(h, code, i + 1, Pushed(s, RawEval(e, h.env).v), bound)
    ensures Safe(h, code, i, s, bound)
  {
    hide Safe, Fold;
    var inst := if FoldsTo(h.env.fpu, e).Some? then LitInst(FoldsTo(h.env.fpu, e).value)
                else if e.Lit? then LitInst(e.lit) else PushVar(e.name);
    if FoldsTo(h.env.fpu, e).Some? { FoldingIsRaw(e, h.env, FoldsTo(h.env.fpu, e).value); }
    SafeOne(h, code, i, inst, s, bound);
  }

  lemma {:induction false} UnarySafe(h: Host, code: Program, i: nat, e: Expr, s: State, bound: nat)
    requires e.Un? && FoldsTo(h.env.fpu, e).None?
    requires Ready(h, code, i, e, s, bound)
    ensures Safe(h, code, i, s, bound)
    decreases e, 0
  {
    hide Safe, Step, Fold, ApplyUn;
    var c := Code(h.env.fpu, e.arg);
    AtSplit(code, i, c, [UnOpI(e.uop)]);
    if RawEval(e.arg, h.env).Val? {
      var v := RawEval(e.arg, h.env).v;
      UnaryEffect(h, s, v, e.uop);
      SafeOne(h, code, i + |c|, UnOpI(e.uop), Pushed(s, v), bound);
    }
    ExprSafe(h, code, i, e.arg, s, bound);
  }

  lemma {:induction false} BinarySafe(h: Host, code: Program, i: nat, e: Expr, s: State, bound: nat)
    requires IsOperation(e) && FoldsTo(h.env.fpu, e).None?
    requires Ready(h, code, i, e, s, bound)
    ensures Safe(h, code, i, s, bound)
    decreases e, 0
  {
    hide Safe, Step, Fold, ApplyBin;
    var cl, cr := Code(h.env.fpu, e.left), Code(h.env.fpu, e.right);
    assert Code(h.env.fpu, e) == cl + (cr + [BinOpI(e.bop)]);
    AtSplit(code, i, cl, cr + [BinOpI(e.bop)]);
    AtSplit(code, i + |cl|, cr, [BinOpI(e.bop)]);
    if RawEval(e.left, h.env).Val? {
      var a := RawEval(e.left, h.env).v;
      if RawEval(e.right, h.env).Val? {
        var b := RawEval(e.right, h.env).v;
        BinaryEffect(h, s, a, b, e.bop);
        SafeOne(h, code, i + |cl| + |cr|, BinOpI(e.bop), Pushed(Pushed(s, a), b), bound);
      }
      ExprSafe(h, code, i + |cl|, e.right, Pushed(s, a), bound);
    }
    ExprSafe(h, code, i, e.left, s, bound);
  }

  /** A conditional jump that keeps its operand when it jumps and drops it when it does not. */
  lemma BranchSafe(h: Host, code: Program, i: nat, onTrue: bool, off: int, s: State, v: Value, bound: nat)
    requires At(code, i, [Branch(onTrue, off)]) && off >= 1 && |s.stk| + 1 <= bound && Tolerable(s.fault)
    requires if Truth(v) == onTrue then Safe(h, code, i + off, Pushed(s, v), bound) else Safe(h, code, i + 1, s, bound)
    ensures Safe(h, code, i, Pushed(s, v), bound)
  {
    AtOne(code, i, Branch(onTrue, off));
    PoppedTop(Pushed(s, v), s.stk, v);
    assert Pushed(s, v).(stk := s.stk) == s;
  }

  /** A POP, which passes over an empty stack. */
  lemma PopSafe(h: Host, code: Program, i: nat, s: State, bound: nat)
    requires At(code, i, [Pop]) && |s.stk| <= bound && Tolerable(s.fault)
    requires Safe(h, code, i + 1, if |s.stk| > 0 then Popped(s).1 else s, bound)
    ensures Safe(h, code, i, s, bound)
  {
    hide Safe;
    SafeOne(h, code, i, Pop, s, bound);
  }

  lemma {:induction false} LogicalSafe(h: Host, code: Program, i: nat, e: Expr, s: State, bound: nat)
    requires IsConnective(e) && FoldsTo(h.env.fpu, e).None?
    requires Ready(h, code, i, e, s, bound)
    ensures Safe(h, code, i, s, bound)
    decreases e, 0
  {
    hide Safe, Step, Fold;
    LogicalAt(h.env.fpu, code, i, e);
    var j, n := i + |Code(h.env.fpu, e.left)|, |Code(h.env.fpu, e.right)|;
    if RawEval(e.left, h.env).Val? {
      var a := RawEval(e.left, h.env).v;
      if Truth(a) != e.bop.Or? {
        ExprSafe(h, code, j + 2, e.right, s, bound);
        PopSafe(h, code, j + 1, s, bound);
      }
      BranchSafe(h, code, j, e.bop.Or?, n + 2, s, a, bound);
    }
    ExprSafe(h, code, i, e.left, s, bound);
  }

  lemma {:induction false} ListSafe(h: Host, code: Program, i: nat, e: Expr, s: State, bound: nat)
    requires (e.Arr? || e.Call?) && FoldsTo(h.env.fpu, e).None?
    requires Ready(h, code, i, e, s, bound)
    ensures Safe(h, code, i, s, bound)
    decreases e, 0
  {
    hide Safe, Step, Fold;
    var es := if e.Arr? then e.elems else e.args;
    var c := CodeAll(h.env.fpu, es);
    var r := RawEvalAll(es, h.env);
    if e.Arr? {
      AtSplit(code, i, c, [PushArr(CountOf(|es|))]);
      if r.Vals? {
        ArrayEffect(h, s, r.vs);
        SafeOne(h, code, i + |c|, PushArr(CountOf(|es|)), s.(stk := s.stk + r.vs), bound);
      }
    } else {
      CallAt(h.env.fpu, code, i, e.fn, es);
      if r.Vals? {
        CallSafe(h, code, i + |c|, r.vs, e.fn, s, bound);
      }
    }
    AllSafe(h, code, i, es, s, bound);
  }

  lemma CallSafe(h: Host, code: Program, i: nat, vs: seq<Value>, f: string, s: State, bound: nat)
    requires At(code, i, [PushLit(IntV(CountOf(|vs|)))]) && At(code, i + 1, [CallI(f)]) && Within(h, s, |vs| + 1, bound)
    requires Safe(h, code, i + 2, Pushed(s, Invoke(h.env, f, TidyAll(vs), CountOf(|vs|))), bound)
    ensures Safe(h, code, i, s.(stk := s.stk + vs), bound)
  {
    hide Safe, Step, Invoke, TidyAll;
    var s1 := s.(stk := s.stk + vs);
    assert CountOf(|vs|) == |vs|;
    PopCallEffect(h, s, vs, f);
    PushEffect(h, s1, IntV(|vs|));
    SafeOne(h, code, i + 1, CallI(f), Pushed(s1, IntV(|vs|)), bound);
    SafeOne(h, code, i, PushLit(IntV(|vs|)), s1, bound);
  }

  lemma {:induction false} AllSafe(h: Host, code: Program, i: nat, es: seq<Expr>, s: State, bound: nat)
    requires At(code, i, CodeAll(h.env.fpu, es)) && AllPlaced(es, s.stk == [])
    requires Within(h, s, DepthAll(h.env.fpu, es), bound)
    requires RawEvalAll(es, h.env).Vals? ==>
               Safe(h, code, i + |CodeAll(h.env.fpu, es)|, s.(stk := s.stk + RawEvalAll(es, h.env).vs), bound)
    ensures Safe(h, code, i, s, bound)
    decreases es, 0
  {
    hide Safe, Fold;
    if es == [] {
      assert s.(stk := s.stk + []) == s;
    } else {
      var c, rest := Code(h.env.fpu, es[0]), CodeAll(h.env.fpu, es[1..]);
      AtSplit(code, i, c, rest);
      if RawEval(es[0], h.env).Val? {
        var v := RawEval(es[0], h.env).v;
        if RawEvalAll(es[1..], h.env).Vals? {
          var vs := RawEvalAll(es[1..], h.env).vs;
          assert (s.stk + [v]) + vs == s.stk + ([v] + vs);
        }
        AllSafe(h, code, i + |c|, es[1..], Pushed(s, v), bound);
      }
      ExprSafe(h, code, i, es[0], s, bound);
    }
  }

  // ----- rules -----

  /** Whatever the report looks like by then. */
  ghost predicate SafeIdle(h: Host, code: Program, i: nat, bound: nat) {
    forall s :: Idle(s) ==> Safe(h, code, i, s, bound)
  }

  predicate ArgsPlaced(a: Action) { AllPlaced(a.args, true) }

  predicate PlacedMetric(m: Metric) {
    && (forall k :: 0 <= k < |m.cases| ==> Placed(m.cases[k].cond, true) && ArgsPlaced(m.cases[k].action))
    && ArgsPlaced(m.otherwise)
  }

  /** Every AND and OR of the rule sits where nothing lies below its operands. */
  predicate PlacedRule(rule: Rule) {
    match rule
    case SimpleRule(_, when, act) => Placed(when, true) && ArgsPlaced(act)
    case MetricRule(_, _, _, ms) => forall k :: 0 <= k < |ms| ==> PlacedMetric(ms[k])
  }

  ghost predicate Bounded(h: Host, bound: nat) { bound <= h.slots <= INT_MAX }

  ghost predicate FitAction(h: Host, a: Action, bound: nat) {
    ArgsPlaced(a) && RoomForAction(h.env.fpu, a, bound)
  }

  ghost predicate FitCase(h: Host, c: Case, bound: nat) {
    Placed(c.cond, true) && Depth(h.env.fpu, c.cond) <= bound && FitAction(h, c.action, bound)
  }

  ghost predicate FitCases(h: Host, cs: seq<Case>, otherwise: Action, bound: nat) {
    FitAction(h, otherwise, bound) && forall c <- cs :: FitCase(h, c, bound)
  }

  ghost predicate FitMetrics(h: Host, ms: seq<Metric>, bound: nat) {
    forall m <- ms :: PlacedMetric(m) && RoomForMetric(h.env.fpu, m, bound)
  }

  /** This code is next, and what comes behind it is safe. */
  ghost predicate Leads(h: Host, code: Program, i: nat, part: Program, bound: nat) {
    Bounded(h, bound) && At(code, i, part) && SafeIdle(h, code, i + |part|, bound)
  }

  lemma ActionSafe(h: Host, code: Program, i: nat, a: Action, bound: nat)
    requires Leads(h, code, i, CodeAction(h.env.fpu, a), bound) && FitAction(h, a, bound)
    ensures SafeIdle(h, code, i, bound)
  {
    hide Safe, Step, Trigger, CodeAll, DepthAll, AllPlaced, RawEvalAll;
    var push, args := PushLit(IntV(CountOf(|a.args|))), CodeAll(h.env.fpu, a.args);
    AtSplit(code, i, args, [push, ActionI(a.name)]);
    assert [push, ActionI(a.name)] == [push] + [ActionI(a.name)];
    AtSplit(code, i + |args|, [push], [ActionI(a.name)]);
    forall s | Idle(s) ensures Safe(h, code, i, s, bound) {
      if RawEvalAll(a.args, h.env).Vals? {
        var vs := RawEvalAll(a.args, h.env).vs;
        assert CountOf(|vs|) == |vs| && s.stk + vs == vs;
        StaysIdle(h, s, a.name);
        ActionStep(h, s, vs, a.name);
        SafeOne(h, code, i + |args| + 1, ActionI(a.name), s.(stk := vs + [IntV(|vs|)]), bound);
        PushEffect(h, s.(stk := vs), IntV(|vs|));
        SafeOne(h, code, i + |args|, push, s.(stk := vs), bound);
      }
      AllSafe(h, code, i, a.args, s, bound);
    }
  }

  lemma ScoredIsIdle(s: State, n: int)
    requires Idle(s)
    ensures Idle(LastMetric(s, n, n > 0))
  {
  }

  lemma SetScoreSafe(h: Host, code: Program, i: nat, s: State, v: Value, bound: nat)
    requires Leads(h, code, i, [SetScore], bound) && Idle(s) && bound >= 1
    ensures Safe(h, code, i, Pushed(s, v), bound)
  {
    hide Safe, Step, LastMetric;
    assert Pushed(s, v) == s.(stk := [v]);
    SetScoreStep(h, s, v);
    ScoredIsIdle(s, Count(v));
    SafeOne(h, code, i, SetScore, Pushed(s, v), bound);
  }

  lemma LiteralScoreSafe(h: Host, code: Program, i: nat, n: int32, bound: nat)
    requires Leads(h, code, i, [PushLit(IntV(n)), SetScore], bound) && bound >= 1
    ensures SafeIdle(h, code, i, bound)
  {
    hide Safe, Step;
    var score: Program := [PushLit(IntV(n)), SetScore];
    assert score == [PushLit(IntV(n))] + [SetScore];
    AtSplit(code, i, [PushLit(IntV(n))], [SetScore]);
    forall s | Idle(s) ensures Safe(h, code, i, s, bound) {
      SetScoreSafe(h, code, i + 1, s, IntV(n), bound);
      PushEffect(h, s, IntV(n));
      SafeOne(h, code, i, PushLit(IntV(n)), s, bound);
    }
  }

  lemma FailMetricSafe(h: Host, code: Program, i: nat, reason: string, bound: nat)
    requires Leads(h, code, i, [FailMetric(reason)], bound)
    ensures SafeIdle(h, code, i, bound)
  {
    hide Safe;
    forall s | Idle(s) ensures Safe(h, code, i, s, bound) {
      SafeOne(h, code, i, FailMetric(reason), s, bound);
    }
  }

  lemma ScoreSafe(h: Host, code: Program, i: nat, a: Action, fallback: int32, bound: nat)
    requires Leads(h, code, i, CodeScore(h.env.fpu, a, fallback), bound) && FitAction(h, a, bound)
    ensures SafeIdle(h, code, i, bound)
  {
    hide Safe, SafeIdle, Code;
    if a.name == "score" && a.args != [] {
      ScoreExprSafe(h, code, i, a.args[0], bound);
    } else if a.name == "fail_metric" {
      var reason := CodeScore(h.env.fpu, a, fallback)[2..];
      assert CodeScore(h.env.fpu, a, fallback) == [PushLit(IntV(0)), SetScore] + reason;
      AtSplit(code, i, [PushLit(IntV(0)), SetScore], reason);
      if reason != [] { FailMetricSafe(h, code, i + 2, a.args[1].lit.s, bound); }
      LiteralScoreSafe(h, code, i, 0, bound);
    } else {
      LiteralScoreSafe(h, code, i, fallback, bound);
    }
  }

  lemma ScoreExprSafe(h: Host, code: Program, i: nat, e: Expr, bound: nat)
    requires Leads(h, code, i, Code(h.env.fpu, e) + [SetScore], bound)
    requires Placed(e, true) && Depth(h.env.fpu, e) <= bound
    ensures SafeIdle(h, code, i, bound)
  {
    hide Safe, Code, Placed, RawEval;
    AtSplit(code, i, Code(h.env.fpu, e), [SetScore]);
    forall s | Idle(s) ensures Safe(h, code, i, s, bound) {
      if RawEval(e, h.env).Val? {
        SetScoreSafe(h, code, i + |Code(h.env.fpu, e)|, s, RawEval(e, h.env).v, bound);
      }
      ExprSafe(h, code, i, e, s, bound);
    }
  }

  lemma DoSafe(h: Host, code: Program, i: nat, a: Action, fallback: int32, bound: nat)
    requires Leads(h, code, i, CodeDo(h.env.fpu, a, fallback), bound) && FitAction(h, a, bound)
    ensures SafeIdle(h, code, i, bound)
  {
    hide SafeIdle, CodeAction, CodeScore, FitAction;
    var act := CodeAction(h.env.fpu, a);
    AtSplit(code, i, act, CodeScore(h.env.fpu, a, fallback));
    ScoreSafe(h, code, i + |act|, a, fallback, bound);
    ActionSafe(h, code, i, a, bound);
  }

  lemma JumpSafe(h: Host, code: Program, i: nat, off: int, bound: nat)
    requires At(code, i, [Jmp(off)]) && off >= 1 && SafeIdle(h, code, i + off, bound)
    ensures SafeIdle(h, code, i, bound)
  {
    AtOne(code, i, Jmp(off));
  }

  lemma PopIdleSafe(h: Host, code: Program, i: nat, bound: nat)
    requires Leads(h, code, i, [Pop], bound) && bound >= 1
    ensures SafeIdle(h, code, i, bound)
    ensures forall s, v :: Idle(s) ==> Safe(h, code, i, Pushed(s, v), bound)
  {
    hide Safe, Popped;
    forall s | Idle(s) ensures Safe(h, code, i, s, bound) { PopSafe(h, code, i, s, bound); }
    forall s, v | Idle(s) ensures Safe(h, code, i, Pushed(s, v), bound) {
      PoppedTop(Pushed(s, v), [], v);
      assert Pushed(s, v).(stk := []) == s;
      PopSafe(h, code, i, Pushed(s, v), bound);
    }
  }

  /** A condition, its jump over what comes when it is true, and the two places they lead to. */
  lemma ConditionSafe(h: Host, code: Program, i: nat, e: Expr, off: int, bound: nat)
    requires At(code, i, Code(h.env.fpu, e)) && At(code, i + |Code(h.env.fpu, e)|, [JmpIfFalse(off)]) && off >= 1
    requires Placed(e, true) && Depth(h.env.fpu, e) <= bound && Bounded(h, bound)
    requires SafeIdle(h, code, i + |Code(h.env.fpu, e)| + 1, bound)
    requires forall s, v :: Idle(s) ==> Safe(h, code, i + |Code(h.env.fpu, e)| + off, Pushed(s, v), bound)
    ensures SafeIdle(h, code, i, bound)
  {
    hide Safe, Code, Placed, RawEval, Truth;
    forall s | Idle(s) ensures Safe(h, code, i, s, bound) {
      if RawEval(e, h.env).Val? {
        BranchSafe(h, code, i + |Code(h.env.fpu, e)|, false, off, s, RawEval(e, h.env).v, bound);
      }
      ExprSafe(h, code, i, e, s, bound);
    }
  }

  lemma CaseSafe(h: Host, code: Program, i: nat, c: Case, weight: int32, after: nat, bound: nat)
    requires Leads(h, code, i, CodeCase(h.env.fpu, c, weight, after), bound) && FitCase(h, c, bound)
    requires SafeIdle(h, code, i + |CodeCase(h.env.fpu, c, weight, after)| + after, bound)
    ensures SafeIdle(h, code, i, bound)
  {
    hide SafeIdle, Safe, Code, CodeDo, CodeCase, Placed, FitAction, Depth;
    CaseAt(h.env.fpu, code, i, c, weight, after);
    var n, a := |Code(h.env.fpu, c.cond)|, |CodeDo(h.env.fpu, c.action, weight)|;
    JumpSafe(h, code, i + n + 2 + a, after + 2, bound);
    DoSafe(h, code, i + n + 2, c.action, weight, bound);
    PopIdleSafe(h, code, i + n + 1, bound);
    PopIdleSafe(h, code, i + n + 3 + a, bound);
    ConditionSafe(h, code, i, c.cond, a + 3, bound);
  }

  lemma {:induction false} CasesSafe(h: Host, code: Program, i: nat, cs: seq<Case>, weight: int32,
      otherwise: Action, bound: nat)
    requires Leads(h, code, i, CodeCases(h.env.fpu, cs, weight, CodeDo(h.env.fpu, otherwise, 0)), bound)
    requires FitCases(h, cs, otherwise, bound)
    ensures SafeIdle(h, code, i, bound)
    decreases |cs|
  {
    hide SafeIdle, CodeCase, CodeDo, FitCase, FitAction;
    if cs == [] {
      DoSafe(h, code, i, otherwise, 0, bound);
    } else {
      var rest := CodeCases(h.env.fpu, cs[1..], weight, CodeDo(h.env.fpu, otherwise, 0));
      var first := CodeCase(h.env.fpu, cs[0], weight, |rest|);
      AtSplit(code, i, first, rest);
      CasesSafe(h, code, i + |first|, cs[1..], weight, otherwise, bound);
      CaseSafe(h, code, i, cs[0], weight, |rest|, bound);
    }
  }

  lemma MetricStartSafe(h: Host, code: Program, i: nat, name: string, bound: nat)
    requires Leads(h, code, i, [MetricStart(name)], bound)
    ensures SafeIdle(h, code, i, bound)
  {
    AtOne(code, i, MetricStart(name));
  }

  lemma MetricSafe(h: Host, code: Program, i: nat, m: Metric, bound: nat)
    requires Leads(h, code, i, CodeMetric(h.env.fpu, m), bound)
    requires PlacedMetric(m) && RoomForMetric(h.env.fpu, m, bound)
    ensures SafeIdle(h, code, i, bound)
  {
    hide SafeIdle, CodeCases, CodeDo, Placed, ArgsPlaced, Depth, RoomForAction;
    AtSplit(code, i, [MetricStart(m.name)], CodeCases(h.env.fpu, m.cases, m.weight, CodeDo(h.env.fpu, m.otherwise, 0)));
    CasesSafe(h, code, i + 1, m.cases, m.weight, m.otherwise, bound);
    MetricStartSafe(h, code, i, m.name, bound);
  }

  lemma EndSafe(h: Host, code: Program, i: nat, bound: nat)
    requires At(code, i, [RuleEnd])
    ensures SafeIdle(h, code, i, bound)
  {
    AtOne(code, i, RuleEnd);
  }

  lemma {:induction false} MetricsSafe(h: Host, code: Program, i: nat, ms: seq<Metric>, bound: nat)
    requires At(code, i, CodeMetrics(h.env.fpu, ms) + [RuleEnd]) && Bounded(h, bound)
    requires FitMetrics(h, ms, bound)
    ensures SafeIdle(h, code, i, bound)
    decreases |ms|
  {
    hide SafeIdle, CodeMetric, PlacedMetric, RoomForMetric;
    var fpu := h.env.fpu;
    if ms == [] {
      assert CodeMetrics(fpu, ms) + [RuleEnd] == [RuleEnd];
      EndSafe(h, code, i, bound);
    } else {
      assert CodeMetrics(fpu, ms) + [RuleEnd] == CodeMetric(fpu, ms[0]) + (CodeMetrics(fpu, ms[1..]) + [RuleEnd]);
      AtSplit(code, i, CodeMetric(fpu, ms[0]), CodeMetrics(fpu, ms[1..]) + [RuleEnd]);
      MetricsSafe(h, code, i + |CodeMetric(fpu, ms[0])|, ms[1..], bound);
      MetricSafe(h, code, i, ms[0], bound);
    }
  }

  lemma RetSafe(h: Host, code: Program, i: nat, s: State, v: Value, bound: nat)
    requires At(code, i, [Ret]) && Idle(s) && bound >= 1
    ensures Safe(h, code, i, Pushed(s, v), bound)
  {
    AtOne(code, i, Ret);
    PoppedTop(Pushed(s, v), [], v);
  }

  /** The end of a simple rule. */
  lemma ReturnSafe(h: Host, code: Program, i: nat, bound: nat)
    requires At(code, i, [PushLit(BoolV(true)), Ret]) && bound >= 1 && Bounded(h, bound)
    ensures SafeIdle(h, code, i, bound)
    ensures forall s, v :: Idle(s) ==> Safe(h, code, i + 1, Pushed(s, v), bound)
  {
    hide Safe, Step;
    var tail: Program := [PushLit(BoolV(true)), Ret];
    assert tail == [PushLit(BoolV(true))] + [Ret];
    AtSplit(code, i, [PushLit(BoolV(true))], [Ret]);
    forall s, v | Idle(s) ensures Safe(h, code, i + 1, Pushed(s, v), bound) { RetSafe(h, code, i + 1, s, v, bound); }
    forall s | Idle(s) ensures Safe(h, code, i, s, bound) {
      PushEffect(h, s, BoolV(true));
      SafeOne(h, code, i, PushLit(BoolV(true)), s, bound);
    }
  }

  lemma SimpleSafe(h: Host, rule: Rule, bound: nat)
    requires rule.SimpleRule? && PlacedRule(rule) && RoomFor(h.env.fpu, rule, bound) && Bounded(h, bound)
    ensures SafeIdle(h, CodeRule(h.env.fpu, rule), 0, bound)
  {
    hide SafeIdle, Safe, Code, CodeAction, Placed, ArgsPlaced, Depth;
    var fpu := h.env.fpu;
    var code, cond, act := CodeRule(fpu, rule), Code(fpu, rule.when), CodeAction(fpu, rule.then_);
    var jf, tail := JmpIfFalse(|act| + 2), [PushLit(BoolV(true)), Ret];
    assert code[0..0 + |code|] == code;
    AtSplit(code, 0, cond, [jf] + (act + tail));
    AtSplit(code, |cond|, [jf], act + tail);
    AtSplit(code, |cond| + 1, act, tail);
    ReturnSafe(h, code, |cond| + 1 + |act|, bound);
    ActionSafe(h, code, |cond| + 1, rule.then_, bound);
    ConditionSafe(h, code, 0, rule.when, |act| + 2, bound);
  }

  /** A rule whose ANDs and ORs are placed runs safely within any bound that leaves room for its
      conditions and actions, in every context. */
  lemma RulesAreSafe(rule: Rule, env: Env, slots: nat, bound: nat)
    requires PlacedRule(rule) && RoomFor(env.fpu, rule, bound) && bound <= slots <= INT_MAX
    ensures Safe(HostFor(rule, env, slots), CodeRule(env.fpu, rule), 0, Start, bound)
  {
    hide Safe;
    var h, code := HostFor(rule, env, slots), CodeRule(env.fpu, rule);
    if rule.SimpleRule? {
      SimpleSafe(h, rule, bound);
    } else {
      assert code[0..0 + |code|] == code;
      MetricsSafe(h, code, 0, rule.metrics, bound);
    }
    assert Idle(Start);
  }

  /** Rules without arrays and calls: on any stack of at least max_stack slots, in every context,
      no state of the run holds more than max_stack values, nothing underflows or overflows, and
      the stack is empty at every METRIC_START. */
  lemma PlainRulesAreSafe(rule: Rule, env: Env, slots: nat)
    requires PlainRule(rule) && PlacedRule(rule) && MaxStack(env.fpu, rule) <= slots <= INT_MAX
    ensures Safe(HostFor(rule, env, slots), CodeRule(env.fpu, rule), 0, Start, MaxStack(env.fpu, rule))
  {
    hide Safe, PlainRule, PlacedRule, RoomFor, MaxStack;
    BoundSuffices(env.fpu, rule);
    RulesAreSafe(rule, env, slots, MaxStack(env.fpu, rule));
  }

  /** So a rule without arrays and calls that the compiler accepts never overflows its 256 slots and
      never underflows; what can end its run early is an operator's error. */
  lemma AcceptedRulesNeverOverflow(rule: Rule, env: Env, n: nat)
    requires PlainRule(rule) && PlacedRule(rule) && Accepted(env.fpu, rule)
    ensures
      var h, code := HostFor(rule, env, BYTECODE_MAX_STACK), CodeRule(env.fpu, rule);
      && Tolerable(Run(h, code, 0, Start).final.fault)
      && match Reached(h, code, 0, Start, n)
         case None => true
         case Some((at, t)) =>
           |t.stk| <= MaxStack(env.fpu, rule) && Tolerable(t.fault)
             && (at < |code| && code[at].MetricStart? ==> t.stk == [])
  {
    hide Safe, Run, Reached, PlainRule, PlacedRule, MaxStack, CodeRule;
    var h, code := HostFor(rule, env, BYTECODE_MAX_STACK), CodeRule(env.fpu, rule);
    PlainRulesAreSafe(rule, env, BYTECODE_MAX_STACK);
    SafeAtTheEnd(h, code, 0, Start, MaxStack(env.fpu, rule));
    SafeEverywhere(h, code, 0, Start, MaxStack(env.fpu, rule), n);
  }
}
