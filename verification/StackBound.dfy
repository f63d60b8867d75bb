/**
 The compiler's stack bound (`max_stack` in src/vm/bytecode.c) against the depth the code
 really reaches.
 */
module StackBound {
  import opened Values
  import opened Ast
  import opened TreeWalk
  import opened Machine
  import opened Compiler
  import opened Agreement
  import opened RuleCompiler

  /** What compile_expr reports as the expression's stack use. */
  function Used(fpu: Fpu, e: Expr): (u: nat)
    decreases e, 1
  {
    if FoldsTo(fpu, e).Some? then 1
    else match e
      case Lit(_) => 1
      case Id(_) => 1
      case Arr(es) => UsedMost(fpu, es) + 1
      case Un(_, a) => Used(fpu, a)
      case Bin(_, l, r) => Max(Used(fpu, l), Used(fpu, r) + 1)
      case Call(_, args) => Max(UsedMost(fpu, args), |args| + 1)
  }

  function UsedMost(fpu: Fpu, es: seq<Expr>): nat
    decreases es, 0
  {
    if es == [] then 0 else Max(Used(fpu, es[0]), UsedMost(fpu, es[1..]))
  }

  /** The largest stack use of e and of the parts compiled with it. */
  function Peak(fpu: Fpu, e: Expr): (p: nat)
    ensures p >= Used(fpu, e)
    decreases e, 1
  {
    if FoldsTo(fpu, e).Some? || e.Id? then 1
    else
      Max(Used(fpu, e),
          if e.Un? then Peak(fpu, e.arg)
          else if e.Bin? then Max(Peak(fpu, e.left), Peak(fpu, e.right))
          else PeakMost(fpu, if e.Arr? then e.elems else e.args))
  }

  function PeakMost(fpu: Fpu, es: seq<Expr>): nat
    decreases es, 0
  {
    if es == [] then 0 else Max(Peak(fpu, es[0]), PeakMost(fpu, es[1..]))
  }

  /** compile_action_call's bound: each argument sits above the ones before it. */
  function StackedUse(fpu: Fpu, es: seq<Expr>, below: nat): nat
    decreases |es|
  {
    if es == [] then 0 else Max(Used(fpu, es[0]) + below, StackedUse(fpu, es[1..], below + 1))
  }

  function ActionBound(fpu: Fpu, a: Action): nat {
    Max(PeakMost(fpu, a.args), Max(StackedUse(fpu, a.args, 0), |a.args| + 1))
  }

  function CasesBound(fpu: Fpu, cs: seq<Case>): nat
    decreases |cs|
  {
    if cs == [] then 0
    else Max(Max(Peak(fpu, cs[0].cond), ActionBound(fpu, cs[0].action)), CasesBound(fpu, cs[1..]))
  }

  function MetricsBound(fpu: Fpu, ms: seq<Metric>): nat
    decreases |ms|
  {
    if ms == [] then 0
    else Max(Max(CasesBound(fpu, ms[0].cases), ActionBound(fpu, ms[0].otherwise)), MetricsBound(fpu, ms[1..]))
  }

  /** bc->max_stack of the compiled rule. */
  function MaxStack(fpu: Fpu, rule: Rule): nat {
    match rule
    case SimpleRule(_, when, act) => Max(Peak(fpu, when), ActionBound(fpu, act))
    case MetricRule(_, _, _, ms) => MetricsBound(fpu, ms)
  }

  /** The compiler refuses a rule whose bound exceeds the machine's stack. */
  predicate Accepted(fpu: Fpu, rule: Rule) {
    MaxStack(fpu, rule) <= BYTECODE_MAX_STACK
  }

  // ----- rules without arrays and calls -----

  predicate Plain(e: Expr) {
    match e
    case Lit(_) => true
    case Id(_) => true
    case Un(_, a) => Plain(a)
    case Bin(_, l, r) => Plain(l) && Plain(r)
    case _ => false
  }

  predicate PlainAction(a: Action) { forall k :: 0 <= k < |a.args| ==> Plain(a.args[k]) }

  predicate PlainMetric(m: Metric) {
    && (forall k :: 0 <= k < |m.cases| ==> Plain(m.cases[k].cond) && PlainAction(m.cases[k].action))
    && PlainAction(m.otherwise)
  }

  predicate PlainRule(rule: Rule) {
    match rule
    case SimpleRule(_, when, act) => Plain(when) && PlainAction(act)
    case MetricRule(_, _, _, ms) => forall k :: 0 <= k < |ms| ==> PlainMetric(ms[k])
  }

  /** On expressions without arrays and calls the reported use covers the real depth. */
  lemma {:induction false} DepthWithinUse(fpu: Fpu, e: Expr)
    requires Plain(e)
    ensures Depth(fpu, e) <= Used(fpu, e)
  {
    match e
    case Lit(_) =>
    case Id(_) =>
    case Un(_, a) => DepthWithinUse(fpu, a);
    case Bin(_, l, r) => DepthWithinUse(fpu, l); DepthWithinUse(fpu, r);
  }

  lemma {:induction false} StackedDepthWithinUse(fpu: Fpu, es: seq<Expr>, below: nat)
    requires forall k :: 0 <= k < |es| ==> Plain(es[k])
    ensures DepthAll(fpu, es) + below <= Max(StackedUse(fpu, es, below), |es| + below)
    decreases |es|
  {
    if es != [] {
      DepthWithinUse(fpu, es[0]);
      StackedDepthWithinUse(fpu, es[1..], below + 1);
    }
  }

  // ----- rules as the runs of a machine with few slots -----

  /** Enough slots for every condition and action of the rule. */
  ghost predicate RoomForAction(fpu: Fpu, a: Action, slots: nat) {
    DepthAll(fpu, a.args) <= slots && |a.args| + 1 <= slots
  }

  ghost predicate RoomForMetric(fpu: Fpu, m: Metric, slots: nat) {
    && (forall k :: 0 <= k < |m.cases| ==> Depth(fpu, m.cases[k].cond) <= slots
                                               && RoomForAction(fpu, m.cases[k].action, slots))
    && RoomForAction(fpu, m.otherwise, slots)
  }

  ghost predicate RoomFor(fpu: Fpu, rule: Rule, slots: nat) {
    match rule
    case SimpleRule(_, when, act) => Depth(fpu, when) <= slots && RoomForAction(fpu, act, slots)
    case MetricRule(_, _, _, ms) => forall k :: 0 <= k < |ms| ==> RoomForMetric(fpu, ms[k], slots)
  }

  lemma ActionFits(fpu: Fpu, a: Action)
    requires PlainAction(a)
    ensures RoomForAction(fpu, a, ActionBound(fpu, a))
  {
    StackedDepthWithinUse(fpu, a.args, 0);
  }

  lemma {:induction false} CasesFit(fpu: Fpu, cs: seq<Case>, k: nat)
    requires k < |cs|
    ensures Peak(fpu, cs[k].cond) <= CasesBound(fpu, cs) && ActionBound(fpu, cs[k].action) <= CasesBound(fpu, cs)
    decreases k
  {
    if k > 0 { CasesFit(fpu, cs[1..], k - 1); }
  }

  lemma {:induction false} MetricsFit(fpu: Fpu, ms: seq<Metric>, k: nat)
    requires k < |ms|
    ensures CasesBound(fpu, ms[k].cases) <= MetricsBound(fpu, ms)
      && ActionBound(fpu, ms[k].otherwise) <= MetricsBound(fpu, ms)
    decreases k
  {
    if k > 0 { MetricsFit(fpu, ms[1..], k - 1); }
  }

  /** A stack of exactly the compiler's bound has room for everything a plain rule does. */
  lemma BoundSuffices(fpu: Fpu, rule: Rule)
    requires PlainRule(rule)
    ensures forall slots :: slots >= MaxStack(fpu, rule) ==> RoomFor(fpu, rule, slots)
  {
    match rule
    case SimpleRule(_, when, act) =>
      DepthWithinUse(fpu, when);
      ActionFits(fpu, act);
    case MetricRule(_, _, _, ms) =>
      forall k | 0 <= k < |ms| ensures RoomForMetric(fpu, ms[k], MetricsBound(fpu, ms)) {
        MetricsFit(fpu, ms, k);
        MetricFits(fpu, ms[k], MetricsBound(fpu, ms));
      }
  }

  lemma MetricFits(fpu: Fpu, m: Metric, slots: nat)
    requires PlainMetric(m) && CasesBound(fpu, m.cases) <= slots && ActionBound(fpu, m.otherwise) <= slots
    ensures RoomForMetric(fpu, m, slots)
  {
    forall k | 0 <= k < |m.cases|
      ensures Depth(fpu, m.cases[k].cond) <= slots && RoomForAction(fpu, m.cases[k].action, slots)
    {
      CasesFit(fpu, m.cases, k);
      DepthWithinUse(fpu, m.cases[k].cond);
      ActionFits(fpu, m.cases[k].action);
    }
    ActionFits(fpu, m.otherwise);
  }

  // ----- the depth is exact -----

  /** Without ANDs and ORs the depth is exactly what an expression needs: on a stack with less room
      than that, evaluating it overflows. */
  lemma {:induction false} LessIsTooLittle(h: Host, e: Expr, s: State)
    requires Placed(e, false) && RawEval(e, h.env).Val? && s.fault == NoFault
    requires |s.stk| <= h.slots <= INT_MAX && |s.stk| + Depth(h.env.fpu, e) > h.slots
    ensures Sem(h, e, s) == Stop(s.(stk := [], fault := StackFull), VoidV)
    decreases e, 1
  {
    hide Sem, RawEval, Fold;
    if FoldsTo(h.env.fpu, e).Some? || e.Lit? || e.Id? {
      LeafOverflows(h, e, s);
    } else if e.Un? {
      UnaryOverflows(h, e, s);
    } else if e.Bin? {
      BinaryOverflows(h, e, s);
    } else {
      ListOverflows(h, e, s);
    }
  }

  lemma FullPush(h: Host, inst: Inst<string>, s: State)
    requires s.fault == NoFault && |s.stk| == h.slots && (inst.PushLit? || inst.PushStr? || inst.PushVar?)
    ensures One(h, inst, s) == Stop(s.(stk := [], fault := StackFull), VoidV)
  {
  }

  lemma LeafOverflows(h: Host, e: Expr, s: State)
    requires FoldsTo(h.env.fpu, e).Some? || e.Lit? || e.Id?
    requires s.fault == NoFault && |s.stk| == h.slots
    ensures Sem(h, e, s) == Stop(s.(stk := [], fault := StackFull), VoidV)
  {
    hide Step, Fold;
    if FoldsTo(h.env.fpu, e).Some? {
      FullPush(h, LitInst(FoldsTo(h.env.fpu, e).value), s);
    } else {
      FullPush(h, if e.Lit? then LitInst(e.lit) else PushVar(e.name), s);
    }
  }

  lemma {:induction false} UnaryOverflows(h: Host, e: Expr, s: State)
    requires e.Un? && FoldsTo(h.env.fpu, e).None?
    requires Placed(e, false) && RawEval(e, h.env).Val? && s.fault == NoFault
    requires |s.stk| <= h.slots <= INT_MAX && |s.stk| + Depth(h.env.fpu, e) > h.slots
    ensures Sem(h, e, s) == Stop(s.(stk := [], fault := StackFull), VoidV)
    decreases e, 0
  {
    hide Step, Fold, ApplyUn;
    LessIsTooLittle(h, e.arg, s);
  }

  lemma {:induction false} BinaryOverflows(h: Host, e: Expr, s: State)
    requires e.Bin? && FoldsTo(h.env.fpu, e).None?
    requires Placed(e, false) && RawEval(e, h.env).Val? && s.fault == NoFault
    requires |s.stk| <= h.slots <= INT_MAX && |s.stk| + Depth(h.env.fpu, e) > h.slots
    ensures Sem(h, e, s) == Stop(s.(stk := [], fault := StackFull), VoidV)
    decreases e, 0
  {
    hide Step, Fold, ApplyBin;
    if |s.stk| + Depth(h.env.fpu, e.left) > h.slots {
      LessIsTooLittle(h, e.left, s);
    } else {
      RelocatedDiscipline(h, e.left, s);
      LessIsTooLittle(h, e.right, Pushed(s, RawEval(e.left, h.env).v));
    }
  }

  lemma {:induction false} ListOverflows(h: Host, e: Expr, s: State)
    requires (e.Arr? || e.Call?) && FoldsTo(h.env.fpu, e).None?
    requires Placed(e, false) && RawEval(e, h.env).Val? && s.fault == NoFault
    requires |s.stk| <= h.slots <= INT_MAX && |s.stk| + Depth(h.env.fpu, e) > h.slots
    ensures Sem(h, e, s) == Stop(s.(stk := [], fault := StackFull), VoidV)
    decreases e, 0
  {
    hide Step, Fold;
    var es := if e.Arr? then e.elems else e.args;
    if |s.stk| + DepthAll(h.env.fpu, es) > h.slots {
      AllOverflow(h, es, s);
    } else {
      AllNoFalls(es, h.env);
      AllRelocated(h, es, s);
      var vs := RawEvalAll(es, h.env).vs;
      if e.Arr? {
        EmptyArrayOverflows(h, s);
      } else {
        FullPush(h, PushLit(IntV(CountOf(|es|))), s.(stk := s.stk + vs));
      }
    }
  }

  lemma EmptyArrayOverflows(h: Host, s: State)
    requires s.fault == NoFault && |s.stk| == h.slots
    ensures One(h, PushArr(0), s) == Stop(s.(stk := [], fault := StackFull), VoidV)
  {
  }

  lemma {:induction false} AllOverflow(h: Host, es: seq<Expr>, s: State)
    requires AllPlaced(es, false) && RawEvalAll(es, h.env).Vals? && s.fault == NoFault
    requires |s.stk| <= h.slots <= INT_MAX && |s.stk| + DepthAll(h.env.fpu, es) > h.slots
    ensures SemAll(h, es, s) == Stop(s.(stk := [], fault := StackFull), VoidV)
    decreases es, 0
  {
    hide Step, Fold;
    if |s.stk| + Depth(h.env.fpu, es[0]) > h.slots {
      LessIsTooLittle(h, es[0], s);
    } else {
      RelocatedDiscipline(h, es[0], s);
      AllOverflow(h, es[1..], Pushed(s, RawEval(es[0], h.env).v));
    }
  }

  /** An expression without AND or OR in it does the same on any stack. */
  lemma RelocatedDiscipline(h: Host, e: Expr, s: State)
    requires Placed(e, false) && Roomy(h, s, Depth(h.env.fpu, e))
    ensures Sem(h, e, s) == Yield(s, RawEval(e, h.env))
  {
    hide Sem, RawEval, Depth, Placed;
    NoFalls(e, h.env);
    StackDiscipline(h, e, s);
  }

  lemma AllRelocated(h: Host, es: seq<Expr>, s: State)
    requires AllPlaced(es, false) && Roomy(h, s, DepthAll(h.env.fpu, es))
    ensures SemAll(h, es, s) == YieldAll(s, RawEvalAll(es, h.env))
  {
    hide SemAll, RawEvalAll, DepthAll, AllPlaced;
    AllNoFalls(es, h.env);
    AllDiscipline(h, es, s);
  }

  /** So the code of such an expression that has a value overflows a stack exactly when its depth
      exceeds the slots. */
  lemma OverflowsExactly(h: Host, e: Expr)
    requires Placed(e, false) && RawEval(e, h.env).Val? && h.slots <= INT_MAX
    ensures Run(h, Code(h.env.fpu, e), 0, Start).final.fault ==
            if Depth(h.env.fpu, e) > h.slots then StackFull else NoFault
  {
    hide Run, Code, Sem, Placed, RawEval, Depth;
    var code := Code(h.env.fpu, e);
    assert code[0..0 + |code|] == code;
    CodeRuns(h, code, 0, e, Start);
    if Depth(h.env.fpu, e) > h.slots { LessIsTooLittle(h, e, Start); } else { RelocatedDiscipline(h, e, Start); }
    RunEnds(h, code, Sem(h, e, Start));
  }

  lemma RunEnds(h: Host, code: Program, eff: Effect)
    ensures Continue(h, code, |code|, eff).final.fault == eff.s.fault
  {
  }

  // ----- array literals and calls: the bound is wrong -----

  function Literals(vs: seq<int32>): (es: seq<Expr>)
    ensures |es| == |vs|
    ensures forall k :: 0 <= k < |vs| ==> es[k] == Lit(IntV(vs[k]))
  {
    seq(|vs|, k requires 0 <= k < |vs| => Lit(IntV(vs[k])))
  }

  lemma {:induction false} LiteralsNeed(env: Env, vs: seq<int32>, depth: nat)
    ensures UsedMost(env.fpu, Literals(vs)) <= 1 && PeakMost(env.fpu, Literals(vs)) <= 1
    ensures DepthAll(env.fpu, Literals(vs)) == |vs| && AllPlaced(Literals(vs), false)
    ensures RawEvalAll(Literals(vs), env).Vals? && (depth < env.maxDepth ==> EvalAll(Literals(vs), env, depth).Vals?)
    decreases |vs|
  {
    if vs != [] {
      LiteralsNeed(env, vs[1..], depth);
      assert Literals(vs)[1..] == Literals(vs[1..]);
    }
  }

  /** The bound counts one slot for all the elements of an array literal, so the compiler
      accepts literals of every length; on the real stack the run overflows exactly when there
      are more than 256 elements, while the tree walk builds the array. */
  lemma ArrayBoundIsWrong(env: Env, vs: seq<int32>)
    ensures
      var e := Arr(Literals(vs));
      var r := Run(Host(env, BYTECODE_MAX_STACK, []), Code(env.fpu, e), 0, Start);
      && Peak(env.fpu, e) <= 2
      && (r.final.fault == StackFull <==> |vs| > BYTECODE_MAX_STACK)
      && (env.maxDepth >= 2 ==> Eval(e, env, 0).Val?)
  {
    hide Run, Code;
    LiteralsNeed(env, vs, 1);
    OverflowsExactly(Host(env, BYTECODE_MAX_STACK, []), Arr(Literals(vs)));
  }

  /** A call inside a call: `f(x, g(x, x, x))` keeps its first argument below those of the inner
      call, which the bound leaves out. On as many slots as the bound says the run overflows. */
  lemma NestedCallBoundIsWrong(env: Env)
    ensures
      var x := Id("x");
      var e := Call("f", [x, Call("g", [x, x, x])]);
      && Peak(env.fpu, e) == 4 && Depth(env.fpu, e) == 5
      && Run(Host(env, Peak(env.fpu, e), []), Code(env.fpu, e), 0, Start).final.fault == StackFull
  {
    hide Run, Code, RawEval, RawEvalAll, Placed, AllPlaced, Depth, DepthAll, Used, UsedMost, Peak, PeakMost;
    var x := Id("x");
    var inner := Call("g", [x, x, x]);
    assert [x] + [] == [x] && [x] + [x] == [x, x] && [x] + [x, x] == [x, x, x];
    assert [inner] + [] == [inner] && [x] + [inner] == [x, inner];
    NothingMore(env);
    Variable(env, x);
    OneMore(env, x, []);
    OneMore(env, x, [x]);
    OneMore(env, x, [x, x]);
    CallHasValue(env, "g", [x, x, x]);
    CallNeeds(env.fpu, "g", [x, x, x]);
    OneMore(env, inner, []);
    OneMore(env, x, [inner]);
    CallHasValue(env, "f", [x, inner]);
    CallNeeds(env.fpu, "f", [x, inner]);
    OverflowsExactly(Host(env, 4, []), Call("f", [x, inner]));
  }

  lemma Variable(env: Env, x: Expr)
    requires x.Id?
    ensures Placed(x, false) && RawEval(x, env).Val?
    ensures Used(env.fpu, x) == 1 && Peak(env.fpu, x) == 1 && Depth(env.fpu, x) == 1
  {
  }

  lemma CallHasValue(env: Env, f: string, args: seq<Expr>)
    requires AllPlaced(args, false) && RawEvalAll(args, env).Vals?
    ensures Placed(Call(f, args), false) && RawEval(Call(f, args), env).Val?
  {
  }

  lemma CallNeeds(fpu: Fpu, f: string, args: seq<Expr>)
    ensures Used(fpu, Call(f, args)) == Max(UsedMost(fpu, args), |args| + 1)
    ensures Peak(fpu, Call(f, args)) == Max(Used(fpu, Call(f, args)), PeakMost(fpu, args))
    ensures Depth(fpu, Call(f, args)) == Max(DepthAll(fpu, args), |args| + 1)
  {
  }

  lemma NothingMore(env: Env)
    ensures AllPlaced([], false) && RawEvalAll([], env) == Vals([])
    ensures UsedMost(env.fpu, []) == 0 && PeakMost(env.fpu, []) == 0 && DepthAll(env.fpu, []) == 0
  {
  }

  /** What one more expression in front of a list adds. */
  lemma OneMore(env: Env, e: Expr, es: seq<Expr>)
    requires Placed(e, false) && RawEval(e, env).Val? && AllPlaced(es, false) && RawEvalAll(es, env).Vals?
    ensures AllPlaced([e] + es, false) && RawEvalAll([e] + es, env).Vals?
    ensures UsedMost(env.fpu, [e] + es) == Max(Used(env.fpu, e), UsedMost(env.fpu, es))
    ensures PeakMost(env.fpu, [e] + es) == Max(Peak(env.fpu, e), PeakMost(env.fpu, es))
    ensures DepthAll(env.fpu, [e] + es) == Max(Depth(env.fpu, e), DepthAll(env.fpu, es) + 1)
  {
    hide Used, Peak, Depth, RawEval, Placed;
    assert ([e] + es)[1..] == es;
  }

  // ----- the bound in numbers -----

  /** `x op (x op (... op x))`, with n operators. */
  function Chain(op: BinOp, x: string, n: nat): Expr {
    if n == 0 then Id(x) else Bin(op, Id(x), Chain(op, x, n - 1))
  }

  lemma {:induction false} ChainNeeds(fpu: Fpu, op: BinOp, x: string, n: nat)
    ensures Used(fpu, Chain(op, x, n)) == n + 1 && Peak(fpu, Chain(op, x, n)) == n + 1
    ensures !IsConst(Chain(op, x, n))
  {
    assert Used(fpu, Id(x)) == 1 && Peak(fpu, Id(x)) == 1;
    if n > 0 {
      ChainNeeds(fpu, op, x, n - 1);
      assert FoldsTo(fpu, Chain(op, x, n)).None?;
    }
  }

  /** k variables as arguments. */
  function Variables(x: string, k: nat): (es: seq<Expr>)
    ensures |es| == k && forall i :: 0 <= i < k ==> es[i] == Id(x)
  {
    seq(k, _ => Id(x))
  }

  lemma {:induction false} VariablesNeed(fpu: Fpu, x: string, k: nat, below: nat)
    ensures UsedMost(fpu, Variables(x, k)) == (if k == 0 then 0 else 1)
    ensures PeakMost(fpu, Variables(x, k)) == (if k == 0 then 0 else 1)
    ensures StackedUse(fpu, Variables(x, k), below) == (if k == 0 then 0 else below + k)
  {
    if k > 0 {
      VariablesNeed(fpu, x, k - 1, below + 1);
      assert Variables(x, k)[1..] == Variables(x, k - 1);
    }
  }

  /** The bound of a rule whose WHEN chains n operators, ANDs and ORs or any others, and whose action
      has k variables for arguments: one slot a pending operand, one an argument and one for their
      number. The compiler takes the rule exactly when neither passes 256. */
  lemma ChainsAccepted(fpu: Fpu, op: BinOp, x: string, n: nat, k: nat, name: string)
    ensures
      var rule := SimpleRule(name, Chain(op, x, n), Action(name, Variables(x, k)));
      && MaxStack(fpu, rule) == (if n > k then n + 1 else k + 1)
      && (Accepted(fpu, rule) <==> n < 256 && k < 256)
  {
    ChainNeeds(fpu, op, x, n);
    VariablesNeed(fpu, x, k, 0);
    hide Peak, PeakMost, StackedUse;
  }

  /** Calls and array literals of k variables: a call needs a slot an argument and one for their
      number, an array is counted as one element and itself. */
  lemma ListsNeed(fpu: Fpu, x: string, f: string, k: nat)
    ensures Peak(fpu, Call(f, Variables(x, k))) == k + 1
    ensures Peak(fpu, Arr(Variables(x, k))) == (if k == 0 then 1 else 2)
  {
    VariablesNeed(fpu, x, k, 0);
    hide UsedMost, PeakMost;
  }
}
