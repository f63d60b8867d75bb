/**
 Expression compilation (is_const_expr, fold_const_expr and compile_expr in
 src/vm/bytecode.c): the program an expression is compiled to, what running that program does
 whatever surrounds it, and why folding constants changes nothing.
 */
module Compiler {
  import opened Values
  import opened Ast
  import opened TreeWalk
  import opened Machine

  predicate IsConst(e: Expr) {
    match e
    case Lit(_) => true
    case Un(_, a) => IsConst(a)
    case Bin(op, l, r) => !IsLogical(op) && IsConst(l) && IsConst(r)
    case _ => false
  }

  function Fold(fpu: Fpu, e: Expr): (r: Option<Value>)
  {
    match e
    case Lit(v) => Some(v)
    case Un(op, a) =>
      (match Fold(fpu, a)
       case None => None
       case Some(v) => Folded(ApplyUn(op, fpu, v)))
    case Bin(op, l, r) =>
      (match (Fold(fpu, l), Fold(fpu, r))
       case (Some(a), Some(b)) => if IsLogical(op) then None else Folded(ApplyBin(fpu, op, a, b))
       case _ => None)
    case _ => None
  }

  function Folded(r: OpResult): Option<Value> {
    if r.st == Ok then Some(r.out) else None
  }

  /** The value compile_expr folds e to, if it folds it. */
  function FoldsTo(fpu: Fpu, e: Expr): Option<Value> {
    if IsConst(e) then Fold(fpu, e) else None
  }

  function LitInst(v: Value): Inst<string> {
    if v.StrV? then PushStr(v.s) else PushLit(v)
  }

  /** An argument count as the C int that is pushed. */
  function CountOf(n: nat): int32 {
    (n + 0x8000_0000) % 0x1_0000_0000 - 0x8000_0000
  }

  function Code(fpu: Fpu, e: Expr): Program
    decreases e, 1
  {
    if FoldsTo(fpu, e).Some? then [LitInst(FoldsTo(fpu, e).value)]
    else match e
      case Lit(v) => [LitInst(v)]
      case Id(x) => [PushVar(x)]
      case Arr(es) => CodeAll(fpu, es) + [PushArr(CountOf(|es|))]
      case Un(op, a) => Code(fpu, a) + [UnOpI(op)]
      case Bin(op, l, r) =>
        var right := Code(fpu, r);
        if op.And? then Code(fpu, l) + [JmpIfFalse(|right| + 2), Pop] + right
        else if op.Or? then Code(fpu, l) + [JmpIfTrue(|right| + 2), Pop] + right
        else Code(fpu, l) + right + [BinOpI(op)]
      case Call(f, args) => CodeAll(fpu, args) + [PushLit(IntV(CountOf(|args|))), CallI(f)]
  }

  function CodeAll(fpu: Fpu, es: seq<Expr>): Program
    decreases es, 0
  {
    if es == [] then [] else Code(fpu, es[0]) + CodeAll(fpu, es[1..])
  }

  // ----- constant folding -----

  lemma OperatorsGiveScalars(fpu: Fpu, bop: BinOp, uop: UnOp, a: Value, b: Value)
    ensures var r := ApplyBin(fpu, bop, a, b); r.st == Ok ==> !r.out.Void? && !r.out.ArrV?
    ensures var r := ApplyUn(uop, fpu, a); r.st == Ok ==> !r.out.Void? && !r.out.ArrV?
    ensures !a.Void? && !b.Void? ==>
              ApplyBin(fpu, bop, a, b).st != VoidOperand && ApplyUn(uop, fpu, a).st != VoidOperand
  {
    BinaryGivesScalars(fpu, bop, a, b);
    hide ApplyBin;
  }

  lemma BinaryGivesScalars(fpu: Fpu, bop: BinOp, a: Value, b: Value)
    ensures var r := ApplyBin(fpu, bop, a, b);
            && (r.st == Ok ==> !r.out.Void? && !r.out.ArrV?)
            && (!a.Void? && !b.Void? ==> r.st != VoidOperand)
  {
    hide PortableAddOk, PortableSubOk, PortableMulOk, TruncDiv;
  }

  /** A constant expression folds exactly when the tree walk evaluates it without an error,
      in every context, and then to the same (scalar) value. */
  lemma {:induction false} FoldingIsEvaluation(e: Expr, env: Env, depth: nat)
    requires IsConst(e) && WithinDepth(e, depth, env.maxDepth)
    ensures match Fold(env.fpu, e)
            case Some(v) => Eval(e, env, depth) == Val(v) && !v.Void? && !v.ArrV?
            case None => Eval(e, env, depth).Err?
  {
    match e
    case Lit(_) =>
    case Un(op, a) =>
      FoldingIsEvaluation(a, env, depth + 1);
      if Fold(env.fpu, a).Some? {
        OperatorsGiveScalars(env.fpu, Add, op, Fold(env.fpu, a).value, VoidV);
        OperatorsGiveScalars(env.fpu, Add, op, Fold(env.fpu, a).value, BoolV(true));
      }
    case Bin(op, l, r) =>
      FoldingIsEvaluation(l, env, depth + 1);
      FoldingIsEvaluation(r, env, depth + 1);
      if Fold(env.fpu, l).Some? && Fold(env.fpu, r).Some? {
        OperatorsGiveScalars(env.fpu, op, Not, Fold(env.fpu, l).value, Fold(env.fpu, r).value);
      }
  }

  // ----- running compiled code in place -----

  /** What the machine does with the code of an expression: it goes on after it, or stops. */
  datatype Effect = Go(s: State) | Stop(s: State, result: Value)

  /** The effect of one instruction that does not jump. */
  function One(h: Host, inst: Inst<string>, s: State): Effect {
    match Step(h, inst, s)
    case Next(_, s') => Go(s')
    case Halt(s', v) => Stop(s', v)
  }

  /** The effect of Code(e), read off the source expression: no code, no jumps. */
  function Sem(h: Host, e: Expr, s: State): Effect
    decreases e, 1
  {
    if FoldsTo(h.env.fpu, e).Some? then One(h, LitInst(FoldsTo(h.env.fpu, e).value), s)
    else match e
      case Lit(v) => One(h, LitInst(v), s)
      case Id(x) => One(h, PushVar(x), s)
      case Arr(es) => Then(h, SemAll(h, es, s), PushArr(CountOf(|es|)))
      case Un(op, a) => Then(h, Sem(h, a, s), UnOpI(op))
      case Bin(op, l, r) =>
        (match Sem(h, l, s)
         case Stop(s', v) => Stop(s', v)
         case Go(s1) =>
           if IsLogical(op) then
             // the conditional jump peeks; falling through pops, and the explicit POP pops again
             var (v, s2) := Peeked(s1);
             if Truth(v) == op.Or? then Go(s2)
             else
               match One(h, Pop, Popped(s2).1)
               case Stop(s', v) => Stop(s', v)
               case Go(s3) => Sem(h, r, s3)
           else Then(h, Sem(h, r, s1), BinOpI(op)))
      case Call(f, args) =>
        Then(h, Then(h, SemAll(h, args, s), PushLit(IntV(CountOf(|args|)))), CallI(f))
  }

  function SemAll(h: Host, es: seq<Expr>, s: State): Effect
    decreases es, 0
  {
    if es == [] then Go(s)
    else match Sem(h, es[0], s)
      case Stop(s', v) => Stop(s', v)
      case Go(s') => SemAll(h, es[1..], s')
  }

  function Then(h: Host, eff: Effect, inst: Inst<string>): Effect {
    match eff
    case Stop(s, v) => Stop(s, v)
    case Go(s) => One(h, inst, s)
  }

  /** The program has the fragment at position i. */
  predicate At(code: Program, i: nat, fragment: Program) {
    i + |fragment| <= |code| && code[i..i + |fragment|] == fragment
  }

  lemma AtSplit(code: Program, i: nat, a: Program, b: Program)
    requires At(code, i, a + b)
    ensures At(code, i, a) && At(code, i + |a|, b)
  {
    assert code[i..i + |a|] == code[i..i + |a + b|][..|a|] == a;
    assert code[i + |a|..i + |a| + |b|] == code[i..i + |a + b|][|a|..] == b;
  }

  lemma AtOne(code: Program, i: nat, inst: Inst<string>)
    requires At(code, i, [inst])
    ensures i < |code| && code[i] == inst
  {
    assert code[i] == code[i..i + 1][0];
  }

  function Continue(h: Host, code: Program, j: int, eff: Effect): RunResult {
    match eff
    case Go(s) => Run(h, code, j, s)
    case Stop(s, v) => RunResult(s, v)
  }

  predicate IsJump(inst: Inst<string>) {
    inst.JmpIfFalse? || inst.JmpIfTrue? || inst.Jmp?
  }

  lemma RunsOne(h: Host, code: Program, i: nat, inst: Inst<string>, s: State)
    requires At(code, i, [inst]) && !IsJump(inst)
    ensures Run(h, code, i, s) == Continue(h, code, i + 1, One(h, inst, s))
  {
    AtOne(code, i, inst);
  }

  lemma RunsThen(h: Host, code: Program, j: nat, inst: Inst<string>, eff: Effect, r: RunResult)
    requires At(code, j, [inst]) && !IsJump(inst)
    requires r == Continue(h, code, j, eff)
    ensures r == Continue(h, code, j + 1, Then(h, eff, inst))
  {
    if eff.Go? { RunsOne(h, code, j, inst, eff.s); }
  }

  /** A conditional jump peeks: taken, it keeps the operand; not taken, it drops it. */
  lemma RunsBranch(h: Host, code: Program, i: nat, onTrue: bool, off: int, s: State)
    requires At(code, i, [Branch(onTrue, off)]) && off >= 1
    ensures var (v, s1) := Peeked(s);
            Run(h, code, i, s) == if Truth(v) == onTrue then Run(h, code, i + off, s1)
                                  else Run(h, code, i + 1, Popped(s1).1)
  {
    AtOne(code, i, Branch(onTrue, off));
  }

  function Branch(onTrue: bool, off: int): Inst<string> {
    if onTrue then JmpIfTrue(off) else JmpIfFalse(off)
  }

  ghost predicate Works(h: Host, code: Program, i: nat, e: Expr, s: State) {
    Run(h, code, i, s) == Continue(h, code, i + |Code(h.env.fpu, e)|, Sem(h, e, s))
  }

  /** Compiled code, wherever it stands in a program and whatever the machine state, does what
      its expression says and then goes on with the instruction after it. */
  lemma {:induction false} CodeRuns(h: Host, code: Program, i: nat, e: Expr, s: State)
    requires At(code, i, Code(h.env.fpu, e))
    ensures Run(h, code, i, s) == Continue(h, code, i + |Code(h.env.fpu, e)|, Sem(h, e, s))
    decreases e, 1
  {
    hide Run, Step, Fold;
    if FoldsTo(h.env.fpu, e).Some? || e.Lit? || e.Id? {
      LeafRuns(h, code, i, e, s);
    } else if e.Un? {
      UnaryRuns(h, code, i, e, s);
    } else if e.Bin? {
      if IsLogical(e.bop) { LogicalRuns(h, code, i, e, s); } else { BinaryRuns(h, code, i, e, s); }
    } else {
      ListRuns(h, code, i, e, s);
    }
  }

  lemma LeafRuns(h: Host, code: Program, i: nat, e: Expr, s: State)
    requires FoldsTo(h.env.fpu, e).Some? || e.Lit? || e.Id?
    requires At(code, i, Code(h.env.fpu, e))
    ensures Works(h, code, i, e, s)
  {
    hide Run, Step, Fold;
    if FoldsTo(h.env.fpu, e).Some? {
      RunsOne(h, code, i, LitInst(FoldsTo(h.env.fpu, e).value), s);
    } else {
      RunsOne(h, code, i, if e.Lit? then LitInst(e.lit) else PushVar(e.name), s);
    }
  }

  lemma {:induction false} UnaryRuns(h: Host, code: Program, i: nat, e: Expr, s: State)
    requires e.Un? && FoldsTo(h.env.fpu, e).None? && At(code, i, Code(h.env.fpu, e))
    ensures Works(h, code, i, e, s)
    decreases e, 0
  {
    hide Run, Step, Fold;
    var c := Code(h.env.fpu, e.arg);
    AtSplit(code, i, c, [UnOpI(e.uop)]);
    CodeRuns(h, code, i, e.arg, s);
    RunsThen(h, code, i + |c|, UnOpI(e.uop), Sem(h, e.arg, s), Run(h, code, i, s));
  }

  lemma {:induction false} BinaryRuns(h: Host, code: Program, i: nat, e: Expr, s: State)
    requires IsOperation(e) && FoldsTo(h.env.fpu, e).None? && At(code, i, Code(h.env.fpu, e))
    ensures Works(h, code, i, e, s)
    decreases e, 0
  {
    hide Run, Step, Fold;
    var cl, cr := Code(h.env.fpu, e.left), Code(h.env.fpu, e.right);
    AtSplit(code, i, cl + cr, [BinOpI(e.bop)]);
    AtSplit(code, i, cl, cr);
    CodeRuns(h, code, i, e.left, s);
    if Sem(h, e.left, s).Go? {
      var s1 := Sem(h, e.left, s).s;
      CodeRuns(h, code, i + |cl|, e.right, s1);
      RunsThen(h, code, i + |cl| + |cr|, BinOpI(e.bop), Sem(h, e.right, s1), Run(h, code, i, s));
    }
  }

  lemma {:induction false} ListRuns(h: Host, code: Program, i: nat, e: Expr, s: State)
    requires (e.Arr? || e.Call?) && FoldsTo(h.env.fpu, e).None? && At(code, i, Code(h.env.fpu, e))
    ensures Works(h, code, i, e, s)
    decreases e, 0
  {
    hide Run, Step, Fold;
    var es := if e.Arr? then e.elems else e.args;
    var j, eff, r := i + |CodeAll(h.env.fpu, es)|, SemAll(h, es, s), Run(h, code, i, s);
    if e.Arr? {
      AtSplit(code, i, CodeAll(h.env.fpu, es), [PushArr(CountOf(|es|))]);
      AllRuns(h, code, i, es, s);
      RunsThen(h, code, j, PushArr(CountOf(|es|)), eff, r);
    } else {
      var push := PushLit(IntV(CountOf(|es|)));
      CallAt(h.env.fpu, code, i, e.fn, es);
      AllRuns(h, code, i, es, s);
      RunsThen(h, code, j, push, eff, r);
      RunsThen(h, code, j + 1, CallI(e.fn), Then(h, eff, push), r);
    }
  }

  lemma CallAt(fpu: Fpu, code: Program, i: nat, f: string, args: seq<Expr>)
    requires At(code, i, Code(fpu, Call(f, args)))
    ensures At(code, i, CodeAll(fpu, args))
    ensures At(code, i + |CodeAll(fpu, args)|, [PushLit(IntV(CountOf(|args|)))])
    ensures At(code, i + |CodeAll(fpu, args)| + 1, [CallI(f)])
  {
    var push := PushLit(IntV(CountOf(|args|)));
    AtSplit(code, i, CodeAll(fpu, args), [push, CallI(f)]);
    assert [push, CallI(f)] == [push] + [CallI(f)];
    AtSplit(code, i + |CodeAll(fpu, args)|, [push], [CallI(f)]);
  }

  lemma {:induction false} AllRuns(h: Host, code: Program, i: nat, es: seq<Expr>, s: State)
    requires At(code, i, CodeAll(h.env.fpu, es))
    ensures Run(h, code, i, s) == Continue(h, code, i + |CodeAll(h.env.fpu, es)|, SemAll(h, es, s))
    decreases es, 0
  {
    hide Run, Step, Fold;
    if es != [] {
      AtSplit(code, i, Code(h.env.fpu, es[0]), CodeAll(h.env.fpu, es[1..]));
      CodeRuns(h, code, i, es[0], s);
      if Sem(h, es[0], s).Go? {
        AllRuns(h, code, i + |Code(h.env.fpu, es[0])|, es[1..], Sem(h, es[0], s).s);
      }
    }
  }

  lemma LogicalAt(fpu: Fpu, code: Program, i: nat, e: Expr)
    requires IsConnective(e) && At(code, i, Code(fpu, e))
    ensures At(code, i, Code(fpu, e.left))
    ensures At(code, i + |Code(fpu, e.left)|, [Branch(e.bop.Or?, |Code(fpu, e.right)| + 2)])
    ensures At(code, i + |Code(fpu, e.left)| + 1, [Pop])
    ensures At(code, i + |Code(fpu, e.left)| + 2, Code(fpu, e.right))
    ensures |Code(fpu, e)| == |Code(fpu, e.left)| + 2 + |Code(fpu, e.right)|
  {
    var cl, cr := Code(fpu, e.left), Code(fpu, e.right);
    var jump := Branch(e.bop.Or?, |cr| + 2);
    assert Code(fpu, e) == cl + [jump, Pop] + cr;
    AtSplit(code, i, cl + [jump, Pop], cr);
    AtSplit(code, i, cl, [jump, Pop]);
    assert [jump, Pop] == [jump] + [Pop];
    AtSplit(code, i + |cl|, [jump], [Pop]);
  }

  /** The state the right operand of AND or OR starts from: the jump that falls through pops,
      and so does the POP after it, unless the stack is empty by then. */
  function AfterBoth(s: State): State {
    var s3 := Popped(Peeked(s).1).1;
    if |s3.stk| > 0 then Popped(s3).1 else s3
  }

  lemma {:induction false} LogicalRuns(h: Host, code: Program, i: nat, e: Expr, s: State)
    requires IsConnective(e) && At(code, i, Code(h.env.fpu, e))
    ensures Works(h, code, i, e, s)
    decreases e, 0
  {
    hide Run, Step, Fold, Popped, Peeked, AfterBoth;
    LogicalAt(h.env.fpu, code, i, e);
    var j, n := i + |Code(h.env.fpu, e.left)|, |Code(h.env.fpu, e.right)|;
    CodeRuns(h, code, i, e.left, s);
    LogicalSem(h, e, s);
    if Sem(h, e.left, s).Go? {
      var s1 := Sem(h, e.left, s).s;
      BranchAndPop(h, code, j, e.bop.Or?, n + 2, s1);
      CodeRuns(h, code, j + 2, e.right, AfterBoth(s1));
    }
  }

  lemma LogicalSem(h: Host, e: Expr, s: State)
    requires IsConnective(e)
    ensures Sem(h, e, s) ==
      match Sem(h, e.left, s)
      case Stop(s', v) => Stop(s', v)
      case Go(s1) =>
        if Truth(Peeked(s1).0) == e.bop.Or? then Go(Peeked(s1).1) else Sem(h, e.right, AfterBoth(s1))
  {
    assert FoldsTo(h.env.fpu, e).None?;
  }

  lemma BranchAndPop(h: Host, code: Program, j: nat, onTrue: bool, off: int, s: State)
    requires At(code, j, [Branch(onTrue, off)]) && At(code, j + 1, [Pop]) && off >= 1
    ensures Run(h, code, j, s) ==
            if Truth(Peeked(s).0) == onTrue then Run(h, code, j + off, Peeked(s).1)
            else Run(h, code, j + 2, AfterBoth(s))
  {
    RunsBranch(h, code, j, onTrue, off, s);
    PopRuns(h, code, j + 1, Popped(Peeked(s).1).1);
  }

  lemma PopRuns(h: Host, code: Program, j: nat, s: State)
    requires At(code, j, [Pop])
    ensures Run(h, code, j, s) == Run(h, code, j + 1, if |s.stk| > 0 then Popped(s).1 else s)
  {
    RunsOne(h, code, j, Pop, s);
  }
}
