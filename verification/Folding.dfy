/**
 What constant folding leaves out of the program (the folding branch of compile_expr in
 src/vm/bytecode.c): the code it saves would have done the same.
 */
module Folding {
  import opened Values
  import opened Ast
  import opened TreeWalk
  import opened Machine
  import opened Compiler
  import opened Agreement

  /** The code of a constant expression if nothing were folded. */
  function Unfolded(e: Expr): Program
    requires IsConst(e)
  {
    match e
    case Lit(v) => [LitInst(v)]
    case Un(op, a) => Unfolded(a) + [UnOpI(op)]
    case Bin(op, l, r) => Unfolded(l) + (Unfolded(r) + [BinOpI(op)])
  }

  /** The slots that code needs. */
  function UnfoldedDepth(e: Expr): nat
    requires IsConst(e)
  {
    match e
    case Lit(_) => 1
    case Un(_, a) => UnfoldedDepth(a)
    case Bin(_, l, r) => Max(UnfoldedDepth(l), UnfoldedDepth(r) + 1)
  }

  lemma {:induction false} FoldingSavesSlots(fpu: Fpu, e: Expr)
    requires IsConst(e)
    ensures 1 <= UnfoldedDepth(e) && Depth(fpu, e) <= UnfoldedDepth(e)
  {
    match e
    case Lit(_) =>
    case Un(_, a) => FoldingSavesSlots(fpu, a);
    case Bin(_, l, r) => FoldingSavesSlots(fpu, l); FoldingSavesSlots(fpu, r);
  }

  /** The unfolded code adds the expression's value or stops with its first error. */
  lemma {:induction false} UnfoldedRuns(h: Host, code: Program, i: nat, e: Expr, s: State)
    requires IsConst(e) && At(code, i, Unfolded(e)) && Roomy(h, s, UnfoldedDepth(e))
    ensures Run(h, code, i, s) == Continue(h, code, i + |Unfolded(e)|, Yield(s, RawEval(e, h.env)))
    decreases e, 1
  {
    hide Run, Step, RawEval;
    if e.Lit? {
      UnfoldedLiteralRuns(h, code, i, e.lit, s);
    } else if e.Un? {
      UnfoldedUnaryRuns(h, code, i, e, s);
    } else {
      UnfoldedBinaryRuns(h, code, i, e, s);
    }
  }

  lemma UnfoldedLiteralRuns(h: Host, code: Program, i: nat, v: Scalar, s: State)
    requires At(code, i, [LitInst(v)]) && Roomy(h, s, 1)
    ensures Run(h, code, i, s) == Continue(h, code, i + 1, Yield(s, RawEval(Lit(v), h.env)))
  {
    hide Run, Step;
    RunsOne(h, code, i, LitInst(v), s);
    PushEffect(h, s, v);
  }

  lemma {:induction false} UnfoldedUnaryRuns(h: Host, code: Program, i: nat, e: Expr, s: State)
    requires e.Un? && IsConst(e) && At(code, i, Unfolded(e)) && Roomy(h, s, UnfoldedDepth(e))
    ensures Run(h, code, i, s) == Continue(h, code, i + |Unfolded(e)|, Yield(s, RawEval(e, h.env)))
    decreases e, 0
  {
    hide Run, Step, ApplyUn, Depth;
    var c := Unfolded(e.arg);
    AtSplit(code, i, c, [UnOpI(e.uop)]);
    UnfoldedRuns(h, code, i, e.arg, s);
    FoldingSavesSlots(h.env.fpu, e.arg);
    if RawEval(e.arg, h.env).Val? { UnaryStepRuns(h, code, i + |c|, e.uop, s, RawEval(e.arg, h.env).v); }
    hide Unfolded, At;
  }

  lemma UnaryStepRuns(h: Host, code: Program, j: nat, op: UnOp, s: State, v: Value)
    requires At(code, j, [UnOpI(op)]) && Roomy(h, s, 1)
    ensures Run(h, code, j, Pushed(s, v)) == Continue(h, code, j + 1, Yield(s, Lift(ApplyUn(op, h.env.fpu, v))))
  {
    hide Run, Step, ApplyUn, At;
    UnaryEffect(h, s, v, op);
    RunsOne(h, code, j, UnOpI(op), Pushed(s, v));
  }

  lemma {:induction false} UnfoldedBinaryRuns(h: Host, code: Program, i: nat, e: Expr, s: State)
    requires e.Bin? && IsConst(e) && At(code, i, Unfolded(e)) && Roomy(h, s, UnfoldedDepth(e))
    ensures Run(h, code, i, s) == Continue(h, code, i + |Unfolded(e)|, Yield(s, RawEval(e, h.env)))
    decreases e, 0
  {
    hide Run, Step, ApplyBin, At, Fold;
    var cl, cr := Unfolded(e.left), Unfolded(e.right);
    AtSplit(code, i, cl, cr + [BinOpI(e.bop)]);
    AtSplit(code, i + |cl|, cr, [BinOpI(e.bop)]);
    UnfoldedRuns(h, code, i, e.left, s);
    FoldingSavesSlots(h.env.fpu, e.left);
    if RawEval(e.left, h.env).Val? {
      var a := RawEval(e.left, h.env).v;
      UnfoldedRuns(h, code, i + |cl|, e.right, Pushed(s, a));
      if RawEval(e.right, h.env).Val? {
        var b := RawEval(e.right, h.env).v;
        BinaryEffect(h, s, a, b, e.bop);
        RunsOne(h, code, i + |cl| + |cr|, BinOpI(e.bop), Pushed(Pushed(s, a), b));
      }
    }
  }

  /** A run never looks at the code behind it. */
  lemma {:induction false} RunsForward(h: Host, a: Program, p: Program, k: nat, s: State)
    ensures Run(h, a + p, |a| + k, s) == Run(h, p, k, s)
    decreases |p| - k
  {
    hide Step;
    if k < |p| {
      assert (a + p)[|a| + k] == p[k];
      if Step(h, p[k], s).Next? && Step(h, p[k], s).off >= 1 {
        RunsForward(h, a, p, k + Step(h, p[k], s).off, Step(h, p[k], s).s);
      }
    }
  }

  /** Folding changes no run: whatever program follows a constant expression, on every stack with
      room for the unfolded code, the folded and the unfolded code lead to the same end. An error
      is left to run time and is the same one. */
  lemma FoldedAndUnfoldedAgree(h: Host, e: Expr, after: Program, s: State)
    requires IsConst(e) && Roomy(h, s, UnfoldedDepth(e))
    ensures Run(h, Code(h.env.fpu, e) + after, 0, s) == Run(h, Unfolded(e) + after, 0, s)
  {
    hide Run, Code, Sem, RawEval, Unfolded, Placed, Depth;
    var folded, unfolded := Code(h.env.fpu, e), Unfolded(e);
    assert (folded + after)[0..0 + |folded|] == folded && (unfolded + after)[0..0 + |unfolded|] == unfolded;
    FoldingSavesSlots(h.env.fpu, e);
    ConstIsPlaced(e);
    NoFalls(e, h.env);
    CodeRuns(h, folded + after, 0, e, s);
    StackDiscipline(h, e, s);
    UnfoldedRuns(h, unfolded + after, 0, e, s);
    var r := RawEval(e, h.env);
    if r.Val? {
      RunsForward(h, folded, after, 0, Pushed(s, r.v));
      RunsForward(h, unfolded, after, 0, Pushed(s, r.v));
    }
  }
}
