/** The recursive evaluator (cdsl_eval_expr_internal in src/vm/eval.c). */
module TreeWalk {
  import opened Values
  import opened Ast

  /** An evaluation yields a value, or stops the execution with its first runtime error. */
  datatype Res = Val(v: Value) | Err(st: Status)

  datatype ResSeq = Vals(vs: seq<Value>) | SeqErr(st: Status)

  function Lift(r: OpResult): Res {
    if IsFatal(r.st) then Err(r.st) else Val(r.out)
  }

  function Lookup(env: Env, name: string): Value {
    if name in env.vars then env.vars[name] else VoidV
  }

  function Eval(e: Expr, env: Env, depth: nat): Res
    decreases e, 1
  {
    if depth >= env.maxDepth then Val(VoidV)
    else match e
      case Lit(v) => Val(v)
      case Id(x) => Val(Lookup(env, x))
      case Arr(es) =>
        (match EvalAll(es, env, depth + 1)
         case SeqErr(st) => Err(st)
         case Vals(vs) => Val(ArrV(vs)))
      case Un(op, a) =>
        (match Eval(a, env, depth + 1)
         case Err(st) => Err(st)
         case Val(v) => Lift(ApplyUn(op, env.fpu, v)))
      case Bin(op, l, r) =>
        (match Eval(l, env, depth + 1)
         case Err(st) => Err(st)
         case Val(a) =>
           if op.And? && !Truth(a) then Val(BoolV(false))
           else if op.Or? && Truth(a) then Val(BoolV(true))
           else
             match Eval(r, env, depth + 1)
             case Err(st) => Err(st)
             case Val(b) => if IsLogical(op) then Val(BoolV(Truth(b))) else Lift(ApplyBin(env.fpu, op, a, b)))
      case Call(f, args) =>
        if f !in env.fns then Val(VoidV)
        else
          match EvalAll(args, env, 0)
          case SeqErr(st) => Err(st)
          case Vals(vs) => Val(env.fns[f](vs))
  }

  function EvalAll(es: seq<Expr>, env: Env, depth: nat): (r: ResSeq)
    ensures r.Vals? ==> |r.vs| == |es|
    decreases es, 0
  {
    if es == [] then Vals([])
    else match Eval(es[0], env, depth)
      case Err(st) => SeqErr(st)
      case Val(v) =>
        match EvalAll(es[1..], env, depth)
        case SeqErr(st) => SeqErr(st)
        case Vals(vs) => Vals([v] + vs)
  }

  /** No node of e, first met at the given depth, lies beyond the nesting limit. A function
      evaluates its arguments from depth 0 again. */
  predicate WithinDepth(e: Expr, depth: nat, limit: nat)
    decreases e, 1
  {
    depth < limit &&
    match e
    case Lit(_) => true
    case Id(_) => true
    case Arr(es) => AllWithinDepth(es, depth + 1, limit)
    case Un(_, a) => WithinDepth(a, depth + 1, limit)
    case Bin(_, l, r) => WithinDepth(l, depth + 1, limit) && WithinDepth(r, depth + 1, limit)
    case Call(_, args) => AllWithinDepth(args, 0, limit)
  }

  predicate AllWithinDepth(es: seq<Expr>, depth: nat, limit: nat)
    decreases es, 0
  {
    es == [] || (WithinDepth(es[0], depth, limit) && AllWithinDepth(es[1..], depth, limit))
  }

  /** An operator stops the evaluation with exactly the three errors; with VOID it goes on. */
  lemma OnlyErrorsStop(e: Expr, env: Env, depth: nat)
    requires depth < env.maxDepth
    ensures IsOperation(e) && Eval(e.left, env, depth + 1).Val? && Eval(e.right, env, depth + 1).Val? ==>
              var r := ApplyBin(env.fpu, e.bop, Eval(e.left, env, depth + 1).v, Eval(e.right, env, depth + 1).v);
              Eval(e, env, depth) == if r.st in {TypeError, DivZero, Overflow} then Err(r.st) else Val(r.out)
    ensures e.Un? && Eval(e.arg, env, depth + 1).Val? ==>
              var r := ApplyUn(e.uop, env.fpu, Eval(e.arg, env, depth + 1).v);
              Eval(e, env, depth) == if r.st in {TypeError, DivZero, Overflow} then Err(r.st) else Val(r.out)
  {
    hide ApplyBin, ApplyUn;
  }

  /** A negated INT variable is its value with the sign changed, and compares so. */
  lemma NegatedVariable(env: Env, x: string, i: int32)
    requires env.maxDepth >= 3 && x in env.vars && env.vars[x] == IntV(i) && i != -0x8000_0000
    ensures Eval(Un(Neg, Id(x)), env, 0) == Val(IntV(-i))
    ensures Eval(Bin(Lt, Un(Neg, Id(x)), Lit(IntV(0))), env, 0) == Val(BoolV(i > 0))
  {
    assert Eval(Id(x), env, 1) == Val(IntV(i)) && Eval(Id(x), env, 2) == Val(IntV(i));
    assert Eval(Un(Neg, Id(x)), env, 1) == Val(IntV(-i)) && Eval(Lit(IntV(0)), env, 1) == Val(IntV(0));
  }
}
