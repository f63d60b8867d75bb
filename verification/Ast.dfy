/**
 Rules as the parser hands them over (include/cdsl/ast.h), and the world a rule runs in.
 */
module Ast {
  import opened Values

  /** Literals are the scalar values. */
  type Scalar = v: Value | !v.ArrV? && !v.Void? witness BoolV(false)

  datatype Expr =
    | Lit(lit: Scalar)
    | Id(name: string)
    | Arr(elems: seq<Expr>)
    | Un(uop: UnOp, arg: Expr)
    | Bin(bop: BinOp, left: Expr, right: Expr)
    | Call(fn: string, args: seq<Expr>)

  /** An AND or OR. */
  predicate IsConnective(e: Expr) { e.Bin? && IsLogical(e.bop) }

  /** A binary operator that evaluates both of its operands. */
  predicate IsOperation(e: Expr) { e.Bin? && !IsLogical(e.bop) }

  datatype Action = Action(name: string, args: seq<Expr>)

  datatype Case = Case(cond: Expr, action: Action)

  datatype Metric = Metric(name: string, weight: int32, critical: bool, cases: seq<Case>, otherwise: Action)

  datatype Rule =
    | SimpleRule(name: string, when: Expr, then_: Action)
    | MetricRule(name: string, passAt: int, partialAt: int, metrics: seq<Metric>)

  /** Everything outside the rule: the context's bindings, the registered functions (each a
      function of its argument values), the registered action names, the floating-point unit
      and the tree walk's nesting limit. */
  datatype Env = Env(
    vars: map<string, Value>,
    fns: map<string, seq<Value> -> Value>,
    callbacks: set<string>,
    fpu: Fpu,
    maxDepth: nat)

  datatype MetricResult = MetricResult(name: string, weight: int, critical: bool, score: int, passed: bool)

  datatype RuleStatus = Passed | PartiallyPassed | Failed | Errored

  datatype Report = Report(status: RuleStatus, metrics: seq<MetricResult>, totalMax: int, totalObtained: int)
}
