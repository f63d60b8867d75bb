/**
 The type checker (resolve_expr_type in src/schema/schema.c), and what its answer is worth at
 run time.
 */
module Types {
  import opened Values
  import opened Ast
  import opened TreeWalk
  import opened Machine
  import opened Compiler
  import opened Agreement

  datatype Signature = Signature(args: seq<Type>, ret: Type)

  datatype Schema = Schema(vars: map<string, Type>, actions: map<string, Signature>)

  predicate IsNumericType(t: Type) { t.TInt? || t.TFloat? || t.TLong? }

  /** Whether an argument of type t may stand for a declared parameter. */
  predicate Accepts(declared: Type, t: Type) {
    declared == t || (declared.TFloat? && t.TInt?)
  }

  /** The checker's verdict; TVoid means that it has reported an error, or that a name declared
      VOID is used. */
  function ResolveType(e: Expr, sc: Schema): Type
    decreases e, 1
  {
    match e
    case Lit(v) => TypeOf(v)
    case Id(x) => if x in sc.vars then sc.vars[x] else TVoid
    case Arr(es) => if TVoid in ResolveAll(es, sc) then TVoid else TArray
    case Un(op, a) => ResolveUnary(op, ResolveType(a, sc))
    case Bin(op, l, r) => ResolveBinary(op, ResolveType(l, sc), ResolveType(r, sc))
    case Call(f, args) =>
      if f !in sc.actions then TVoid
      else
        var sig := sc.actions[f];
        if |args| != |sig.args| then TVoid
        else if AcceptsAll(sig.args, ResolveAll(args, sc)) then sig.ret else TVoid
  }

  function ResolveAll(es: seq<Expr>, sc: Schema): (ts: seq<Type>)
    ensures |ts| == |es|
    decreases es, 0
  {
    if es == [] then [] else [ResolveType(es[0], sc)] + ResolveAll(es[1..], sc)
  }

  predicate AcceptsAll(declared: seq<Type>, ts: seq<Type>)
    requires |declared| == |ts|
  {
    ts == [] || (ts[0] != TVoid && Accepts(declared[0], ts[0]) && AcceptsAll(declared[1..], ts[1..]))
  }

  function ResolveUnary(op: UnOp, t: Type): Type {
    if t.TVoid? then TVoid
    else match op
      case Not => if t.TBool? then TBool else TVoid
      case Neg => if IsNumericType(t) then t else TVoid
  }

  function ResolveBinary(op: BinOp, lt: Type, rt: Type): Type {
    if lt.TVoid? || rt.TVoid? then TVoid
    else if IsLogical(op) then (if lt.TBool? && rt.TBool? then TBool else TVoid)
    else if IsArithmetic(op) then
      if lt.TDate? then
        if op.Sub? && rt.TDate? then TInt
        else if (op.Add? || op.Sub?) && IsNumericType(rt) then TDate
        else TVoid
      else if rt.TDate? && op.Add? && IsNumericType(lt) then TDate
      else if !IsNumericType(lt) || !IsNumericType(rt) then TVoid
      else if lt.TFloat? || rt.TFloat? then TFloat
      else if lt.TLong? || rt.TLong? then TLong
      else TInt
    else if lt != rt && !(IsNumericType(lt) && IsNumericType(rt)) then TVoid
    else if lt.TString? && !(op.Eq? || op.Ne?) then TVoid
    else TBool
  }

  /** The checker reports no error for e. Wherever a part resolves to VOID it goes no further, as if
      an error had been reported there already. */
  predicate Silent(e: Expr, sc: Schema)
    decreases e, 1
  {
    match e
    case Lit(_) => true
    case Id(x) => x in sc.vars
    case Arr(es) => ElementsSilent(es, sc)
    case Un(op, a) =>
      var t := ResolveType(a, sc);
      Silent(a, sc) && (t.TVoid? || ResolveUnary(op, t) != TVoid)
    case Bin(op, l, r) =>
      var lt, rt := ResolveType(l, sc), ResolveType(r, sc);
      Silent(l, sc) && Silent(r, sc) && (lt.TVoid? || rt.TVoid? || ResolveBinary(op, lt, rt) != TVoid)
    case Call(f, args) =>
      f in sc.actions && |args| == |sc.actions[f].args| && ArgumentsSilent(sc.actions[f].args, args, sc)
  }

  predicate ElementsSilent(es: seq<Expr>, sc: Schema)
    decreases es, 0
  {
    es == [] || (Silent(es[0], sc) && (ResolveType(es[0], sc).TVoid? || ElementsSilent(es[1..], sc)))
  }

  predicate ArgumentsSilent(declared: seq<Type>, es: seq<Expr>, sc: Schema)
    requires |declared| == |es|
    decreases es, 0
  {
    es == [] ||
    (var t := ResolveType(es[0], sc);
     Silent(es[0], sc) && (t.TVoid? || (Accepts(declared[0], t) && ArgumentsSilent(declared[1..], es[1..], sc))))
  }

  /** An expression that resolves to a type has no error reported; and if no variable and no
      function it calls is declared VOID, one without a reported error resolves to a type. */
  lemma {:induction false} SilentIsTyped(e: Expr, sc: Schema)
    ensures ResolveType(e, sc) != TVoid ==> Silent(e, sc)
    ensures NothingVoid(sc, Calls(e)) ==> (Silent(e, sc) <==> ResolveType(e, sc) != TVoid)
    decreases e, 1
  {
    match e
    case Lit(_) =>
    case Id(_) =>
    case Arr(es) => ElementsAreTyped(es, sc);
    case Un(_, a) => SilentIsTyped(a, sc);
    case Bin(_, l, r) =>
      SilentIsTyped(l, sc);
      SilentIsTyped(r, sc);
    case Call(f, args) =>
      if f in sc.actions && |args| == |sc.actions[f].args| {
        ArgumentsAreTyped(sc.actions[f].args, args, sc);
      }
  }

  ghost predicate NothingVoid(sc: Schema, fs: set<string>) {
    (forall x <- sc.vars :: sc.vars[x] != TVoid) && (forall f <- fs :: f in sc.actions ==> sc.actions[f].ret != TVoid)
  }

  lemma {:induction false} ElementsAreTyped(es: seq<Expr>, sc: Schema)
    ensures TVoid !in ResolveAll(es, sc) ==> ElementsSilent(es, sc)
    ensures NothingVoid(sc, AllCalls(es)) ==> (ElementsSilent(es, sc) <==> TVoid !in ResolveAll(es, sc))
    decreases es, 0
  {
    hide Silent, ResolveType;
    if es != [] {
      SilentIsTyped(es[0], sc);
      ElementsAreTyped(es[1..], sc);
    }
  }

  lemma {:induction false} ArgumentsAreTyped(declared: seq<Type>, es: seq<Expr>, sc: Schema)
    requires |declared| == |es|
    ensures AcceptsAll(declared, ResolveAll(es, sc)) ==> ArgumentsSilent(declared, es, sc)
    ensures NothingVoid(sc, AllCalls(es)) ==>
              (ArgumentsSilent(declared, es, sc) <==> AcceptsAll(declared, ResolveAll(es, sc)))
    decreases es, 0
  {
    hide Silent, ResolveType;
    if es != [] {
      SilentIsTyped(es[0], sc);
      ArgumentsAreTyped(declared[1..], es[1..], sc);
      assert ResolveAll(es, sc)[1..] == ResolveAll(es[1..], sc);
    }
  }

  /** No comparison of two arrays: the checker accepts those, the evaluator has no rule for them. */
  predicate NoArrayComparison(e: Expr, sc: Schema)
    decreases e, 1
  {
    match e
    case Lit(_) => true
    case Id(_) => true
    case Arr(es) => NoArrayComparisons(es, sc)
    case Un(_, a) => NoArrayComparison(a, sc)
    case Bin(op, l, r) =>
      NoArrayComparison(l, sc) && NoArrayComparison(r, sc) &&
      !(IsRelational(op) && ResolveType(l, sc).TArray?)
    case Call(_, args) => NoArrayComparisons(args, sc)
  }

  predicate NoArrayComparisons(es: seq<Expr>, sc: Schema)
    decreases es, 0
  {
    es == [] || (NoArrayComparison(es[0], sc) && NoArrayComparisons(es[1..], sc))
  }

  // ----- typed worlds -----

  ghost predicate HasTypes(vs: seq<Value>, ts: seq<Type>) {
    |vs| == |ts| && forall k :: 0 <= k < |vs| ==> VoidFree(vs[k]) && TypeOf(vs[k]) == ts[k]
  }

  ghost predicate Acceptable(vs: seq<Value>, declared: seq<Type>) {
    |vs| == |declared| && forall k :: 0 <= k < |vs| ==> Accepts(declared[k], TypeOf(vs[k]))
  }

  /** The functions an expression calls. */
  function Calls(e: Expr): set<string>
    decreases e, 1
  {
    match e
    case Lit(_) => {}
    case Id(_) => {}
    case Arr(es) => AllCalls(es)
    case Un(_, a) => Calls(a)
    case Bin(_, l, r) => Calls(l) + Calls(r)
    case Call(f, args) => {f} + AllCalls(args)
  }

  function AllCalls(es: seq<Expr>): set<string>
    decreases es, 0
  {
    if es == [] then {} else Calls(es[0]) + AllCalls(es[1..])
  }

  /** Every schema variable is bound at its type, and the functions in question that the schema
      declares with a result are registered and return it. The schema's actions share its table of
      functions but are declared without a result, and nothing is asked of them. */
  ghost predicate Conforms(env: Env, sc: Schema, fs: set<string>) {
    && (forall x <- sc.vars :: x in env.vars && VoidFree(env.vars[x]) && TypeOf(env.vars[x]) == sc.vars[x])
    && (forall f <- fs :: f in sc.actions && sc.actions[f].ret != TVoid ==>
          f in env.fns && Respects(env.fns[f], sc.actions[f]))
  }

  ghost predicate Respects(fn: seq<Value> -> Value, sig: Signature) {
    forall vs: seq<Value> :: Acceptable(vs, sig.args) ==> VoidFree(fn(vs)) && TypeOf(fn(vs)) == sig.ret
  }

  /** A value of the type, or an overflow or division by zero: never a type error, never VOID. */
  ghost predicate Sound(r: Res, t: Type) {
    match r
    case Val(v) => VoidFree(v) && TypeOf(v) == t
    case Err(st) => st == Overflow || st == DivZero
  }

  ghost predicate AllSound(r: ResSeq, ts: seq<Type>) {
    match r
    case Vals(vs) => HasTypes(vs, ts)
    case SeqErr(st) => st == Overflow || st == DivZero
  }

  // ----- soundness -----

  lemma UnarySound(fpu: Fpu, op: UnOp, v: Value)
    requires VoidFree(v) && ResolveUnary(op, TypeOf(v)) != TVoid
    ensures Sound(Lift(ApplyUn(op, fpu, v)), ResolveUnary(op, TypeOf(v)))
  {
  }

  lemma BinarySound(fpu: Fpu, op: BinOp, a: Value, b: Value)
    requires VoidFree(a) && VoidFree(b) && !IsLogical(op)
    requires ResolveBinary(op, TypeOf(a), TypeOf(b)) != TVoid
    requires !(IsRelational(op) && a.ArrV?)
    ensures Sound(Lift(ApplyBin(fpu, op, a, b)), ResolveBinary(op, TypeOf(a), TypeOf(b)))
  {
    hide PortableAddOk, PortableSubOk, PortableMulOk, TruncDiv;
    if IsRelational(op) {
      assert Lift(ApplyBin(fpu, op, a, b)).Val? && Lift(ApplyBin(fpu, op, a, b)).v.BoolV?;
    }
  }

  /** Comparing two arrays is the only well-typed operator application that is a type error. */
  lemma ArrayComparisonsExactly(fpu: Fpu, op: BinOp, a: Value, b: Value)
    requires VoidFree(a) && VoidFree(b) && !IsLogical(op)
    requires ResolveBinary(op, TypeOf(a), TypeOf(b)) != TVoid
    ensures ApplyBin(fpu, op, a, b).st == TypeError <==> a.ArrV?
  {
    if !a.ArrV? { BinarySound(fpu, op, a, b); }
  }

  lemma {:induction false} AllTypedAreVoidFree(vs: seq<Value>, ts: seq<Type>)
    requires HasTypes(vs, ts)
    ensures AllVoidFree(vs) && TidyAll(vs) == vs
    decreases |vs|
  {
    if vs != [] {
      assert HasTypes(vs[1..], ts[1..]);
      AllTypedAreVoidFree(vs[1..], ts[1..]);
      TidyKeepsExactly(vs[0]);
    }
  }

  lemma {:induction false} AcceptedArguments(vs: seq<Value>, ts: seq<Type>, declared: seq<Type>)
    requires HasTypes(vs, ts) && |declared| == |ts| && AcceptsAll(declared, ts)
    ensures Acceptable(vs, declared)
    decreases |vs|
  {
    if vs != [] {
      assert HasTypes(vs[1..], ts[1..]);
      AcceptedArguments(vs[1..], ts[1..], declared[1..]);
      forall k | 0 <= k < |vs| ensures Accepts(declared[k], TypeOf(vs[k])) {
        if k > 0 { assert vs[k] == vs[1..][k - 1] && declared[k] == declared[1..][k - 1]; }
      }
    }
  }

  lemma {:induction false} AcceptedAreTyped(declared: seq<Type>, ts: seq<Type>)
    requires |declared| == |ts| && AcceptsAll(declared, ts)
    ensures TVoid !in ts
    decreases |ts|
  {
    if ts != [] {
      AcceptedAreTyped(declared[1..], ts[1..]);
      assert ts == [ts[0]] + ts[1..];
    }
  }

  /** Type soundness, in a context that conforms on the functions the expression calls (fs may be
      more than those): a checked expression evaluates to a value of its type or fails only with
      overflow or division by zero. It is also clean, so both engines compute that result. */
  lemma {:induction false} TypeSoundness(e: Expr, sc: Schema, env: Env, depth: nat, fs: set<string>)
    requires Conforms(env, sc, fs) && Calls(e) <= fs && WithinDepth(e, depth, env.maxDepth)
    requires ResolveType(e, sc) != TVoid && NoArrayComparison(e, sc)
    ensures Sound(Eval(e, env, depth), ResolveType(e, sc))
    ensures Clean(e, env) && RawEval(e, env) == Eval(e, env, depth)
    decreases e, 1
  {
    hide ApplyBin, ApplyUn, ResolveBinary, Conforms, Clean, RawEval;
    match e
    case Lit(v) => LeafSound(e, sc, env, depth, fs);
    case Id(x) => LeafSound(e, sc, env, depth, fs);
    case Arr(es) => ListSound(e, sc, env, depth, fs);
    case Call(f, args) => ListSound(e, sc, env, depth, fs);
    case Un(op, a) => UnaryNodeSound(e, sc, env, depth, fs);
    case Bin(op, l, r) => BinaryNodeSound(e, sc, env, depth, fs);
  }

  lemma LeafSound(e: Expr, sc: Schema, env: Env, depth: nat, fs: set<string>)
    requires Conforms(env, sc, fs) && Calls(e) <= fs && depth < env.maxDepth && (e.Lit? || e.Id?)
      && ResolveType(e, sc) != TVoid
    ensures Sound(Eval(e, env, depth), ResolveType(e, sc))
    ensures Clean(e, env) && RawEval(e, env) == Eval(e, env, depth)
  {
  }

  lemma {:induction false} UnaryNodeSound(e: Expr, sc: Schema, env: Env, depth: nat, fs: set<string>)
    requires Conforms(env, sc, fs) && Calls(e) <= fs && WithinDepth(e, depth, env.maxDepth) && e.Un?
    requires ResolveType(e, sc) != TVoid && NoArrayComparison(e, sc)
    ensures Sound(Eval(e, env, depth), ResolveType(e, sc))
    ensures Clean(e, env) && RawEval(e, env) == Eval(e, env, depth)
    decreases e, 0
  {
    hide ApplyUn, Conforms;
    TypeSoundness(e.arg, sc, env, depth + 1, fs);
    var r := Eval(e.arg, env, depth + 1);
    if r.Val? { UnarySound(env.fpu, e.uop, r.v); }
  }

  lemma {:induction false} BinaryNodeSound(e: Expr, sc: Schema, env: Env, depth: nat, fs: set<string>)
    requires Conforms(env, sc, fs) && Calls(e) <= fs && WithinDepth(e, depth, env.maxDepth) && e.Bin?
    requires ResolveType(e, sc) != TVoid && NoArrayComparison(e, sc)
    ensures Sound(Eval(e, env, depth), ResolveType(e, sc))
    ensures Clean(e, env) && RawEval(e, env) == Eval(e, env, depth)
    decreases e, 0
  {
    hide ApplyBin, Conforms;
    TypeSoundness(e.left, sc, env, depth + 1, fs);
    TypeSoundness(e.right, sc, env, depth + 1, fs);
    var a, b := Eval(e.left, env, depth + 1), Eval(e.right, env, depth + 1);
    if !IsLogical(e.bop) && a.Val? && b.Val? { BinarySound(env.fpu, e.bop, a.v, b.v); }
  }

  lemma {:induction false} ListSound(e: Expr, sc: Schema, env: Env, depth: nat, fs: set<string>)
    requires Conforms(env, sc, fs) && Calls(e) <= fs && WithinDepth(e, depth, env.maxDepth) && (e.Arr? || e.Call?)
    requires ResolveType(e, sc) != TVoid && NoArrayComparison(e, sc)
    ensures Sound(Eval(e, env, depth), ResolveType(e, sc))
    ensures Clean(e, env) && RawEval(e, env) == Eval(e, env, depth)
    decreases e, 0
  {
    var es, d := if e.Arr? then e.elems else e.args, if e.Arr? then depth + 1 else 0;
    var ts := ResolveAll(es, sc);
    if e.Call? { AcceptedAreTyped(sc.actions[e.fn].args, ts); }
    AllSoundness(es, sc, env, d, fs);
    var r := EvalAll(es, env, d);
    if r.Vals? {
      AllTypedAreVoidFree(r.vs, ts);
      if e.Call? {
        var sig := sc.actions[e.fn];
        AcceptedArguments(r.vs, ts, sig.args);
        assert Respects(env.fns[e.fn], sig);
      }
    }
  }

  lemma {:induction false} AllSoundness(es: seq<Expr>, sc: Schema, env: Env, depth: nat, fs: set<string>)
    requires Conforms(env, sc, fs) && AllCalls(es) <= fs && AllWithinDepth(es, depth, env.maxDepth)
    requires TVoid !in ResolveAll(es, sc) && NoArrayComparisons(es, sc)
    ensures AllSound(EvalAll(es, env, depth), ResolveAll(es, sc))
    ensures AllClean(es, env) && RawEvalAll(es, env) == EvalAll(es, env, depth)
    decreases es, 0
  {
    hide Conforms, Clean;
    if es != [] {
      assert ResolveAll(es, sc)[0] in ResolveAll(es, sc);
      assert forall t :: t in ResolveAll(es[1..], sc) ==> t in ResolveAll(es, sc);
      TypeSoundness(es[0], sc, env, depth, fs);
      AllSoundness(es[1..], sc, env, depth, fs);
      if Eval(es[0], env, depth).Val? && EvalAll(es[1..], env, depth).Vals? {
        var v, vs, ts := Eval(es[0], env, depth).v, EvalAll(es[1..], env, depth).vs, ResolveAll(es, sc);
        forall k | 0 <= k < |ts| ensures VoidFree(([v] + vs)[k]) && TypeOf(([v] + vs)[k]) == ts[k] {
          if k > 0 { assert ([v] + vs)[k] == vs[k - 1] && ts[k] == ResolveAll(es[1..], sc)[k - 1]; }
        }
      }
    }
  }

  /** For an expression the checker has accepted, no run-time condition is left: if its ANDs and
      ORs are placed at the bottom, its code computes the tree walk's result, a value of the
      resolved type, or stops with the same overflow or division by zero. */
  lemma {:induction false} CheckedExpressionsAgree(h: Host, code: Program, i: nat, e: Expr, sc: Schema, s: State)
    requires At(code, i, Code(h.env.fpu, e))
    requires Conforms(h.env, sc, Calls(e)) && ResolveType(e, sc) != TVoid && NoArrayComparison(e, sc)
    requires Placed(e, s.stk == []) && WithinDepth(e, 0, h.env.maxDepth)
    requires Roomy(h, s, Depth(h.env.fpu, e))
    ensures
      match Eval(e, h.env, 0)
      case Val(v) =>
        && TypeOf(v) == ResolveType(e, sc)
        && Run(h, code, i, s) == Run(h, code, i + |Code(h.env.fpu, e)|, Pushed(s, v))
      case Err(st) =>
        && (st == Overflow || st == DivZero)
        && Run(h, code, i, s) == RunResult(s.(stk := [], fault := OpFault(st)), VoidV)
  {
    hide Run, Code, Depth, Placed, WithinDepth, Eval, ResolveType, RawEval, Clean;
    TypeSoundness(e, sc, h.env, 0, Calls(e));
    CompiledExpressionIsTreeWalk(h, code, i, e, s);
    var r := Eval(e, h.env, 0);
    if r.Val? {
      var w :| Settled(e, h.env, Val(w), r)
               && Run(h, code, i, s) == Run(h, code, i + |Code(h.env.fpu, e)|, Pushed(s, w));
      VoidFreeAlike(r.v, w);
    }
  }

  // ----- what the checker refuses -----

  /** What the checker refuses as a type error never works: no operands of the two types give a
      result. So it accepts every comparison and every calculation the evaluator has a rule for. */
  lemma RefusedOperatorsFail(fpu: Fpu, op: BinOp, a: Value, b: Value)
    requires !IsLogical(op) && !a.Void? && !b.Void?
    requires ResolveBinary(op, TypeOf(a), TypeOf(b)) == TVoid
    ensures ApplyBin(fpu, op, a, b).st != Ok
  {
    hide PortableAddOk, PortableSubOk, PortableMulOk, TruncDiv;
  }

  lemma RefusedNegationsFail(fpu: Fpu, v: Value)
    requires !v.Void? && ResolveUnary(Neg, TypeOf(v)) == TVoid
    ensures ApplyUn(Neg, fpu, v).st != Ok
  {
  }

  /** The typing table: NOT, AND and OR take BOOLs only; comparisons take two of a kind or two
      numbers, strings for equality only, and give a BOOL; calculations take two numbers or shift
      a date or measure the distance of two. */
  lemma TypingTable(op: BinOp, s: Type, t: Type)
    ensures ResolveUnary(Not, t) == if t == TBool then TBool else TVoid
    ensures ResolveUnary(Neg, t) == if t in {TInt, TLong, TFloat} then t else TVoid
    ensures
      var numbers := s in {TInt, TLong, TFloat} && t in {TInt, TLong, TFloat};
      ResolveBinary(op, s, t) ==
      if op in {And, Or} then (if s == TBool && t == TBool then TBool else TVoid)
      else if op in {Eq, Ne, Lt, Gt, Le, Ge} then
        (if numbers || (s == t && s != TVoid && (s != TString || op in {Eq, Ne})) then TBool else TVoid)
      else if numbers then
        (if s == TFloat || t == TFloat then TFloat else if s == TLong || t == TLong then TLong else TInt)
      else if op == Sub && s == TDate && t == TDate then TInt
      else if op in {Add, Sub} && s == TDate && t in {TInt, TLong, TFloat} then TDate
      else if op == Add && t == TDate && s in {TInt, TLong, TFloat} then TDate
      else TVoid
  {
  }

  /** An argument list is accepted exactly when every argument has the declared type, or is an INT
      where a FLOAT is declared. */
  lemma {:induction false} AcceptedExactly(declared: seq<Type>, ts: seq<Type>)
    requires |declared| == |ts|
    ensures AcceptsAll(declared, ts) <==>
            forall k :: 0 <= k < |ts| ==>
              ts[k] != TVoid && (ts[k] == declared[k] || (ts[k] == TInt && declared[k] == TFloat))
  {
    if ts != [] {
      AcceptedExactly(declared[1..], ts[1..]);
      if AcceptsAll(declared[1..], ts[1..]) {
        assert forall k :: 1 <= k < |ts| ==> ts[k] == ts[1..][k - 1] && declared[k] == declared[1..][k - 1];
      }
    }
  }

  /** The types of literals and of the values a declared variable may hold. */
  lemma LiteralTypes(v: Scalar, w: Value, sc: Schema)
    ensures ResolveType(Lit(v), sc) == TypeOf(v) ==
            if v.IntV? then TInt else if v.LongV? then TLong else if v.FloatV? then TFloat
            else if v.BoolV? then TBool else if v.StrV? then TString else TDate
    ensures TypeOf(w) == TArray <==> w.ArrV?
    ensures TypeOf(w) == TVoid <==> w.Void?
  {
  }
}
