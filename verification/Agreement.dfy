/**
 When the two engines agree on an expression.

 The compiled code keeps raw operands where the tree walk normalises them, so it computes
 `RawEval`. First: code whose AND and OR sit at the stack bottom pushes exactly its raw value
 or stops with its first error. Second: the raw value is the tree walk's value, up to what
 a VOID's data word holds. Last: what happens where the conditions for that fail.
 */
module Agreement {
  import opened Values
  import opened Ast
  import opened TreeWalk
  import opened Machine
  import opened Compiler

  // ----- the value compiled code computes -----

  function RawEval(e: Expr, env: Env): Res
    decreases e, 1
  {
    match e
    case Lit(v) => Val(v)
    case Id(x) => Val(Lookup(env, x))
    case Arr(es) =>
      (match RawEvalAll(es, env)
       case SeqErr(st) => Err(st)
       case Vals(vs) => Val(ArrV(vs)))
    case Un(op, a) =>
      (match RawEval(a, env)
       case Err(st) => Err(st)
       case Val(v) => Lift(ApplyUn(op, env.fpu, v)))
    case Bin(op, l, r) =>
      (match RawEval(l, env)
       case Err(st) => Err(st)
       case Val(a) =>
         if IsLogical(op) then (if Truth(a) == op.Or? then Val(a) else RawEval(r, env))
         else
           match RawEval(r, env)
           case Err(st) => Err(st)
           case Val(b) => Lift(ApplyBin(env.fpu, op, a, b)))
    case Call(f, args) =>
      match RawEvalAll(args, env)
      case SeqErr(st) => Err(st)
      case Vals(vs) => Val(Invoke(env, f, TidyAll(vs), CountOf(|vs|)))
  }

  function RawEvalAll(es: seq<Expr>, env: Env): (r: ResSeq)
    ensures r.Vals? ==> |r.vs| == |es|
    decreases es, 0
  {
    if es == [] then Vals([])
    else match RawEval(es[0], env)
      case Err(st) => SeqErr(st)
      case Val(v) =>
        match RawEvalAll(es[1..], env)
        case SeqErr(st) => SeqErr(st)
        case Vals(vs) => Vals([v] + vs)
  }

  // ----- stack discipline -----

  /** AND and OR occur only where nothing lies below their operands. */
  predicate Placed(e: Expr, bottom: bool)
    decreases e, 1
  {
    match e
    case Lit(_) => true
    case Id(_) => true
    case Arr(es) => AllPlaced(es, bottom)
    case Un(_, a) => Placed(a, bottom)
    case Bin(op, l, r) =>
      if IsLogical(op) then bottom && Placed(l, true) && Placed(r, true)
      else Placed(l, bottom) && Placed(r, false)
    case Call(_, args) => AllPlaced(args, bottom)
  }

  predicate AllPlaced(es: seq<Expr>, bottom: bool)
    decreases es, 0
  {
    es == [] || (Placed(es[0], bottom) && AllPlaced(es[1..], false))
  }

  /** How often an AND or OR hands over to its right operand on the way to e's value. */
  function Falls(e: Expr, env: Env): nat
    decreases e, 1
  {
    match e
    case Lit(_) => 0
    case Id(_) => 0
    case Arr(es) => FallsFirst(es, env)
    case Un(_, a) => Falls(a, env)
    case Bin(op, l, r) =>
      if !IsLogical(op) then Falls(l, env)
      else
        (match RawEval(l, env)
         case Err(_) => 0
         case Val(a) => if Truth(a) == op.Or? then Falls(l, env) else Falls(l, env) + 1 + Falls(r, env))
    case Call(_, args) => FallsFirst(args, env)
  }

  /** Only the first of several expressions can contain an AND or OR. */
  function FallsFirst(es: seq<Expr>, env: Env): nat
    decreases es, 0
  {
    if es == [] then 0 else Falls(es[0], env)
  }

  /** The state without the top k values, or with an empty stack. */
  function Cut(s: State, k: nat): State {
    s.(stk := s.stk[..if k < |s.stk| then |s.stk| - k else 0])
  }

  function Max(a: nat, b: nat): nat { if a < b then b else a }

  /** The stack slots the code of e needs above what is there when it starts. */
  function Depth(fpu: Fpu, e: Expr): (d: nat)
    ensures d >= 1
    decreases e, 1
  {
    if FoldsTo(fpu, e).Some? then 1
    else match e
      case Lit(_) => 1
      case Id(_) => 1
      case Arr(es) => Max(1, DepthAll(fpu, es))
      case Un(_, a) => Depth(fpu, a)
      case Bin(op, l, r) => Max(Depth(fpu, l), if IsLogical(op) then Depth(fpu, r) else Depth(fpu, r) + 1)
      case Call(_, args) => Max(DepthAll(fpu, args), |args| + 1)
  }

  function DepthAll(fpu: Fpu, es: seq<Expr>): (d: nat)
    ensures d >= |es|
    decreases es, 0
  {
    if es == [] then 0 else Max(Depth(fpu, es[0]), DepthAll(fpu, es[1..]) + 1)
  }

  /** The stack of a real run is an int-indexed array. */
  predicate Roomy(h: Host, s: State, need: nat) {
    s.fault == NoFault && |s.stk| + need <= h.slots <= INT_MAX
  }

  function Pushed(s: State, v: Value): State { s.(stk := s.stk + [v]) }

  function Stopped(s: State, st: Status): Effect {
    Stop(s.(stk := [], fault := OpFault(st)), VoidV)
  }

  /** Push the value, or stop with the error. */
  function Yield(s: State, r: Res): Effect {
    match r
    case Val(v) => Go(Pushed(s, v))
    case Err(st) => Stopped(s, st)
  }

  function YieldAll(s: State, r: ResSeq): Effect {
    match r
    case Vals(vs) => Go(s.(stk := s.stk + vs))
    case SeqErr(st) => Stopped(s, st)
  }

  lemma PoppedTop(s: State, base: seq<Value>, v: Value)
    requires s.stk == base + [v]
    ensures Popped(s) == (v, s.(stk := base)) && Peeked(s) == (v, s)
  {
    assert s.stk[..|s.stk| - 1] == base;
  }

  lemma {:induction false} PoppedAll(s: State, base: seq<Value>, vs: seq<Value>)
    requires s.stk == base + vs
    ensures PoppedN(s, |vs|) == (vs, s.(stk := base))
    decreases |vs|
  {
    if vs == [] {
      assert s.stk == base;
    } else {
      var k := |vs| - 1;
      assert s.stk == (base + vs[..k]) + [vs[k]];
      PoppedTop(s, base + vs[..k], vs[k]);
      PoppedAll(s.(stk := base + vs[..k]), base, vs[..k]);
      assert vs[..k] + [vs[k]] == vs;
    }
  }

  lemma BinaryEffect(h: Host, s: State, a: Value, b: Value, op: BinOp)
    requires Roomy(h, s, 1)
    ensures One(h, BinOpI(op), Pushed(Pushed(s, a), b)) == Yield(s, Lift(ApplyBin(h.env.fpu, op, a, b)))
  {
    hide ApplyBin;
    var s1, s2 := Pushed(s, a), Pushed(Pushed(s, a), b);
    PoppedTop(s2, s1.stk, b);
    PoppedTop(s1, s.stk, a);
    assert s1 == s2.(stk := s1.stk);
    assert s == s1.(stk := s.stk);
  }

  lemma UnaryEffect(h: Host, s: State, v: Value, op: UnOp)
    requires Roomy(h, s, 1)
    ensures One(h, UnOpI(op), Pushed(s, v)) == Yield(s, Lift(ApplyUn(op, h.env.fpu, v)))
  {
    hide ApplyUn;
    PoppedTop(Pushed(s, v), s.stk, v);
    assert s == Pushed(s, v).(stk := s.stk);
  }

  lemma ArrayEffect(h: Host, s: State, vs: seq<Value>)
    requires Roomy(h, s, Max(1, |vs|))
    ensures One(h, PushArr(CountOf(|vs|)), s.(stk := s.stk + vs)) == Go(Pushed(s, ArrV(vs)))
  {
    PoppedAll(s.(stk := s.stk + vs), s.stk, vs);
    assert CountOf(|vs|) == |vs|;
  }

  lemma CallEffect(h: Host, s: State, vs: seq<Value>, f: string)
    requires Roomy(h, s, |vs| + 1)
    ensures Then(h, One(h, PushLit(IntV(CountOf(|vs|))), s.(stk := s.stk + vs)), CallI(f))
         == Go(Pushed(s, Invoke(h.env, f, TidyAll(vs), |vs|)))
  {
    hide Step;
    var s1 := s.(stk := s.stk + vs);
    assert CountOf(|vs|) == |vs|;
    PushEffect(h, s1, IntV(|vs|));
    PopCallEffect(h, s, vs, f);
  }

  lemma PopCallEffect(h: Host, s: State, vs: seq<Value>, f: string)
    requires Roomy(h, s, |vs| + 1)
    ensures One(h, CallI(f), Pushed(s.(stk := s.stk + vs), IntV(|vs|)))
         == Go(Pushed(s, Invoke(h.env, f, TidyAll(vs), |vs|)))
  {
    hide Step, PoppedN, Popped, Peeked, Invoke, TidyAll, Push;
    var n, s1 := IntV(|vs|), s.(stk := s.stk + vs);
    PoppedTop(Pushed(s1, n), s1.stk, n);
    assert Popped(Pushed(s1, n)) == (n, s1);
    PoppedAll(s1, s.stk, vs);
    assert s1.(stk := s.stk) == s;
    CallStep(h, f, Pushed(s1, n), n, s1, vs, s);
    PushNext(h, s, Invoke(h.env, f, TidyAll(vs), |vs|));
  }

  lemma CallStep(h: Host, f: string, s: State, n: Value, s1: State, args: seq<Value>, s2: State)
    requires Popped(s) == (n, s1) && PoppedN(s1, Count(n)) == (args, s2)
    ensures Step(h, CallI(f), s) == Push(h, s2, Invoke(h.env, f, TidyAll(args), Count(n)))
  {
    hide PoppedN, Popped, Peeked, Invoke, TidyAll, Push;
  }

  lemma PushNext(h: Host, s: State, v: Value)
    requires Roomy(h, s, 1)
    ensures Push(h, s, v) == Next(1, Pushed(s, v))
  {
  }

  /** A folded expression has the folded value as its raw value. */
  lemma {:induction false} FoldingIsRaw(e: Expr, env: Env, v: Value)
    requires IsConst(e) && Fold(env.fpu, e) == Some(v)
    ensures RawEval(e, env) == Val(v)
  {
    match e
    case Lit(_) =>
    case Un(_, a) => FoldingIsRaw(a, env, Fold(env.fpu, a).value);
    case Bin(_, l, r) =>
      FoldingIsRaw(l, env, Fold(env.fpu, l).value);
      FoldingIsRaw(r, env, Fold(env.fpu, r).value);
  }

  lemma PushEffect(h: Host, s: State, v: Value)
    requires Roomy(h, s, 1)
    ensures One(h, LitInst(v), s) == Go(Pushed(s, v))
  {
  }

  /** Adding a value to what k dropped values leave, or stopping. */
  function Landing(s: State, k: nat, r: Res): Effect {
    Yield(Cut(s, k), r)
  }

  lemma LandingAdds(s: State, k: nat, m: nat, r: Res)
    ensures Landing(Cut(s, k), m, r) == Landing(s, k + m, r)
    ensures |Cut(s, k).stk| <= |s.stk|
  {
  }

  /** Where no AND or OR has a right operand to hand over to, none is handed over to. */
  lemma {:induction false} NoFalls(e: Expr, env: Env)
    requires Placed(e, false)
    ensures Falls(e, env) == 0 && Placed(e, true)
    decreases e, 1
  {
    match e
    case Lit(_) =>
    case Id(_) =>
    case Arr(es) => if es != [] { NoFalls(es[0], env); }
    case Un(_, a) => NoFalls(a, env);
    case Bin(_, l, _) => NoFalls(l, env);
    case Call(_, args) => if args != [] { NoFalls(args[0], env); }
  }

  /** The effect of code in which nothing of the expression itself lies below an AND or OR, on any
      stack with room for it: each hand-over to a right operand drops one more value of the stack
      it started from, until that is empty; then the value is added, or the first error ends it. */
  lemma {:induction false} StackEffect(h: Host, e: Expr, s: State)
    requires Placed(e, true) && Roomy(h, s, Depth(h.env.fpu, e))
    ensures Sem(h, e, s) == Landing(s, Falls(e, h.env), RawEval(e, h.env))
    decreases e, 1
  {
    hide Step, Fold, RawEval, Sem, Falls;
    if FoldsTo(h.env.fpu, e).Some? || e.Lit? || e.Id? {
      LeafEffect(h, e, s);
    } else if e.Un? {
      UnaryNode(h, e, s);
    } else if e.Bin? {
      if IsLogical(e.bop) { LogicalNode(h, e, s); } else { BinaryNode(h, e, s); }
    } else {
      ListNode(h, e, s);
    }
  }

  lemma LeafEffect(h: Host, e: Expr, s: State)
    requires FoldsTo(h.env.fpu, e).Some? || e.Lit? || e.Id?
    requires Roomy(h, s, 1)
    ensures Sem(h, e, s) == Landing(s, Falls(e, h.env), RawEval(e, h.env))
  {
    hide Fold;
    assert Cut(s, 0) == s;
    if FoldsTo(h.env.fpu, e).Some? {
      var v := FoldsTo(h.env.fpu, e).value;
      FoldingIsRaw(e, h.env, v);
      ConstIsPlaced(e);
      NoFalls(e, h.env);
      PushEffect(h, s, v);
    } else if e.Lit? {
      PushEffect(h, s, e.lit);
    }
  }

  lemma {:induction false} ConstIsPlaced(e: Expr)
    requires IsConst(e)
    ensures Placed(e, false)
  {
    match e
    case Lit(_) =>
    case Un(_, a) => ConstIsPlaced(a);
    case Bin(_, l, r) => ConstIsPlaced(l); ConstIsPlaced(r);
  }

  lemma {:induction false} UnaryNode(h: Host, e: Expr, s: State)
    requires e.Un? && FoldsTo(h.env.fpu, e).None?
    requires Placed(e, true) && Roomy(h, s, Depth(h.env.fpu, e))
    ensures Sem(h, e, s) == Landing(s, Falls(e, h.env), RawEval(e, h.env))
    decreases e, 0
  {
    hide Step, Fold, ApplyUn;
    StackEffect(h, e.arg, s);
    if RawEval(e.arg, h.env).Val? {
      UnaryEffect(h, Cut(s, Falls(e.arg, h.env)), RawEval(e.arg, h.env).v, e.uop);
    }
  }

  lemma {:induction false} BinaryNode(h: Host, e: Expr, s: State)
    requires IsOperation(e) && FoldsTo(h.env.fpu, e).None?
    requires Placed(e, true) && Roomy(h, s, Depth(h.env.fpu, e))
    ensures Sem(h, e, s) == Landing(s, Falls(e, h.env), RawEval(e, h.env))
    decreases e, 0
  {
    hide Step, Fold, ApplyBin;
    StackEffect(h, e.left, s);
    if RawEval(e.left, h.env).Val? {
      var a, t := RawEval(e.left, h.env).v, Cut(s, Falls(e.left, h.env));
      NoFalls(e.right, h.env);
      StackEffect(h, e.right, Pushed(t, a));
      assert Cut(Pushed(t, a), 0) == Pushed(t, a);
      if RawEval(e.right, h.env).Val? { BinaryEffect(h, t, a, RawEval(e.right, h.env).v, e.bop); }
    }
  }

  lemma {:induction false} LogicalNode(h: Host, e: Expr, s: State)
    requires IsConnective(e) && FoldsTo(h.env.fpu, e).None?
    requires Placed(e, true) && Roomy(h, s, Depth(h.env.fpu, e))
    ensures Sem(h, e, s) == Landing(s, Falls(e, h.env), RawEval(e, h.env))
    decreases e, 0
  {
    hide Step, Fold, Sem;
    LogicalSem(h, e, s);
    StackEffect(h, e.left, s);
    if RawEval(e.left, h.env).Val? {
      var a, k := RawEval(e.left, h.env).v, Falls(e.left, h.env);
      var t := Cut(s, k);
      PoppedTop(Pushed(t, a), t.stk, a);
      assert AfterBoth(Pushed(t, a)) == Cut(t, 1) == Cut(s, k + 1);
      StackEffect(h, e.right, Cut(s, k + 1));
      LandingAdds(s, k + 1, Falls(e.right, h.env), RawEval(e.right, h.env));
    }
  }

  lemma {:induction false} ListNode(h: Host, e: Expr, s: State)
    requires (e.Arr? || e.Call?) && FoldsTo(h.env.fpu, e).None?
    requires Placed(e, true) && Roomy(h, s, Depth(h.env.fpu, e))
    ensures Sem(h, e, s) == Landing(s, Falls(e, h.env), RawEval(e, h.env))
    decreases e, 0
  {
    hide Step, Fold;
    var es := if e.Arr? then e.elems else e.args;
    AllEffect(h, es, s);
    var r, t := RawEvalAll(es, h.env), Cut(s, FallsFirst(es, h.env));
    if r.Vals? {
      if e.Arr? { ArrayEffect(h, t, r.vs); } else { CallEffect(h, t, r.vs, e.fn); }
    }
  }

  lemma {:induction false} AllEffect(h: Host, es: seq<Expr>, s: State)
    requires AllPlaced(es, true) && Roomy(h, s, DepthAll(h.env.fpu, es))
    ensures SemAll(h, es, s) == YieldAll(Cut(s, FallsFirst(es, h.env)), RawEvalAll(es, h.env))
    decreases es, 0
  {
    hide Step, Fold;
    if es == [] {
      assert Cut(s, 0) == s && s.stk + [] == s.stk;
    } else {
      StackEffect(h, es[0], s);
      if RawEval(es[0], h.env).Val? {
        var v, t := RawEval(es[0], h.env).v, Cut(s, Falls(es[0], h.env));
        AllNoFalls(es[1..], h.env);
        AllEffect(h, es[1..], Pushed(t, v));
        assert Cut(Pushed(t, v), 0) == Pushed(t, v);
        var rest := RawEvalAll(es[1..], h.env);
        if rest.Vals? { assert (t.stk + [v]) + rest.vs == t.stk + ([v] + rest.vs); }
      }
    }
  }

  lemma AllNoFalls(es: seq<Expr>, env: Env)
    requires AllPlaced(es, false)
    ensures AllPlaced(es, true) && FallsFirst(es, env) == 0
  {
    if es != [] { NoFalls(es[0], env); }
  }

  /** Given its slots, properly placed code leaves everything below untouched and adds exactly
      one value, or stops with the expression's first error; it never pops an empty stack. */
  lemma StackDiscipline(h: Host, e: Expr, s: State)
    requires Placed(e, s.stk == []) && Roomy(h, s, Depth(h.env.fpu, e))
    ensures Sem(h, e, s) == Yield(s, RawEval(e, h.env))
  {
    hide Sem, RawEval, Placed, Depth, Falls;
    if s.stk != [] { NoFalls(e, h.env); }
    StackEffect(h, e, s);
    assert Cut(s, Falls(e, h.env)) == s;
  }

  lemma AllDiscipline(h: Host, es: seq<Expr>, s: State)
    requires AllPlaced(es, s.stk == []) && Roomy(h, s, DepthAll(h.env.fpu, es))
    ensures SemAll(h, es, s) == YieldAll(s, RawEvalAll(es, h.env))
  {
    hide SemAll, RawEvalAll, AllPlaced, DepthAll, FallsFirst;
    if s.stk != [] { AllNoFalls(es, h.env); }
    AllEffect(h, es, s);
    assert Cut(s, FallsFirst(es, h.env)) == s;
  }

  // ----- the raw value and the tree walk's value -----

  /** The value with every VOID's data word cleared. */
  function Bare(v: Value): (r: Value)
    ensures TypeOf(r) == TypeOf(v) && (!v.ArrV? && !v.Void? ==> r == v)
  {
    match v
    case Void(_) => VoidV
    case ArrV(items) => ArrV(BareAll(items))
    case _ => v
  }

  function BareAll(vs: seq<Value>): (r: seq<Value>)
    ensures |r| == |vs|
  {
    if vs == [] then [] else [Bare(vs[0])] + BareAll(vs[1..])
  }

  /** Equal up to the data words of VOIDs. */
  predicate Alike(r: Res, t: Res) {
    if r.Val? && t.Val? then Bare(r.v) == Bare(t.v) else r == t
  }

  predicate AllAlike(r: ResSeq, t: ResSeq) {
    if r.Vals? && t.Vals? then BareAll(r.vs) == BareAll(t.vs) else r == t
  }

  /** No VOID at any level. */
  predicate VoidFree(v: Value) {
    match v
    case Void(_) => false
    case ArrV(items) => AllVoidFree(items)
    case _ => true
  }

  predicate AllVoidFree(vs: seq<Value>) {
    vs == [] || (VoidFree(vs[0]) && AllVoidFree(vs[1..]))
  }

  /** Values without a VOID are the ones that pass through literal nodes unchanged. */
  lemma {:induction false} TidyKeepsExactly(v: Value)
    ensures Tidy(v) == v <==> VoidFree(v)
  {
    if v.ArrV? { TidyAllKeepsExactly(v.items); }
  }

  lemma {:induction false} TidyAllKeepsExactly(vs: seq<Value>)
    ensures TidyAll(vs) == vs <==> AllVoidFree(vs)
  {
    if vs != [] {
      TidyKeepsExactly(vs[0]);
      TidyAllKeepsExactly(vs[1..]);
      assert vs == [vs[0]] + vs[1..];
      assert TidyAll(vs)[0] == Tidy(vs[0]) && TidyAll(vs)[1..] == TidyAll(vs[1..]);
    }
  }

  /** Every function makes of the values compiled code hands it what it makes of the values
      themselves exactly when there is no VOID among them, at any level: those arrive as INT 0. */
  lemma FunctionsAgreeExactly(vs: seq<Value>)
    ensures (forall fn: seq<Value> -> Value :: fn(TidyAll(vs)) == fn(vs)) <==> AllVoidFree(vs)
  {
    TidyAllKeepsExactly(vs);
    var isThese: seq<Value> -> Value := ws => BoolV(ws == vs);
    if TidyAll(vs) != vs { assert isThese(TidyAll(vs)) != isThese(vs); }
  }

  /** Without a VOID, alike is equal. */
  lemma {:induction false} VoidFreeAlike(v: Value, w: Value)
    requires VoidFree(v) && Bare(v) == Bare(w)
    ensures v == w
  {
    if v.ArrV? { AllVoidFreeAlike(v.items, w.items); }
  }

  lemma {:induction false} AllVoidFreeAlike(vs: seq<Value>, ws: seq<Value>)
    requires AllVoidFree(vs) && BareAll(vs) == BareAll(ws)
    ensures vs == ws
  {
    if vs != [] {
      assert BareAll(vs)[0] == Bare(vs[0]) && BareAll(vs)[1..] == BareAll(vs[1..]);
      assert BareAll(ws)[0] == Bare(ws[0]) && BareAll(ws)[1..] == BareAll(ws[1..]);
      VoidFreeAlike(vs[0], ws[0]);
      AllVoidFreeAlike(vs[1..], ws[1..]);
      assert vs == [vs[0]] + vs[1..] && ws == [ws[0]] + ws[1..];
    }
  }

  /** A call of an unregistered function with arguments: VOID to both engines, but the VOID of
      compiled code still holds the argument count and so tests as true. */
  predicate Stale(e: Expr, env: Env) {
    e.Call? && e.fn !in env.fns && CountOf(|e.args|) != 0
  }

  /** On the path the evaluation of e takes: the operand that decides an AND or OR is a BOOL, a
      registered function gets no VOID, and the arguments of an unregistered one do not err. A
      stale VOID stands on the left of no OR, and of an AND only if the right operand is false. */
  ghost predicate Clean(e: Expr, env: Env)
    decreases e, 1
  {
    match e
    case Lit(_) => true
    case Id(_) => true
    case Arr(es) => AllClean(es, env)
    case Un(_, a) => Clean(a, env)
    case Bin(op, l, r) =>
      Clean(l, env) &&
      (match RawEval(l, env)
       case Err(_) => true
       case Val(a) =>
         if IsLogical(op) && Truth(a) == op.Or? then a.BoolV?
         else if IsLogical(op) && Stale(l, env) then RawEval(r, env) == Val(BoolV(false))
         else Clean(r, env) && (IsLogical(op) && RawEval(r, env).Val? ==> RawEval(r, env).v.BoolV?))
    case Call(f, args) =>
      var vs := RawEvalAll(args, env);
      if f in env.fns then AllClean(args, env) && (vs.Vals? ==> AllVoidFree(vs.vs)) else vs.Vals?
  }

  ghost predicate AllClean(es: seq<Expr>, env: Env)
    decreases es, 0
  {
    es == [] || (Clean(es[0], env) && (RawEval(es[0], env).Val? ==> AllClean(es[1..], env)))
  }

  /** Beside a stale VOID only an array can hold one; any other result is the same to the bit. */
  predicate Settled(e: Expr, env: Env, r: Res, t: Res) {
    Alike(r, t) && (Stale(e, env) || (t.Val? && t.v.ArrV?) || r == t)
  }

  /** On clean expressions within the nesting limit compiled code and the tree walk give the
      same value, up to the data words of VOIDs, or the same error. */
  lemma {:induction false} RawIsTreeWalk(e: Expr, env: Env, depth: nat)
    requires Clean(e, env) && WithinDepth(e, depth, env.maxDepth)
    ensures Settled(e, env, RawEval(e, env), Eval(e, env, depth))
    decreases e, 1
  {
    hide ApplyBin, ApplyUn, Truth, Tidy;
    match e
    case Lit(_) =>
    case Id(_) =>
    case Arr(es) => AllRawIsTreeWalk(es, env, depth + 1);
    case Un(op, a) =>
      RawIsTreeWalk(a, env, depth + 1);
      if RawEval(a, env).Val? { UnaryIgnoresWords(op, env.fpu, RawEval(a, env).v, Eval(a, env, depth + 1).v); }
    case Bin(op, l, r) => BinaryRawIsTreeWalk(op, l, r, env, depth);
    case Call(f, args) => CallRawIsTreeWalk(f, args, env, depth);
  }

  /** No operator reads the data word of a VOID, or looks into an array. */
  lemma UnaryIgnoresWords(op: UnOp, fpu: Fpu, v: Value, v': Value)
    requires Bare(v) == Bare(v')
    ensures ApplyUn(op, fpu, v) == ApplyUn(op, fpu, v') && !ApplyUn(op, fpu, v).out.ArrV?
  {
    assert TypeOf(v) == TypeOf(v');
  }

  lemma BinaryIgnoresWords(op: BinOp, fpu: Fpu, a: Value, b: Value, a': Value, b': Value)
    requires Bare(a) == Bare(a') && Bare(b) == Bare(b')
    ensures ApplyBin(fpu, op, a, b) == ApplyBin(fpu, op, a', b')
  {
    assert TypeOf(a) == TypeOf(a') && TypeOf(b) == TypeOf(b');
  }

  lemma {:induction false} CallRawIsTreeWalk(f: string, args: seq<Expr>, env: Env, depth: nat)
    requires Clean(Call(f, args), env) && WithinDepth(Call(f, args), depth, env.maxDepth)
    ensures Settled(Call(f, args), env, RawEval(Call(f, args), env), Eval(Call(f, args), env, depth))
    decreases Call(f, args), 0
  {
    hide Tidy;
    if f in env.fns {
      AllRawIsTreeWalk(args, env, 0);
      var vs := RawEvalAll(args, env);
      if vs.Vals? {
        AllVoidFreeAlike(vs.vs, EvalAll(args, env, 0).vs);
        TidyAllKeepsExactly(vs.vs);
      }
    }
  }

  lemma {:induction false} BinaryRawIsTreeWalk(op: BinOp, l: Expr, r: Expr, env: Env, depth: nat)
    requires Clean(Bin(op, l, r), env) && WithinDepth(Bin(op, l, r), depth, env.maxDepth)
    ensures Settled(Bin(op, l, r), env, RawEval(Bin(op, l, r), env), Eval(Bin(op, l, r), env, depth))
    decreases Bin(op, l, r), 0
  {
    hide ApplyBin;
    RawIsTreeWalk(l, env, depth + 1);
    if RawEval(l, env).Val? && !(IsLogical(op) && (Truth(RawEval(l, env).v) == op.Or? || Stale(l, env))) {
      RawIsTreeWalk(r, env, depth + 1);
      if !IsLogical(op) && RawEval(r, env).Val? {
        BinaryIgnoresWords(op, env.fpu, RawEval(l, env).v, RawEval(r, env).v,
                           Eval(l, env, depth + 1).v, Eval(r, env, depth + 1).v);
      }
    }
  }

  lemma {:induction false} AllRawIsTreeWalk(es: seq<Expr>, env: Env, depth: nat)
    requires AllClean(es, env) && AllWithinDepth(es, depth, env.maxDepth)
    ensures AllAlike(RawEvalAll(es, env), EvalAll(es, env, depth))
    decreases es, 0
  {
    hide Bare, Truth, Stale;
    if es != [] {
      RawIsTreeWalk(es[0], env, depth);
      if RawEval(es[0], env).Val? { AllRawIsTreeWalk(es[1..], env, depth); }
    }
  }

  // ----- the main theorem for expressions -----

  /** The conditions under which an expression means the same to both engines. */
  ghost predicate Agreeable(e: Expr, env: Env, bottom: bool) {
    Placed(e, bottom) && Clean(e, env) && WithinDepth(e, 0, env.maxDepth)
  }

  /** Running an expression's code inside any program, from any stack with room for it, appends
      the tree walk's value and goes on, or ends the run with the tree walk's error. Only a stale
      VOID differs in what is appended, and only in its data word. */
  lemma {:induction false} CompiledExpressionIsTreeWalk(h: Host, code: Program, i: nat, e: Expr, s: State)
    requires At(code, i, Code(h.env.fpu, e))
    requires Agreeable(e, h.env, s.stk == []) && Roomy(h, s, Depth(h.env.fpu, e))
    ensures
      match Eval(e, h.env, 0)
      case Val(v) =>
        exists w :: Settled(e, h.env, Val(w), Val(v))
                    && Run(h, code, i, s) == Run(h, code, i + |Code(h.env.fpu, e)|, Pushed(s, w))
      case Err(st) => Run(h, code, i, s) == RunResult(s.(stk := [], fault := OpFault(st)), VoidV)
  {
    hide Run, Sem, RawEval, Eval, Code, Depth, Clean, Placed, WithinDepth, Bare, Stale;
    CodeRuns(h, code, i, e, s);
    StackDiscipline(h, e, s);
    RawIsTreeWalk(e, h.env, 0);
    if Eval(e, h.env, 0).Val? {
      assert Settled(e, h.env, Val(RawEval(e, h.env).v), Val(Eval(e, h.env, 0).v));
    }
  }

  // ----- where the conditions fail -----

  /** At an AND or OR whose operands agree, the engines agree exactly when the operand that decides
      the result errs or is a BOOL: the tree walk normalises it, the code leaves it raw. Where the
      left operand is a VOID that holds other bits in compiled code, they agree exactly when the
      tree walk alone stops at it and the right operand is the BOOL it stops with. */
  lemma LogicalValuesAgreeExactly(e: Expr, env: Env, depth: nat)
    requires IsConnective(e) && depth < env.maxDepth
    requires Alike(RawEval(e.left, env), Eval(e.left, env, depth + 1))
    requires Alike(RawEval(e.right, env), Eval(e.right, env, depth + 1))
    ensures Alike(RawEval(e, env), Eval(e, env, depth)) <==>
            (match Eval(e.left, env, depth + 1)
             case Err(_) => true
             case Val(t) =>
               var a, r := RawEval(e.left, env).v, Eval(e.right, env, depth + 1);
               if Truth(a) == Truth(t) then
                 if Truth(t) == e.bop.Or? then t.BoolV? else r.Val? ==> r.v.BoolV?
               else Truth(t) == e.bop.Or? && r == Val(BoolV(e.bop.Or?)))
  {
  }

  /** On the left of an AND or OR a call of an unregistered function has VOID's bits on the tree
      walk and its argument count's in compiled code. So an OR agrees exactly when there are no
      arguments and the right operand errs or is a BOOL, an AND exactly when there are some and
      the right operand is false. */
  lemma StaleOperandsAgreeExactly(op: BinOp, f: string, args: seq<Expr>, r: Expr, env: Env, depth: nat)
    requires IsLogical(op) && f !in env.fns && |args| <= INT_MAX && depth < env.maxDepth
    requires RawEvalAll(args, env).Vals? && Alike(RawEval(r, env), Eval(r, env, depth + 1))
    ensures
      var e, t := Bin(op, Call(f, args), r), Eval(r, env, depth + 1);
      Alike(RawEval(e, env), Eval(e, env, depth)) <==>
      if op.Or? then args == [] && (t.Val? ==> t.v.BoolV?) else args != [] && t == Val(BoolV(false))
  {
    hide RawEvalAll, EvalAll;
    var e, c := Bin(op, Call(f, args), r), Call(f, args);
    assert RawEval(c, env) == Val(Void(|args|)) && Eval(c, env, depth + 1) == Val(VoidV);
    LogicalValuesAgreeExactly(e, env, depth);
  }

  /** On a stack with something on it, an expression whose ANDs and ORs would be at the bottom of an
      empty one keeps the stack discipline exactly when it errs or none of them hands over to its
      right operand. Otherwise as many values below it are lost, as far as there are any. */
  lemma MisplacedLogicalExactly(h: Host, e: Expr, s: State)
    requires Placed(e, true) && Roomy(h, s, Depth(h.env.fpu, e)) && s.stk != []
    ensures
      var k, r := Falls(e, h.env), RawEval(e, h.env);
      && (Sem(h, e, s) == Yield(s, r) <==> r.Err? || k == 0)
      && (r.Val? ==> Sem(h, e, s) == Go(s.(stk := s.stk[..if k < |s.stk| then |s.stk| - k else 0] + [r.v])))
  {
    hide Sem, RawEval, Placed, Depth, Falls;
    StackEffect(h, e, s);
    var k, r := Falls(e, h.env), RawEval(e, h.env);
    if k == 0 { assert Cut(s, 0) == s; }
    if r.Val? && k > 0 { assert |Pushed(Cut(s, k), r.v).stk| != |Pushed(s, r.v).stk|; }
  }

  /** An input on which the engines differ: `a == (a AND a)` with a true. The tree walk says
      true; the compiled program runs out of operands. */
  lemma MisplacedLogicalWitness(fpu: Fpu)
    ensures
      var e := Bin(Eq, Id("a"), Bin(And, Id("a"), Id("a")));
      var env := Env(map["a" := BoolV(true)], map[], {}, fpu, 64);
      && Eval(e, env, 0) == Val(BoolV(true))
      && Run(Host(env, 256, []), Code(fpu, e), 0, Start).final.fault == Underflow
  {
    hide Run, Sem, Code;
    var e := Bin(Eq, Id("a"), Bin(And, Id("a"), Id("a")));
    var env := Env(map["a" := BoolV(true)], map[], {}, fpu, 64);
    var h := Host(env, 256, []);
    WitnessTreeWalk(env);
    WitnessSem(h);
    assert Code(fpu, e)[0..0 + |Code(fpu, e)|] == Code(fpu, e);
    CodeRuns(h, Code(fpu, e), 0, e, Start);
  }

  lemma WitnessTreeWalk(env: Env)
    requires env.vars == map["a" := BoolV(true)] && env.maxDepth == 64
    ensures Eval(Bin(Eq, Id("a"), Bin(And, Id("a"), Id("a"))), env, 0) == Val(BoolV(true))
  {
    var a := Id("a");
    assert Eval(a, env, 1) == Val(BoolV(true)) && Eval(a, env, 2) == Val(BoolV(true));
    assert Eval(Bin(And, a, a), env, 1) == Val(BoolV(true));
  }

  lemma WitnessSem(h: Host)
    requires h.env.vars == map["a" := BoolV(true)] && h.slots == 256
    ensures Sem(h, Bin(Eq, Id("a"), Bin(And, Id("a"), Id("a"))), Start) == Stop(Start.(fault := Underflow), VoidV)
  {
    hide Step, Depth, Placed;
    var a := Id("a");
    var both := Bin(And, a, a);
    var t := BoolV(true);
    assert RawEval(a, h.env) == Val(t) && RawEval(both, h.env) == Val(t);
    assert FoldsTo(h.env.fpu, a).None? && FoldsTo(h.env.fpu, Bin(Eq, a, both)).None?;
    WitnessVariable(h, Start);
    WitnessMisplaced(h, Pushed(Start, t));
    MisplacedStops(h, Start.(stk := [t]), Eq);
  }

  lemma WitnessVariable(h: Host, s: State)
    requires h.env.vars == map["a" := BoolV(true)] && Roomy(h, s, 1)
    ensures Sem(h, Id("a"), s) == Go(Pushed(s, BoolV(true)))
  {
    StackDiscipline(h, Id("a"), s);
  }

  lemma WitnessMisplaced(h: Host, s: State)
    requires h.env.vars == map["a" := BoolV(true)] && Roomy(h, s, 1) && |s.stk| == 1
    ensures Sem(h, Bin(And, Id("a"), Id("a")), s) == Go(s.(stk := [BoolV(true)]))
  {
    hide Step, Sem;
    var a := Id("a");
    assert RawEval(a, h.env) == Val(BoolV(true)) && RawEval(Bin(And, a, a), h.env) == Val(BoolV(true));
    assert Falls(a, h.env) == 0 && Falls(Bin(And, a, a), h.env) == 1;
    MisplacedLogicalExactly(h, Bin(And, a, a), s);
    assert s.stk[..0] == [];
  }

  /** A binary operator that finds one operand only sets the error state and stops. */
  lemma MisplacedStops(h: Host, s: State, op: BinOp)
    requires |s.stk| == 1 && s.fault == NoFault
    ensures One(h, BinOpI(op), s) == Stop(s.(stk := [], fault := Underflow), VoidV)
  {
  }
}
