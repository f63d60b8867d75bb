/**
 The static analyser (expr_is_const_true, expr_is_const_false and cdsl_analyze_rule in
 src/schema/schema.c): which cases it warns about, and whether the warnings are true.
 */
module Analyzer {
  import opened Values
  import opened Ast
  import opened TreeWalk
  import opened Agreement
  import opened Reports

  predicate IsIntLit(e: Expr) { e.Lit? && e.lit.IntV? }

  predicate ConstTrue(e: Expr) {
    if e.Lit? then (e.lit.BoolV? && e.lit.b) || (e.lit.IntV? && e.lit.i != 0)
    else e.Bin? && IsIntLit(e.left) && IsIntLit(e.right) && EvalCmp(e.bop, ThreeWay(e.left.lit.i, e.right.lit.i))
  }

  predicate ConstFalse(e: Expr) {
    if e.Lit? then (e.lit.BoolV? && !e.lit.b) || (e.lit.IntV? && e.lit.i == 0)
    else e.Bin? && IsIntLit(e.left) && IsIntLit(e.right) && IsRelational(e.bop) &&
         !EvalCmp(e.bop, ThreeWay(e.left.lit.i, e.right.lit.i))
  }

  /** The same variable, operator and INT or FLOAT literal. */
  predicate SameCondition(fpu: Fpu, d: Expr, c: Expr) {
    && d.Bin? && c.Bin? && d.bop == c.bop
    && d.left.Id? && c.left.Id? && d.left.name == c.left.name
    && d.right.Lit? && c.right.Lit?
    && match (d.right.lit, c.right.lit)
       case (IntV(a), IntV(b)) => a == b
       case (FloatV(a), FloatV(b)) => fpu.cmp(Eq, a, b)
       case _ => false
  }

  datatype Warning = Unreachable(k: nat) | AlwaysTrue(k: nat) | AlwaysFalse(k: nat) | Shadowed(k: nat)

  /** No condition among the first n is constantly true. */
  predicate NoneTrue(cs: seq<Case>, n: nat)
    requires n <= |cs|
  {
    forall j :: 0 <= j < n ==> !ConstTrue(cs[j].cond)
  }

  /** When a warning is due: nothing after the case that follows an always-true one is looked at. */
  ghost predicate Due(fpu: Fpu, cs: seq<Case>, w: Warning) {
    w.k < |cs| &&
    match w
    case Unreachable(k) => k > 0 && ConstTrue(cs[k - 1].cond) && NoneTrue(cs, k - 1)
    case AlwaysTrue(k) => ConstTrue(cs[k].cond) && NoneTrue(cs, k)
    case AlwaysFalse(k) => ConstFalse(cs[k].cond) && NoneTrue(cs, k)
    case Shadowed(k) => NoneTrue(cs, k + 1) && exists j :: 0 <= j < k && SameCondition(fpu, cs[j].cond, cs[k].cond)
  }

  /** The loop over one metric's cases. */
  method AnalyzeMetric(fpu: Fpu, cs: seq<Case>) returns (ws: seq<Warning>)
    ensures forall w :: w in ws <==> Due(fpu, cs, w)
  {
    ws := [];
    var hasAlwaysTrue := false;
    var c := 0;
    while c < |cs|
      invariant c <= |cs|
      invariant hasAlwaysTrue == !NoneTrue(cs, c)
      invariant hasAlwaysTrue ==> c > 0 && ConstTrue(cs[c - 1].cond) && NoneTrue(cs, c - 1)
      invariant forall w :: w in ws <==> w.k < c && Due(fpu, cs, w)
    {
      if hasAlwaysTrue {
        ws := ws + [Unreachable(c)];
        AfterTrue(fpu, cs, c);
        return;
      }
      ghost var before := ws;
      if ConstTrue(cs[c].cond) {
        ws := ws + [AlwaysTrue(c)];
        hasAlwaysTrue := true;
      } else {
        if ConstFalse(cs[c].cond) { ws := ws + [AlwaysFalse(c)]; }
        var shadowed := FindShadow(fpu, cs, c);
        if shadowed { ws := ws + [Shadowed(c)]; }
      }
      NeverBoth(cs[c].cond);
      c := c + 1;
    }
  }

  /** The inner loop: is an earlier case's condition the same? */
  method FindShadow(fpu: Fpu, cs: seq<Case>, c: nat) returns (found: bool)
    requires c < |cs|
    ensures found <==> exists j :: 0 <= j < c && SameCondition(fpu, cs[j].cond, cs[c].cond)
  {
    var d := 0;
    while d < c
      invariant d <= c && forall j :: 0 <= j < d ==> !SameCondition(fpu, cs[j].cond, cs[c].cond)
    {
      if SameCondition(fpu, cs[d].cond, cs[c].cond) { return true; }
      d := d + 1;
    }
    found := false;
  }

  lemma NeverBoth(e: Expr)
    ensures !(ConstTrue(e) && ConstFalse(e))
  {
  }

  /** Past the case after an always-true one no warning is due. */
  lemma AfterTrue(fpu: Fpu, cs: seq<Case>, c: nat)
    requires 0 < c < |cs| && ConstTrue(cs[c - 1].cond) && NoneTrue(cs, c - 1)
    ensures forall w :: Due(fpu, cs, w) ==> w.k <= c && (w.k == c ==> w == Unreachable(c))
  {
    forall w | Due(fpu, cs, w) ensures w.k <= c && (w.k == c ==> w == Unreachable(c)) {
      assert !ConstTrue(cs[c - 1].cond) || !NoneTrue(cs, c);
    }
  }

  // ----- are the warnings true? -----

  /** Equal numbers compare alike, and their patterns have the same truth bits. */
  ghost predicate EqualityIsCongruence(fpu: Fpu) {
    forall a: bits64, b: bits64 :: fpu.cmp(Eq, a, b) ==>
      Truth(FloatV(a)) == Truth(FloatV(b)) &&
      forall op: BinOp, x: bits64 :: fpu.cmp(op, x, a) == fpu.cmp(op, x, b)
  }

  /** An always-true condition really holds on the tree walk exactly when it is not a bare INT
      literal: a CASE matches only a BOOL. */
  lemma ConstTrueHoldsExactly(e: Expr, env: Env)
    requires ConstTrue(e) && env.maxDepth >= 2
    ensures Eval(e, env, 0) == Val(BoolV(true)) <==> !IsIntLit(e)
  {
    if e.Bin? {
      assert Eval(e.left, env, 1) == Val(e.left.lit) && Eval(e.right, env, 1) == Val(e.right.lit);
    }
  }

  /** The compiled code tests bits, so there the condition always holds. */
  lemma ConstTrueHoldsInCode(e: Expr, env: Env)
    requires ConstTrue(e)
    ensures RawEval(e, env).Val? && Truth(RawEval(e, env).v)
  {
    if e.Bin? {
      assert RawEval(e.left, env) == Val(e.left.lit) && RawEval(e.right, env) == Val(e.right.lit);
    }
  }

  lemma ConstFalseFails(e: Expr, env: Env, depth: nat)
    requires ConstFalse(e)
    ensures Eval(e, env, depth) != Val(BoolV(true))
  {
    if e.Bin? && depth < env.maxDepth {
      var l, r := Eval(e.left, env, depth + 1), Eval(e.right, env, depth + 1);
      assert l == Val(e.left.lit) || l == Val(VoidV);
      assert r == Val(e.right.lit) || r == Val(VoidV);
    }
  }

  lemma FloatOutcome(fpu: Fpu, op: BinOp, x: Value, a: bits64, b: bits64)
    requires fpu.cmp(Eq, a, b) && EqualityIsCongruence(fpu) && !IsLogical(op)
    requires Lift(ApplyBin(fpu, op, x, FloatV(b))) == Val(BoolV(true))
    ensures Lift(ApplyBin(fpu, op, x, FloatV(a))) == Val(BoolV(true))
  {
  }

  /** A condition on the same variable with an equal literal has the same outcome. */
  lemma SameConditionSameOutcome(d: Expr, c: Expr, env: Env)
    requires SameCondition(env.fpu, d, c) && EqualityIsCongruence(env.fpu)
    requires Eval(c, env, 0) == Val(BoolV(true))
    ensures Eval(d, env, 0) == Val(BoolV(true))
  {
    hide ApplyBin;
    assert Eval(c.left, env, 1) == Eval(d.left, env, 1);
    if c.right.lit.FloatV? && env.maxDepth >= 2 {
      assert Eval(c.right, env, 1) == Val(c.right.lit) && Eval(d.right, env, 1) == Val(d.right.lit);
      var x := Eval(c.left, env, 1).v;
      if !IsLogical(c.bop) { FloatOutcome(env.fpu, c.bop, x, d.right.lit.f, c.right.lit.f); }
    } else {
      assert Eval(c.right, env, 1) == Eval(d.right, env, 1);
    }
  }

  /** A case the analyser calls always false is never selected, in any context. */
  lemma AlwaysFalseIsNeverSelected(fpu: Fpu, cs: seq<Case>, k: nat, env: Env)
    requires Due(fpu, cs, AlwaysFalse(k))
    ensures Select(cs, env) != Chosen(k)
  {
    ConstFalseFails(cs[k].cond, env, 0);
    SelectIsFirst(cs, env, k);
  }

  /** A case the analyser calls shadowed is never selected, in any context. */
  lemma ShadowedIsNeverSelected(cs: seq<Case>, k: nat, env: Env)
    requires Due(env.fpu, cs, Shadowed(k)) && EqualityIsCongruence(env.fpu)
    ensures Select(cs, env) != Chosen(k)
  {
    if Select(cs, env) == Chosen(k) {
      SelectIsFirst(cs, env, k);
      var j :| 0 <= j < k && SameCondition(env.fpu, cs[j].cond, cs[k].cond);
      assert Skipped(cs[j].cond, env);
      SameConditionSameOutcome(cs[j].cond, cs[k].cond, env);
    }
  }

  /** Behind an always-true condition that is not a bare INT literal neither the case the
      analyser calls unreachable nor any later one is ever selected. */
  lemma UnreachableIsNeverSelected(fpu: Fpu, cs: seq<Case>, k: nat, q: nat, env: Env)
    requires Due(fpu, cs, Unreachable(k)) && k <= q < |cs| && env.maxDepth >= 2
    requires !IsIntLit(cs[k - 1].cond)
    ensures Select(cs, env) != Chosen(q)
  {
    SelectIsFirst(cs, env, q);
    if Select(cs, env) == Chosen(q) {
      assert Skipped(cs[k - 1].cond, env);
      ConstTrueHoldsExactly(cs[k - 1].cond, env);
    }
  }

  /** Behind an INT literal the warning is wrong: here the case called unreachable is the one
      the tree walk selects. */
  lemma UnreachableWitness(fpu: Fpu, act: Action)
    ensures
      var cs := [Case(Lit(IntV(1)), act), Case(Lit(BoolV(true)), act)];
      Due(fpu, cs, Unreachable(1)) && Select(cs, Env(map[], map[], {}, fpu, 64)) == Chosen(1)
  {
    var cs := [Case(Lit(IntV(1)), act), Case(Lit(BoolV(true)), act)];
    assert cs[1..][0] == cs[1];
  }

  // ----- which warnings are given -----

  /** A comparison of two INT literals is reported always true exactly when it is true, always false
      exactly when it is false, in every context. */
  lemma LiteralComparisonsReported(op: BinOp, a: int32, b: int32, env: Env)
    requires IsRelational(op) && env.maxDepth >= 2
    ensures var e := Bin(op, Lit(IntV(a)), Lit(IntV(b)));
            && (ConstTrue(e) <==> Eval(e, env, 0) == Val(BoolV(true)))
            && (ConstFalse(e) <==> Eval(e, env, 0) == Val(BoolV(false)))
  {
    assert Eval(Lit(IntV(a)), env, 1) == Val(IntV(a)) && Eval(Lit(IntV(b)), env, 1) == Val(IntV(b));
    IntegerComparisonsAreExact(env.fpu, op, IntV(a), IntV(b));
  }

  /** Of the other conditions only BOOL and INT literals are reported, an INT by being zero or not. */
  lemma OtherConstantsReported(e: Expr)
    requires !(e.Bin? && IsRelational(e.bop) && IsIntLit(e.left) && IsIntLit(e.right))
    ensures ConstTrue(e) <==> e == Lit(BoolV(true)) || (IsIntLit(e) && e != Lit(IntV(0)))
    ensures ConstFalse(e) <==> e == Lit(BoolV(false)) || e == Lit(IntV(0))
  {
  }

  /** Two comparisons of the same variable with the same INT, or with FLOATs that compare equal. */
  ghost predicate Repeats(fpu: Fpu, d: Expr, c: Expr) {
    || (exists op, x, n :: d == Bin(op, Id(x), Lit(IntV(n))) && c == d)
    || (exists op, x, p, q :: d == Bin(op, Id(x), Lit(FloatV(p))) && c == Bin(op, Id(x), Lit(FloatV(q)))
                              && fpu.cmp(Eq, p, q))
  }

  /** A case is reported shadowed exactly when it repeats an earlier one and no case up to it is
      reported always true. */
  lemma ShadowedExactly(fpu: Fpu, cs: seq<Case>, k: nat)
    requires k < |cs|
    ensures Due(fpu, cs, Shadowed(k)) <==>
            NoneTrue(cs, k + 1) && exists j :: 0 <= j < k && Repeats(fpu, cs[j].cond, cs[k].cond)
  {
    forall j | 0 <= j < k ensures SameCondition(fpu, cs[j].cond, cs[k].cond) <==> Repeats(fpu, cs[j].cond, cs[k].cond) {
      SameIsRepeated(fpu, cs[j].cond, cs[k].cond);
    }
  }

  lemma SameIsRepeated(fpu: Fpu, d: Expr, c: Expr)
    ensures SameCondition(fpu, d, c) <==> Repeats(fpu, d, c)
  {
    if SameCondition(fpu, d, c) {
      if d.right.lit.IntV? {
        assert d == Bin(d.bop, Id(d.left.name), Lit(IntV(d.right.lit.i))) && c == d;
      } else {
        assert d == Bin(d.bop, Id(d.left.name), Lit(FloatV(d.right.lit.f)))
            && c == Bin(d.bop, Id(d.left.name), Lit(FloatV(c.right.lit.f)));
      }
    }
  }

  /** With f the first case that is reported always true, if there is any: it is the only one so
      reported, only the case right behind it is reported unreachable, and the other warnings are
      about the cases in front of it. */
  lemma WarningsExactly(fpu: Fpu, cs: seq<Case>, f: nat, k: nat)
    requires f <= |cs| && (forall j :: 0 <= j < f ==> !ConstTrue(cs[j].cond))
    requires f < |cs| ==> ConstTrue(cs[f].cond)
    ensures Due(fpu, cs, AlwaysTrue(k)) <==> k == f < |cs|
    ensures Due(fpu, cs, Unreachable(k)) <==> k == f + 1 < |cs|
    ensures Due(fpu, cs, AlwaysFalse(k)) <==> k < f && ConstFalse(cs[k].cond)
    ensures Due(fpu, cs, Shadowed(k)) <==> k < f && exists j :: 0 <= j < k && Repeats(fpu, cs[j].cond, cs[k].cond)
  {
    if k < |cs| {
      ShadowedExactly(fpu, cs, k);
      NeverBoth(cs[k].cond);
    }
    hide ConstTrue, ConstFalse, SameCondition;
  }
}
