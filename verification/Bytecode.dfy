/**
 The compiler as it runs (bc_add_constant, bc_emit, bc_patch_jmp, compile_expr,
 compile_action_call and cdsl_bytecode_compile in src/vm/bytecode.c): instructions are appended
 to a growing chunk, names go into a deduplicated constant pool, and jumps are emitted as
 placeholders and patched once their target is known.
 */
module Bytecode {
  import opened Values
  import opened Ast
  import opened Machine
  import opened Compiler
  import opened Agreement
  import opened RuleCompiler
  import opened StackBound

  // ----- decoding -----

  datatype NamedOp = OfString | OfVar | OfCall | OfAction | OfMetric | OfReason

  function Named<S>(op: NamedOp, name: S): Inst<S> {
    match op
    case OfString => PushStr(name)
    case OfVar => PushVar(name)
    case OfCall => CallI(name)
    case OfAction => ActionI(name)
    case OfMetric => MetricStart(name)
    case OfReason => FailMetric(name)
  }

  /** The instruction's constant index, if it has one, lies in a pool of n names. */
  predicate Indexed(inst: Inst<nat>, n: nat) {
    match inst
    case PushStr(i) => i < n
    case PushVar(i) => i < n
    case CallI(i) => i < n
    case ActionI(i) => i < n
    case MetricStart(i) => i < n
    case FailMetric(i) => i < n
    case _ => true
  }

  function Decode(inst: Inst<nat>, pool: seq<string>): Inst<string>
    requires Indexed(inst, |pool|)
  {
    match inst
    case PushLit(v) => PushLit(v)
    case PushStr(i) => PushStr(pool[i])
    case PushArr(n) => PushArr(n)
    case PushVar(i) => PushVar(pool[i])
    case Pop => Pop
    case BinOpI(op) => BinOpI(op)
    case UnOpI(op) => UnOpI(op)
    case CallI(i) => CallI(pool[i])
    case ActionI(i) => ActionI(pool[i])
    case JmpIfFalse(off) => JmpIfFalse(off)
    case JmpIfTrue(off) => JmpIfTrue(off)
    case Jmp(off) => Jmp(off)
    case MetricStart(i) => MetricStart(pool[i])
    case SetScore => SetScore
    case FailMetric(i) => FailMetric(pool[i])
    case RuleEnd => RuleEnd
    case Ret => Ret
  }

  predicate AllIndexed(code: seq<Inst<nat>>, n: nat) {
    forall k :: 0 <= k < |code| ==> Indexed(code[k], n)
  }

  function DecodeAll(code: seq<Inst<nat>>, pool: seq<string>): (p: Program)
    requires AllIndexed(code, |pool|)
    ensures |p| == |code|
    ensures forall k :: 0 <= k < |code| ==> p[k] == Decode(code[k], pool)
  {
    seq(|code|, k requires 0 <= k < |code| => Decode(code[k], pool))
  }

  predicate Distinct(pool: seq<string>) {
    forall i, j :: 0 <= i < j < |pool| ==> pool[i] != pool[j]
  }

  /** The instruction a placeholder becomes. */
  function Retarget<S>(inst: Inst<S>, off: int): Inst<S> {
    match inst
    case JmpIfFalse(_) => JmpIfFalse(off)
    case JmpIfTrue(_) => JmpIfTrue(off)
    case Jmp(_) => Jmp(off)
    case other => other
  }

  lemma {:induction false} CodeAllSnoc(fpu: Fpu, es: seq<Expr>, k: nat)
    requires k < |es|
    ensures CodeAll(fpu, es[..k + 1]) == CodeAll(fpu, es[..k]) + Code(fpu, es[k])
    decreases k
  {
    if k == 0 {
      assert es[..1][1..] == [];
      assert CodeAll(fpu, es[..1]) == Code(fpu, es[0]) + CodeAll(fpu, es[..1][1..]);
    } else {
      CodeAllSnoc(fpu, es[1..], k - 1);
      assert es[..k + 1][1..] == es[1..][..k] && es[..k][1..] == es[1..][..k - 1];
    }
  }

  lemma {:induction false} MostSnoc(fpu: Fpu, es: seq<Expr>, k: nat)
    requires k < |es|
    ensures UsedMost(fpu, es[..k + 1]) == Max(UsedMost(fpu, es[..k]), Used(fpu, es[k]))
    ensures PeakMost(fpu, es[..k + 1]) == Max(PeakMost(fpu, es[..k]), Peak(fpu, es[k]))
    decreases k
  {
    if k == 0 {
      assert es[..1][1..] == [];
    } else {
      MostSnoc(fpu, es[1..], k - 1);
      assert es[..k + 1][1..] == es[1..][..k] && es[..k][1..] == es[1..][..k - 1];
    }
  }

  lemma {:induction false} StackedSnoc(fpu: Fpu, es: seq<Expr>, k: nat, below: nat)
    requires k < |es|
    ensures StackedUse(fpu, es[..k + 1], below) == Max(StackedUse(fpu, es[..k], below), Used(fpu, es[k]) + below + k)
    decreases k
  {
    if k == 0 {
      assert es[..1][1..] == [];
    } else {
      StackedSnoc(fpu, es[1..], k - 1, below + 1);
      assert es[..k + 1][1..] == es[1..][..k] && es[..k][1..] == es[1..][..k - 1];
    }
  }

  lemma LogicalCode(fpu: Fpu, e: Expr)
    requires IsConnective(e)
    ensures Used(fpu, e) == Max(Used(fpu, e.left), Used(fpu, e.right) + 1)
    ensures Code(fpu, e) == Code(fpu, e.left) + [Branch(e.bop.Or?, |Code(fpu, e.right)| + 2), Pop] + Code(fpu, e.right)
  {
  }

  lemma PatchedLogical(before: Program, cl: Program, onTrue: bool, cr: Program)
    ensures (before + cl + [Branch(onTrue, -1)] + [Pop] + cr)[|before| + |cl| := Branch(onTrue, |cr| + 2)]
         == before + (cl + [Branch(onTrue, |cr| + 2), Pop] + cr)
  {
  }

  /** A case whose jump to the metric's end is still a placeholder. */
  function OpenCase(fpu: Fpu, c: Case, weight: int32): Program {
    var act := CodeDo(fpu, c.action, weight);
    Code(fpu, c.cond) + ([JmpIfFalse(|act| + 3), Pop] + (act + [Jmp(-1), Pop]))
  }

  /** Where that placeholder is. */
  function EndJump(fpu: Fpu, c: Case, weight: int32): nat {
    |Code(fpu, c.cond)| + 2 + |CodeDo(fpu, c.action, weight)|
  }

  lemma OpenCaseDiffers(fpu: Fpu, c: Case, weight: int32, after: nat)
    ensures
      var open, closed, j := OpenCase(fpu, c, weight), CodeCase(fpu, c, weight, after), EndJump(fpu, c, weight);
      && |open| == |closed| == j + 2 && open[j] == Jmp(-1) && closed[j] == Jmp(after + 2)
      && forall q :: 0 <= q < |open| && q != j ==> open[q] == closed[q]
  {
    hide Code, CodeDo;
  }

  /** Position q of an unfinished metric body holds what the finished one will, or is a jump to
      the end that `ends` still lists (positions in the whole program, the body starting at
      `base`). */
  ghost predicate Unfinished(body: Program, goal: Program, base: nat, ends: seq<nat>) {
    && |body| <= |goal|
    && (forall q :: 0 <= q < |body| ==> body[q] == goal[q] || (body[q] == Jmp(-1) && base + q in ends))
    && (forall x :: x in ends ==> base <= x < base + |body| && goal[x - base] == Jmp(|goal| - (x - base)))
  }

  lemma UnfinishedCase(fpu: Fpu, c: Case, weight: int32, body: Program, goal: Program, rest: Program, base: nat,
      ends: seq<nat>)
    requires Unfinished(body, goal, base, ends)
    requires goal[|body|..] == CodeCase(fpu, c, weight, |rest|) + rest
    ensures Unfinished(body + OpenCase(fpu, c, weight), goal, base, ends + [base + |body| + EndJump(fpu, c, weight)])
    ensures goal[|body| + |OpenCase(fpu, c, weight)|..] == rest
  {
    hide OpenCase, CodeCase, EndJump;
    OpenCaseDiffers(fpu, c, weight, |rest|);
    var open, closed, j := OpenCase(fpu, c, weight), CodeCase(fpu, c, weight, |rest|), EndJump(fpu, c, weight);
    var ends' := ends + [base + |body| + j];
    assert forall q :: 0 <= q < |closed| ==> goal[|body| + q] == goal[|body|..][q] == closed[q];
    forall q | 0 <= q < |body + open|
      ensures (body + open)[q] == goal[q] || ((body + open)[q] == Jmp(-1) && base + q in ends')
    {
      if q < |body| {
        if body[q] != goal[q] { assert base + q in ends; }
      } else if q == |body| + j {
        assert ends'[|ends|] == base + q;
      } else {
        assert open[q - |body|] == closed[q - |body|];
      }
    }
    assert |goal| == |body| + |closed| + |rest|;
    assert goal[|body| + |open|..] == goal[|body|..][|closed|..] == rest;
  }

  lemma UnfinishedPatch(body: Program, goal: Program, base: nat, ends: seq<nat>)
    requires Unfinished(body, goal, base, ends) && |body| == |goal| && ends != [] && base <= ends[0] < base + |body|
    ensures Retarget(body[ends[0] - base], |goal| - (ends[0] - base)) == Jmp(|goal| - (ends[0] - base))
    ensures Unfinished(body[ends[0] - base := Jmp(|goal| - (ends[0] - base))], goal, base, ends[1..])
  {
    var k := ends[0] - base;
    assert ends == [ends[0]] + ends[1..];
    assert ends[0] in ends && forall x :: x in ends[1..] ==> x in ends;
    assert body[k].Jmp?;
    var body' := body[k := Jmp(|goal| - k)];
    forall q | 0 <= q < |body'| ensures body'[q] == goal[q] || (body'[q] == Jmp(-1) && base + q in ends[1..]) {
      if q != k && body[q] != goal[q] { assert base + q in ends && base + q != ends[0]; }
    }
  }

  class Chunk {
    var code: seq<Inst<nat>>
    var constants: seq<string>
    var maxStack: nat
    var infos: seq<MetricInfo>

    ghost predicate Valid()
      reads this
    {
      AllIndexed(code, |constants|) && Distinct(constants)
    }

    /** The program the chunk stands for. */
    ghost function Prog(): Program
      reads this
      requires Valid()
    {
      DecodeAll(code, constants)
    }

    constructor ()
      ensures Valid() && Prog() == [] && constants == [] && maxStack == 0 && infos == []
    {
      code, constants, maxStack, infos := [], [], 0, [];
    }

    /** Names are stored once; earlier indices keep their meaning. */
    method AddConstant(name: string) returns (idx: nat)
      requires Valid()
      modifies `constants
      ensures Valid() && Prog() == old(Prog()) && old(constants) <= constants
      ensures idx < |constants| && constants[idx] == name
      ensures constants == if name in old(constants) then old(constants) else old(constants) + [name]
    {
      idx := 0;
      while idx < |constants|
        invariant idx <= |constants| && name !in constants[..idx]
      {
        if constants[idx] == name { return; }
        assert constants[..idx + 1] == constants[..idx] + [constants[idx]];
        idx := idx + 1;
      }
      assert constants[..idx] == constants;
      constants := constants + [name];
    }

    method Emit(inst: Inst<nat>)
      requires Valid() && Indexed(inst, |constants|)
      modifies `code
      ensures Valid() && Prog() == old(Prog()) + [Decode(inst, constants)]
      ensures |code| == old(|code|) + 1 && code[|code| - 1] == inst && old(code) <= code
    {
      code := code + [inst];
    }

    method EmitNamed(op: NamedOp, name: string)
      requires Valid()
      modifies `code, `constants
      ensures Valid() && Prog() == old(Prog()) + [Named(op, name)]
    {
      var idx := AddConstant(name);
      Emit(Named(op, idx));
    }

    method EmitLiteral(v: Value)
      requires Valid()
      modifies `code, `constants
      ensures Valid() && Prog() == old(Prog()) + [LitInst(v)]
    {
      if v.StrV? { EmitNamed(OfString, v.s); } else { Emit(PushLit(v)); }
    }

    /** A jump whose target is not known yet. */
    method EmitPlaceholder(inst: Inst<nat>) returns (idx: nat)
      requires Valid() && inst in {JmpIfFalse(-1), JmpIfTrue(-1), Jmp(-1)}
      modifies `code
      ensures Valid() && idx == old(|code|) && Prog() == old(Prog()) + [Decode(inst, constants)]
    {
      idx := |code|;
      Emit(inst);
    }

    method Patch(idx: nat, target: nat)
      requires Valid() && idx < |code|
      modifies `code
      ensures Valid() && Prog() == old(Prog())[idx := Retarget(old(Prog())[idx], target - idx)]
    {
      code := code[idx := Retarget(code[idx], target - idx)];
    }

    /** compile_expr: appends the expression's code and reports its stack use. */
    method CompileExpr(fpu: Fpu, e: Expr) returns (used: nat)
      requires Valid()
      modifies this
      ensures Valid() && Prog() == old(Prog()) + Code(fpu, e) && infos == old(infos)
      ensures used == Used(fpu, e) && maxStack == Max(old(maxStack), Peak(fpu, e))
      decreases e, 2
    {
      var folded := if IsConst(e) then Fold(fpu, e) else None;
      if folded.Some? {
        EmitLiteral(folded.value);
        used := 1;
        maxStack := Max(maxStack, 1);
        return;
      }
      // a literal is constant and always folds, so the source's own branches for literals are idle
      if e.Id? {
        EmitNamed(OfVar, e.name);
        used := 1;
      } else if e.Un? {
        used := CompileExpr(fpu, e.arg);
        Emit(UnOpI(e.uop));
      } else if IsConnective(e) {
        used := CompileLogical(fpu, e);
      } else if e.Bin? {
        used := CompileBinary(fpu, e);
      } else {
        used := CompileList(fpu, e);
      }
      maxStack := Max(maxStack, used);
    }

    method CompileList(fpu: Fpu, e: Expr) returns (used: nat)
      requires Valid() && (e.Arr? || e.Call?)
      modifies this
      ensures Valid() && Prog() == old(Prog()) + Code(fpu, e) && infos == old(infos)
      ensures used == Used(fpu, e)
      ensures maxStack == Max(old(maxStack), PeakMost(fpu, if e.Arr? then e.elems else e.args))
      decreases e, 1
    {
      ghost var before := Prog();
      if e.Arr? {
        used := CompileArgs(fpu, e, e.elems);
        Emit(PushArr(CountOf(|e.elems|)));
        used := used + 1;
        assert Prog() == before + (CodeAll(fpu, e.elems) + [PushArr(CountOf(|e.elems|))]);
      } else {
        used := CompileArgs(fpu, e, e.args);
        used := Max(used, |e.args| + 1);
        Emit(PushLit(IntV(CountOf(|e.args|))));
        EmitNamed(OfCall, e.fn);
        assert Prog() == before + (CodeAll(fpu, e.args) + [PushLit(IntV(CountOf(|e.args|))), CallI(e.fn)]);
      }
    }

    method CompileBinary(fpu: Fpu, e: Expr) returns (used: nat)
      requires Valid() && IsOperation(e) && FoldsTo(fpu, e).None?
      modifies this
      ensures Valid() && Prog() == old(Prog()) + Code(fpu, e) && infos == old(infos)
      ensures used == Used(fpu, e)
      ensures maxStack == Max(old(maxStack), Max(Peak(fpu, e.left), Peak(fpu, e.right)))
      decreases e, 1
    {
      var l := CompileExpr(fpu, e.left);
      var r := CompileExpr(fpu, e.right);
      Emit(BinOpI(e.bop));
      used := Max(l, r + 1);
    }

    /** Short circuit: the jump over the right operand is patched after it is compiled. */
    method CompileLogical(fpu: Fpu, e: Expr) returns (used: nat)
      requires Valid() && IsConnective(e)
      modifies this
      ensures Valid() && Prog() == old(Prog()) + Code(fpu, e) && infos == old(infos)
      ensures used == Used(fpu, e)
      ensures maxStack == Max(old(maxStack), Max(Peak(fpu, e.left), Peak(fpu, e.right)))
      decreases e, 1
    {
      hide Fold, FoldsTo, DecodeAll, Peak, Used, Code;
      LogicalCode(fpu, e);
      ghost var before, cl, cr := Prog(), Code(fpu, e.left), Code(fpu, e.right);
      var l := CompileExpr(fpu, e.left);
      var jump := EmitPlaceholder(if e.bop.Or? then JmpIfTrue(-1) else JmpIfFalse(-1));
      Emit(Pop);
      var r := CompileExpr(fpu, e.right);
      ghost var hole: Inst<string> := Branch(e.bop.Or?, -1);
      assert Prog() == before + cl + [hole] + [Pop] + cr;
      Patch(jump, |code|);
      PatchedLogical(before, cl, e.bop.Or?, cr);
      used := Max(l, r + 1);
    }

    method CompileArgs(fpu: Fpu, ghost parent: Expr, es: seq<Expr>) returns (used: nat)
      requires Valid() && (forall x :: x in es ==> x < parent)
      modifies this
      ensures Valid() && Prog() == old(Prog()) + CodeAll(fpu, es) && infos == old(infos)
      ensures used == UsedMost(fpu, es) && maxStack == Max(old(maxStack), PeakMost(fpu, es))
      decreases parent, 0
    {
      hide Code, Used, Peak, Fold, FoldsTo, DecodeAll;
      used := 0;
      var k := 0;
      while k < |es|
        invariant k <= |es| && Valid() && infos == old(infos)
        invariant Prog() == old(Prog()) + CodeAll(fpu, es[..k])
        invariant used == UsedMost(fpu, es[..k]) && maxStack == Max(old(maxStack), PeakMost(fpu, es[..k]))
      {
        assert es[k] in es;
        var sub := CompileExpr(fpu, es[k]);
        CodeAllSnoc(fpu, es, k);
        MostSnoc(fpu, es, k);
        used := Max(used, sub);
        k := k + 1;
      }
      assert es[..k] == es;
    }

    /** The arguments of an action; the bound counts each above the ones before it. */
    method CompileStacked(fpu: Fpu, es: seq<Expr>) returns (used: nat)
      requires Valid()
      modifies this
      ensures Valid() && Prog() == old(Prog()) + CodeAll(fpu, es) && infos == old(infos)
      ensures used == StackedUse(fpu, es, 0) && maxStack == Max(old(maxStack), PeakMost(fpu, es))
    {
      hide Code, Used, Peak, Fold, FoldsTo, DecodeAll;
      used := 0;
      var k := 0;
      while k < |es|
        invariant k <= |es| && Valid() && infos == old(infos)
        invariant Prog() == old(Prog()) + CodeAll(fpu, es[..k])
        invariant used == StackedUse(fpu, es[..k], 0)
        invariant maxStack == Max(old(maxStack), PeakMost(fpu, es[..k]))
      {
        var sub := CompileExpr(fpu, es[k]);
        CodeAllSnoc(fpu, es, k);
        MostSnoc(fpu, es, k);
        StackedSnoc(fpu, es, k, 0);
        used := Max(used, sub + k);
        k := k + 1;
      }
      assert es[..k] == es;
    }

    /** compile_action_call. */
    method CompileAction(fpu: Fpu, a: Action) returns (used: nat)
      requires Valid()
      modifies this
      ensures Valid() && Prog() == old(Prog()) + CodeAction(fpu, a) && infos == old(infos)
      ensures used == Max(StackedUse(fpu, a.args, 0), |a.args| + 1)
      ensures maxStack == Max(old(maxStack), PeakMost(fpu, a.args))
    {
      ghost var before := Prog();
      used := CompileStacked(fpu, a.args);
      Emit(PushLit(IntV(CountOf(|a.args|))));
      EmitNamed(OfAction, a.name);
      used := Max(used, |a.args| + 1);
      assert Prog() == before + (CodeAll(fpu, a.args) + [PushLit(IntV(CountOf(|a.args|))), ActionI(a.name)]);
    }

    method CompileScore(fpu: Fpu, a: Action, fallback: int32) returns (used: nat)
      requires Valid()
      modifies this
      ensures Valid() && Prog() == old(Prog()) + CodeScore(fpu, a, fallback) && infos == old(infos)
      ensures used <= PeakMost(fpu, a.args) && old(maxStack) <= maxStack <= Max(old(maxStack), PeakMost(fpu, a.args))
    {
      hide Code, Used, Peak, DecodeAll;
      used := 0;
      ghost var before := Prog();
      if a.name == "score" && a.args != [] {
        used := CompileExpr(fpu, a.args[0]);
        Emit(SetScore);
        assert Prog() == before + (Code(fpu, a.args[0]) + [SetScore]);
      } else if a.name == "fail_metric" {
        Emit(PushLit(IntV(0)));
        Emit(SetScore);
        if |a.args| > 1 && a.args[1].Lit? && a.args[1].lit.StrV? {
          EmitNamed(OfReason, a.args[1].lit.s);
        }
        assert Prog() == before + CodeScore(fpu, a, fallback);
      } else {
        Emit(PushLit(IntV(fallback)));
        Emit(SetScore);
        assert Prog() == before + [PushLit(IntV(fallback)), SetScore];
      }
    }

    method CompileDo(fpu: Fpu, a: Action, fallback: int32) returns (used: nat)
      requires Valid()
      modifies this
      ensures Valid() && Prog() == old(Prog()) + CodeDo(fpu, a, fallback) && infos == old(infos)
      ensures Max(maxStack, used) == Max(old(maxStack), ActionBound(fpu, a))
    {
      hide CodeAction, CodeScore, DecodeAll;
      ghost var before := Prog();
      used := CompileAction(fpu, a);
      var sub := CompileScore(fpu, a, fallback);
      used := Max(used, sub);
      assert Prog() == before + (CodeAction(fpu, a) + CodeScore(fpu, a, fallback));
    }

    /** One case, its jump to the end of the metric left open. */
    method CompileCase(fpu: Fpu, c: Case, weight: int32) returns (endJump: nat, used: nat)
      requires Valid()
      modifies this
      ensures Valid() && Prog() == old(Prog()) + OpenCase(fpu, c, weight) && infos == old(infos)
      ensures endJump == old(|code|) + EndJump(fpu, c, weight)
      ensures Max(maxStack, used) == Max(old(maxStack), Max(Peak(fpu, c.cond), ActionBound(fpu, c.action)))
    {
      hide Code, CodeDo, Used, Peak, ActionBound, DecodeAll;
      ghost var before, cond, act := Prog(), Code(fpu, c.cond), CodeDo(fpu, c.action, weight);
      used := CompileExpr(fpu, c.cond);
      var nextCase := EmitPlaceholder(JmpIfFalse(-1));
      Emit(Pop);
      var sub := CompileDo(fpu, c.action, weight);
      used := Max(used, sub);
      endJump := EmitPlaceholder(Jmp(-1));
      assert Prog() == before + cond + [JmpIfFalse(-1)] + [Pop] + act + [Jmp(-1)];
      Patch(nextCase, |code|);
      Emit(Pop);
      PatchedCase(before, cond, act);
    }

    /** The cases of a metric, one after the other; the jumps to the metric's end are left open
        and returned. `otherwise` is the code that will follow. */
    method CompileCases(fpu: Fpu, cs: seq<Case>, weight: int32, ghost otherwise: Program)
      returns (ends: seq<nat>, used: nat)
      requires Valid()
      modifies this
      ensures Valid() && infos == old(infos) && old(Prog()) <= Prog()
      ensures var goal := CodeCases(fpu, cs, weight, otherwise);
              var body := Prog()[old(|code|)..];
              Unfinished(body, goal, old(|code|), ends) && |body| <= |goal| && goal[|body|..] == otherwise
      ensures Max(maxStack, used) == Max(old(maxStack), CasesBound(fpu, cs))
    {
      hide OpenCase, CodeCase, EndJump, Peak, ActionBound, DecodeAll;
      ghost var before, goal := Prog(), CodeCases(fpu, cs, weight, otherwise);
      ghost var body: Program := [];
      ends, used := [], 0;
      var k := 0;
      while k < |cs|
        invariant k <= |cs| && Valid() && infos == old(infos) && Prog() == before + body
        invariant Unfinished(body, goal, |before|, ends)
        invariant goal[|body|..] == CodeCases(fpu, cs[k..], weight, otherwise)
        invariant Max(Max(maxStack, used), CasesBound(fpu, cs[k..])) == Max(old(maxStack), CasesBound(fpu, cs))
      {
        ghost var rest := CodeCases(fpu, cs[k + 1..], weight, otherwise);
        assert cs[k..][1..] == cs[k + 1..];
        var end, sub := CompileCase(fpu, cs[k], weight);
        UnfinishedCase(fpu, cs[k], weight, body, goal, rest, |before|, ends);
        body := body + OpenCase(fpu, cs[k], weight);
        ends, used := ends + [end], Max(used, sub);
        k := k + 1;
      }
      assert cs[k..] == [];
      assert Prog()[|before|..] == body;
    }

    /** Closes the jumps to the end of the metric that has just been compiled. */
    method PatchEnds(ends: seq<nat>, ghost base: nat, ghost goal: Program)
      requires Valid() && base <= |code| && Unfinished(Prog()[base..], goal, base, ends) && |goal| == |code| - base
      modifies `code
      ensures Valid() && Prog() == old(Prog())[..base] + goal
    {
      hide DecodeAll;
      ghost var front := Prog()[..base];
      var i := 0;
      while i < |ends|
        invariant i <= |ends| && Valid() && |code| == base + |goal| && Prog()[..base] == front
        invariant Unfinished(Prog()[base..], goal, base, ends[i..])
      {
        ghost var body := Prog()[base..];
        assert ends[i] == ends[i..][0] && ends[i] in ends[i..];
        UnfinishedPatch(body, goal, base, ends[i..]);
        ghost var before := Prog();
        Patch(ends[i], |code|);
        assert ends[i..][1..] == ends[i + 1..];
        assert before[ends[i]] == body[ends[i] - base];
        assert Prog()[base..] == body[ends[i] - base := Jmp(|goal| - (ends[i] - base))];
        i := i + 1;
      }
      assert Prog()[base..] == goal;
      assert Prog() == Prog()[..base] + Prog()[base..];
    }

    /** A metric's cases and default, the default's code falling through to the metric's end. */
    method CompileBody(fpu: Fpu, m: Metric) returns (used: nat)
      requires Valid()
      modifies this
      ensures Valid() && infos == old(infos)
      ensures Prog() == old(Prog()) + CodeCases(fpu, m.cases, m.weight, CodeDo(fpu, m.otherwise, 0))
      ensures Max(maxStack, used) ==
              Max(old(maxStack), Max(CasesBound(fpu, m.cases), ActionBound(fpu, m.otherwise)))
    {
      hide CodeCases, CodeDo, ActionBound, CasesBound, DecodeAll, Unfinished;
      ghost var base, head, otherwise := |code|, Prog(), CodeDo(fpu, m.otherwise, 0);
      ghost var goal := CodeCases(fpu, m.cases, m.weight, otherwise);
      var ends, caseUse := CompileCases(fpu, m.cases, m.weight, otherwise);
      ghost var body := Prog()[base..];
      var defaultUse := CompileDo(fpu, m.otherwise, 0);
      used := Max(caseUse, defaultUse);
      assert Prog()[base..] == body + otherwise && Prog()[..base] == head;
      DefaultFinishes(body, goal, base, ends, otherwise);
      PatchEnds(ends, base, goal);
    }

    method CompileMetric(fpu: Fpu, m: Metric) returns (used: nat)
      requires Valid()
      modifies this
      ensures Valid() && Prog() == old(Prog()) + CodeMetric(fpu, m) && infos == old(infos)
      ensures Max(maxStack, used) ==
              Max(old(maxStack), Max(CasesBound(fpu, m.cases), ActionBound(fpu, m.otherwise)))
    {
      hide CodeCases, CodeDo, ActionBound, CasesBound, DecodeAll;
      ghost var before, goal := Prog(), CodeCases(fpu, m.cases, m.weight, CodeDo(fpu, m.otherwise, 0));
      EmitNamed(OfMetric, m.name);
      used := CompileBody(fpu, m);
      assert Prog() == before + ([MetricStart(m.name)] + goal);
    }

    /** cdsl_bytecode_compile. The result says whether the rule is accepted. */
    method CompileRule(fpu: Fpu, rule: Rule) returns (ok: bool)
      requires Valid() && Prog() == [] && maxStack == 0
      modifies this
      ensures Valid() && Prog() == CodeRule(fpu, rule) && infos == RuleInfos(rule)
      ensures maxStack == MaxStack(fpu, rule) && (ok <==> Accepted(fpu, rule))
    {
      hide CodeMetric, CodeAction, Code, ActionBound, CasesBound, Peak, Used, DecodeAll;
      var stackUsed := 0;
      if rule.MetricRule? {
        stackUsed := CompileMetrics(fpu, rule.metrics);
        infos := InfosOf(rule.metrics);
        Emit(RuleEnd);
      } else {
        stackUsed := CompileSimple(fpu, rule);
        infos := [];
      }
      maxStack := Max(maxStack, stackUsed);
      ok := maxStack <= BYTECODE_MAX_STACK;
    }

    method CompileMetrics(fpu: Fpu, ms: seq<Metric>) returns (used: nat)
      requires Valid() && Prog() == []
      modifies this
      ensures Valid() && Prog() == CodeMetrics(fpu, ms)
      ensures Max(maxStack, used) == Max(old(maxStack), MetricsBound(fpu, ms))
    {
      hide CodeMetric, ActionBound, CasesBound, DecodeAll;
      used := 0;
      var k := 0;
      while k < |ms|
        invariant k <= |ms| && Valid() && Prog() + CodeMetrics(fpu, ms[k..]) == CodeMetrics(fpu, ms)
        invariant Max(Max(maxStack, used), MetricsBound(fpu, ms[k..])) == Max(old(maxStack), MetricsBound(fpu, ms))
      {
        assert ms[k..][1..] == ms[k + 1..];
        ghost var before := Prog();
        var sub := CompileMetric(fpu, ms[k]);
        assert before + (CodeMetric(fpu, ms[k]) + CodeMetrics(fpu, ms[k + 1..]))
            == Prog() + CodeMetrics(fpu, ms[k + 1..]);
        used := Max(used, sub);
        k := k + 1;
      }
    }

    method CompileSimple(fpu: Fpu, rule: Rule) returns (used: nat)
      requires Valid() && Prog() == [] && rule.SimpleRule?
      modifies this
      ensures Valid() && Prog() == CodeRule(fpu, rule)
      ensures Max(maxStack, used) == Max(old(maxStack), MaxStack(fpu, rule))
    {
      hide Code, CodeAction, Used, Peak, DecodeAll, PeakMost, StackedUse;
      ghost var cond, act := Code(fpu, rule.when), CodeAction(fpu, rule.then_);
      used := CompileExpr(fpu, rule.when);
      var falseJump := EmitPlaceholder(JmpIfFalse(-1));
      var sub := CompileAction(fpu, rule.then_);
      used := Max(used, sub);
      Emit(PushLit(BoolV(true)));
      assert Prog() == cond + [JmpIfFalse(-1)] + act + [PushLit(BoolV(true))];
      Patch(falseJump, |code|);
      Emit(Ret);
      assert Prog() == cond + ([JmpIfFalse(|act| + 2)] + (act + [PushLit(BoolV(true)), Ret]));
    }
  }

  lemma DefaultFinishes(body: Program, goal: Program, base: nat, ends: seq<nat>, otherwise: Program)
    requires Unfinished(body, goal, base, ends) && |body| <= |goal| && goal[|body|..] == otherwise
    ensures Unfinished(body + otherwise, goal, base, ends) && |body + otherwise| == |goal|
  {
    forall q | 0 <= q < |goal|
      ensures (body + otherwise)[q] == goal[q] || ((body + otherwise)[q] == Jmp(-1) && base + q in ends)
    {
      if q >= |body| { assert goal[q] == goal[|body|..][q - |body|]; }
    }
  }

  lemma PatchedCase(before: Program, cond: Program, act: Program)
    ensures (before + cond + [JmpIfFalse(-1)] + [Pop] + act + [Jmp(-1)])
              [|before| + |cond| := JmpIfFalse(|act| + 3)] + [Pop]
         == before + (cond + ([JmpIfFalse(|act| + 3), Pop] + (act + [Jmp(-1), Pop])))
  {
  }
}
