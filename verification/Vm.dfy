/**
 The instruction loop as it runs (bc_run_instructions in src/vm/bytecode.c): a fixed array of
 stack slots, a stack pointer, and a report updated in place, tied to the machine of `Machine`.
 */
module Vm {
  import opened Values
  import opened Ast
  import opened Machine
  import opened Bytecode
  import opened Quota
  import opened RuleCompiler
  import opened Reports
  import opened StackBound

  class Vm {
    const h: Host
    const stack: array<Value>
    var sp: nat
    var fault: Fault
    var metrics: seq<MetricResult>
    var actions: seq<string>

    ghost predicate Valid()
      reads this
    {
      stack.Length == h.slots && sp <= stack.Length
    }

    /** The machine state this object represents. */
    ghost function View(): State
      reads this, stack
      requires Valid()
    {
      State(stack[..sp], fault, metrics, actions)
    }

    constructor (h: Host)
      ensures Valid() && View() == Start && this.h == h && fresh(stack)
    {
      this.h := h;
      stack := new Value[h.slots](_ => VoidV);
      sp, fault, metrics, actions := 0, NoFault, [], [];
    }

    method SetError(f: Fault)
      requires Valid()
      modifies `fault
      ensures Valid() && View() == Raise(old(View()), f)
    {
      if fault == NoFault { fault := f; }
    }

    method Clear()
      requires Valid()
      modifies `sp
      ensures Valid() && View() == old(View()).(stk := [])
    {
      sp := 0;
    }

    /** Fails, ending the run, when the stack is full. */
    method PushValue(v: Value) returns (ok: bool)
      requires Valid()
      modifies this, stack
      ensures Valid()
      ensures match Push(h, old(View()), v)
              case Next(_, s) => ok && View() == s
              case Halt(s, r) => !ok && View() == s && r == VoidV
    {
      if sp >= stack.Length {
        SetError(StackFull);
        Clear();
        return false;
      }
      ghost var before := stack[..sp];
      stack[sp] := v;
      sp := sp + 1;
      assert stack[..sp] == before + [v];
      ok := true;
    }

    method PopValue() returns (v: Value)
      requires Valid()
      modifies `sp, `fault
      ensures Valid() && (v, View()) == Popped(old(View()))
    {
      if sp > 0 {
        sp := sp - 1;
        v := stack[sp];
        assert stack[..sp + 1][..sp] == stack[..sp];
      } else {
        SetError(Underflow);
        v := VoidV;
      }
    }

    method PeekValue() returns (v: Value)
      requires Valid()
      modifies `fault
      ensures Valid() && (v, View()) == Peeked(old(View()))
    {
      if sp > 0 { v := stack[sp - 1]; } else { SetError(Underflow); v := VoidV; }
    }

    /** Pops n values, last argument first, into argument order. */
    method PopMany(n: int) returns (vs: seq<Value>)
      requires Valid()
      modifies `sp, `fault
      ensures Valid() && (vs, View()) == PoppedN(old(View()), n)
    {
      hide Popped;
      vs := [];
      assert PoppedN(View(), n).0 + vs == PoppedN(View(), n).0;
      var i := n;
      while i > 0
        invariant Valid() && (n >= 0 ==> i >= 0)
        invariant PoppedN(old(View()), n) == (var (front, s) := PoppedN(View(), i); (front + vs, s))
      {
        ghost var s0, rest := View(), vs;
        var v := PopValue();
        vs := [v] + vs;
        PoppedStep(s0, i);
        assert forall front: seq<Value> :: (front + [v]) + rest == front + ([v] + rest);
        i := i - 1;
      }
      assert [] + vs == vs;
    }

    /** Leaves the loop with nothing on the stack, or pushes an operator's result. */
    method Deliver(r: OpResult) returns (halted: bool)
      requires Valid()
      modifies this, stack
      ensures Valid()
      ensures match Finish(h, old(View()), r)
              case Next(_, s) => !halted && View() == s
              case Halt(s, v) => halted && View() == s && v == VoidV
    {
      if fault != NoFault {
        Clear();
        return true;
      }
      if IsFatal(r.st) {
        SetError(OpFault(r.st));
        Clear();
        return true;
      }
      var ok := PushValue(r.out);
      halted := !ok;
    }

    method Operate(inst: Inst<string>) returns (halted: bool)
      requires Valid() && (inst.BinOpI? || inst.UnOpI?)
      modifies this, stack
      ensures Valid()
      ensures match Step(h, inst, old(View()))
              case Next(off, s) => !halted && off == 1 && View() == s
              case Halt(s, v) => halted && View() == s && v == VoidV
    {
      hide ApplyBin, ApplyUn, Finish, Popped;
      if inst.BinOpI? {
        var b := PopValue();
        var a := PopValue();
        halted := Deliver(ApplyBin(h.env.fpu, inst.bop, a, b));
      } else {
        var v := PopValue();
        halted := Deliver(ApplyUn(inst.uop, h.env.fpu, v));
      }
      FinishOffset(h, old(View()), inst);
    }

    /** Array literals, function calls and actions: all consume a counted group of values. */
    method Gather(inst: Inst<string>) returns (halted: bool)
      requires Valid() && (inst.PushArr? || inst.CallI? || inst.ActionI?)
      modifies this, stack
      ensures Valid()
      ensures match Step(h, inst, old(View()))
              case Next(off, s) => !halted && off == 1 && View() == s
              case Halt(s, v) => halted && View() == s && v == VoidV
    {
      hide Popped, PoppedN, Invoke, TidyAll;
      if inst.PushArr? {
        var items := PopMany(inst.n);
        var ok := PushValue(ArrV(items));
        return !ok;
      }
      var nv := PopValue();
      var args := PopMany(Count(nv));
      if inst.CallI? {
        var ok := PushValue(Invoke(h.env, inst.fname, TidyAll(args), Count(nv)));
        return !ok;
      }
      if inst.aname in h.env.callbacks { actions := actions + [inst.aname]; }
      halted := false;
    }

    /** The metric handler: the last metric of the report is updated in place. */
    method Report(inst: Inst<string>)
      requires Valid() && (inst.MetricStart? || inst.SetScore? || inst.FailMetric?)
      modifies this
      ensures Valid() && Step(h, inst, old(View())) == Next(1, View())
    {
      if inst.MetricStart? {
        var info := if |metrics| < |h.infos| then h.infos[|metrics|] else MetricInfo(100, false);
        metrics := metrics + [MetricResult(inst.mname, info.weight, info.critical, 0, false)];
        return;
      }
      var score := 0;
      if inst.SetScore? {
        var v := PopValue();
        score := Count(v);
      }
      if metrics != [] {
        var k := |metrics| - 1;
        metrics := metrics[k := metrics[k].(score := score, passed := score > 0)];
      }
    }

    method Branching(inst: Inst<string>) returns (off: int)
      requires Valid() && (inst.JmpIfFalse? || inst.JmpIfTrue? || inst.Jmp?)
      modifies this
      ensures Valid() && Step(h, inst, old(View())) == Next(off, View())
    {
      hide Popped, Peeked, Truth;
      if inst.Jmp? { return inst.off; }
      var v := PeekValue();
      if Truth(v) == inst.JmpIfTrue? { return inst.off; }
      var _ := PopValue();
      off := 1;
    }

    /** One turn of the dispatch switch. */
    method Dispatch(inst: Inst<string>) returns (halted: bool, off: int, result: Value)
      requires Valid()
      modifies this, stack
      ensures Valid()
      ensures match Step(h, inst, old(View()))
              case Next(o, s) => !halted && off == o && View() == s
              case Halt(s, v) => halted && View() == s && result == v
    {
      hide Popped, PoppedN, Finish;
      halted, off, result := false, 1, VoidV;
      match inst {
        case PushLit(v) => var ok := PushValue(v); halted := !ok;
        case PushStr(t) => var ok := PushValue(StrV(t)); halted := !ok;
        case PushVar(x) => var ok := PushValue(if x in h.env.vars then h.env.vars[x] else VoidV); halted := !ok;
        case Pop => if sp > 0 { var _ := PopValue(); }
        case BinOpI(_) => halted := Operate(inst);
        case UnOpI(_) => halted := Operate(inst);
        case PushArr(_) => halted := Gather(inst);
        case CallI(_) => halted := Gather(inst);
        case ActionI(_) => halted := Gather(inst);
        case JmpIfFalse(_) => off := Branching(inst);
        case JmpIfTrue(_) => off := Branching(inst);
        case Jmp(_) => off := Branching(inst);
        case MetricStart(_) => Report(inst);
        case SetScore => Report(inst);
        case FailMetric(_) => Report(inst);
        case RuleEnd => Clear(); halted := true;
        case Ret => result := PopValue(); Clear(); halted := true;
      }
    }

    /** bc_run_instructions on a chunk whose jumps go forward; a limit of zero is no limit. */
    method RunInstructions(bc: Chunk, limit: nat) returns (result: Value)
      requires Valid() && bc.Valid() && Forward(bc.Prog())
      modifies this, stack
      ensures Valid() && bc.Prog() == old(bc.Prog())
      ensures RunResult(View(), result) ==
              if limit == 0 then Run(h, bc.Prog(), 0, old(View())) else RunLimited(h, bc.Prog(), 0, old(View()), limit)
    {
      hide Step, DecodeAll;
      ghost var prog, s0 := bc.Prog(), View();
      ghost var goal := if limit == 0 then Run(h, prog, 0, s0) else RunLimited(h, prog, 0, s0, limit);
      var ip, count := 0, 0;
      while ip < |bc.code|
        invariant Valid() && bc.Valid() && bc.Prog() == prog && 0 <= ip <= |bc.code| == |prog| && count <= |bc.code|
        invariant 0 <= count && (limit > 0 ==> count <= limit)
        invariant goal == if limit == 0 then Run(h, prog, ip, View())
          else RunLimited(h, prog, ip, View(), limit - count)
        invariant count <= ip
        decreases |bc.code| - ip
      {
        if limit > 0 {
          if count + 1 > limit {
            SetError(QuotaExceeded);
            Clear();
            return VoidV;
          }
        }
        count := count + 1;
        assert prog[ip] == Decode(bc.code[ip], bc.constants);
        ghost var s := View();
        assert JumpInside(prog[ip], |prog| - ip);
        var halted, off, value := Dispatch(Decode(bc.code[ip], bc.constants));
        if halted { return value; }
        NextOffset(h, prog[ip], s, |prog| - ip);
        ip := ip + off;
      }
      Clear();
      result := VoidV;
    }
  }

  lemma PoppedStep(s: State, n: int)
    requires n > 0
    ensures PoppedN(s, n) ==
            (var (last, s1) := Popped(s); var (front, s2) := PoppedN(s1, n - 1); (front + [last], s2))
  {
  }

  lemma FinishOffset(h: Host, s: State, inst: Inst<string>)
    requires inst.BinOpI? || inst.UnOpI?
    ensures Step(h, inst, s).Next? ==> Step(h, inst, s).off == 1
    ensures Step(h, inst, s).Halt? ==> Step(h, inst, s).result == VoidV
  {
  }

  /** cdsl_bytecode_execute_rule on a chunk compiled from a rule: the report and actions of the
      compiled rule's execution. */
  method ExecuteCompiled(bc: Chunk, rule: Rule, env: Env, limit: nat) returns (x: Execution)
    requires bc.Valid() && bc.Prog() == CodeRule(env.fpu, rule) && bc.infos == RuleInfos(rule)
    ensures x == VmExecutionLimited(rule, env, BYTECODE_MAX_STACK, limit)
  {
    hide Run, RunLimited, CodeRule;
    RuleIsForward(env.fpu, rule);
    var vm := new Vm(Host(env, BYTECODE_MAX_STACK, bc.infos));
    var result := vm.RunInstructions(bc, limit);
    var (passAt, partialAt) := Thresholds(rule);
    ghost var r := RunResult(vm.View(), result);
    var report;
    if vm.fault != NoFault {
      report := ErrorReport;
    } else if vm.metrics == [] && result.BoolV? {
      report := SimpleReport(rule.name, result.b);
    } else if vm.metrics == [] {
      report := ErrorReport;
    } else {
      report := Conclude(vm.metrics, Effective(passAt, 80), Effective(partialAt, 60));
    }
    assert report == ReportOf(rule.name, passAt, partialAt, r);
    x := Execution(report, vm.actions);
  }

  /** Compile, then run: nothing comes back for a rule the compiler refuses. */
  method CompileAndExecute(rule: Rule, env: Env, limit: nat) returns (x: Option<Execution>)
    ensures x == if Accepted(env.fpu, rule)
                 then Some(VmExecutionLimited(rule, env, BYTECODE_MAX_STACK, limit))
                 else None
  {
    hide CodeRule, Accepted, VmExecutionLimited;
    var bc := new Chunk();
    var ok := bc.CompileRule(env.fpu, rule);
    if !ok { return None; }
    var r := ExecuteCompiled(bc, rule, env, limit);
    x := Some(r);
  }
}
