/**
 The stack machine (bc_run_instructions and bc_rule_metric_handler in src/vm/bytecode.c).

 An instruction names a string through S: an index into the constant pool inside a chunk of
 bytecode, the string itself in the program that chunk stands for.
 */
module Machine {
  import opened Values
  import opened Ast

  datatype Inst<S> =
    | PushLit(v: Value)
    | PushStr(str: S)
    | PushArr(n: int32)
    | PushVar(vname: S)
    | Pop
    | BinOpI(bop: BinOp)
    | UnOpI(uop: UnOp)
    | CallI(fname: S)
    | ActionI(aname: S)
    | JmpIfFalse(off: int)
    | JmpIfTrue(off: int)
    | Jmp(off: int)
    | MetricStart(mname: S)
    | SetScore
    | FailMetric(reason: S)
    | RuleEnd
    | Ret

  type Program = seq<Inst<string>>

  /** Why the VM's error state is set. */
  datatype Fault = NoFault | OpFault(st: Status) | Underflow | StackFull | QuotaExceeded

  datatype MetricInfo = MetricInfo(weight: int, critical: bool)

  /** What a run is given besides its code: the environment, the number of stack slots and the
      chunk's metric table. */
  datatype Host = Host(env: Env, slots: nat, infos: seq<MetricInfo>)

  datatype State = State(stk: seq<Value>, fault: Fault, metrics: seq<MetricResult>, actions: seq<string>)

  datatype Outcome = Next(off: int, s: State) | Halt(s: State, result: Value)

  function Raise(s: State, f: Fault): State {
    if s.fault == NoFault then s.(fault := f) else s
  }

  /** Leaving the instruction loop drops whatever is still on the stack. */
  function Done(s: State, result: Value): Outcome {
    Halt(s.(stk := []), result)
  }

  function Push(h: Host, s: State, v: Value): Outcome {
    if |s.stk| >= h.slots then Done(Raise(s, StackFull), VoidV) else Next(1, s.(stk := s.stk + [v]))
  }

  function Popped(s: State): (r: (Value, State)) {
    if |s.stk| > 0 then (s.stk[|s.stk| - 1], s.(stk := s.stk[..|s.stk| - 1]))
    else (VoidV, Raise(s, Underflow))
  }

  function Peeked(s: State): (Value, State) {
    if |s.stk| > 0 then (s.stk[|s.stk| - 1], s) else (VoidV, Raise(s, Underflow))
  }

  /** Pops n values; the one pushed first comes first. */
  function PoppedN(s: State, n: int): (seq<Value>, State)
    decreases n
  {
    if n <= 0 then ([], s)
    else
      var (last, s1) := Popped(s);
      var (front, s2) := PoppedN(s1, n - 1);
      (front + [last], s2)
  }

  /** Values handed to a callback pass through temporary literal nodes, which turn VOID into
      INT 0 (val_to_temp_expr). */
  function Tidy(v: Value): Value {
    match v
    case Void(_) => IntV(0)
    case ArrV(items) => ArrV(TidyAll(items))
    case _ => v
  }

  function TidyAll(vs: seq<Value>): (r: seq<Value>)
    ensures |r| == |vs|
  {
    if vs == [] then [] else [Tidy(vs[0])] + TidyAll(vs[1..])
  }

  /** The result of a call. Where no function is registered the source sets the type to VOID and
      leaves in the data word what the push in front of the call has put there: the argument
      count. */
  function Invoke(env: Env, f: string, vs: seq<Value>, count: int32): Value {
    if f in env.fns then env.fns[f](vs) else Void(count)
  }

  function Trigger(env: Env, s: State, name: string): State {
    if name in env.callbacks then s.(actions := s.actions + [name]) else s
  }

  function Count(v: Value): int32 {
    if v.IntV? then v.i else 0
  }

  function LastMetric(s: State, score: int, passed: bool): State {
    if s.metrics == [] then s
    else
      var k := |s.metrics| - 1;
      s.(metrics := s.metrics[k := s.metrics[k].(score := score, passed := passed)])
  }

  function OpenMetric(h: Host, s: State, name: string): State {
    var idx := |s.metrics|;
    var info := if idx < |h.infos| then h.infos[idx] else MetricInfo(100, false);
    s.(metrics := s.metrics + [MetricResult(name, info.weight, info.critical, 0, false)])
  }

  function Finish(h: Host, s: State, r: OpResult): Outcome {
    if s.fault != NoFault then Done(s, VoidV)
    else if IsFatal(r.st) then Done(Raise(s, OpFault(r.st)), VoidV)
    else Push(h, s, r.out)
  }

  function Step(h: Host, inst: Inst<string>, s: State): Outcome {
    match inst
    case PushLit(v) => Push(h, s, v)
    case PushStr(t) => Push(h, s, StrV(t))
    case PushArr(n) => var (items, s1) := PoppedN(s, n); Push(h, s1, ArrV(items))
    case PushVar(x) => Push(h, s, if x in h.env.vars then h.env.vars[x] else VoidV)
    case Pop => Next(1, if |s.stk| > 0 then Popped(s).1 else s)
    case BinOpI(op) =>
      var (b, s1) := Popped(s);
      var (a, s2) := Popped(s1);
      Finish(h, s2, ApplyBin(h.env.fpu, op, a, b))
    case UnOpI(op) =>
      var (v, s1) := Popped(s);
      Finish(h, s1, ApplyUn(op, h.env.fpu, v))
    case CallI(f) =>
      var (nv, s1) := Popped(s);
      var (args, s2) := PoppedN(s1, Count(nv));
      Push(h, s2, Invoke(h.env, f, TidyAll(args), Count(nv)))
    case ActionI(f) =>
      var (nv, s1) := Popped(s);
      var (args, s2) := PoppedN(s1, Count(nv));
      Next(1, Trigger(h.env, s2, f))
    case JmpIfFalse(off) =>
      var (v, s1) := Peeked(s);
      if !Truth(v) then Next(off, s1) else Next(1, Popped(s1).1)
    case JmpIfTrue(off) =>
      var (v, s1) := Peeked(s);
      if Truth(v) then Next(off, s1) else Next(1, Popped(s1).1)
    case Jmp(off) => Next(off, s)
    case MetricStart(m) => Next(1, OpenMetric(h, s, m))
    case SetScore =>
      var (v, s1) := Popped(s);
      var score := Count(v);
      Next(1, LastMetric(s1, score, score > 0))
    case FailMetric(_) => Next(1, LastMetric(s, 0, false))
    case RuleEnd => Done(s, VoidV)
    case Ret => var (v, s1) := Popped(s); Done(s1, v)
  }

  /** Every jump goes strictly forward and lands inside the program or at its end. */
  predicate Forward<S>(code: seq<Inst<S>>) {
    forall k :: 0 <= k < |code| ==> JumpInside(code[k], |code| - k)
  }

  predicate JumpInside<S>(inst: Inst<S>, room: int) {
    inst.JmpIfFalse? || inst.JmpIfTrue? || inst.Jmp? ==> 1 <= inst.off <= room
  }

  datatype RunResult = RunResult(final: State, result: Value)

  /** The instruction loop from ip on. A jump that does not move forward would never leave the
      loop; no compiled program has one. */
  function Run(h: Host, code: Program, ip: int, s: State): RunResult
    decreases |code| - ip
  {
    if ip < 0 || ip >= |code| then RunResult(s.(stk := []), VoidV)
    else match Step(h, code[ip], s)
      case Halt(s', v) => RunResult(s', v)
      case Next(off, s') => if off < 1 then RunResult(s', VoidV) else Run(h, code, ip + off, s')
  }

  const Start := State([], NoFault, [], [])
}
