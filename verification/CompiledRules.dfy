/**
 What running a compiled rule does, whatever the types of its values: the code tests bits where
 the tree walk waits for a BOOL, and evaluates the arguments of every action it takes.
 */
module CompiledRules {
  import opened Values
  import opened Ast
  import opened TreeWalk
  import opened Machine
  import opened Compiler
  import opened Agreement
  import opened Reports
  import opened RuleCompiler

  // ----- what the code computes -----

  /** The case whose condition is the first with a bit set, or the error before it. */
  function RawSelect(cs: seq<Case>, env: Env): (r: Selection)
    ensures r.Chosen? ==> r.k < |cs|
  {
    if cs == [] then NoCase
    else match RawEval(cs[0].cond, env)
      case Err(st) => SelectionErr(st)
      case Val(v) =>
        if Truth(v) then Chosen(0)
        else match RawSelect(cs[1..], env)
          case Chosen(k) => Chosen(k + 1)
          case other => other
  }

  /** The score an action leaves once all its arguments have been evaluated. */
  function RawScoreOf(a: Action, fallback: int32, env: Env): int32 {
    if a.name == "score" && a.args != [] then
      var r := RawEval(a.args[0], env);
      if r.Val? then Count(r.v) else 0
    else if a.name == "fail_metric" then 0
    else fallback
  }

  function RawScored(m: Metric, a: Action, fallback: int32, env: Env, t: Tally): Tally {
    if RawEvalAll(a.args, env).SeqErr? then t.(failed := true)
    else
      var n := RawScoreOf(a, fallback, env);
      t.(actions := Noted(t.actions, a.name, env),
         metrics := t.metrics + [MetricResult(m.name, m.weight, m.critical, n, n > 0)])
  }

  function RawTallyMetric(m: Metric, env: Env, t: Tally): Tally {
    match RawSelect(m.cases, env)
    case SelectionErr(_) => t.(failed := true)
    case Chosen(k) => RawScored(m, m.cases[k].action, m.weight, env, t)
    case NoCase => RawScored(m, m.otherwise, 0, env, t)
  }

  function RawTallyMetrics(ms: seq<Metric>, env: Env, t: Tally): Tally
    decreases |ms|
  {
    if ms == [] || t.failed then t else RawTallyMetrics(ms[1..], env, RawTallyMetric(ms[0], env, t))
  }

  // ----- code that has its slots and its place, on the path its execution takes -----

  predicate PlacedExpr(e: Expr, h: Host) {
    Placed(e, true) && Depth(h.env.fpu, e) <= h.slots
  }

  predicate PlacedAction(a: Action, h: Host) {
    AllPlaced(a.args, true) && DepthAll(h.env.fpu, a.args) <= h.slots && |a.args| + 1 <= h.slots
  }

  predicate PlacedCases(cs: seq<Case>, otherwise: Action, h: Host) {
    if cs == [] then PlacedAction(otherwise, h)
    else
      && PlacedExpr(cs[0].cond, h)
      && match RawEval(cs[0].cond, h.env)
         case Err(_) => true
         case Val(v) => if Truth(v) then PlacedAction(cs[0].action, h) else PlacedCases(cs[1..], otherwise, h)
  }

  predicate PlacedMetrics(ms: seq<Metric>, h: Host) {
    ms == [] || (PlacedCases(ms[0].cases, ms[0].otherwise, h) && PlacedMetrics(ms[1..], h))
  }

  // ----- the pieces of a rule's code -----

  /** A machine between two statements of a rule: empty stack, no error. */
  predicate Idle(s: State) { s.stk == [] && s.fault == NoFault }

  ghost predicate FineHost(h: Host) { 1 <= h.slots <= INT_MAX }

  /** Running this part of the code has that effect, and the run goes on behind it. */
  ghost predicate Does(h: Host, code: Program, i: nat, part: Program, s: State, eff: Effect) {
    Run(h, code, i, s) == Continue(h, code, i + |part|, eff)
  }

  /** Ending with an operator's error and changing nothing else. */
  function Broken(s: State, st: Status): Effect { Stop(s.(fault := OpFault(st)), VoidV) }

  function Held(s: State, r: Res): Effect {
    match r
    case Val(v) => Go(s.(stk := [v]))
    case Err(st) => Broken(s, st)
  }

  lemma RawExprRuns(h: Host, code: Program, i: nat, e: Expr, s: State)
    requires At(code, i, Code(h.env.fpu, e)) && Idle(s) && PlacedExpr(e, h) && FineHost(h)
    ensures Does(h, code, i, Code(h.env.fpu, e), s, Held(s, RawEval(e, h.env)))
  {
    hide Run, Code, Depth, RawEval, Placed, Sem;
    CodeRuns(h, code, i, e, s);
    StackDiscipline(h, e, s);
    if RawEval(e, h.env).Val? {
      assert Pushed(s, RawEval(e, h.env).v) == s.(stk := [RawEval(e, h.env).v]);
    }
    assert s.(stk := []) == s;
  }

  lemma ActionStep(h: Host, s: State, vs: seq<Value>, name: string)
    requires Idle(s) && |vs| <= INT_MAX
    ensures One(h, ActionI(name), s.(stk := vs + [IntV(|vs|)])) == Go(Trigger(h.env, s, name))
  {
    hide Popped, PoppedN, Peeked, Trigger;
    var s1 := s.(stk := vs);
    PoppedTop(s.(stk := vs + [IntV(|vs|)]), vs, IntV(|vs|));
    assert s1.stk == [] + vs;
    PoppedAll(s1, [], vs);
    assert s1.(stk := []) == s;
  }

  /** The machine after an action's code: the arguments evaluated, the callback triggered. */
  function Called(h: Host, s: State, a: Action): Effect {
    match RawEvalAll(a.args, h.env)
    case Vals(_) => Go(Trigger(h.env, s, a.name))
    case SeqErr(st) => Broken(s, st)
  }

  lemma RawActionRuns(h: Host, code: Program, i: nat, a: Action, s: State)
    requires At(code, i, CodeAction(h.env.fpu, a)) && Idle(s) && PlacedAction(a, h) && FineHost(h)
    ensures Does(h, code, i, CodeAction(h.env.fpu, a), s, Called(h, s, a))
  {
    hide Run, Step, CodeAll, AllPlaced, DepthAll, RawEvalAll, Trigger, SemAll;
    var push, args := PushLit(IntV(CountOf(|a.args|))), CodeAll(h.env.fpu, a.args);
    AtSplit(code, i, args, [push, ActionI(a.name)]);
    assert [push, ActionI(a.name)] == [push] + [ActionI(a.name)];
    AtSplit(code, i + |args|, [push], [ActionI(a.name)]);
    AllRuns(h, code, i, a.args, s);
    AllDiscipline(h, a.args, s);
    if RawEvalAll(a.args, h.env).Vals? {
      var vs := RawEvalAll(a.args, h.env).vs;
      var s1 := s.(stk := vs);
      assert s.stk + vs == vs;
      RunsOne(h, code, i + |args|, push, s1);
      PushEffect(h, s1, IntV(CountOf(|vs|)));
      assert CountOf(|vs|) == |vs|;
      RunsOne(h, code, i + |args| + 1, ActionI(a.name), Pushed(s1, IntV(|vs|)));
      ActionStep(h, s, vs, a.name);
    } else {
      assert s.(stk := []) == s;
    }
  }

  lemma StaysIdle(h: Host, s: State, name: string)
    requires Idle(s)
    ensures Idle(Trigger(h.env, s, name))
  {
  }

  // ----- scoring -----

  function ScoreSet(s: State, n: int32): State { LastMetric(s, n, n > 0) }

  lemma SetScoreStep(h: Host, s: State, v: Value)
    requires Idle(s)
    ensures One(h, SetScore, s.(stk := [v])) == Go(ScoreSet(s, Count(v)))
  {
    hide LastMetric;
    PoppedTop(s.(stk := [v]), [], v);
    assert s.(stk := [v]).(stk := []) == s;
  }

  /** Pushing a literal score and setting it. */
  lemma LiteralScoreRuns(h: Host, code: Program, i: nat, n: int32, s: State)
    requires At(code, i, [PushLit(IntV(n)), SetScore]) && Idle(s) && FineHost(h)
    ensures Does(h, code, i, [PushLit(IntV(n)), SetScore], s, Go(ScoreSet(s, n)))
  {
    hide Run, LastMetric, Step;
    var score: Program := [PushLit(IntV(n)), SetScore];
    assert score == [PushLit(IntV(n))] + [SetScore];
    AtSplit(code, i, [PushLit(IntV(n))], [SetScore]);
    RunsOne(h, code, i, PushLit(IntV(n)), s);
    PushEffect(h, s, IntV(n));
    assert Pushed(s, IntV(n)) == s.(stk := [IntV(n)]);
    RunsOne(h, code, i + 1, SetScore, s.(stk := [IntV(n)]));
    SetScoreStep(h, s, IntV(n));
  }

  lemma FailMetricRuns(h: Host, code: Program, i: nat, reason: string, s: State)
    requires At(code, i, [FailMetric(reason)])
    ensures Does(h, code, i, [FailMetric(reason)], s, Go(LastMetric(s, 0, false)))
  {
    RunsOne(h, code, i, FailMetric(reason), s);
  }

  lemma ScoreTwice(s: State, n: int, p: bool)
    ensures LastMetric(LastMetric(s, n, p), n, p) == LastMetric(s, n, p)
  {
    if s.metrics != [] {
      var k := |s.metrics| - 1;
      var m := s.metrics[k].(score := n, passed := p);
      assert s.metrics[k := m][k := m] == s.metrics[k := m];
    }
  }

  lemma ScoreExprRuns(h: Host, code: Program, i: nat, e: Expr, s: State)
    requires At(code, i, Code(h.env.fpu, e) + [SetScore]) && Idle(s) && PlacedExpr(e, h) && FineHost(h)
    requires RawEval(e, h.env).Val?
    ensures Does(h, code, i, Code(h.env.fpu, e) + [SetScore], s, Go(ScoreSet(s, Count(RawEval(e, h.env).v))))
  {
    hide Run, Step, LastMetric, Code, PlacedExpr, RawEval;
    var c := Code(h.env.fpu, e);
    AtSplit(code, i, c, [SetScore]);
    RawExprRuns(h, code, i, e, s);
    var v := RawEval(e, h.env).v;
    RunsOne(h, code, i + |c|, SetScore, s.(stk := [v]));
    SetScoreStep(h, s, v);
  }

  /** The first of an action's arguments has its slots, its place and its value. */
  lemma FirstArgument(a: Action, h: Host)
    requires PlacedAction(a, h) && a.args != [] && RawEvalAll(a.args, h.env).Vals?
    ensures PlacedExpr(a.args[0], h) && RawEval(a.args[0], h.env).Val?
  {
  }

  lemma ScoreRuns(h: Host, code: Program, i: nat, a: Action, fallback: int32, s: State)
    requires At(code, i, CodeScore(h.env.fpu, a, fallback)) && Idle(s) && PlacedAction(a, h) && FineHost(h)
    requires RawEvalAll(a.args, h.env).Vals?
    ensures Does(h, code, i, CodeScore(h.env.fpu, a, fallback), s, Go(ScoreSet(s, RawScoreOf(a, fallback, h.env))))
  {
    hide Run, LastMetric, PlacedAction, PlacedExpr, RawEval, RawEvalAll, Code;
    if a.name == "score" && a.args != [] {
      FirstArgument(a, h);
      ScoreExprRuns(h, code, i, a.args[0], s);
    } else if a.name == "fail_metric" {
      FailRuns(h, code, i, a, fallback, s);
    } else {
      LiteralScoreRuns(h, code, i, fallback, s);
    }
  }

  lemma FailRuns(h: Host, code: Program, i: nat, a: Action, fallback: int32, s: State)
    requires a.name == "fail_metric"
    requires At(code, i, CodeScore(h.env.fpu, a, fallback)) && Idle(s) && FineHost(h)
    ensures Does(h, code, i, CodeScore(h.env.fpu, a, fallback), s, Go(ScoreSet(s, 0)))
  {
    hide Run, LastMetric;
    var reason := CodeScore(h.env.fpu, a, fallback)[2..];
    assert CodeScore(h.env.fpu, a, fallback) == [PushLit(IntV(0)), SetScore] + reason;
    AtSplit(code, i, [PushLit(IntV(0)), SetScore], reason);
    LiteralScoreRuns(h, code, i, 0, s);
    if reason != [] {
      FailMetricRuns(h, code, i + 2, a.args[1].lit.s, LastMetric(s, 0, false));
      ScoreTwice(s, 0, false);
    }
  }

  /** The machine after an action of the metric last opened. */
  function Acted(h: Host, s: State, a: Action, fallback: int32): Effect {
    match RawEvalAll(a.args, h.env)
    case Vals(_) => Go(ScoreSet(Trigger(h.env, s, a.name), RawScoreOf(a, fallback, h.env)))
    case SeqErr(st) => Broken(s, st)
  }

  lemma DoRuns(h: Host, code: Program, i: nat, a: Action, fallback: int32, s: State)
    requires At(code, i, CodeDo(h.env.fpu, a, fallback)) && Idle(s) && PlacedAction(a, h) && FineHost(h)
    ensures Does(h, code, i, CodeDo(h.env.fpu, a, fallback), s, Acted(h, s, a, fallback))
  {
    hide Run, PlacedAction, RawEvalAll, CodeAction, CodeScore, RawScoreOf, ScoreSet;
    AtSplit(code, i, CodeAction(h.env.fpu, a), CodeScore(h.env.fpu, a, fallback));
    RawActionRuns(h, code, i, a, s);
    if RawEvalAll(a.args, h.env).Vals? {
      StaysIdle(h, s, a.name);
      ScoreRuns(h, code, i + |CodeAction(h.env.fpu, a)|, a, fallback, Trigger(h.env, s, a.name));
    }
  }

  // ----- cases -----

  /** What the code of a metric's cases and default does after METRIC_START. */
  function CasesEffect(h: Host, cs: seq<Case>, weight: int32, otherwise: Action, s: State): Effect {
    match RawSelect(cs, h.env)
    case SelectionErr(st) => Broken(s, st)
    case Chosen(k) => Acted(h, s, cs[k].action, weight)
    case NoCase => Acted(h, s, otherwise, 0)
  }

  lemma CaseAt(fpu: Fpu, code: Program, i: nat, c: Case, weight: int32, after: nat)
    requires At(code, i, CodeCase(fpu, c, weight, after))
    ensures
      var n, a := |Code(fpu, c.cond)|, |CodeDo(fpu, c.action, weight)|;
      && At(code, i, Code(fpu, c.cond)) && At(code, i + n, [JmpIfFalse(a + 3)]) && At(code, i + n + 1, [Pop])
      && At(code, i + n + 2, CodeDo(fpu, c.action, weight)) && At(code, i + n + 2 + a, [Jmp(after + 2)])
      && At(code, i + n + 3 + a, [Pop]) && |CodeCase(fpu, c, weight, after)| == n + a + 4
  {
    hide Code, CodeDo;
    var cond, act := Code(fpu, c.cond), CodeDo(fpu, c.action, weight);
    var jf, j := JmpIfFalse(|act| + 3), Jmp(after + 2);
    AtSplit(code, i, cond, [jf, Pop] + (act + [j, Pop]));
    BranchesAt(code, i + |cond|, jf, act, j);
  }

  lemma BranchesAt(code: Program, i: nat, jf: Inst<string>, act: Program, j: Inst<string>)
    requires At(code, i, [jf, Pop] + (act + [j, Pop]))
    ensures At(code, i, [jf]) && At(code, i + 1, [Pop]) && At(code, i + 2, act)
    ensures At(code, i + 2 + |act|, [j]) && At(code, i + 3 + |act|, [Pop])
  {
    hide At;
    AtSplit(code, i, [jf, Pop], act + [j, Pop]);
    AtSplit(code, i + 2, act, [j, Pop]);
    assert [jf, Pop] == [jf] + [Pop] && [j, Pop] == [j] + [Pop];
    AtSplit(code, i, [jf], [Pop]);
    AtSplit(code, i + 2 + |act|, [j], [Pop]);
  }

  lemma JumpRuns(h: Host, code: Program, i: nat, off: int, s: State)
    requires At(code, i, [Jmp(off)]) && off >= 1
    ensures Run(h, code, i, s) == Run(h, code, i + off, s)
  {
    AtOne(code, i, Jmp(off));
  }

  lemma BranchRuns(h: Host, code: Program, i: nat, off: int, v: Value, s: State)
    requires At(code, i, [JmpIfFalse(off)]) && off >= 1 && Idle(s)
    ensures Run(h, code, i, s.(stk := [v])) ==
            if Truth(v) then Run(h, code, i + 1, s) else Run(h, code, i + off, s.(stk := [v]))
  {
    hide Run, Popped, Peeked;
    RunsBranch(h, code, i, false, off, s.(stk := [v]));
    PoppedTop(s.(stk := [v]), [], v);
    assert s.(stk := [v]).(stk := []) == s;
  }

  lemma DiscardRuns(h: Host, code: Program, i: nat, v: Value, s: State)
    requires At(code, i, [Pop]) && Idle(s)
    ensures Run(h, code, i, s.(stk := [v])) == Run(h, code, i + 1, s)
    ensures Run(h, code, i, s) == Run(h, code, i + 1, s)
  {
    hide Run, Popped;
    PopRuns(h, code, i, s.(stk := [v]));
    PopRuns(h, code, i, s);
    PoppedTop(s.(stk := [v]), [], v);
    assert s.(stk := [v]).(stk := []) == s;
  }

  /** One case: with a bit set in its condition it acts and leaves the metric, without one the run
      goes on to the next. */
  lemma CaseRuns(h: Host, code: Program, i: nat, c: Case, weight: int32, after: nat, s: State)
    requires At(code, i, CodeCase(h.env.fpu, c, weight, after)) && Idle(s) && FineHost(h) && PlacedExpr(c.cond, h)
    requires var r := RawEval(c.cond, h.env); r.Val? && Truth(r.v) ==> PlacedAction(c.action, h)
    ensures
      var n, r := |CodeCase(h.env.fpu, c, weight, after)|, RawEval(c.cond, h.env);
      Run(h, code, i, s) ==
      if r.Err? then Continue(h, code, i, Broken(s, r.st))
      else if Truth(r.v) then Continue(h, code, i + n + after, Acted(h, s, c.action, weight))
      else Run(h, code, i + n, s)
  {
    hide Run, PlacedExpr, PlacedAction, CodeCase, RawEval, CodeDo, Code, Acted, Truth;
    CaseAt(h.env.fpu, code, i, c, weight, after);
    var n, a := |Code(h.env.fpu, c.cond)|, |CodeDo(h.env.fpu, c.action, weight)|;
    RawExprRuns(h, code, i, c.cond, s);
    if RawEval(c.cond, h.env).Val? {
      var v := RawEval(c.cond, h.env).v;
      BranchRuns(h, code, i + n, a + 3, v, s);
      DiscardRuns(h, code, i + n + 1, VoidV, s);
      DiscardRuns(h, code, i + n + 3 + a, v, s);
      if Truth(v) {
        DoRuns(h, code, i + n + 2, c.action, weight, s);
        var eff := Acted(h, s, c.action, weight);
        if eff.Go? { JumpRuns(h, code, i + n + 2 + a, after + 2, eff.s); }
      }
    }
  }

  lemma {:induction false} CasesRun(h: Host, code: Program, i: nat, cs: seq<Case>, weight: int32,
      otherwise: Action, s: State)
    requires At(code, i, CodeCases(h.env.fpu, cs, weight, CodeDo(h.env.fpu, otherwise, 0)))
    requires Idle(s) && FineHost(h) && PlacedCases(cs, otherwise, h)
    ensures Does(h, code, i, CodeCases(h.env.fpu, cs, weight, CodeDo(h.env.fpu, otherwise, 0)), s,
                 CasesEffect(h, cs, weight, otherwise, s))
    decreases |cs|
  {
    hide Run, PlacedExpr, PlacedAction, CodeCase, RawEval, CodeDo, Acted, Truth;
    if cs == [] {
      DoRuns(h, code, i, otherwise, 0, s);
    } else {
      var rest := CodeCases(h.env.fpu, cs[1..], weight, CodeDo(h.env.fpu, otherwise, 0));
      var first := CodeCase(h.env.fpu, cs[0], weight, |rest|);
      AtSplit(code, i, first, rest);
      CaseRuns(h, code, i, cs[0], weight, |rest|, s);
      var r := RawEval(cs[0].cond, h.env);
      if r.Val? && !Truth(r.v) {
        CasesRun(h, code, i + |first|, cs[1..], weight, otherwise, s);
      }
    }
  }

  // ----- metrics -----

  /** The machine and a tally say the same. */
  ghost predicate Matches(s: State, t: Tally) {
    s.metrics == t.metrics && s.actions == t.actions
  }

  function Begun(s: State, m: Metric): State {
    s.(metrics := s.metrics + [MetricResult(m.name, m.weight, m.critical, 0, false)])
  }

  lemma MetricStartRuns(h: Host, code: Program, i: nat, m: Metric, s: State)
    requires At(code, i, [MetricStart(m.name)])
    requires |s.metrics| < |h.infos| && h.infos[|s.metrics|] == MetricInfo(m.weight, m.critical)
    ensures Does(h, code, i, [MetricStart(m.name)], s, Go(Begun(s, m)))
  {
    RunsOne(h, code, i, MetricStart(m.name), s);
  }

  /** The effect of a metric's code matches a tally: both go on, or both fail with the actions
      triggered so far. */
  ghost predicate Tallied(eff: Effect, t: Tally) {
    && (eff.Stop? <==> t.failed) && eff.s.actions == t.actions
    && (eff.Go? ==> Idle(eff.s) && eff.s.metrics == t.metrics)
    && (eff.Stop? ==> eff.s.fault != NoFault)
  }

  lemma ActedMatches(h: Host, m: Metric, a: Action, fallback: int32, s: State, t: Tally)
    requires Idle(s) && Matches(s, t) && !t.failed
    ensures Tallied(Acted(h, Begun(s, m), a, fallback), RawScored(m, a, fallback, h.env, t))
  {
    hide RawEvalAll, RawScoreOf;
    var n := RawScoreOf(a, fallback, h.env);
    var blank := MetricResult(m.name, m.weight, m.critical, 0, false);
    var k := |s.metrics|;
    assert (s.metrics + [blank])[k := blank.(score := n, passed := n > 0)]
        == s.metrics + [MetricResult(m.name, m.weight, m.critical, n, n > 0)];
  }

  lemma MetricRuns(h: Host, code: Program, i: nat, m: Metric, s: State, t: Tally)
    requires At(code, i, CodeMetric(h.env.fpu, m)) && PlacedCases(m.cases, m.otherwise, h)
    requires Idle(s) && FineHost(h) && Matches(s, t) && !t.failed
    requires |s.metrics| < |h.infos| && h.infos[|s.metrics|] == MetricInfo(m.weight, m.critical)
    ensures exists eff :: Does(h, code, i, CodeMetric(h.env.fpu, m), s, eff)
                          && Tallied(eff, RawTallyMetric(m, h.env, t))
  {
    hide Run, PlacedCases, CodeCases, CodeDo, Acted, RawSelect, RawScored;
    var body := CodeCases(h.env.fpu, m.cases, m.weight, CodeDo(h.env.fpu, m.otherwise, 0));
    AtSplit(code, i, [MetricStart(m.name)], body);
    MetricStartRuns(h, code, i, m, s);
    CasesRun(h, code, i + 1, m.cases, m.weight, m.otherwise, Begun(s, m));
    var eff := CasesEffect(h, m.cases, m.weight, m.otherwise, Begun(s, m));
    match RawSelect(m.cases, h.env) {
      case SelectionErr(_) =>
      case Chosen(k) => ActedMatches(h, m, m.cases[k].action, m.weight, s, t);
      case NoCase => ActedMatches(h, m, m.otherwise, 0, s, t);
    }
    assert Does(h, code, i, CodeMetric(h.env.fpu, m), s, eff);
  }

  lemma {:induction false} MetricsRun(h: Host, code: Program, i: nat, ms: seq<Metric>, done: seq<Metric>,
      s: State, t: Tally)
    requires At(code, i, CodeMetrics(h.env.fpu, ms) + [RuleEnd]) && PlacedMetrics(ms, h)
    requires Idle(s) && FineHost(h) && Matches(s, t) && !t.failed
    requires h.infos == InfosOf(done + ms) && |s.metrics| == |done|
    ensures
      var t' := RawTallyMetrics(ms, h.env, t);
      var f := Run(h, code, i, s).final;
      && f.actions == t'.actions && (f.fault != NoFault <==> t'.failed) && (!t'.failed ==> f.metrics == t'.metrics)
    decreases |ms|
  {
    hide Run, CodeMetric, PlacedCases, RawTallyMetric;
    var fpu := h.env.fpu;
    if ms == [] {
      assert CodeMetrics(fpu, ms) + [RuleEnd] == [RuleEnd];
      EndRuns(h, code, i, s);
    } else {
      assert CodeMetrics(fpu, ms) + [RuleEnd] == CodeMetric(fpu, ms[0]) + (CodeMetrics(fpu, ms[1..]) + [RuleEnd]);
      AtSplit(code, i, CodeMetric(fpu, ms[0]), CodeMetrics(fpu, ms[1..]) + [RuleEnd]);
      assert (done + ms)[|done|] == ms[0];
      MetricRuns(h, code, i, ms[0], s, t);
      var t1 := RawTallyMetric(ms[0], h.env, t);
      var eff :| Does(h, code, i, CodeMetric(fpu, ms[0]), s, eff) && Tallied(eff, t1);
      if !t1.failed {
        assert done + ms == (done + [ms[0]]) + ms[1..];
        OneMore(ms[0], h.env, t);
        MetricsRun(h, code, i + |CodeMetric(fpu, ms[0])|, ms[1..], done + [ms[0]], eff.s, t1);
      }
    }
  }

  lemma OneMore(m: Metric, env: Env, t: Tally)
    requires !RawTallyMetric(m, env, t).failed
    ensures |RawTallyMetric(m, env, t).metrics| == |t.metrics| + 1
  {
  }

  lemma EndRuns(h: Host, code: Program, i: nat, s: State)
    requires At(code, i, [RuleEnd]) && Idle(s)
    ensures Run(h, code, i, s) == RunResult(s, VoidV)
  {
    AtOne(code, i, RuleEnd);
    assert s.(stk := []) == s;
  }

  /** Executing a compiled metric rule, whatever its thresholds and the types of its conditions and
      scores: each metric takes the first case with a bit set in its condition. */
  lemma RawMetricRuleRuns(rule: Rule, env: Env, slots: nat)
    requires rule.MetricRule? && rule.metrics != [] && 1 <= slots <= INT_MAX
    requires PlacedMetrics(rule.metrics, HostFor(rule, env, slots))
    ensures
      var t := RawTallyMetrics(rule.metrics, env, Tally([], [], false));
      VmExecution(rule, env, slots) ==
      Execution(if t.failed then ErrorReport
                else Conclude(t.metrics, Effective(rule.passAt, 80), Effective(rule.partialAt, 60)), t.actions)
  {
    hide Run, PlacedMetrics, CodeMetrics, RawTallyMetric, Conclude;
    var h, code := HostFor(rule, env, slots), CodeRule(env.fpu, rule);
    assert code[0..0 + |code|] == code;
    assert [] + rule.metrics == rule.metrics;
    MetricsRun(h, code, 0, rule.metrics, [], Start, Tally([], [], false));
    if !RawTallyMetrics(rule.metrics, env, Tally([], [], false)).failed {
      TallyCounts(rule.metrics, env, Tally([], [], false));
    }
  }

  lemma {:induction false} TallyCounts(ms: seq<Metric>, env: Env, t: Tally)
    requires !RawTallyMetrics(ms, env, t).failed
    ensures |RawTallyMetrics(ms, env, t).metrics| == |t.metrics| + |ms|
    decreases |ms|
  {
    hide RawTallyMetric;
    if ms != [] && !t.failed {
      var t1 := RawTallyMetric(ms[0], env, t);
      TallyCounts(ms[1..], env, t1);
      if !t1.failed { OneMore(ms[0], env, t); }
    }
  }

  // ----- simple rules -----

  /** A simple rule whose code has its slots and its place, on the path it takes: the code acts on
      every true bit pattern, not only on the BOOL true. */
  ghost predicate PlacedSimple(rule: Rule, h: Host) {
    && rule.SimpleRule? && PlacedExpr(rule.when, h)
    && (var c := RawEval(rule.when, h.env); c.Val? && Truth(c.v) ==> PlacedAction(rule.then_, h))
  }

  /** What such a rule's code does, whatever the types of its values. */
  ghost function RawSimpleResult(rule: Rule, h: Host, s: State): RunResult
    requires rule.SimpleRule?
  {
    var c := RawEval(rule.when, h.env);
    if c.Err? then RunResult(s.(fault := OpFault(c.st)), VoidV)
    else if !Truth(c.v) then RunResult(s, c.v)
    else
      match Called(h, s, rule.then_)
      case Stop(s', v) => RunResult(s', v)
      case Go(s') => RunResult(s', BoolV(true))
  }

  lemma RawSimpleRuns(h: Host, rule: Rule, s: State)
    requires PlacedSimple(rule, h) && FineHost(h) && Idle(s)
    ensures Run(h, CodeRule(h.env.fpu, rule), 0, s) == RawSimpleResult(rule, h, s)
  {
    hide Run, Code, CodeAction, PlacedExpr, PlacedAction, RawEval, RawEvalAll, Trigger, Truth;
    var fpu := h.env.fpu;
    var code, cond, act := CodeRule(fpu, rule), Code(fpu, rule.when), CodeAction(fpu, rule.then_);
    var jf, tail := JmpIfFalse(|act| + 2), [PushLit(BoolV(true)), Ret];
    assert code[0..0 + |code|] == code;
    AtSplit(code, 0, cond, [jf] + (act + tail));
    AtSplit(code, |cond|, [jf], act + tail);
    AtSplit(code, |cond| + 1, act, tail);
    RawExprRuns(h, code, 0, rule.when, s);
    var c := RawEval(rule.when, h.env);
    if c.Val? {
      BranchRuns(h, code, |cond|, |act| + 2, c.v, s);
      if !Truth(c.v) {
        ReturnRuns(h, code, |cond| + 1 + |act|, c.v, s);
      } else {
        RawActionRuns(h, code, |cond| + 1, rule.then_, s);
        StaysIdle(h, s, rule.then_.name);
        ReturnRuns(h, code, |cond| + 1 + |act|, c.v, Trigger(h.env, s, rule.then_.name));
      }
    }
  }

  /** The end of a simple rule: entered at its push with an empty stack, or at its return with
      the condition's value. */
  lemma ReturnRuns(h: Host, code: Program, i: nat, v: Value, s: State)
    requires At(code, i, [PushLit(BoolV(true)), Ret]) && Idle(s) && FineHost(h)
    ensures Run(h, code, i + 1, s.(stk := [v])) == RunResult(s, v)
    ensures Run(h, code, i, s) == RunResult(s, BoolV(true))
  {
    hide Step;
    var tail: Program := [PushLit(BoolV(true)), Ret];
    assert tail == [PushLit(BoolV(true))] + [Ret];
    AtSplit(code, i, [PushLit(BoolV(true))], [Ret]);
    RunsOne(h, code, i, PushLit(BoolV(true)), s);
    PushEffect(h, s, BoolV(true));
    assert Pushed(s, BoolV(true)) == s.(stk := [BoolV(true)]);
    RetRuns(h, code, i + 1, v, s);
    RetRuns(h, code, i + 1, BoolV(true), s);
  }

  lemma RetRuns(h: Host, code: Program, i: nat, v: Value, s: State)
    requires At(code, i, [Ret]) && Idle(s)
    ensures Run(h, code, i, s.(stk := [v])) == RunResult(s, v)
  {
    AtOne(code, i, Ret);
    PoppedTop(s.(stk := [v]), [], v);
    assert s.(stk := [v]).(stk := []) == s;
  }

  /** Executing a compiled simple rule. */
  function RawSimpleExecution(rule: Rule, env: Env): Execution
    requires rule.SimpleRule?
  {
    var c := RawEval(rule.when, env);
    if c.Err? then Execution(ErrorReport, [])
    else if !Truth(c.v) then Execution(if c.v.BoolV? then SimpleReport(rule.name, false) else ErrorReport, [])
    else if RawEvalAll(rule.then_.args, env).SeqErr? then Execution(ErrorReport, [])
    else Execution(SimpleReport(rule.name, true), Noted([], rule.then_.name, env))
  }

  lemma RawSimpleRuleRuns(rule: Rule, env: Env, slots: nat)
    requires PlacedSimple(rule, HostFor(rule, env, slots)) && 1 <= slots <= INT_MAX
    ensures VmExecution(rule, env, slots) == RawSimpleExecution(rule, env)
  {
    hide Run, CodeRule, PlacedExpr, PlacedAction, RawEval, RawEvalAll;
    RawSimpleRuns(HostFor(rule, env, slots), rule, Start);
  }

  // ----- what the reports say -----

  /** The report of a compiled metric rule: ERROR exactly when its tally fails, otherwise its metrics
      and their verdict under the thresholds, 80 and 60 in the place of those not positive. */
  lemma CompiledReportExactly(rule: Rule, env: Env, slots: nat)
    requires rule.MetricRule? && rule.metrics != [] && 1 <= slots <= INT_MAX
    requires PlacedMetrics(rule.metrics, HostFor(rule, env, slots))
    ensures var r, t := VmExecution(rule, env, slots).report, RawTallyMetrics(rule.metrics, env, Tally([], [], false));
            && (r.status == Errored <==> t.failed)
            && (r.status != Errored ==>
                  && r.metrics == t.metrics
                  && Judged(r, if rule.passAt > 0 then rule.passAt else 80,
                               if rule.partialAt > 0 then rule.partialAt else 60))
  {
    hide VmExecution, PlacedMetrics, RawTallyMetrics, Conclude, Judged;
    RawMetricRuleRuns(rule, env, slots);
    var t := RawTallyMetrics(rule.metrics, env, Tally([], [], false));
    ConclusionIsJudged(t.metrics, Effective(rule.passAt, 80), Effective(rule.partialAt, 60));
  }

  /** The report of a compiled simple rule, in full. */
  lemma CompiledSimpleReportExactly(rule: Rule, env: Env, slots: nat)
    requires PlacedSimple(rule, HostFor(rule, env, slots)) && 1 <= slots <= INT_MAX
    ensures var c, x := RawEval(rule.when, env), VmExecution(rule, env, slots);
            if c.Val? && Truth(c.v) && RawEvalAll(rule.then_.args, env).Vals? then
              && x.report == Report(Failed, [MetricResult(rule.name, 100, false, 0, false)], 100, 0)
              && x.actions == (if rule.then_.name in env.callbacks then [rule.then_.name] else [])
            else if c == Val(BoolV(false)) then
              x.report == Report(Passed, [MetricResult(rule.name, 100, false, 100, true)], 100, 100) && x.actions == []
            else x.report.status == Errored && x.actions == []
  {
    hide VmExecution, PlacedExpr, PlacedAction, RawEval, RawEvalAll;
    RawSimpleRuleRuns(rule, env, slots);
  }
}
