/**
 Executing a rule set, on one thread and on several (cdsl_vm_execute_ruleset, parallel_worker
 and cdsl_vm_execute_ruleset_parallel in src/vm/ruleset.c).

 The parallel run is a protocol: the caller creates the threads, and it and every thread that
 starts claim rule indices by an atomic fetch-add until none is left; the caller then joins the
 threads and adds everything up. A run is any sequence of events, in any interleaving, with any
 threads failing to start. Executing a rule is a function of the rule.
 */
module Parallel {
  import opened Values
  import opened Ast
  import R = Reports

  // ----- the batch report -----

  datatype Batch = Batch(passed: nat, partially: nat, failed: nat, errors: nat, score: int, max: int)

  function Count(rs: seq<Option<Report>>, st: RuleStatus): nat {
    if rs == [] then 0
    else Count(rs[..|rs| - 1], st) + (if rs[|rs| - 1].Some? && rs[|rs| - 1].value.status == st then 1 else 0)
  }

  function ScoreSum(rs: seq<Option<Report>>): int {
    if rs == [] then 0
    else ScoreSum(rs[..|rs| - 1]) + (if rs[|rs| - 1].Some? then rs[|rs| - 1].value.totalObtained else 0)
  }

  function MaxSum(rs: seq<Option<Report>>): int {
    if rs == [] then 0
    else MaxSum(rs[..|rs| - 1]) + (if rs[|rs| - 1].Some? then rs[|rs| - 1].value.totalMax else 0)
  }

  function BatchOf(rs: seq<Option<Report>>): Batch {
    Batch(Count(rs, Passed), Count(rs, PartiallyPassed), Count(rs, Failed), Count(rs, Errored),
          ScoreSum(rs), MaxSum(rs))
  }

  /** Adding one report to the running totals. */
  method AddReport(b: Batch, r: Report, ghost rs: seq<Option<Report>>) returns (b': Batch)
    requires b == BatchOf(rs)
    ensures b' == BatchOf(rs + [Some(r)])
    ensures b'.passed == b.passed + (if r.status == Passed then 1 else 0)
    ensures b'.partially == b.partially + (if r.status == PartiallyPassed then 1 else 0)
    ensures b'.failed == b.failed + (if r.status == Failed then 1 else 0)
    ensures b'.errors == b.errors + (if r.status == Errored then 1 else 0)
    ensures b'.score == b.score + r.totalObtained && b'.max == b.max + r.totalMax
  {
    assert (rs + [Some(r)])[..|rs|] == rs;
    b' := b.(score := b.score + r.totalObtained, max := b.max + r.totalMax);
    match r.status {
      case Passed => b' := b'.(passed := b'.passed + 1);
      case PartiallyPassed => b' := b'.(partially := b'.partially + 1);
      case Failed => b' := b'.(failed := b'.failed + 1);
      case Errored => b' := b'.(errors := b'.errors + 1);
    }
  }

  /** The final loop over the slots of a parallel run. */
  method Aggregate(slots: seq<Option<Report>>) returns (b: Batch)
    ensures b == BatchOf(slots)
    ensures forall rs: seq<Report> :: slots == Present(rs) ==> Tallies(b, rs)
  {
    b := Batch(0, 0, 0, 0, 0, 0);
    var i := 0;
    while i < |slots|
      invariant i <= |slots| && b == BatchOf(slots[..i])
    {
      assert slots[..i + 1] == slots[..i] + [slots[i]];
      assert slots[..i + 1][..i] == slots[..i];
      if slots[i].Some? { b := AddReport(b, slots[i].value, slots[..i]); }
      i := i + 1;
    }
    assert slots[..i] == slots;
    forall rs: seq<Report> | slots == Present(rs) ensures Tallies(b, rs) { BatchTallies(rs); }
  }

  /** The rules' reports in order. */
  function Reports(rules: seq<Rule>, exec: Rule -> Report): (r: seq<Option<Report>>)
    ensures |r| == |rules| && forall i :: 0 <= i < |rules| ==> r[i] == Some(exec(rules[i]))
  {
    seq(|rules|, i requires 0 <= i < |rules| => Some(exec(rules[i])))
  }

  /** The four tallies account for every rule. */
  lemma {:induction false} TalliesAddUp(rs: seq<Option<Report>>)
    requires forall i :: 0 <= i < |rs| ==> rs[i].Some?
    ensures var b := BatchOf(rs); b.passed + b.partially + b.failed + b.errors == |rs|
  {
    if rs != [] {
      TalliesAddUp(rs[..|rs| - 1]);
      assert rs[|rs| - 1].Some?;
    }
  }

  // ----- what the tallies count -----

  /** The rules that ended that way. */
  function Having(rs: seq<Report>, st: RuleStatus): set<nat> {
    set k: nat | k < |rs| && rs[k].status == st
  }

  /** Each tally is the number of rules of its status, and each sum adds up its own field. */
  ghost predicate Tallies(b: Batch, rs: seq<Report>) {
    && b.passed == |Having(rs, Passed)| && b.partially == |Having(rs, PartiallyPassed)|
    && b.failed == |Having(rs, Failed)| && b.errors == |Having(rs, Errored)|
    && b.score == R.Sum(seq(|rs|, k requires 0 <= k < |rs| => rs[k].totalObtained))
    && b.max == R.Sum(seq(|rs|, k requires 0 <= k < |rs| => rs[k].totalMax))
  }

  /** The reports of the rules themselves. */
  function Outcomes(rules: seq<Rule>, exec: Rule -> Report): (r: seq<Report>)
    ensures |r| == |rules| && forall i :: 0 <= i < |rules| ==> r[i] == exec(rules[i])
  {
    seq(|rules|, i requires 0 <= i < |rules| => exec(rules[i]))
  }

  function Present(rs: seq<Report>): (r: seq<Option<Report>>)
    ensures |r| == |rs| && forall i :: 0 <= i < |rs| ==> r[i] == Some(rs[i])
  {
    seq(|rs|, i requires 0 <= i < |rs| => Some(rs[i]))
  }

  lemma CountIsHaving(rs: seq<Report>, st: RuleStatus)
    requires rs != []
    ensures |Having(rs, st)| == |Having(rs[..|rs| - 1], st)| + (if rs[|rs| - 1].status == st then 1 else 0)
  {
    var n := |rs| - 1;
    var before := Having(rs[..n], st);
    if rs[n].status == st {
      assert Having(rs, st) == before + {n} && n !in before;
    } else {
      assert Having(rs, st) == before;
    }
  }

  lemma {:induction false} BatchTallies(rs: seq<Report>)
    ensures Tallies(BatchOf(Present(rs)), rs)
    decreases |rs|
  {
    if rs == [] {
      assert forall st :: Having(rs, st) == {};
    } else {
      var n := |rs| - 1;
      BatchTallies(rs[..n]);
      assert Present(rs)[..n] == Present(rs[..n]);
      forall st ensures |Having(rs, st)| == |Having(rs[..n], st)| + (if rs[n].status == st then 1 else 0) {
        CountIsHaving(rs, st);
      }
      var obtained := seq(n, k requires 0 <= k < n => rs[..n][k].totalObtained);
      var max := seq(n, k requires 0 <= k < n => rs[..n][k].totalMax);
      assert seq(|rs|, k requires 0 <= k < |rs| => rs[k].totalObtained) == obtained + [rs[n].totalObtained];
      assert seq(|rs|, k requires 0 <= k < |rs| => rs[k].totalMax) == max + [rs[n].totalMax];
      R.SumSnoc(obtained, rs[n].totalObtained);
      R.SumSnoc(max, rs[n].totalMax);
    }
  }

  lemma ReportsTally(rules: seq<Rule>, exec: Rule -> Report)
    ensures Tallies(BatchOf(Reports(rules, exec)), Outcomes(rules, exec))
  {
    BatchTallies(Outcomes(rules, exec));
    assert Present(Outcomes(rules, exec)) == Reports(rules, exec);
  }

  /** cdsl_vm_execute_ruleset. */
  method ExecuteSequentially(rules: seq<Rule>, exec: Rule -> Report, ranBefore: nat)
    returns (slots: seq<Option<Report>>, b: Batch, ran: nat)
    ensures slots == Reports(rules, exec) && b == BatchOf(Reports(rules, exec)) && ran == ranBefore + |rules|
    ensures Tallies(b, Outcomes(rules, exec))
  {
    ReportsTally(rules, exec);
    hide Tallies, Outcomes;
    slots, b, ran := [], Batch(0, 0, 0, 0, 0, 0), ranBefore;
    var i := 0;
    while i < |rules|
      invariant i <= |rules| == |Reports(rules, exec)| && slots == Reports(rules, exec)[..i]
      invariant b == BatchOf(slots) && ran == ranBefore + i
    {
      var r := exec(rules[i]);
      ran := ran + 1;
      b := AddReport(b, r, slots);
      slots := slots + [Some(r)];
      i := i + 1;
    }
  }

  // ----- the protocol -----

  datatype Job = Job(rules: seq<Rule>, exec: Rule -> Report, threadCount: int, ranBefore: nat)

  /** The parallel path is taken. */
  predicate Concurrent(job: Job) {
    job.threadCount > 1 && |job.rules| > 1
  }

  function ThreadsOf(job: Job): nat {
    if 0 < job.threadCount < |job.rules| then job.threadCount else |job.rules|
  }

  datatype Who = Caller | Worker(t: nat)

  datatype Phase = Creating(t: nat) | Fetching | Executing(i: nat) | Joining(t: nat) | Done

  datatype Thread = NotCreated | Starting | Claiming | Running(i: nat) | Finished

  datatype Claim = Claim(who: Who, index: nat)

  /** `log` and `executed` are history: the claims in order, and how often each rule ran. */
  datatype State = State(
    phase: Phase,
    threads: seq<Thread>,
    next: nat,
    slots: seq<Option<Report>>,
    callerRan: nat,
    workerRan: seq<nat>,
    batch: Batch,
    log: seq<Claim>,
    executed: multiset<nat>)

  datatype Event =
    | Create(started: bool)
    | Begin(t: nat, ready: bool)
    | Fetch(who: Who)
    | Finish(who: Who)
    | Join
    | AddUp

  function Init(job: Job): State {
    State(Creating(0), seq(ThreadsOf(job), _ => NotCreated), 0, seq(|job.rules|, _ => None), job.ranBefore,
          seq(ThreadsOf(job), _ => 0), Batch(0, 0, 0, 0, 0, 0), [], multiset{})
  }

  predicate Wants(s: State, who: Who) {
    match who
    case Caller => s.phase.Fetching?
    case Worker(t) => t < |s.threads| && s.threads[t].Claiming?
  }

  predicate Runs(s: State, who: Who, i: nat) {
    match who
    case Caller => s.phase == Executing(i)
    case Worker(t) => t < |s.threads| && s.threads[t] == Running(i)
  }

  function RunningIndex(s: State, who: Who): Option<nat> {
    match who
    case Caller => if s.phase.Executing? then Some(s.phase.i) else None
    case Worker(t) => if t < |s.threads| && s.threads[t].Running? then Some(s.threads[t].i) else None
  }

  predicate Enabled(s: State, e: Event) {
    match e
    case Create(_) => s.phase.Creating? && s.phase.t < |s.threads|
    case Begin(t, _) => t < |s.threads| && s.threads[t].Starting?
    case Fetch(who) => Wants(s, who)
    case Finish(who) => RunningIndex(s, who).Some?
    case Join => s.phase.Joining? && s.phase.t < |s.threads| && s.threads[s.phase.t] in {NotCreated, Finished}
    case AddUp => s.phase == Joining(|s.threads|)
  }

  function AfterCreate(s: State, started: bool): State
    requires Enabled(s, Create(started))
  {
    var t := s.phase.t;
    s.(threads := s.threads[t := if started then Starting else NotCreated],
       phase := if t + 1 == |s.threads| then Fetching else Creating(t + 1))
  }

  /** One atomic fetch-add: the claimed index is the old value of the shared counter. */
  function AfterFetch(s: State, who: Who): State
    requires Wants(s, who)
  {
    var i := s.next;
    var s1 := s.(next := i + 1, log := s.log + [Claim(who, i)]);
    match who
    case Caller => s1.(phase := if i >= |s.slots| then Joining(0) else Executing(i))
    case Worker(t) => s1.(threads := s.threads[t := if i >= |s.slots| then Finished else Running(i)])
  }

  /** The rule has run: its report goes into its slot and its executor's counter rises. */
  function AfterFinish(job: Job, s: State, who: Who): State
    requires RunningIndex(s, who).Some? && RunningIndex(s, who).value < |job.rules| == |s.slots|
    requires |s.workerRan| == |s.threads|
  {
    var i := RunningIndex(s, who).value;
    var s1 := s.(slots := s.slots[i := Some(job.exec(job.rules[i]))], executed := s.executed + multiset{i});
    match who
    case Caller => s1.(phase := Fetching, callerRan := s.callerRan + 1)
    case Worker(t) => s1.(threads := s.threads[t := Claiming], workerRan := s.workerRan[t := s.workerRan[t] + 1])
  }

  function Sum(ns: seq<nat>): nat {
    if ns == [] then 0 else Sum(ns[..|ns| - 1]) + ns[|ns| - 1]
  }

  /** What the created workers counted. */
  function Created(threads: seq<Thread>, ran: seq<nat>): nat
    requires |threads| == |ran|
  {
    if ran == [] then 0
    else Created(threads[..|ran| - 1], ran[..|ran| - 1])
         + (if threads[|ran| - 1].NotCreated? then 0 else ran[|ran| - 1])
  }

  ghost predicate Shaped(job: Job, s: State) {
    && |s.threads| == |s.workerRan| == ThreadsOf(job)
    && |s.slots| == |job.rules|
    && (forall who :: RunningIndex(s, who).Some? ==> RunningIndex(s, who).value < |job.rules|)
  }

  function Apply(job: Job, s: State, e: Event): State
    requires Enabled(s, e) && Shaped(job, s)
  {
    match e
    case Create(started) => AfterCreate(s, started)
    case Begin(t, ready) => s.(threads := s.threads[t := if ready then Claiming else Finished])
    case Fetch(who) => AfterFetch(s, who)
    case Finish(who) => AfterFinish(job, s, who)
    case Join => s.(phase := Joining(s.phase.t + 1))
    case AddUp => s.(phase := Done, callerRan := s.callerRan + Created(s.threads, s.workerRan),
      batch := BatchOf(s.slots))
  }

  /** The events are a possible run, in this order. */
  ghost predicate Legal(job: Job, es: seq<Event>)
    requires Concurrent(job)
    decreases |es|, 0
  {
    if es == [] then true
    else
      && Legal(job, es[..|es| - 1])
      && var s := After(job, es[..|es| - 1]); Shaped(job, s) && Enabled(s, es[|es| - 1])
  }

  ghost function After(job: Job, es: seq<Event>): State
    requires Concurrent(job) && Legal(job, es)
    decreases |es|, 1
  {
    if es == [] then Init(job) else Apply(job, After(job, es[..|es| - 1]), es[|es| - 1])
  }

  // ----- the invariant -----

  predicate Stopped(th: Thread) {
    th.NotCreated? || th.Finished?
  }

  ghost predicate Staged(job: Job, s: State) {
    && (s.phase.Creating? ==>
          s.phase.t < |s.threads| && forall j :: s.phase.t <= j < |s.threads| ==> s.threads[j].NotCreated?)
    && (s.phase.Joining? ==>
          s.phase.t <= |s.threads| && s.next >= |job.rules| && forall j :: 0 <= j < s.phase.t ==> Stopped(s.threads[j]))
    && (s.phase.Done? ==> s.next >= |job.rules| && forall j :: 0 <= j < |s.threads| ==> Stopped(s.threads[j]))
  }

  /** The fetch-add hands out each index once. */
  ghost predicate Logged(s: State) {
    |s.log| == s.next && forall k :: 0 <= k < |s.log| ==> s.log[k].index == k
  }

  /** A claimed rule has its report or is being run by its claimant; nobody runs another. */
  ghost predicate InFlight(s: State) {
    && |s.log| == s.next
    && (forall i :: 0 <= i < |s.slots| && i < s.next ==> s.slots[i].Some? || Runs(s, s.log[i].who, i))
    && (forall i :: 0 <= i < |s.slots| && i >= s.next ==> s.slots[i].None?)
    && (forall who, i: nat :: Runs(s, who, i) ==>
          i < s.next && i < |s.slots| && s.log[i].who == who && s.slots[i].None?)
  }

  ghost predicate Stored(job: Job, s: State) {
    && |s.slots| == |job.rules|
    && (forall i :: 0 <= i < |s.slots| && s.slots[i].Some? ==> s.slots[i].value == job.exec(job.rules[i]))
    && (forall i: nat :: s.executed[i] == if i < |s.slots| && s.slots[i].Some? then 1 else 0)
  }

  ghost predicate Counted(job: Job, s: State) {
    && |s.workerRan| == |s.threads|
    && (forall t :: 0 <= t < |s.threads| && s.threads[t].NotCreated? ==> s.workerRan[t] == 0)
    && (if s.phase.Done? then s.callerRan == job.ranBefore + |s.executed| && s.batch == BatchOf(s.slots)
        else s.callerRan + Sum(s.workerRan) == job.ranBefore + |s.executed|)
  }

  ghost predicate Inv(job: Job, s: State) {
    Shaped(job, s) && Staged(job, s) && Logged(s) && InFlight(s) && Stored(job, s) && Counted(job, s)
  }

  lemma StepStaged(job: Job, s: State, e: Event)
    requires Shaped(job, s) && Staged(job, s) && Enabled(s, e)
    ensures Staged(job, Apply(job, s, e))
  {
  }

  lemma StepLogged(job: Job, s: State, e: Event)
    requires Shaped(job, s) && Logged(s) && Enabled(s, e)
    ensures Logged(Apply(job, s, e))
  {
  }

  lemma FetchInFlight(s: State, who: Who)
    requires InFlight(s) && Wants(s, who)
    ensures InFlight(AfterFetch(s, who))
  {
    var s' := AfterFetch(s, who);
    forall i | 0 <= i < |s'.slots| && i < s'.next ensures s'.slots[i].Some? || Runs(s', s'.log[i].who, i) {
      if i < s.next { assert s.slots[i].Some? || Runs(s, s.log[i].who, i); }
    }
    forall w, i: nat | Runs(s', w, i)
      ensures i < s'.next && i < |s'.slots| && s'.log[i].who == w && s'.slots[i].None?
    {
      assert Runs(s, w, i) || (w == who && i == s.next);
    }
  }

  lemma FinishInFlight(job: Job, s: State, who: Who)
    requires InFlight(s) && Shaped(job, s) && RunningIndex(s, who).Some?
    ensures InFlight(AfterFinish(job, s, who))
  {
    var s' := AfterFinish(job, s, who);
    var j := RunningIndex(s, who).value;
    assert Runs(s, who, j);
    forall i | 0 <= i < |s'.slots| && i < s'.next ensures s'.slots[i].Some? || Runs(s', s'.log[i].who, i) {
      assert s.slots[i].Some? || Runs(s, s.log[i].who, i);
    }
    forall w, i: nat | Runs(s', w, i)
      ensures i < s'.next && i < |s'.slots| && s'.log[i].who == w && s'.slots[i].None?
    {
      assert Runs(s, w, i) && w != who;
    }
  }

  /** The other events neither start nor finish a rule. */
  lemma QuietInFlight(job: Job, s: State, e: Event)
    requires InFlight(s) && Shaped(job, s) && Staged(job, s) && Enabled(s, e) && !e.Fetch? && !e.Finish?
    ensures InFlight(Apply(job, s, e))
  {
    var s' := Apply(job, s, e);
    forall w, i: nat ensures Runs(s', w, i) == Runs(s, w, i) {
    }
    forall i | 0 <= i < |s'.slots| && i < s'.next ensures s'.slots[i].Some? || Runs(s', s'.log[i].who, i) {
      assert s.slots[i].Some? || Runs(s, s.log[i].who, i);
    }
  }

  lemma StepShaped(job: Job, s: State, e: Event)
    requires Shaped(job, s) && Enabled(s, e) && InFlight(Apply(job, s, e))
    ensures Shaped(job, Apply(job, s, e))
  {
    var s' := Apply(job, s, e);
    forall who | RunningIndex(s', who).Some? ensures RunningIndex(s', who).value < |job.rules| {
      assert Runs(s', who, RunningIndex(s', who).value);
    }
  }

  lemma StepStored(job: Job, s: State, e: Event)
    requires Shaped(job, s) && InFlight(s) && Stored(job, s) && Enabled(s, e)
    ensures Stored(job, Apply(job, s, e))
  {
    if e.Finish? { assert Runs(s, e.who, RunningIndex(s, e.who).value); }
  }

  lemma {:induction false} SumUpdate(ns: seq<nat>, t: nat)
    requires t < |ns|
    ensures Sum(ns[t := ns[t] + 1]) == Sum(ns) + 1
  {
    var n := |ns| - 1;
    if t < n {
      SumUpdate(ns[..n], t);
      assert ns[t := ns[t] + 1][..n] == ns[..n][t := ns[t] + 1];
    } else {
      assert ns[t := ns[t] + 1][..n] == ns[..n];
    }
  }

  lemma {:induction false} CreatedIsSum(threads: seq<Thread>, ran: seq<nat>)
    requires |threads| == |ran| && forall t :: 0 <= t < |threads| && threads[t].NotCreated? ==> ran[t] == 0
    ensures Created(threads, ran) == Sum(ran)
  {
    if ran != [] { CreatedIsSum(threads[..|ran| - 1], ran[..|ran| - 1]); }
  }

  lemma StepCounted(job: Job, s: State, e: Event)
    requires Shaped(job, s) && Staged(job, s) && Counted(job, s) && Enabled(s, e)
    ensures Counted(job, Apply(job, s, e))
  {
    hide Sum, Created, BatchOf;
    match e
    case Finish(Worker(t)) => SumUpdate(s.workerRan, t);
    case AddUp => CreatedIsSum(s.threads, s.workerRan);
    case _ =>
  }

  lemma StepKeepsInv(job: Job, s: State, e: Event)
    requires Inv(job, s) && Enabled(s, e)
    ensures Inv(job, Apply(job, s, e))
  {
    hide Staged, Logged, InFlight, Stored, Counted, Shaped, AfterFetch, AfterFinish;
    StepStaged(job, s, e);
    StepLogged(job, s, e);
    match e {
      case Fetch(who) => FetchInFlight(s, who);
      case Finish(who) => FinishInFlight(job, s, who);
      case _ => QuietInFlight(job, s, e);
    }
    StepShaped(job, s, e);
    StepStored(job, s, e);
    StepCounted(job, s, e);
  }

  lemma {:induction false} ZeroSum(n: nat)
    ensures Sum(seq(n, _ => 0)) == 0
  {
    if n > 0 {
      ZeroSum(n - 1);
      assert seq(n, _ => 0 as nat)[..n - 1] == seq(n - 1, _ => 0);
    }
  }

  /** Whatever the interleaving, every state a run reaches satisfies the invariant. */
  lemma {:induction false} EveryRunKeepsInv(job: Job, es: seq<Event>)
    requires Concurrent(job) && Legal(job, es)
    ensures Inv(job, After(job, es))
  {
    if es == [] {
      ZeroSum(ThreadsOf(job));
    } else {
      EveryRunKeepsInv(job, es[..|es| - 1]);
      StepKeepsInv(job, After(job, es[..|es| - 1]), es[|es| - 1]);
    }
  }

  // ----- what a finished run has done -----

  lemma {:induction false} OnceEach(m: multiset<nat>, n: nat)
    requires forall i: nat :: m[i] == if i < n then 1 else 0
    ensures |m| == n
  {
    if n == 0 {
      assert m == multiset{};
    } else {
      var m' := m - multiset{n - 1};
      OnceEach(m', n - 1);
      assert m == m' + multiset{n - 1};
    }
  }

  /** When a run is over each index was claimed once and each rule ran once, every slot holds its
      rule's report, the totals are those of the sequential run, and the number of rules executed
      has grown by exactly their count. */
  lemma ParallelIsSequential(job: Job, es: seq<Event>)
    requires Concurrent(job) && Legal(job, es) && After(job, es).phase.Done?
    ensures var s := After(job, es);
            && s.slots == Reports(job.rules, job.exec)
            && s.batch == BatchOf(Reports(job.rules, job.exec)) && Tallies(s.batch, Outcomes(job.rules, job.exec))
            && s.callerRan == job.ranBefore + |job.rules|
            && (forall i: nat :: i < |job.rules| ==> s.executed[i] == 1)
            && (forall k, l :: 0 <= k < l < |s.log| ==> s.log[k].index != s.log[l].index)
            && (forall i: nat :: i < |job.rules| ==> i < |s.log| && s.log[i].index == i)
  {
    EveryRunKeepsInv(job, es);
    var s := After(job, es);
    forall i: nat | i < |s.slots| ensures s.slots[i].Some? {
      assert s.slots[i].Some? || Runs(s, s.log[i].who, i);
    }
    assert s.slots == Reports(job.rules, job.exec);
    OnceEach(s.executed, |job.rules|);
    ReportsTally(job.rules, job.exec);
  }

  /** The caller makes as many threads as it is asked to, but no more than there are rules, and none
      at all when either number is below two. */
  lemma ThreadsAreCapped(job: Job)
    ensures Concurrent(job) <==> job.threadCount >= 2 && |job.rules| >= 2
    ensures Concurrent(job) ==> var n := |Init(job).threads|;
              n == job.threadCount <= |job.rules| || n == |job.rules| < job.threadCount
  {
  }

  // ----- every run ends -----

  function Work(th: Thread): nat {
    match th
    case NotCreated => 0
    case Starting => 3
    case Claiming => 2
    case Running(_) => 3
    case Finished => 0
  }

  function AllWork(ths: seq<Thread>): nat {
    if ths == [] then 0 else AllWork(ths[..|ths| - 1]) + Work(ths[|ths| - 1])
  }

  function Left(s: State): nat {
    2 * (if s.next < |s.slots| then |s.slots| - s.next else 0) + AllWork(s.threads) +
    match s.phase
    case Creating(t) => 4 * (if t < |s.threads| then |s.threads| - t else 0) + |s.threads| + 4
    case Fetching => |s.threads| + 3
    case Executing(_) => |s.threads| + 4
    case Joining(t) => (if t < |s.threads| then |s.threads| - t else 0) + 1
    case Done => 0
  }

  lemma {:induction false} WorkUpdate(ths: seq<Thread>, t: nat, th: Thread)
    requires t < |ths|
    ensures AllWork(ths[t := th]) == AllWork(ths) - Work(ths[t]) + Work(th)
  {
    var n := |ths| - 1;
    if t < n {
      WorkUpdate(ths[..n], t, th);
      assert ths[t := th][..n] == ths[..n][t := th];
    } else {
      assert ths[t := th][..n] == ths[..n];
    }
  }

  predicate ByWorker(e: Event) {
    e.Begin? || ((e.Fetch? || e.Finish?) && e.who.Worker?)
  }

  lemma WorkerUsesWork(job: Job, s: State, e: Event)
    requires Shaped(job, s) && Enabled(s, e) && ByWorker(e)
    ensures Left(Apply(job, s, e)) < Left(s)
  {
    if e.Begin? {
      WorkUpdate(s.threads, e.t, if e.ready then Claiming else Finished);
    } else if e.Fetch? {
      WorkUpdate(s.threads, e.who.t, if s.next >= |s.slots| then Finished else Running(s.next));
    } else {
      WorkUpdate(s.threads, e.who.t, Claiming);
    }
  }

  lemma CallerUsesWork(job: Job, s: State, e: Event)
    requires Shaped(job, s) && Staged(job, s) && Enabled(s, e)
    requires !ByWorker(e)
    ensures Left(Apply(job, s, e)) < Left(s)
  {
    if e.Create? { WorkUpdate(s.threads, s.phase.t, if e.started then Starting else NotCreated); }
  }

  lemma {:induction false} NoWork(n: nat)
    ensures AllWork(seq(n, _ => NotCreated)) == 0
  {
    if n > 0 {
      NoWork(n - 1);
      assert seq(n, _ => NotCreated)[..n - 1] == seq(n - 1, _ => NotCreated);
    }
  }

  /** No run has more events than this, however it interleaves. */
  lemma {:induction false} RunsAreBounded(job: Job, es: seq<Event>)
    requires Concurrent(job) && Legal(job, es)
    ensures |es| + Left(After(job, es)) <= 2 * |job.rules| + 5 * ThreadsOf(job) + 4
  {
    if es == [] {
      NoWork(ThreadsOf(job));
    } else {
      RunsAreBounded(job, es[..|es| - 1]);
      EveryRunKeepsInv(job, es[..|es| - 1]);
      var s, e := After(job, es[..|es| - 1]), es[|es| - 1];
      if ByWorker(e) {
        WorkerUsesWork(job, s, e);
      } else {
        CallerUsesWork(job, s, e);
      }
    }
  }

  /** And a run that is not over can always go on: the join never waits for a thread that has
      nothing left to do. */
  lemma NoDeadlock(job: Job, es: seq<Event>)
    requires Concurrent(job) && Legal(job, es) && !After(job, es).phase.Done?
    ensures exists e :: Legal(job, es + [e])
  {
    EveryRunKeepsInv(job, es);
    var s := After(job, es);
    var e :=
      if s.phase.Creating? then Create(true)
      else if s.phase.Fetching? then Fetch(Caller)
      else if s.phase.Executing? then Finish(Caller)
      else if s.phase.t == |s.threads| then AddUp
      else match s.threads[s.phase.t]
        case Starting => Begin(s.phase.t, true)
        case Claiming => Fetch(Worker(s.phase.t))
        case Running(_) => Finish(Worker(s.phase.t))
        case _ => Join;
    assert Enabled(s, e);
    assert (es + [e])[..|es|] == es;
    assert Legal(job, es + [e]);
  }
}
