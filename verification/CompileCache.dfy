/**
 The compile cache (cdsl_compile in src/vm/cache.c) as a protocol between concurrent calls: a
 lookup under the read lock, parsing and verifying under no lock, then recheck, insertion and
 bytecode compilation under the write lock. Each call moves one step at a time and any call may
 move next; nothing is removed from the cache meanwhile.
 */
module CompileCache {
  import opened Values

  /** The compiler front end and back end, as functions. */
  datatype World<!R(!new), !S(!new), !B(!new)> =
    World(parse: string -> Option<R>, verify: (R, S) -> bool, compile: (R, S) -> B)

  datatype Call<S> = Call(source: string, schema: S)

  datatype Stage<R> =
    | Arrived
    | Reading
    | Hit(id: nat)
    | Missed
    | Compiling
    | Waiting(rule: R)
    | Rechecking(rule: R)
    | Building(id: nat)
    | Leaving(id: nat)
    | Returned(id: nat)
    | Rejected

  /** A compiled rule; `schema` is the one its inserter passed and `code` is set last. */
  datatype Cell<R, S, B> = Cell(source: string, rule: R, schema: S, code: Option<B>)

  datatype State<R, S, B> = State(
    calls: seq<Call<S>>,
    stages: seq<Stage<R>>,
    readers: set<nat>,
    writer: Option<nat>,
    table: map<string, nat>,
    heap: seq<Cell<R, S, B>>)

  function Init<R, S, B>(calls: seq<Call<S>>): State<R, S, B> {
    State(calls, seq(|calls|, _ => Arrived), {}, None, map[], [])
  }

  /** Only acquiring a lock can block. */
  predicate Enabled<R, S, B>(s: State<R, S, B>, c: nat) {
    && c < |s.stages| == |s.calls|
    && match s.stages[c]
       case Arrived => s.writer.None?
       case Waiting(_) => s.writer.None? && s.readers == {}
       case Building(id) => id < |s.heap|
       case Returned(_) => false
       case Rejected => false
       case _ => true
  }

  predicate Accepts<R(!new), S(!new), B(!new)>(w: World<R, S, B>, call: Call<S>) {
    w.parse(call.source).Some? && w.verify(w.parse(call.source).value, call.schema)
  }

  function Step<R(!new), S(!new), B(!new)>(w: World<R, S, B>, s: State<R, S, B>, c: nat): State<R, S, B>
    requires Enabled(s, c)
  {
    var call := s.calls[c];
    match s.stages[c]
    case Arrived => s.(readers := s.readers + {c}, stages := s.stages[c := Reading])
    case Reading =>
      s.(stages := s.stages[c := if call.source in s.table then Hit(s.table[call.source]) else Missed])
    case Hit(id) => s.(readers := s.readers - {c}, stages := s.stages[c := Returned(id)])
    case Missed => s.(readers := s.readers - {c}, stages := s.stages[c := Compiling])
    case Compiling =>
      s.(stages := s.stages[c := if Accepts(w, call) then Waiting(w.parse(call.source).value) else Rejected])
    case Waiting(rule) => s.(writer := Some(c), stages := s.stages[c := Rechecking(rule)])
    case Rechecking(rule) =>
      if call.source in s.table then s.(stages := s.stages[c := Leaving(s.table[call.source])])
      else
        s.(table := s.table[call.source := |s.heap|],
           heap := s.heap + [Cell(call.source, rule, call.schema, None)],
           stages := s.stages[c := Building(|s.heap|)])
    case Building(id) =>
      var cell := s.heap[id];
      s.(heap := s.heap[id := cell.(code := Some(w.compile(cell.rule, cell.schema)))],
        stages := s.stages[c := Leaving(id)])
    case Leaving(id) => s.(writer := None, stages := s.stages[c := Returned(id)])
    case _ => s
  }

  // ----- the invariant -----

  predicate InRead<R>(st: Stage<R>) {
    st.Reading? || st.Hit? || st.Missed?
  }

  predicate InWrite<R>(st: Stage<R>) {
    st.Rechecking? || st.Building? || st.Leaving?
  }

  /** Readers hold the lock together; a writer holds it alone. */
  ghost predicate Locked<R, S, B>(s: State<R, S, B>) {
    && |s.stages| == |s.calls|
    && (forall c: nat :: c in s.readers <==> c < |s.stages| && InRead(s.stages[c]))
    && (forall c: nat :: s.writer == Some(c) <==> c < |s.stages| && InWrite(s.stages[c]))
    && (s.writer.Some? ==> s.readers == {})
  }

  /** The table finds each entry ever inserted under its own source, so no source has two. */
  ghost predicate Indexed<R, S, B>(s: State<R, S, B>) {
    && (forall src :: src in s.table ==> s.table[src] < |s.heap| && s.heap[s.table[src]].source == src)
    && (forall id :: 0 <= id < |s.heap| ==> s.heap[id].source in s.table && s.table[s.heap[id].source] == id)
  }

  /** Every entry is an accepted rule; it lacks its code only while its inserter is building it. */
  ghost predicate Built<R(!new), S(!new), B(!new)>(w: World<R, S, B>, s: State<R, S, B>) {
    forall id :: 0 <= id < |s.heap| ==>
      var cell := s.heap[id];
      && w.parse(cell.source) == Some(cell.rule) && w.verify(cell.rule, cell.schema)
      && (if cell.code.Some? then cell.code.value == w.compile(cell.rule, cell.schema)
          else exists c: nat :: c < |s.stages| && s.stages[c] == Building(id))
  }

  /** What a call holds is the finished entry of its own source; a rejected call had a bad rule. */
  ghost predicate Served<R(!new), S(!new), B(!new)>(w: World<R, S, B>, s: State<R, S, B>) {
    && |s.stages| == |s.calls|
    && forall c: nat :: c < |s.stages| ==> CallServed(w, s, c)
  }

  ghost predicate CallServed<R(!new), S(!new), B(!new)>(w: World<R, S, B>, s: State<R, S, B>, c: nat)
    requires c < |s.stages| == |s.calls|
  {
    var call := s.calls[c];
    match s.stages[c]
    case Hit(id) => Finished(s, call.source, id)
    case Leaving(id) => Finished(s, call.source, id)
    case Returned(id) => Finished(s, call.source, id)
    case Building(id) => id < |s.heap| && s.heap[id].source == call.source && s.heap[id].code.None?
    case Waiting(rule) => Accepts(w, call) && rule == w.parse(call.source).value
    case Rechecking(rule) => Accepts(w, call) && rule == w.parse(call.source).value
    case Rejected => !Accepts(w, call)
    case _ => true
  }

  ghost predicate Finished<R, S, B>(s: State<R, S, B>, source: string, id: nat) {
    id < |s.heap| && s.heap[id].source == source && s.heap[id].code.Some?
  }

  ghost predicate Inv<R(!new), S(!new), B(!new)>(w: World<R, S, B>, s: State<R, S, B>) {
    Locked(s) && Indexed(s) && Built(w, s) && Served(w, s)
  }

  lemma StepLocked<R(!new), S(!new), B(!new)>(w: World<R, S, B>, s: State<R, S, B>, c: nat)
    requires Inv(w, s) && Enabled(s, c)
    ensures Locked(Step(w, s, c))
  {
    hide Indexed, Built, Accepts;
    assert CallServed(w, s, c);
  }

  /** The sources an entry and the table go by. */
  ghost predicate SameSources<R, S, B>(s: State<R, S, B>, s': State<R, S, B>) {
    s'.table == s.table && |s'.heap| == |s.heap|
      && forall id :: 0 <= id < |s.heap| ==> s'.heap[id].source == s.heap[id].source
  }

  lemma InsertIndexed<R, S, B>(s: State<R, S, B>, s': State<R, S, B>, cell: Cell<R, S, B>)
    requires Indexed(s) && cell.source !in s.table
    requires s'.table == s.table[cell.source := |s.heap|] && s'.heap == s.heap + [cell]
    ensures Indexed(s')
  {
  }

  lemma StepIndexed<R(!new), S(!new), B(!new)>(w: World<R, S, B>, s: State<R, S, B>, c: nat)
    requires Inv(w, s) && Enabled(s, c)
    ensures Indexed(Step(w, s, c))
  {
    hide Locked, Built, Served, Accepts, Indexed;
    var s' := Step(w, s, c);
    if s.stages[c].Rechecking? && s.calls[c].source !in s.table {
      InsertIndexed(s, s', s'.heap[|s.heap|]);
    } else {
      assert SameSources(s, s');
      SameIndexed(s, s');
    }
  }

  lemma SameIndexed<R, S, B>(s: State<R, S, B>, s': State<R, S, B>)
    requires Indexed(s) && SameSources(s, s')
    ensures Indexed(s')
  {
  }

  lemma StepBuilt<R(!new), S(!new), B(!new)>(w: World<R, S, B>, s: State<R, S, B>, c: nat)
    requires Inv(w, s) && Enabled(s, c)
    ensures Built(w, Step(w, s, c))
  {
    hide Locked, Indexed, Served;
    assert CallServed(w, s, c) by { ServedAt(w, s, c); }
    var s' := Step(w, s, c);
    forall id | 0 <= id < |s'.heap|
      ensures var cell := s'.heap[id];
        && w.parse(cell.source) == Some(cell.rule) && w.verify(cell.rule, cell.schema)
        && (if cell.code.Some? then cell.code.value == w.compile(cell.rule, cell.schema)
            else exists c: nat :: c < |s'.stages| && s'.stages[c] == Building(id))
    {
      if id < |s.heap| {
        if s.heap[id].code.None? {
          var b: nat :| b < |s.stages| && s.stages[b] == Building(id);
          if b != c { assert s'.stages[b] == Building(id); }
        }
      } else {
        assert s'.stages[c] == Building(id);
      }
    }
  }

  lemma ServedAt<R(!new), S(!new), B(!new)>(w: World<R, S, B>, s: State<R, S, B>, c: nat)
    requires Served(w, s) && c < |s.stages|
    ensures CallServed(w, s, c)
  {
  }

  /** An entry found in the table under either lock is finished: an unfinished one would have a
      builder, which would be the one writer. */
  lemma FoundIsFinished<R(!new), S(!new), B(!new)>(w: World<R, S, B>, s: State<R, S, B>, c: nat)
    requires Inv(w, s) && c < |s.stages| && (s.stages[c].Reading? || s.stages[c].Rechecking?)
    requires s.calls[c].source in s.table
    ensures Finished(s, s.calls[c].source, s.table[s.calls[c].source])
  {
    if s.stages[c].Reading? { assert c in s.readers; } else { assert s.writer == Some(c); }
  }

  lemma SelfServed<R(!new), S(!new), B(!new)>(w: World<R, S, B>, s: State<R, S, B>, c: nat)
    requires Inv(w, s) && Enabled(s, c)
    ensures CallServed(w, Step(w, s, c), c)
  {
    ServedAt(w, s, c);
    if (s.stages[c].Reading? || s.stages[c].Rechecking?) && s.calls[c].source in s.table {
      FoundIsFinished(w, s, c);
    }
  }

  lemma OthersServed<R(!new), S(!new), B(!new)>(w: World<R, S, B>, s: State<R, S, B>, c: nat, a: nat)
    requires Inv(w, s) && Enabled(s, c) && a < |s.stages| && a != c
    ensures CallServed(w, Step(w, s, c), a)
  {
    ServedAt(w, s, a);
    ServedAt(w, s, c);
    assert InWrite(s.stages[c]) ==> s.writer == Some(c);
  }

  lemma StepKeepsInv<R(!new), S(!new), B(!new)>(w: World<R, S, B>, s: State<R, S, B>, c: nat)
    requires Inv(w, s) && Enabled(s, c)
    ensures Inv(w, Step(w, s, c))
  {
    StepLocked(w, s, c);
    StepIndexed(w, s, c);
    StepBuilt(w, s, c);
    var s' := Step(w, s, c);
    forall a: nat | a < |s'.stages| ensures CallServed(w, s', a) {
      if a == c { SelfServed(w, s, c); } else { OthersServed(w, s, c, a); }
    }
  }

  // ----- runs -----

  ghost predicate Legal<R(!new), S(!new), B(!new)>(w: World<R, S, B>, calls: seq<Call<S>>, run: seq<nat>)
    decreases |run|, 0
  {
    run == [] || (Legal(w, calls, run[..|run| - 1]) && Enabled(After(w, calls, run[..|run| - 1]), run[|run| - 1]))
  }

  ghost function After<R(!new), S(!new), B(!new)>(w: World<R, S, B>, calls: seq<Call<S>>, run: seq<nat>): State<R, S, B>
    requires Legal(w, calls, run)
    decreases |run|, 1
  {
    if run == [] then Init(calls) else Step(w, After(w, calls, run[..|run| - 1]), run[|run| - 1])
  }

  lemma {:induction false} EveryRunKeepsInv<R(!new), S(!new), B(!new)>(
      w: World<R, S, B>, calls: seq<Call<S>>, run: seq<nat>)
    requires Legal(w, calls, run)
    ensures Inv(w, After(w, calls, run)) && After(w, calls, run).calls == calls
  {
    if run != [] {
      EveryRunKeepsInv(w, calls, run[..|run| - 1]);
      StepKeepsInv(w, After(w, calls, run[..|run| - 1]), run[|run| - 1]);
    }
  }

  /** In every interleaving: at most one entry per source is ever inserted, calls on the same
      source that return an entry return the same one, that entry is an accepted rule of the
      source with its code built, and only a call whose rule is not accepted returns without. */
  lemma OneEntryPerSource<R(!new), S(!new), B(!new)>(
      w: World<R, S, B>, calls: seq<Call<S>>, run: seq<nat>, a: nat, b: nat)
    requires Legal(w, calls, run) && a < |calls| && b < |calls| && calls[a].source == calls[b].source
    ensures var s := After(w, calls, run);
            && |s.stages| == |calls|
            && (forall i, j | 0 <= i < |s.heap| && 0 <= j < |s.heap| ::
                  s.heap[i].source == s.heap[j].source ==> i == j)
            && (s.stages[a].Returned? && s.stages[b].Returned? ==> s.stages[a].id == s.stages[b].id)
            && (s.stages[a].Returned? ==>
                  && s.stages[a].id < |s.heap|
                  && var cell := s.heap[s.stages[a].id];
                  && cell.source == calls[a].source && w.parse(cell.source) == Some(cell.rule)
                  && w.verify(cell.rule, cell.schema) && cell.code == Some(w.compile(cell.rule, cell.schema)))
            && (s.stages[a].Rejected? ==>
                  var rule := w.parse(calls[a].source);
                  rule.None? || !w.verify(rule.value, calls[a].schema))
  {
    EveryRunKeepsInv(w, calls, run);
    var s := After(w, calls, run);
    ServedAt(w, s, a);
    ServedAt(w, s, b);
  }

  /** A finished entry never changes again. */
  lemma FinishedIsFinal<R(!new), S(!new), B(!new)>(w: World<R, S, B>, s: State<R, S, B>, c: nat, id: nat)
    requires Inv(w, s) && Enabled(s, c) && id < |s.heap| && s.heap[id].code.Some?
    ensures id < |Step(w, s, c).heap| && Step(w, s, c).heap[id] == s.heap[id]
  {
    ServedAt(w, s, c);
  }

  /** While a call is under way, some call can move. */
  lemma NoDeadlock<R(!new), S(!new), B(!new)>(w: World<R, S, B>, calls: seq<Call<S>>, run: seq<nat>, c: nat)
    requires Legal(w, calls, run)
    requires c < |After(w, calls, run).stages|
    requires !After(w, calls, run).stages[c].Returned? && !After(w, calls, run).stages[c].Rejected?
    ensures exists d :: Legal(w, calls, run + [d])
  {
    EveryRunKeepsInv(w, calls, run);
    var s := After(w, calls, run);
    var d: nat := c;
    if s.writer.Some? {
      d := s.writer.value;
    } else if s.readers != {} {
      d :| d in s.readers;
    }
    ServedAt(w, s, d);
    assert Enabled(s, d);
    assert (run + [d])[..|run|] == run;
    assert Legal(w, calls, run + [d]);
  }

  // ----- every run ends -----

  function Rank<R>(st: Stage<R>): nat {
    match st
    case Arrived => 8
    case Reading => 7
    case Missed => 6
    case Compiling => 5
    case Waiting(_) => 4
    case Rechecking(_) => 3
    case Building(_) => 2
    case Hit(_) => 1
    case Leaving(_) => 1
    case Returned(_) => 0
    case Rejected => 0
  }

  function Ranks<R>(sts: seq<Stage<R>>): nat {
    if sts == [] then 0 else Ranks(sts[..|sts| - 1]) + Rank(sts[|sts| - 1])
  }

  lemma {:induction false} RanksUpdate<R>(sts: seq<Stage<R>>, c: nat, st: Stage<R>)
    requires c < |sts|
    ensures Ranks(sts[c := st]) == Ranks(sts) - Rank(sts[c]) + Rank(st)
  {
    var n := |sts| - 1;
    if c < n {
      RanksUpdate(sts[..n], c, st);
      assert sts[c := st][..n] == sts[..n][c := st];
    } else {
      assert sts[c := st][..n] == sts[..n];
    }
  }

  lemma {:induction false} RanksAtStart<R>(sts: seq<Stage<R>>)
    requires forall c :: 0 <= c < |sts| ==> sts[c] == Arrived
    ensures Ranks(sts) == 8 * |sts|
  {
    if sts != [] { RanksAtStart(sts[..|sts| - 1]); }
  }

  lemma StepLowersRanks<R(!new), S(!new), B(!new)>(w: World<R, S, B>, s: State<R, S, B>, c: nat)
    requires Enabled(s, c)
    ensures Ranks(Step(w, s, c).stages) < Ranks(s.stages)
  {
    var s' := Step(w, s, c);
    assert s'.stages == s.stages[c := s'.stages[c]];
    RanksUpdate(s.stages, c, s'.stages[c]);
  }

  /** No interleaving of the calls has more than eight steps a call. */
  lemma {:induction false} RunsAreBounded<R(!new), S(!new), B(!new)>(
      w: World<R, S, B>, calls: seq<Call<S>>, run: seq<nat>)
    requires Legal(w, calls, run)
    ensures |run| + Ranks(After(w, calls, run).stages) <= 8 * |calls|
  {
    if run == [] {
      RanksAtStart(After(w, calls, run).stages);
    } else {
      RunsAreBounded(w, calls, run[..|run| - 1]);
      StepLowersRanks(w, After(w, calls, run[..|run| - 1]), run[|run| - 1]);
    }
  }
}
