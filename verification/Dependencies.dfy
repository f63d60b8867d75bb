/**
 Dependencies between the rules of a set (src/vm/ruleset.c): their validation and the
 topological sort.

 An entry's dependencies are the list its `depends_on` text splits into. In the source the
 recursive walks split with strtok, whose one static cursor a nested walk moves; what is proved
 here is about the split each call means to make.
 */
module Dependencies {
  import opened Values
  import opened Ast

  datatype Entry = Entry(rule: Rule, deps: seq<string>, priority: int) {
    const name: string := rule.name
  }

  // ----- the dependency graph -----

  /** The first entry of that name. */
  function Find(es: seq<Entry>, name: string): (r: Option<nat>)
    ensures r.Some? ==> r.value < |es| && es[r.value].name == name
                        && forall j :: 0 <= j < r.value ==> es[j].name != name
    ensures r.None? ==> forall j :: 0 <= j < |es| ==> es[j].name != name
  {
    if es == [] then None
    else if es[0].name == name then Some(0)
    else match Find(es[1..], name)
      case None => None
      case Some(k) => Some(k + 1)
  }

  predicate DependsOn(es: seq<Entry>, i: nat, j: nat)
    requires i < |es|
  {
    exists k :: 0 <= k < |es[i].deps| && Find(es, es[i].deps[k]) == Some(j)
  }

  predicate DepsExist(es: seq<Entry>) {
    forall i, k :: 0 <= i < |es| && 0 <= k < |es[i].deps| ==> Find(es, es[i].deps[k]).Some?
  }

  ghost predicate IsPath(es: seq<Entry>, p: seq<nat>) {
    && (forall k :: 0 <= k < |p| ==> p[k] < |es|)
    && (forall k :: 0 <= k < |p| - 1 ==> DependsOn(es, p[k], p[k + 1]))
  }

  ghost predicate IsCycle(es: seq<Entry>, p: seq<nat>) {
    IsPath(es, p) && |p| >= 2 && p[0] == p[|p| - 1]
  }

  ghost predicate Acyclic(es: seq<Entry>) {
    !exists p :: IsCycle(es, p)
  }

  predicate DistinctNats(s: seq<nat>) {
    forall i, j :: 0 <= i < j < |s| ==> s[i] != s[j]
  }

  /** Every listed entry comes after all its dependencies, which exist. */
  ghost predicate Settled(es: seq<Entry>, order: seq<nat>) {
    && DistinctNats(order)
    && (forall p :: 0 <= p < |order| ==> order[p] < |es|)
    && (forall p, k :: 0 <= p < |order| && 0 <= k < |es[order[p]].deps| ==> Placed(es, order, p, k))
  }

  ghost predicate Placed(es: seq<Entry>, order: seq<nat>, p: nat, k: nat)
    requires p < |order| && order[p] < |es| && k < |es[order[p]].deps|
  {
    var d := Find(es, es[order[p]].deps[k]);
    d.Some? && d.value in order[..p]
  }

  lemma SettledSnoc(es: seq<Entry>, order: seq<nat>, i: nat)
    requires Settled(es, order) && i < |es| && i !in order
    requires forall k :: 0 <= k < |es[i].deps| ==>
               Find(es, es[i].deps[k]).Some? && Find(es, es[i].deps[k]).value in order
    ensures Settled(es, order + [i])
  {
    var o := order + [i];
    forall p, k | 0 <= p < |o| && 0 <= k < |es[o[p]].deps| ensures Placed(es, o, p, k) {
      if p < |order| {
        assert Placed(es, order, p, k) && o[..p] == order[..p];
      } else {
        assert o[..p] == order;
      }
    }
  }

  /** Along a path that starts at position a of a settled order, positions fall by one or more
      at each step. */
  lemma {:induction false} PathsDescend(es: seq<Entry>, order: seq<nat>, p: seq<nat>, a: nat) returns (b: nat)
    requires Settled(es, order) && IsPath(es, p) && p != [] && a < |order| && order[a] == p[0]
    ensures b <= a && b + |p| - 1 <= a && order[b] == p[|p| - 1]
    decreases |p|
  {
    if |p| == 1 {
      b := a;
    } else {
      assert DependsOn(es, p[0], p[1]);
      var k :| 0 <= k < |es[p[0]].deps| && Find(es, es[p[0]].deps[k]) == Some(p[1]);
      assert Placed(es, order, a, k);
      var q :| 0 <= q < a && order[q] == p[1];
      forall m | 0 <= m < |p| - 2 ensures DependsOn(es, p[1..][m], p[1..][m + 1]) {
        assert DependsOn(es, p[m + 1], p[m + 2]);
      }
      b := PathsDescend(es, order, p[1..], q);
    }
  }

  /** An order that settles every entry proves the dependencies exist and have no cycle. */
  lemma SettledAllIsAcyclic(es: seq<Entry>, order: seq<nat>)
    requires Settled(es, order) && forall i :: 0 <= i < |es| ==> i in order
    ensures DepsExist(es) && Acyclic(es)
  {
    forall i, k | 0 <= i < |es| && 0 <= k < |es[i].deps| ensures Find(es, es[i].deps[k]).Some? {
      assert i in order;
      var p :| 0 <= p < |order| && order[p] == i;
      assert Placed(es, order, p, k);
    }
    forall c | IsPath(es, c) && |c| >= 2 ensures !IsCycle(es, c) {
      assert c[0] in order;
      var a :| 0 <= a < |order| && order[a] == c[0];
      var b := PathsDescend(es, order, c, a);
    }
  }

  lemma PathSnoc(es: seq<Entry>, p: seq<nat>, i: nat)
    requires IsPath(es, p) && i < |es| && (p != [] ==> DependsOn(es, p[|p| - 1], i))
    ensures IsPath(es, p + [i])
  {
    var q := p + [i];
    forall k | 0 <= k < |q| - 1 ensures DependsOn(es, q[k], q[k + 1]) {
      if k < |p| - 1 { assert DependsOn(es, p[k], p[k + 1]); }
    }
  }

  /** A path that leads back to one of its own entries contains a cycle. */
  lemma ClosesCycle(es: seq<Entry>, p: seq<nat>, i: nat)
    requires IsPath(es, p) && p != [] && DependsOn(es, p[|p| - 1], i) && i in p
    ensures !Acyclic(es)
  {
    var a :| 0 <= a < |p| && p[a] == i;
    PathSnoc(es, p, i);
    var c := (p + [i])[a..];
    forall k | 0 <= k < |c| - 1 ensures DependsOn(es, c[k], c[k + 1]) {
      assert DependsOn(es, (p + [i])[a + k], (p + [i])[a + k + 1]);
    }
    assert IsCycle(es, c);
  }

  /** The first n dependencies of entry i exist and are listed. */
  ghost predicate DepsIn(es: seq<Entry>, i: nat, n: nat, out: seq<nat>)
    requires i < |es| && n <= |es[i].deps|
  {
    forall q :: 0 <= q < n ==> Find(es, es[i].deps[q]).Some? && Find(es, es[i].deps[q]).value in out
  }

  lemma Missing(es: seq<Entry>, i: nat, k: nat)
    requires i < |es| && k < |es[i].deps| && Find(es, es[i].deps[k]).None?
    ensures !DepsExist(es)
  {
  }

  lemma Named(es: seq<Entry>, i: nat, k: nat)
    requires i < |es| && k < |es[i].deps| && Find(es, es[i].deps[k]).Some?
    ensures DependsOn(es, i, Find(es, es[i].deps[k]).value)
  {
  }

  // ----- validation: three-colour depth-first search -----

  /** White entries are 0; the grey ones (1) are the path being explored; the black ones (2) are
      finished. */
  ghost predicate Coloured(states: seq<int>, path: seq<nat>, done: seq<nat>) {
    && (forall k :: 0 <= k < |states| ==> (states[k] == 1 <==> k in path) && (states[k] == 2 <==> k in done))
    && (forall k :: 0 <= k < |states| ==> states[k] in {0, 1, 2})
    && (forall x :: x in path ==> x < |states|)
  }

  ghost function White(states: seq<int>): set<nat> {
    set k | 0 <= k < |states| && states[k] == 0
  }

  lemma ColouredGrey(states: seq<int>, path: seq<nat>, done: seq<nat>, i: nat)
    requires Coloured(states, path, done) && i < |states| && states[i] == 0
    ensures Coloured(states[i := 1], path + [i], done)
    ensures White(states[i := 1]) < White(states)
  {
    assert i in White(states) && i !in White(states[i := 1]);
  }

  lemma ColouredBlack(states: seq<int>, path: seq<nat>, done: seq<nat>, i: nat)
    requires Coloured(states, path + [i], done) && i < |states| && states[i] == 1 && i !in path
    ensures Coloured(states[i := 2], path, done + [i])
    ensures White(states[i := 2]) == White(states)
  {
    assert forall x :: x in path ==> x in path + [i];
  }

  method FindEntry(es: seq<Entry>, name: string) returns (r: Option<nat>)
    ensures r == Find(es, name)
  {
    var i := 0;
    while i < |es|
      invariant i <= |es| && forall j :: 0 <= j < i ==> es[j].name != name
    {
      if es[i].name == name { return Some(i); }
      i := i + 1;
    }
    r := None;
  }

  /** validate_deps_recursive. On success the entry and everything it reached are black and
      settled; on failure there is a missing dependency or a cycle. */
  method ValidateFrom(es: seq<Entry>, states: array<int>, i: nat, ghost path: seq<nat>, ghost done: seq<nat>)
    returns (ok: bool, ghost done': seq<nat>)
    requires states.Length == |es| && i < |es|
    requires Coloured(states[..], path, done) && Settled(es, done)
    requires IsPath(es, path) && (path != [] ==> DependsOn(es, path[|path| - 1], i))
    modifies states
    ensures ok ==> Coloured(states[..], path, done') && Settled(es, done') && done <= done' && i in done'
    ensures ok ==> White(states[..]) <= White(old(states[..]))
    ensures !ok ==> !DepsExist(es) || !Acyclic(es)
    decreases White(states[..])
  {
    hide Settled, IsPath, DependsOn, Acyclic, DepsExist;
    done' := done;
    if states[i] == 1 {
      ClosesCycle(es, path, i);
      return false, done';
    }
    if states[i] == 2 { return true, done'; }
    ColouredGrey(states[..], path, done, i);
    PathSnoc(es, path, i);
    assert i !in path && i !in done;
    ghost var before := states[..];
    states[i] := 1;
    assert states[..] == before[i := 1];
    var k := 0;
    while k < |es[i].deps|
      invariant k <= |es[i].deps|
      invariant Coloured(states[..], path + [i], done') && Settled(es, done') && done <= done'
      invariant White(states[..]) <= White(before[i := 1])
      invariant DepsIn(es, i, k, done')
    {
      var dep := FindEntry(es, es[i].deps[k]);
      if dep.None? {
        Missing(es, i, k);
        return false, done';
      }
      Named(es, i, k);
      var sub, more := ValidateFrom(es, states, dep.value, path + [i], done');
      if !sub { return false, done'; }
      assert forall x :: x in done' ==> x in more;
      done' := more;
      k := k + 1;
    }
    assert i in path + [i];
    assert states[i] == 1 && i !in done';
    ColouredBlack(states[..], path, done', i);
    SettledSnoc(es, done', i);
    ghost var grey := states[..];
    states[i] := 2;
    assert states[..] == grey[i := 2];
    done' := done' + [i];
    ok := true;
  }

  /** cdsl_ruleset_validate_deps accepts exactly the rule sets whose named dependencies all exist
      and have no cycle. */
  method ValidateDeps(es: seq<Entry>) returns (ok: bool)
    ensures ok <==> DepsExist(es) && Acyclic(es)
  {
    var states := new int[|es|](_ => 0);
    ghost var done: seq<nat> := [];
    var i := 0;
    while i < |es|
      invariant i <= |es| && Coloured(states[..], [], done) && Settled(es, done)
      invariant forall j :: 0 <= j < i ==> j in done
    {
      if states[i] == 0 {
        ghost var more;
        ok, more := ValidateFrom(es, states, i, [], done);
        if !ok { return false; }
        assert forall x :: x in done ==> x in more;
        done := more;
      }
      i := i + 1;
    }
    SettledAllIsAcyclic(es, done);
    ok := true;
  }

  // ----- topological sort -----

  /** The entry a dependency on its name means. */
  predicate IsFirst(es: seq<Entry>, i: nat)
    requires i < |es|
  {
    Find(es, es[i].name) == Some(i)
  }

  ghost predicate Visited(visited: seq<bool>, path: seq<nat>, out: seq<nat>) {
    && (forall k :: 0 <= k < |visited| ==> (visited[k] <==> k in path || k in out))
    && (forall x :: x in path ==> x < |visited| && x !in out)
    && (forall x :: x in out ==> x < |visited|)
  }

  ghost function Unvisited(visited: seq<bool>): set<nat> {
    set k | 0 <= k < |visited| && !visited[k]
  }

  lemma MarkVisited(visited: seq<bool>, path: seq<nat>, out: seq<nat>, i: nat)
    requires Visited(visited, path, out) && i < |visited| && !visited[i]
    ensures i !in path && i !in out && Visited(visited[i := true], path + [i], out)
    ensures Unvisited(visited[i := true]) < Unvisited(visited)
  {
    assert i in Unvisited(visited) && i !in Unvisited(visited[i := true]);
  }

  lemma MarkOut(visited: seq<bool>, path: seq<nat>, out: seq<nat>, i: nat)
    requires Visited(visited, path + [i], out) && i !in path
    ensures Visited(visited, path, out + [i])
  {
    assert i in path + [i];
    assert forall x :: x in path ==> x in path + [i];
  }

  function Upto(n: nat): (r: set<nat>)
    ensures |r| == n && forall k: nat :: k in r <==> k < n
  {
    if n == 0 then {} else Upto(n - 1) + {n - 1}
  }

  function Elems(s: seq<nat>): (r: set<nat>)
    ensures |r| <= |s| && forall x: nat :: x in r <==> x in s
    ensures DistinctNats(s) ==> |r| == |s|
  {
    if s == [] then {} else
      assert DistinctNats(s) ==> DistinctNats(s[1..]) && s[0] !in s[1..];
      {s[0]} + Elems(s[1..])
  }

  lemma {:induction false} CardinalityOrder(a: set<nat>, b: set<nat>)
    requires a <= b
    ensures |a| <= |b|
    decreases a
  {
    if a != {} {
      var x :| x in a;
      CardinalityOrder(a - {x}, b - {x});
    }
  }

  /** Distinct indices below n that include all of them are a permutation of them. */
  lemma CompleteIsPermutation(s: seq<nat>, n: nat)
    requires DistinctNats(s) && (forall p :: 0 <= p < |s| ==> s[p] < n) && forall j :: 0 <= j < n ==> j in s
    ensures IsPermutation(s, n)
  {
    assert forall x :: x in Elems(s) <==> x in Upto(n);
    assert Elems(s) == Upto(n);
  }

  /** What a walk from entry i adds to the output: the entry itself, and below it only entries
      that dependencies name. */
  ghost predicate Extends(es: seq<Entry>, out: seq<nat>, out': seq<nat>, i: nat) {
    out <= out' && forall p :: |out| <= p < |out'| ==> out'[p] < |es| && (out'[p] == i || IsFirst(es, out'[p]))
  }

  /** What the dependencies of an entry add. */
  ghost predicate ExtendsByFirsts(es: seq<Entry>, out: seq<nat>, out': seq<nat>) {
    out <= out' && forall p :: |out| <= p < |out'| ==> out'[p] < |es| && IsFirst(es, out'[p])
  }

  lemma ExtendsMore(es: seq<Entry>, out: seq<nat>, mid: seq<nat>, out': seq<nat>, d: nat)
    requires ExtendsByFirsts(es, out, mid) && Extends(es, mid, out', d) && d < |es| && IsFirst(es, d)
    ensures ExtendsByFirsts(es, out, out')
  {
    assert forall p :: |out| <= p < |mid| ==> out'[p] == mid[p];
  }

  lemma OneDepIn(es: seq<Entry>, i: nat, k: nat, out: seq<nat>)
    requires i < |es| && k < |es[i].deps| && DepsIn(es, i, |es[i].deps|, out)
    ensures Find(es, es[i].deps[k]).Some? && Find(es, es[i].deps[k]).value in out
  {
  }

  lemma DepsInMore(es: seq<Entry>, i: nat, k: nat, mid: seq<nat>, out: seq<nat>)
    requires i < |es| && k < |es[i].deps| && DepsIn(es, i, k, mid) && mid <= out
    requires Find(es, es[i].deps[k]).Some? && Find(es, es[i].deps[k]).value in out
    ensures DepsIn(es, i, k + 1, out)
  {
    assert forall x :: x in mid ==> x in out;
  }

  /** topo_sort_recursive: appends the entry to the output after its dependencies. */
  method SortFrom(es: seq<Entry>, visited: array<bool>, i: nat, out: seq<nat>, ghost path: seq<nat>)
    returns (out': seq<nat>)
    requires visited.Length == |es| && i < |es| && DepsExist(es) && Acyclic(es)
    requires Visited(visited[..], path, out) && Settled(es, out)
    requires IsPath(es, path) && (path != [] ==> DependsOn(es, path[|path| - 1], i))
    modifies visited
    ensures Visited(visited[..], path, out') && Settled(es, out') && i in out' && Extends(es, out, out', i)
    ensures Unvisited(visited[..]) <= Unvisited(old(visited[..]))
    ensures i in out ==> out' == out
    ensures i !in out && DepsIn(es, i, |es[i].deps|, out) ==> out' == out + [i]
    decreases Unvisited(visited[..]), 0
  {
    out' := out;
    if visited[i] {
      if i in path { ClosesCycle(es, path, i); }
      return;
    }
    ghost var before := visited[..];
    MarkVisited(before, path, out, i);
    PathSnoc(es, path, i);
    visited[i] := true;
    assert visited[..] == before[i := true];
    out' := SortDeps(es, visited, i, out, path + [i]);
    assert i in path + [i];
    SettledSnoc(es, out', i);
    MarkOut(visited[..], path, out', i);
    out' := out' + [i];
  }

  /** The loop over one entry's dependencies. */
  method SortDeps(es: seq<Entry>, visited: array<bool>, i: nat, out: seq<nat>, ghost path: seq<nat>)
    returns (out': seq<nat>)
    requires visited.Length == |es| && i < |es| && DepsExist(es) && Acyclic(es)
    requires Visited(visited[..], path, out) && Settled(es, out)
    requires IsPath(es, path) && path != [] && path[|path| - 1] == i
    modifies visited
    ensures Visited(visited[..], path, out') && Settled(es, out') && ExtendsByFirsts(es, out, out')
    ensures Unvisited(visited[..]) <= Unvisited(old(visited[..]))
    ensures DepsIn(es, i, |es[i].deps|, out')
    ensures DepsIn(es, i, |es[i].deps|, out) ==> out' == out
    decreases Unvisited(visited[..]), 1
  {
    assert ExtendsByFirsts(es, out, out) && DepsIn(es, i, 0, out);
    hide Settled, IsPath, DependsOn, Acyclic, Visited, ExtendsByFirsts, Extends, DepsIn;
    out' := out;
    var k := 0;
    while k < |es[i].deps|
      invariant k <= |es[i].deps| && ExtendsByFirsts(es, out, out')
      invariant Visited(visited[..], path, out') && Settled(es, out')
      invariant Unvisited(visited[..]) <= Unvisited(old(visited[..]))
      invariant DepsIn(es, i, k, out')
      invariant DepsIn(es, i, |es[i].deps|, out) ==> out' == out
    {
      var dep := FindEntry(es, es[i].deps[k]);
      Named(es, i, k);
      assert IsFirst(es, dep.value);
      ghost var mid := out';
      if DepsIn(es, i, |es[i].deps|, out) { OneDepIn(es, i, k, out); }
      out' := SortFrom(es, visited, dep.value, out', path);
      ExtendsMore(es, out, mid, out', dep.value);
      DepsInMore(es, i, k, mid, out');
      k := k + 1;
    }
  }

  // ----- the sorted rule set -----

  function Reorder(es: seq<Entry>, order: seq<nat>): (r: seq<Entry>)
    requires forall p :: 0 <= p < |order| ==> order[p] < |es|
    ensures |r| == |order| && forall p :: 0 <= p < |order| ==> r[p] == es[order[p]]
  {
    seq(|order|, p requires 0 <= p < |order| => es[order[p]])
  }

  ghost predicate IsPermutation(order: seq<nat>, n: nat) {
    |order| == n && DistinctNats(order) && forall p :: 0 <= p < n ==> order[p] < n
  }

  /** Every dependency of an entry exists and stands before it in the list. */
  ghost predicate DependencyOrdered(es: seq<Entry>) {
    forall i, k :: 0 <= i < |es| && 0 <= k < |es[i].deps| ==>
      Find(es, es[i].deps[k]).Some? && Find(es, es[i].deps[k]).value < i
  }

  /** An entry whose name an earlier entry has stays behind that one. */
  ghost predicate FirstsFirst(es: seq<Entry>, order: seq<nat>)
    requires forall p :: 0 <= p < |order| ==> order[p] < |es|
  {
    forall p :: 0 <= p < |order| ==> IsFirst(es, order[p]) || Find(es, es[order[p]].name).value in order[..p]
  }

  lemma FindSame(es: seq<Entry>, name: string, q: nat)
    requires q < |es| && es[q].name == name && forall j :: 0 <= j < q ==> es[j].name != name
    ensures Find(es, name) == Some(q)
  {
  }

  /** Names keep their meaning when the list is reordered. */
  lemma FindReordered(es: seq<Entry>, order: seq<nat>, name: string, q: nat)
    requires IsPermutation(order, |es|) && FirstsFirst(es, order)
    requires q < |order| && Find(es, name) == Some(order[q])
    ensures Find(Reorder(es, order), name) == Some(q)
  {
    var r := Reorder(es, order);
    forall j | 0 <= j < q ensures r[j].name != name {
      assert IsFirst(es, order[j]) || Find(es, es[order[j]].name).value in order[..j];
    }
    FindSame(r, name, q);
  }

  lemma SettledIsOrdered(es: seq<Entry>, order: seq<nat>)
    requires IsPermutation(order, |es|) && FirstsFirst(es, order) && Settled(es, order)
    ensures DependencyOrdered(Reorder(es, order))
  {
    var r := Reorder(es, order);
    forall i, k | 0 <= i < |r| && 0 <= k < |r[i].deps|
      ensures Find(r, r[i].deps[k]).Some? && Find(r, r[i].deps[k]).value < i
    {
      assert Placed(es, order, i, k);
      var d := Find(es, r[i].deps[k]).value;
      var q :| 0 <= q < i && order[q] == d;
      FindReordered(es, order, r[i].deps[k], q);
    }
  }

  /** Everything a walk from entry i adds is either i or the first of its name. */
  lemma FirstsGrow(es: seq<Entry>, out: seq<nat>, out': seq<nat>, i: nat)
    requires (forall p :: 0 <= p < |out'| ==> out'[p] < |es|) && i < |es|
    requires Extends(es, out, out', i) && FirstsFirst(es, out) && forall j :: 0 <= j < i ==> j in out
    ensures FirstsFirst(es, out')
  {
    forall p | 0 <= p < |out'| ensures IsFirst(es, out'[p]) || Find(es, es[out'[p]].name).value in out'[..p] {
      if p < |out| {
        assert out'[..p] == out[..p] && out'[p] == out[p];
      } else if !IsFirst(es, out'[p]) {
        var f := Find(es, es[i].name).value;
        assert f in out;
        var q :| 0 <= q < |out| && out[q] == f;
        assert out'[..p][q] == f;
      }
    }
  }

  /** The sort has left the list alone so far. */
  ghost predicate IsIdentity(out: seq<nat>) { forall p :: 0 <= p < |out| ==> out[p] == p }

  lemma NextInPlace(es: seq<Entry>, out: seq<nat>, i: nat)
    requires DependencyOrdered(es) && i < |es| && |out| == i && IsIdentity(out)
    ensures i !in out && DepsIn(es, i, |es[i].deps|, out) && IsIdentity(out + [i])
  {
    forall q | 0 <= q < |es[i].deps|
      ensures Find(es, es[i].deps[q]).Some? && Find(es, es[i].deps[q]).value in out
    {
      var d := Find(es, es[i].deps[q]).value;
      assert out[d] == d;
    }
  }

  /** The main loop of the sort. */
  method SortAll(es: seq<Entry>) returns (order: seq<nat>)
    requires DepsExist(es) && Acyclic(es)
    ensures IsPermutation(order, |es|) && Settled(es, order) && FirstsFirst(es, order)
    ensures DependencyOrdered(es) ==> IsIdentity(order)
  {
    var visited := new bool[|es|](_ => false);
    order := [];
    var i := 0;
    while i < |es|
      invariant 0 <= i <= |es|
      invariant Visited(visited[..], [], order) && Settled(es, order) && FirstsFirst(es, order)
      invariant forall j :: 0 <= j < i ==> j in order
      invariant DependencyOrdered(es) ==> |order| == i && IsIdentity(order)
    {
      if DependencyOrdered(es) { NextInPlace(es, order, i); }
      if !visited[i] {
        ghost var before := order;
        order := SortFrom(es, visited, i, order, []);
        FirstsGrow(es, before, order, i);
        assert forall x :: x in before ==> x in order;
      }
      i := i + 1;
    }
    CompleteIsPermutation(order, |es|);
  }
}
