/**
 The rule set (src/vm/ruleset.c): stable insertion by priority, removal by name, and the sort
 by dependencies.
 */
module Ruleset {
  import opened Values
  import opened Ast
  import opened Dependencies

  // ----- insertion by priority -----

  /** Where an entry goes: before the first one of greater priority, or last. */
  function Insert(es: seq<Entry>, e: Entry): seq<Entry> {
    if es == [] || e.priority < es[0].priority then [e] + es else [es[0]] + Insert(es[1..], e)
  }

  /** What a set holds once the given entries have been added to an empty one, in that order. */
  function Added(es: seq<Entry>): seq<Entry> {
    if es == [] then [] else Insert(Added(es[..|es| - 1]), es[|es| - 1])
  }

  predicate ByPriority(es: seq<Entry>) {
    forall i, j :: 0 <= i < j < |es| ==> es[i].priority <= es[j].priority
  }

  /** The entries of one priority, in their order. */
  function OfPriority(es: seq<Entry>, p: int): seq<Entry> {
    if es == [] then [] else (if es[0].priority == p then [es[0]] else []) + OfPriority(es[1..], p)
  }

  lemma {:induction false} NoneOfPriority(es: seq<Entry>, p: int)
    requires forall k :: 0 <= k < |es| ==> es[k].priority != p
    ensures OfPriority(es, p) == []
  {
    if es != [] { NoneOfPriority(es[1..], p); }
  }

  lemma {:induction false} InsertAt(es: seq<Entry>, e: Entry, k: nat)
    requires k <= |es| && (forall j :: 0 <= j < k ==> es[j].priority <= e.priority)
    requires k < |es| ==> e.priority < es[k].priority
    ensures Insert(es, e) == es[..k] + [e] + es[k..]
  {
    if k == 0 {
      assert es[..0] + [e] + es[0..] == [e] + es;
    } else {
      InsertAt(es[1..], e, k - 1);
      assert es[..k] + [e] + es[k..] == [es[0]] + (es[1..][..k - 1] + [e] + es[1..][k - 1..]);
    }
  }

  lemma ConsByPriority(e: Entry, es: seq<Entry>)
    requires ByPriority(es) && forall x :: x in es ==> e.priority <= x.priority
    ensures ByPriority([e] + es)
  {
    var r := [e] + es;
    forall i, j | 0 <= i < j < |r| ensures r[i].priority <= r[j].priority {
      assert r[j] == es[j - 1] && es[j - 1] in es;
      if i > 0 { assert r[i] == es[i - 1]; }
    }
  }

  lemma {:induction false} InsertKeepsOrder(es: seq<Entry>, e: Entry)
    requires ByPriority(es)
    ensures ByPriority(Insert(es, e)) && |Insert(es, e)| == |es| + 1
    ensures forall x :: x in Insert(es, e) ==> x == e || x in es
  {
    if es == [] {
    } else if e.priority < es[0].priority {
      ConsByPriority(e, es);
    } else {
      InsertKeepsOrder(es[1..], e);
      ConsByPriority(es[0], Insert(es[1..], e));
    }
  }

  /** Insertion puts an entry behind those of its own priority and moves no other. */
  lemma {:induction false} InsertIsStable(es: seq<Entry>, e: Entry, p: int)
    requires ByPriority(es)
    ensures OfPriority(Insert(es, e), p) == OfPriority(es, p) + (if e.priority == p then [e] else [])
  {
    hide ByPriority, OfPriority;
    if es == [] {
      FirstOfPriority(e, [], p);
      assert Insert(es, e) == [e] + [];
    } else if e.priority < es[0].priority {
      FirstOfPriority(e, es, p);
      if e.priority == p { HeadIsLeast(es); NoneOfPriority(es, p); }
    } else {
      TailByPriority(es);
      InsertIsStable(es[1..], e, p);
      FirstOfPriority(es[0], Insert(es[1..], e), p);
      FirstOfPriority(es[0], es[1..], p);
      assert [es[0]] + es[1..] == es;
    }
  }

  lemma FirstOfPriority(e: Entry, es: seq<Entry>, p: int)
    ensures OfPriority([e] + es, p) == if e.priority == p then [e] + OfPriority(es, p) else OfPriority(es, p)
    ensures es == [] ==> OfPriority(es, p) == []
  {
    assert ([e] + es)[1..] == es;
  }

  lemma HeadIsLeast(es: seq<Entry>)
    requires ByPriority(es) && es != []
    ensures forall k :: 0 <= k < |es| ==> es[0].priority <= es[k].priority
  {
  }

  lemma TailByPriority(es: seq<Entry>)
    requires ByPriority(es) && es != []
    ensures ByPriority(es[1..])
  {
  }

  /** Adding entries one by one gives the stable sort by priority of the additions. */
  lemma {:induction false} AddedIsStableSort(es: seq<Entry>, p: int)
    ensures ByPriority(Added(es)) && |Added(es)| == |es|
    ensures OfPriority(Added(es), p) == OfPriority(es, p)
  {
    if es != [] {
      var n := |es| - 1;
      AddedIsStableSort(es[..n], p);
      InsertKeepsOrder(Added(es[..n]), es[n]);
      InsertIsStable(Added(es[..n]), es[n], p);
      OfPrioritySnoc(es[..n], es[n], p);
      assert es == es[..n] + [es[n]];
    }
  }

  lemma {:induction false} OfPrioritySnoc(es: seq<Entry>, e: Entry, p: int)
    ensures OfPriority(es + [e], p) == OfPriority(es, p) + (if e.priority == p then [e] else [])
  {
    if es == [] {
      assert [] + [e] == [e];
    } else {
      OfPrioritySnoc(es[1..], e, p);
      assert (es + [e])[1..] == es[1..] + [e];
    }
  }

  /** Only one list is sorted by priority with the given entries of each priority in the given
      order. */
  lemma {:induction false} StableSortIsUnique(a: seq<Entry>, b: seq<Entry>)
    requires ByPriority(a) && ByPriority(b) && forall p :: OfPriority(a, p) == OfPriority(b, p)
    ensures a == b
    decreases |a|
  {
    if a == [] {
      if b != [] { assert OfPriority(b, b[0].priority) == OfPriority(a, b[0].priority); }
    } else {
      assert OfPriority(a, a[0].priority) == OfPriority(b, a[0].priority);
      if b == [] { assert false; }
      Least(a, b);
      Least(b, a);
      var p0 := a[0].priority;
      assert OfPriority(a, p0)[0] == a[0] && OfPriority(b, p0)[0] == b[0];
      forall p ensures OfPriority(a[1..], p) == OfPriority(b[1..], p) {
        assert OfPriority(a, p) == OfPriority(b, p);
        RestOfPriority(a, p);
        RestOfPriority(b, p);
      }
      StableSortIsUnique(a[1..], b[1..]);
    }
  }

  lemma RestOfPriority(es: seq<Entry>, p: int)
    requires es != []
    ensures OfPriority(es[1..], p) == if es[0].priority == p then OfPriority(es, p)[1..] else OfPriority(es, p)
  {
  }

  /** The first priority of a is not below the first of b. */
  lemma Least(a: seq<Entry>, b: seq<Entry>)
    requires a != [] && b != [] && ByPriority(b) && OfPriority(a, a[0].priority) == OfPriority(b, a[0].priority)
    ensures b[0].priority <= a[0].priority
  {
    if a[0].priority < b[0].priority { NoneOfPriority(b, a[0].priority); }
  }

  // ----- the sorted set -----

  /** Dependencies that all stand before their dependents exist and have no cycle. */
  lemma OrderedIsSound(es: seq<Entry>)
    requires DependencyOrdered(es)
    ensures DepsExist(es) && Acyclic(es)
  {
    var order := seq(|es|, k requires 0 <= k < |es| => k as nat);
    forall p, k | 0 <= p < |order| && 0 <= k < |es[order[p]].deps| ensures Placed(es, order, p, k) {
      var d := Find(es, es[p].deps[k]).value;
      assert order[..p][d] == d;
    }
    forall i | 0 <= i < |es| ensures i in order { assert order[i] == i; }
    SettledAllIsAcyclic(es, order);
  }

  class RuleSet {
    var entries: seq<Entry>
    var count: nat

    ghost predicate Valid()
      reads this
    {
      count == |entries|
    }

    constructor ()
      ensures Valid() && entries == []
    {
      entries, count := [], 0;
    }

    /** cdsl_ruleset_add. On a set sorted by priority the entry goes behind those of its priority. */
    method Add(rule: Rule, deps: seq<string>, priority: int)
      requires Valid()
      modifies this
      ensures Valid() && entries == Insert(old(entries), Entry(rule, deps, priority))
      ensures ByPriority(old(entries)) ==> ByPriority(entries)
    {
      var e := Entry(rule, deps, priority);
      if ByPriority(entries) { InsertKeepsOrder(entries, e); }
      if entries == [] || priority < entries[0].priority {
        entries := [e] + entries;
      } else {
        var cur := 0;
        while cur + 1 < |entries| && entries[cur + 1].priority <= priority
          invariant cur < |entries| && forall j :: 0 <= j <= cur ==> entries[j].priority <= priority
        {
          cur := cur + 1;
        }
        InsertAt(entries, e, cur + 1);
        entries := entries[..cur + 1] + [e] + entries[cur + 1..];
      }
      count := count + 1;
    }

    /** cdsl_ruleset_remove takes out the first entry of that name and nothing else. */
    method Remove(name: string) returns (found: bool)
      requires Valid()
      modifies this
      ensures Valid() && (found <==> Find(old(entries), name).Some?)
      ensures found ==> var k := Find(old(entries), name).value; entries == old(entries)[..k] + old(entries)[k + 1..]
      ensures !found ==> entries == old(entries)
    {
      var cur := 0;
      while cur < |entries|
        invariant cur <= |entries| && forall j :: 0 <= j < cur ==> entries[j].name != name
        invariant entries == old(entries) && count == old(count)
      {
        if entries[cur].name == name {
          FindSame(entries, name, cur);
          entries, count := entries[..cur] + entries[cur + 1..], count - 1;
          return true;
        }
        cur := cur + 1;
      }
      found := false;
    }

    /** cdsl_ruleset_topo_sort. With at least two entries it succeeds exactly on sound, acyclic
        dependencies and then leaves a permutation in which every dependency stands before its
        dependents, so that sorting again succeeds and changes nothing; on failure, and on a list
        already in that order, nothing changes. */
    method TopoSort() returns (ok: bool, ghost order: seq<nat>)
      requires Valid()
      modifies this
      ensures Valid()
      ensures ok <==> old(count) <= 1 || (DepsExist(old(entries)) && Acyclic(old(entries)))
      ensures !ok || old(count) <= 1 ==> entries == old(entries)
      ensures ok && old(count) > 1 ==>
                && IsPermutation(order, |old(entries)|) && entries == Reorder(old(entries), order)
                && DependencyOrdered(entries) && DepsExist(entries) && Acyclic(entries)
                && (DependencyOrdered(old(entries)) ==> entries == old(entries))
    {
      order := [];
      if count <= 1 { return true, order; }
      ok := ValidateDeps(entries);
      if !ok { return false, order; }
      var sorted := SortAll(entries);
      order := sorted;
      SettledIsOrdered(entries, order);
      ghost var before := entries;
      var rebuilt: seq<Entry> := [];
      var i := 0;
      while i < count
        invariant 0 <= i <= count == |before| && entries == before && sorted == order
        invariant |rebuilt| == i && forall p :: 0 <= p < i ==> rebuilt[p] == before[order[p]]
      {
        rebuilt := rebuilt + [entries[sorted[i]]];
        i := i + 1;
      }
      assert rebuilt == Reorder(before, order);
      if DependencyOrdered(before) { assert rebuilt == before; }
      entries := rebuilt;
      OrderedIsSound(entries);
      ok := true;
    }
  }
}
