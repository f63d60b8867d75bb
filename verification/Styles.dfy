/**
 Style inheritance (merge_style, find_style, find_default_style and resolve_all_styles in
 src/doc/doc_parse.cpp): the resolver that fills in the attributes of every style in place,
 memoised by a flag, against the first value set along the ancestor chain.
 */
module Styles {
  import opened Values
  import D = Dependencies

  datatype Attr =
    | Text(s: string)
    | Length(mm: real)
    | Level(n: int)
    | Flag(b: bool)
    | Border(style: string, color: string, width: real)
    | Widths(ws: seq<real>)

  /** The value counts as not given; a border goes by its style alone. */
  predicate Unset(a: Attr) {
    match a
    case Text(s) => s == []
    case Length(mm) => mm == 0.0
    case Level(n) => n == 0
    case Flag(b) => !b
    case Border(style, _, _) => style == []
    case Widths(ws) => ws == []
  }

  /** The attributes of a style nothing was said about, in the order they are merged: paragraph,
      text, table and cell. */
  const BLANK: seq<Attr> :=
    [Text([]), Length(0.0), Length(0.0), Length(0.0), Length(0.0), Length(0.0), Length(0.0), Text([]), Level(0),
     Flag(false)] +
    [Text([]), Length(0.0), Flag(false), Flag(false), Flag(false), Text([]), Text([]), Flag(false), Text([]), Text([]),
     Length(0.0), Text([])] +
    [Length(0.0), Text([]), Text([]), Widths([])] +
    [Text([]), Text([]), Border([], [], 0.0), Border([], [], 0.0), Border([], [], 0.0), Border([], [], 0.0),
     Length(0.0), Length(0.0), Length(0.0), Length(0.0)]

  const SLOTS: nat := 36

  type Attrs = a: seq<Attr> | |a| == SLOTS witness seq(SLOTS, _ => Flag(false))

  datatype Style = Style(name: string, family: string, parent: string, attrs: Attrs, resolved: bool)

  // ----- the ancestor chain -----

  function FindStyle(ss: seq<Style>, name: string): (r: Option<nat>)
    ensures r.Some? ==> r.value < |ss| && ss[r.value].name == name && name != []
    ensures r.Some? ==> forall j :: 0 <= j < r.value ==> ss[j].name != name
    ensures r.None? && name != [] ==> forall j :: 0 <= j < |ss| ==> ss[j].name != name
  {
    if ss == [] || name == [] then None
    else if ss[0].name == name then Some(0)
    else match FindStyle(ss[1..], name)
      case None => None
      case Some(k) => Some(k + 1)
  }

  const DEFAULT := "__default_"

  predicate IsDefault(name: string) {
    exists i | 0 <= i <= |name| :: DefaultAt(name, i)
  }

  predicate DefaultAt(name: string, i: nat) {
    i + |DEFAULT| <= |name| && name[i..i + |DEFAULT|] == DEFAULT
  }

  function FindDefault(ss: seq<Style>, family: string): (r: Option<nat>)
    ensures r.Some? ==> r.value < |ss|
  {
    if family == [] then None else FindStyle(ss, DEFAULT + family + "__")
  }

  /** The named parent, or else the default of the family. */
  function ParentOf(ss: seq<Style>, i: nat): (r: Option<nat>)
    requires i < |ss|
    ensures r.Some? ==> r.value < |ss|
  {
    var p := FindStyle(ss, ss[i].parent);
    if p.None? && ss[i].family != [] && !IsDefault(ss[i].name) then FindDefault(ss, ss[i].family) else p
  }

  /** The n-th ancestor. */
  function Up(ss: seq<Style>, i: nat, n: nat): (r: Option<nat>)
    requires i < |ss|
    ensures r.Some? ==> r.value < |ss|
    decreases n
  {
    if n == 0 then Some(i)
    else match ParentOf(ss, i)
      case None => None
      case Some(p) => Up(ss, p, n - 1)
  }

  /** The chain of ancestors ends. */
  ghost predicate Grounded(ss: seq<Style>, i: nat)
    requires i < |ss|
  {
    exists n: nat :: Up(ss, i, n).None?
  }

  ghost predicate UnsetBelow(ss: seq<Style>, i: nat, k: nat, n: nat)
    requires i < |ss| && k < SLOTS
  {
    forall m: nat :: m < n && Up(ss, i, m).Some? ==> Unset(ss[Up(ss, i, m).value].attrs[k])
  }

  ghost predicate SetAt(ss: seq<Style>, i: nat, k: nat, n: nat, v: Attr)
    requires i < |ss| && k < SLOTS
  {
    var a := Up(ss, i, n);
    a.Some? && ss[a.value].attrs[k] == v && !Unset(v) && UnsetBelow(ss, i, k, n)
  }

  /** v is the first value set for attribute k along the chain, or the blank one if none is. */
  ghost predicate FirstSet(ss: seq<Style>, i: nat, k: nat, v: Attr)
    requires i < |ss| && k < SLOTS
  {
    || (exists n: nat :: SetAt(ss, i, k, n, v))
    || (v == BLANK[k] && forall n: nat :: UnsetBelow(ss, i, k, n))
  }

  ghost predicate Inherits(ss: seq<Style>, i: nat, attrs: Attrs)
    requires i < |ss|
  {
    forall k: nat :: k < SLOTS ==> FirstSet(ss, i, k, attrs[k])
  }

  function Merge(base: Attrs, own: Attrs): (r: Attrs)
    ensures forall k :: 0 <= k < SLOTS ==> r[k] == if Unset(own[k]) then base[k] else own[k]
  {
    seq(SLOTS, k requires 0 <= k < SLOTS => if Unset(own[k]) then base[k] else own[k])
  }

  lemma SetHere(ss: seq<Style>, i: nat, k: nat)
    requires i < |ss| && k < SLOTS && !Unset(ss[i].attrs[k])
    ensures FirstSet(ss, i, k, ss[i].attrs[k])
  {
    assert SetAt(ss, i, k, 0, ss[i].attrs[k]);
  }

  /** What a style does not set it has from its parent. */
  lemma FromParent(ss: seq<Style>, i: nat, p: nat, k: nat, v: Attr)
    requires i < |ss| && k < SLOTS && Unset(ss[i].attrs[k]) && ParentOf(ss, i) == Some(p) && FirstSet(ss, p, k, v)
    ensures FirstSet(ss, i, k, v)
  {
    if n: nat :| SetAt(ss, p, k, n, v) {
      forall m: nat | m < n + 1 && Up(ss, i, m).Some? ensures Unset(ss[Up(ss, i, m).value].attrs[k]) {
        if m > 0 { assert Up(ss, i, m) == Up(ss, p, m - 1); }
      }
      assert SetAt(ss, i, k, n + 1, v);
    } else {
      forall n: nat ensures UnsetBelow(ss, i, k, n) {
        forall m: nat | m < n && Up(ss, i, m).Some? ensures Unset(ss[Up(ss, i, m).value].attrs[k]) {
          if m > 0 {
            assert UnsetBelow(ss, p, k, m);
            assert Up(ss, i, m) == Up(ss, p, m - 1);
          }
        }
      }
    }
  }

  lemma FromNobody(ss: seq<Style>, i: nat, k: nat)
    requires i < |ss| && k < SLOTS && Unset(ss[i].attrs[k]) && ParentOf(ss, i) == None
    ensures FirstSet(ss, i, k, BLANK[k])
  {
    forall n: nat ensures UnsetBelow(ss, i, k, n) {
    }
  }

  lemma MergedInherits(ss: seq<Style>, i: nat, base: Attrs)
    requires i < |ss|
    requires match ParentOf(ss, i) case Some(p) => Inherits(ss, p, base) case None => base == BLANK
    ensures Inherits(ss, i, Merge(base, ss[i].attrs))
  {
    forall k: nat | k < SLOTS ensures FirstSet(ss, i, k, Merge(base, ss[i].attrs)[k]) {
      if !Unset(ss[i].attrs[k]) {
        SetHere(ss, i, k);
      } else if ParentOf(ss, i).Some? {
        FromParent(ss, i, ParentOf(ss, i).value, k, base[k]);
      } else {
        FromNobody(ss, i, k);
      }
    }
  }

  lemma NotAllUnset(ss: seq<Style>, i: nat, k: nat, n: nat, v: Attr)
    requires i < |ss| && k < SLOTS && SetAt(ss, i, k, n, v)
    ensures !UnsetBelow(ss, i, k, n + 1)
  {
  }

  /** Only one value is the first set. */
  lemma FirstSetIsUnique(ss: seq<Style>, i: nat, k: nat, v: Attr, w: Attr)
    requires i < |ss| && k < SLOTS && FirstSet(ss, i, k, v) && FirstSet(ss, i, k, w)
    ensures v == w
  {
    if n: nat :| SetAt(ss, i, k, n, v) {
      NotAllUnset(ss, i, k, n, v);
      if m: nat :| SetAt(ss, i, k, m, w) {
        NotAllUnset(ss, i, k, m, w);
      }
    } else if m: nat :| SetAt(ss, i, k, m, w) {
      NotAllUnset(ss, i, k, m, w);
    }
  }

  // ----- cycles -----

  lemma {:induction false} UpAdds(ss: seq<Style>, i: nat, n: nat, m: nat)
    requires i < |ss| && Up(ss, i, n).Some?
    ensures Up(ss, i, n + m) == Up(ss, Up(ss, i, n).value, m)
    decreases n
  {
    hide ParentOf;
    if n > 0 { UpAdds(ss, ParentOf(ss, i).value, n - 1, m); }
  }

  /** A chain that comes back to a style never ends. */
  lemma {:induction false} CycleGoesOn(ss: seq<Style>, i: nat, p: nat, n: nat)
    requires i < |ss| && p > 0 && Up(ss, i, p) == Some(i)
    ensures Up(ss, i, n).Some?
    decreases n
  {
    if n >= p {
      CycleGoesOn(ss, i, p, n - p);
      UpAdds(ss, i, p, n - p);
    } else if Up(ss, i, n).None? {
      NoneStays(ss, i, n, p - n);
    }
  }

  lemma {:induction false} NoneStays(ss: seq<Style>, i: nat, n: nat, m: nat)
    requires i < |ss| && Up(ss, i, n).None?
    ensures Up(ss, i, n + m).None?
    decreases n
  {
    if ParentOf(ss, i).Some? { NoneStays(ss, ParentOf(ss, i).value, n - 1, m); }
  }

  lemma GroundedParent(ss: seq<Style>, i: nat)
    requires i < |ss|
    ensures ParentOf(ss, i).Some? ==> (Grounded(ss, i) <==> Grounded(ss, ParentOf(ss, i).value))
  {
    if ParentOf(ss, i).Some? {
      var p := ParentOf(ss, i).value;
      if Grounded(ss, i) {
        var n: nat :| Up(ss, i, n).None?;
        assert Up(ss, p, n - 1).None?;
      }
      if Grounded(ss, p) {
        var n: nat :| Up(ss, p, n).None?;
        assert Up(ss, i, n + 1).None?;
      }
    }
  }

  /** The styles of a walk up the table. */
  ghost predicate IsChain(ss: seq<Style>, chain: seq<nat>) {
    && (forall t :: 0 <= t < |chain| ==> chain[t] < |ss|)
    && (forall t :: 0 <= t < |chain| - 1 ==> ParentOf(ss, chain[t]) == Some(chain[t + 1]))
  }

  lemma {:induction false} UpAlong(ss: seq<Style>, chain: seq<nat>, a: nat, b: nat)
    requires IsChain(ss, chain) && a <= b < |chain|
    ensures Up(ss, chain[a], b - a) == Some(chain[b])
    decreases b - a
  {
    if a < b { UpAlong(ss, chain, a + 1, b); }
  }

  /** When the walk meets a style of its own, none of its chain is grounded from there on. */
  lemma WalkedInCircle(ss: seq<Style>, chain: seq<nat>, c: nat)
    requires IsChain(ss, chain) && chain != [] && ParentOf(ss, chain[|chain| - 1]) == Some(c) && c in chain
    ensures !Grounded(ss, chain[|chain| - 1])
  {
    var a :| 0 <= a < |chain| && chain[a] == c;
    var last := chain[|chain| - 1];
    UpAlong(ss, chain, a, |chain| - 1);
    var p := |chain| - a;
    assert Up(ss, last, p) == Some(last);
    forall n: nat ensures Up(ss, last, n).Some? {
      CycleGoesOn(ss, last, p, n);
    }
  }

  // ----- the resolver -----

  /** The styles are the same but for what the resolver fills in. */
  ghost predicate SameNames(a: seq<Style>, b: seq<Style>) {
    |a| == |b| &&
    forall i :: 0 <= i < |a| ==> a[i].name == b[i].name && a[i].family == b[i].family && a[i].parent == b[i].parent
  }

  lemma {:induction false} SameFind(a: seq<Style>, b: seq<Style>, name: string)
    requires SameNames(a, b)
    ensures FindStyle(a, name) == FindStyle(b, name)
  {
    if a != [] && name != [] { SameFind(a[1..], b[1..], name); }
  }

  lemma SameParents(a: seq<Style>, b: seq<Style>, i: nat)
    requires SameNames(a, b) && i < |a|
    ensures ParentOf(a, i) == ParentOf(b, i)
  {
    SameFind(a, b, a[i].parent);
    SameFind(a, b, DEFAULT + a[i].family + "__");
  }

  /** Resolved styles have inherited, the others are as they were. */
  ghost predicate Progress(was: seq<Style>, now: seq<Style>) {
    && SameNames(was, now)
    && forall j: nat :: j < |now| ==>
         if now[j].resolved then Grounded(was, j) ==> Inherits(was, j, now[j].attrs)
         else now[j].attrs == was[j].attrs
  }

  /** What the next style down the chain is to be merged with. */
  ghost predicate BaseFor(was: seq<Style>, p: Option<nat>, base: Attrs) {
    if p.Some? then p.value < |was| && (Grounded(was, p.value) ==> Inherits(was, p.value, base))
    else base == BLANK
  }

  lemma ProgressKeepsNames(was: seq<Style>, now: seq<Style>)
    requires Progress(was, now)
    ensures SameNames(was, now)
  {
  }

  lemma OneResolved(was: seq<Style>, now: seq<Style>, j: nat, base: Attrs)
    requires Progress(was, now) && j < |now| && !now[j].resolved && BaseFor(was, ParentOf(was, j), base)
    ensures var attrs := Merge(base, now[j].attrs);
            && Progress(was, now[j := now[j].(attrs := attrs, resolved := true)])
            && BaseFor(was, Some(j), attrs)
  {
    if Grounded(was, j) {
      GroundedParent(was, j);
      MergedInherits(was, j, base);
    }
    hide Grounded, Inherits;
  }

  lemma Pigeonhole(s: seq<nat>, n: nat)
    requires D.DistinctNats(s) && forall p :: 0 <= p < |s| ==> s[p] < n
    ensures |s| <= n
  {
    D.CardinalityOrder(D.Elems(s), D.Upto(n));
  }

  class StyleTable {
    var db: array<Style>
    var count: nat

    ghost predicate Valid()
      reads this
    {
      count <= db.Length
    }

    ghost function Table(): (r: seq<Style>)
      requires Valid()
      reads this, db
      ensures |r| == count
    {
      db[..count]
    }

    /** find_style. */
    method Find(name: string) returns (r: Option<nat>)
      requires Valid()
      ensures r == FindStyle(Table(), name)
    {
      if name == [] { return None; }
      var i := 0;
      while i < count
        invariant i <= count && forall j :: 0 <= j < i ==> db[j].name != name
      {
        if db[i].name == name {
          FindFirst(Table(), name, i);
          return Some(i);
        }
        i := i + 1;
      }
      r := None;
    }

    method Parent(i: nat) returns (r: Option<nat>)
      requires Valid() && i < count
      ensures r == ParentOf(Table(), i)
    {
      r := Find(db[i].parent);
      if r.None? && db[i].family != [] && !IsDefault(db[i].name) {
        r := Find(DEFAULT + db[i].family + "__");
      }
    }

    /** The walk up from an unresolved style, to a resolved one, to the end or to a style met
        before. */
    method Walk(i: nat) returns (chain: seq<nat>, curr: Option<nat>)
      requires Valid() && i < count && !db[i].resolved
      ensures IsChain(Table(), chain) && D.DistinctNats(chain) && chain != [] && chain[0] == i
      ensures Unresolved(Table(), chain, |chain|)
      ensures ParentOf(Table(), chain[|chain| - 1]) == curr
      ensures curr.Some? ==> curr.value < count && (db[curr.value].resolved || curr.value in chain)
    {
      hide ParentOf;
      chain, curr := [], Some(i);
      while curr.Some? && !db[curr.value].resolved
        invariant curr.Some? ==> curr.value < count
        invariant IsChain(Table(), chain) && D.DistinctNats(chain)
        invariant Unresolved(Table(), chain, |chain|)
        invariant if chain == [] then curr == Some(i)
                  else chain[0] == i && ParentOf(Table(), chain[|chain| - 1]) == curr
        decreases count - |chain|
      {
        if curr.value in chain { break; }
        Pigeonhole(chain + [curr.value], count);
        chain := chain + [curr.value];
        curr := Parent(curr.value);
      }
    }

    /** The merges back down the walk. */
    method Unwind(chain: seq<nat>, curr: Option<nat>, ghost was: seq<Style>)
      requires Valid() && Progress(was, Table()) && IsChain(was, chain) && D.DistinctNats(chain) && chain != []
      requires Unresolved(Table(), chain, |chain|) && ParentOf(was, chain[|chain| - 1]) == curr
      requires curr.Some? ==> curr.value < count && (db[curr.value].resolved || curr.value in chain)
      modifies db
      ensures Progress(was, Table()) && db[chain[0]].resolved && Kept(old(Table()), Table())
    {
      StartOfUnwind(was, Table(), chain, curr);
      var base: Attrs := if curr.Some? then db[curr.value].attrs else BLANK;
      hide Progress, BaseFor, ParentOf, Unresolved, Kept;
      var t := |chain|;
      while t > 0
        invariant 0 <= t <= |chain| && Progress(was, Table())
        invariant Unresolved(Table(), chain, t) && (t < |chain| ==> db[chain[t]].resolved)
        invariant BaseFor(was, if t < |chain| then Some(chain[t]) else curr, base)
        invariant Kept(old(Table()), Table())
      {
        t := t - 1;
        var j := chain[t];
        assert ParentOf(was, j) == if t + 1 < |chain| then Some(chain[t + 1]) else curr;
        ghost var before := Table();
        base := ResolveOne(j, base, was);
        StepUnwound(old(Table()), before, Table(), chain, t);
      }
    }

    /** merge_style and the flag, for one style. */
    method ResolveOne(j: nat, base: Attrs, ghost was: seq<Style>) returns (attrs: Attrs)
      requires Valid() && Progress(was, Table()) && j < count && !db[j].resolved && BaseFor(was, ParentOf(was, j), base)
      modifies db
      ensures Progress(was, Table()) && BaseFor(was, Some(j), attrs)
      ensures db[j].resolved && Table() == old(Table())[j := Table()[j]]
    {
      hide Progress, BaseFor, Merge, ParentOf;
      OneResolved(was, Table(), j, base);
      ghost var before := Table();
      attrs := Merge(base, db[j].attrs);
      db[j] := db[j].(attrs := attrs, resolved := true);
      assert Table() == before[j := db[j]];
    }

    method ResolveFrom(i: nat, ghost was: seq<Style>)
      requires Valid() && Progress(was, Table()) && i < count && !db[i].resolved
      modifies db
      ensures Progress(was, Table()) && db[i].resolved && Kept(old(Table()), Table())
    {
      var chain, curr := Walk(i);
      ProgressKeepsNames(was, Table());
      SameChain(was, Table(), chain);
      hide Progress, IsChain, ParentOf, Kept;
      Unwind(chain, curr, was);
    }

    /** resolve_all_styles, on a table read as `was` of which any part has been resolved before. It
        ends, even when parents form a cycle, with every style resolved; each style whose chain of
        ancestors ends has inherited, whatever the order of the table; and what was resolved
        already does not change, so that a second call does nothing. */
    method ResolveAll(ghost was: seq<Style>)
      requires Valid() && Progress(was, Table())
      modifies db
      ensures SameNames(was, Table()) && forall i :: 0 <= i < count ==> db[i].resolved
      ensures forall i: nat :: i < count && Grounded(was, i) ==> Inherits(was, i, db[i].attrs)
      ensures Kept(old(Table()), Table())
    {
      hide Inherits, Grounded;
      var i := 0;
      while i < count
        invariant 0 <= i <= count && Progress(was, Table()) && Kept(old(Table()), Table())
        invariant forall j :: 0 <= j < i ==> Table()[j].resolved
      {
        if !db[i].resolved {
          ghost var before := Table();
          ResolveFrom(i, was);
          KeptThrough(old(Table()), before, Table());
        }
        i := i + 1;
      }
    }

    /** The first call, on a table just read. */
    method ResolveFresh()
      requires Valid() && forall i :: 0 <= i < count ==> !db[i].resolved
      modifies db
      ensures SameNames(old(Table()), Table()) && forall i :: 0 <= i < count ==> db[i].resolved
      ensures forall i: nat :: i < count && Grounded(old(Table()), i) ==> Inherits(old(Table()), i, db[i].attrs)
    {
      NothingResolvedYet(Table());
      ResolveAll(Table());
    }
  }

  ghost predicate Unresolved(ss: seq<Style>, chain: seq<nat>, t: nat) {
    t <= |chain| && forall u :: 0 <= u < t ==> chain[u] < |ss| && !ss[chain[u]].resolved
  }

  /** What was resolved has not changed. */
  ghost predicate Kept(a: seq<Style>, b: seq<Style>) {
    |a| == |b| && forall j :: 0 <= j < |a| && a[j].resolved ==> b[j] == a[j]
  }

  lemma KeptThrough(a: seq<Style>, b: seq<Style>, c: seq<Style>)
    requires Kept(a, b) && Kept(b, c)
    ensures Kept(a, c)
  {
  }

  /** A table just read: the resolver may start. */
  lemma NothingResolvedYet(ss: seq<Style>)
    requires forall i :: 0 <= i < |ss| ==> !ss[i].resolved
    ensures Progress(ss, ss)
  {
  }

  lemma StepUnwound(first: seq<Style>, before: seq<Style>, now: seq<Style>, chain: seq<nat>, t: nat)
    requires t < |chain| && D.DistinctNats(chain) && Unresolved(before, chain, t + 1) && Kept(first, before)
    requires |now| == |before| && now == before[chain[t] := now[chain[t]]] && now[chain[t]].resolved
    ensures Unresolved(now, chain, t) && Kept(first, now)
  {
  }

  lemma FindFirst(ss: seq<Style>, name: string, i: nat)
    requires i < |ss| && ss[i].name == name != [] && forall j :: 0 <= j < i ==> ss[j].name != name
    ensures FindStyle(ss, name) == Some(i)
  {
  }

  lemma SameChain(was: seq<Style>, now: seq<Style>, chain: seq<nat>)
    requires SameNames(was, now) && IsChain(now, chain) && chain != []
    ensures IsChain(was, chain) && ParentOf(was, chain[|chain| - 1]) == ParentOf(now, chain[|chain| - 1])
  {
    forall t | 0 <= t < |chain| ensures ParentOf(was, chain[t]) == ParentOf(now, chain[t]) {
      SameParents(was, now, chain[t]);
    }
  }

  lemma StartOfUnwind(was: seq<Style>, now: seq<Style>, chain: seq<nat>, curr: Option<nat>)
    requires Progress(was, now) && IsChain(was, chain) && chain != [] && ParentOf(was, chain[|chain| - 1]) == curr
    requires curr.Some? ==> now[curr.value].resolved || curr.value in chain
    ensures BaseFor(was, curr, if curr.Some? then now[curr.value].attrs else BLANK)
  {
    if curr.Some? && curr.value in chain {
      WalkedInCircle(was, chain, curr.value);
      GroundedParent(was, chain[|chain| - 1]);
    }
  }

  // ----- the order of the table -----

  predicate DistinctNames(ss: seq<Style>) {
    forall i, j :: 0 <= i < j < |ss| ==> ss[i].name != ss[j].name
  }

  /** Two tables of the same, differently named styles. */
  ghost predicate Reordered(a: seq<Style>, b: seq<Style>) {
    DistinctNames(a) && DistinctNames(b) && forall s :: s in a <==> s in b
  }

  /** Both name the same style, or both none. */
  ghost predicate SameStyle(a: seq<Style>, b: seq<Style>, p: Option<nat>, q: Option<nat>) {
    if p.Some? then p.value < |a| && q.Some? && q.value < |b| && a[p.value] == b[q.value] else q.None?
  }

  lemma FindReordered(a: seq<Style>, b: seq<Style>, name: string)
    requires Reordered(a, b)
    ensures SameStyle(a, b, FindStyle(a, name), FindStyle(b, name))
  {
    var p, q := FindStyle(a, name), FindStyle(b, name);
    assert q.Some? ==> b[q.value] in a;
    if p.Some? {
      assert a[p.value] in b;
      var j :| 0 <= j < |b| && b[j] == a[p.value];
      FindFirst(b, name, j);
    }
  }

  lemma ParentReordered(a: seq<Style>, b: seq<Style>, i: nat, j: nat)
    requires Reordered(a, b) && i < |a| && j < |b| && a[i] == b[j]
    ensures SameStyle(a, b, ParentOf(a, i), ParentOf(b, j))
  {
    FindReordered(a, b, a[i].parent);
    FindReordered(a, b, DEFAULT + a[i].family + "__");
  }

  lemma {:induction false} UpReordered(a: seq<Style>, b: seq<Style>, i: nat, j: nat, n: nat)
    requires Reordered(a, b) && i < |a| && j < |b| && a[i] == b[j]
    ensures SameStyle(a, b, Up(a, i, n), Up(b, j, n))
    decreases n
  {
    if n > 0 {
      ParentReordered(a, b, i, j);
      if ParentOf(a, i).Some? { UpReordered(a, b, ParentOf(a, i).value, ParentOf(b, j).value, n - 1); }
    }
  }

  /** What a style inherits does not depend on the order of the table. */
  lemma OrderIsIrrelevant(a: seq<Style>, b: seq<Style>, i: nat, j: nat, x: Attrs, y: Attrs)
    requires Reordered(a, b) && i < |a| && j < |b| && a[i] == b[j]
    requires Inherits(a, i, x) && Inherits(b, j, y)
    ensures x == y
  {
    forall k: nat | k < SLOTS ensures x[k] == y[k] {
      FirstSetReordered(a, b, i, j, k, x[k]);
      FirstSetIsUnique(b, j, k, x[k], y[k]);
    }
  }

  lemma UnsetReordered(a: seq<Style>, b: seq<Style>, i: nat, j: nat, k: nat, n: nat)
    requires Reordered(a, b) && i < |a| && j < |b| && a[i] == b[j] && k < SLOTS && UnsetBelow(a, i, k, n)
    ensures UnsetBelow(b, j, k, n)
  {
    forall m: nat | m < n && Up(b, j, m).Some? ensures Unset(b[Up(b, j, m).value].attrs[k]) {
      UpReordered(a, b, i, j, m);
    }
  }

  lemma FirstSetReordered(a: seq<Style>, b: seq<Style>, i: nat, j: nat, k: nat, v: Attr)
    requires Reordered(a, b) && i < |a| && j < |b| && a[i] == b[j] && k < SLOTS && FirstSet(a, i, k, v)
    ensures FirstSet(b, j, k, v)
  {
    if n: nat :| SetAt(a, i, k, n, v) {
      UpReordered(a, b, i, j, n);
      UnsetReordered(a, b, i, j, k, n);
      assert SetAt(b, j, k, n, v);
    } else {
      forall n: nat ensures UnsetBelow(b, j, k, n) { UnsetReordered(a, b, i, j, k, n); }
    }
  }

  // ----- which values count, and which style is the parent -----

  /** A value counts as not given exactly when it is the empty, zero or false one of its kind; of a
      border only the style is looked at. */
  lemma UnsetExactly(a: Attr)
    ensures Unset(a) <==> if a.Border? then a.style == "" else
              a in {Text(""), Length(0.0), Level(0), Flag(false), Widths([])}
  {
  }

  /** Every attribute of a blank style counts as not given. */
  lemma BlankIsUnset(k: nat)
    requires k < 36
    ensures |BLANK| == 36 && Unset(BLANK[k])
  {
  }

  ghost predicate FirstNamed(ss: seq<Style>, p: Option<nat>, name: string) {
    if p.None? then forall j :: 0 <= j < |ss| ==> ss[j].name != name
    else p.value < |ss| && ss[p.value].name == name && forall j :: 0 <= j < p.value ==> ss[j].name != name
  }

  ghost predicate Contains(name: string, word: string) {
    exists a: string, b: string :: name == a + word + b
  }

  /** The parent is the first style of the name given. If there is none such, it is the default style
      of the family, unless the style has no family or is a default style itself. */
  lemma ParentExactly(ss: seq<Style>, i: nat)
    requires i < |ss|
    ensures
      var s, p := ss[i], ParentOf(ss, i);
      if s.parent != "" && exists j :: 0 <= j < |ss| && ss[j].name == s.parent then FirstNamed(ss, p, s.parent)
      else if s.family == "" || Contains(s.name, "__default_") then p.None?
      else FirstNamed(ss, p, "__default_" + s.family + "__")
  {
    DefaultNamesExactly(ss[i].name);
  }

  lemma DefaultNamesExactly(name: string)
    ensures IsDefault(name) <==> Contains(name, "__default_")
  {
    if i :| 0 <= i <= |name| && DefaultAt(name, i) {
      assert name == name[..i] + "__default_" + name[i + |DEFAULT|..];
    }
    if Contains(name, "__default_") {
      var a: string, b: string :| name == a + "__default_" + b;
      assert DefaultAt(name, |a|);
    }
  }
}
