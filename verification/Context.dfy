/**
 The variable context (src/vm/context.c): a list of entries, an index of them by name in the
 hash map, read-only variables, and loading from JSON. An entry is reached by a number standing
 for its address.
 */
module Context {
  import opened Values
  import opened Bytes
  import opened JsonText
  import H = HashMap

  datatype Cell = Cell(name: CString, value: Value)

  // ----- what the operations do to the bindings -----

  type Bindings = map<CString, Value>

  /** A read-only variable that is bound keeps its value. */
  function Bind(m: Bindings, readOnly: set<CString>, name: CString, v: Value): Bindings {
    if name in m && name in readOnly then m else m[name := v]
  }

  datatype Op = Set(name: CString, value: Value) | Remove(name: CString)

  function Apply(m: Bindings, readOnly: set<CString>, op: Op): Bindings {
    match op
    case Set(name, v) => Bind(m, readOnly, name, v)
    case Remove(name) => m - {name}
  }

  function ApplyAll(m: Bindings, readOnly: set<CString>, ops: seq<Op>): Bindings
    decreases |ops|
  {
    if ops == [] then m else ApplyAll(Apply(m, readOnly, ops[0]), readOnly, ops[1..])
  }

  lemma {:induction false} ApplyConcat(m: Bindings, readOnly: set<CString>, a: seq<Op>, b: seq<Op>)
    ensures ApplyAll(m, readOnly, a + b) == ApplyAll(ApplyAll(m, readOnly, a), readOnly, b)
    decreases |a|
  {
    if a == [] {
      assert a + b == b;
    } else {
      assert (a + b)[1..] == a[1..] + b;
      ApplyConcat(Apply(m, readOnly, a[0]), readOnly, a[1..], b);
    }
  }

  /** Through any operations but its removal a bound read-only variable keeps its value. */
  lemma {:induction false} ReadOnlyKeepsValue(m: Bindings, readOnly: set<CString>, ops: seq<Op>, name: CString)
    requires name in m && name in readOnly && forall k :: 0 <= k < |ops| ==> ops[k] != Remove(name)
    ensures var r := ApplyAll(m, readOnly, ops); name in r && r[name] == m[name]
    decreases |ops|
  {
    if ops != [] {
      assert ops[0] != Remove(name);
      ReadOnlyKeepsValue(Apply(m, readOnly, ops[0]), readOnly, ops[1..], name);
    }
  }

  /** Any other variable has the value it was last set to. */
  lemma {:induction false} LastSetWins(m: Bindings, readOnly: set<CString>, ops: seq<Op>, k: nat)
    requires k < |ops| && ops[k].Set? && ops[k].name !in readOnly
    requires forall j :: k < j < |ops| ==> ops[j].name != ops[k].name
    ensures var r := ApplyAll(m, readOnly, ops); ops[k].name in r && r[ops[k].name] == ops[k].value
    decreases |ops|
  {
    if k > 0 {
      LastSetWins(Apply(m, readOnly, ops[0]), readOnly, ops[1..], k - 1);
    } else {
      Untouched(Apply(m, readOnly, ops[0]), readOnly, ops[1..], ops[0].name);
    }
  }

  /** A name that is not bound can be set, read-only or not, and a removed one is not bound; no
      operation touches another name. */
  lemma OperationsExactly(m: Bindings, readOnly: set<CString>, op: Op, other: CString)
    ensures op.Set? && op.name !in m ==> Apply(m, readOnly, op) == m[op.name := op.value]
    ensures op.Set? && op.name in m && op.name !in readOnly ==> Apply(m, readOnly, op) == m[op.name := op.value]
    ensures op.Remove? ==> op.name !in Apply(m, readOnly, op)
    ensures other != op.name ==>
              (other in Apply(m, readOnly, op) <==> other in m) &&
              (other in m ==> Apply(m, readOnly, op)[other] == m[other])
  {
  }

  lemma {:induction false} Untouched(m: Bindings, readOnly: set<CString>, ops: seq<Op>, name: CString)
    requires forall j :: 0 <= j < |ops| ==> ops[j].name != name
    ensures var r := ApplyAll(m, readOnly, ops); (name in r <==> name in m) && (name in m ==> r[name] == m[name])
    decreases |ops|
  {
    if ops != [] {
      assert ops[0].name != name;
      Untouched(Apply(m, readOnly, ops[0]), readOnly, ops[1..], name);
    }
  }

  // ----- JSON as bindings -----

  /** A buffer read as a C string ends at its first NUL; its other chars are bytes. */
  function Terminated(s: string): (r: CString) {
    if s == [] || !(0 < s[0] as int < 256) then [] else var t: string := [s[0]] + Terminated(s[1..]); t
  }

  /** Numbers that are 32-bit integers load as INT, the others as FLOAT. */
  function NumberValue(x: real, bits: real -> bits64): Value {
    if INT_MIN <= x.Floor <= INT_MAX && x == x.Floor as real then IntV(x.Floor) else FloatV(bits(x))
  }

  /** An element that is null, an array or an object is left as the zero INT. */
  function ElementValue(j: Json, bits: real -> bits64): Value
  {
    match j
    case Number(x) => NumberValue(x, bits)
    case Bool(b) => BoolV(b)
    case Str(s) => StrV(Terminated(s))
    case _ => IntV(0)
  }

  function ArrayValue(items: seq<Json>, bits: real -> bits64): Value
  {
    ArrV(seq(|items|, i requires 0 <= i < |items| => ElementValue(items[i], bits)))
  }

  function Path(prefix: CString, key: CString): CString {
    if prefix == [] then key else prefix + "." + key
  }

  /** The settings of an object's leaves in document order, under their dotted paths. */
  function Flatten(ms: seq<Member>, prefix: CString, bits: real -> bits64): seq<Op>
    decreases ms
  {
    if ms == [] then [] else ChildOps(ms[0], prefix, bits) + Flatten(ms[1..], prefix, bits)
  }

  function ChildOps(m: Member, prefix: CString, bits: real -> bits64): seq<Op>
    decreases m
  {
    var path := Path(prefix, Terminated(m.key));
    match m.value
    case Obj(inner) => Flatten(inner, path, bits)
    case Arr(items) => [Set(path, ArrayValue(items, bits))]
    case Null => []
    case _ => [Set(path, ElementValue(m.value, bits))]
  }

  // ----- the context -----

  /** The index finds the entry under its own name. */
  ghost predicate Linked(index: map<CString, nat>, cells: map<nat, Cell>, id: nat) {
    id in cells && cells[id].name in index && index[cells[id].name] == id
  }

  /** The list and the index hold the same entries, each under its own name. */
  ghost predicate Agrees(index: map<CString, nat>, entries: seq<nat>, cells: map<nat, Cell>) {
    && (forall id :: id in entries ==> Linked(index, cells, id))
    && (forall i, j :: 0 <= i < j < |entries| ==> entries[i] != entries[j])
    && (forall name :: name in index ==> index[name] in entries && cells[index[name]].name == name)
  }

  ghost function BindingsOf(index: map<CString, nat>, entries: seq<nat>, cells: map<nat, Cell>): Bindings
    requires Agrees(index, entries, cells)
  {
    map name | name in index :: cells[index[name]].value
  }

  lemma AgreesOverwritten(index: map<CString, nat>, entries: seq<nat>, cells: map<nat, Cell>, name: CString, v: Value)
    requires Agrees(index, entries, cells) && name in index
    ensures var cells' := cells[index[name] := Cell(name, v)];
            Agrees(index, entries, cells')
              && BindingsOf(index, entries, cells') == BindingsOf(index, entries, cells)[name := v]
  {
    hide IsCString;
    var cells' := cells[index[name] := Cell(name, v)];
    forall id | id in entries ensures Linked(index, cells', id) {
      assert Linked(index, cells, id);
    }
    forall n | n in index && n != name ensures index[n] != index[name] {
      assert cells[index[n]].name == n;
    }
  }

  lemma AgreesPrepended(index: map<CString, nat>, entries: seq<nat>, cells: map<nat, Cell>, id: nat,
      name: CString, v: Value)
    requires Agrees(index, entries, cells) && name !in index && id !in cells
    ensures var index', entries', cells' := index[name := id], [id] + entries, cells[id := Cell(name, v)];
            && Agrees(index', entries', cells')
            && BindingsOf(index', entries', cells') == BindingsOf(index, entries, cells)[name := v]
  {
    hide IsCString;
    var index', entries', cells' := index[name := id], [id] + entries, cells[id := Cell(name, v)];
    assert entries'[0] == id;
    forall x | x in entries' ensures Linked(index', cells', x) {
      if x in entries { assert Linked(index, cells, x); }
    }
    forall i | 0 <= i < |entries| ensures entries[i] != id { assert Linked(index, cells, entries[i]); }
    forall n | n in index ensures index[n] in entries' && index[n] != id {
      assert Linked(index, cells, index[n]);
      assert index[n] in entries;
    }
  }

  lemma Without(entries: seq<nat>, k: nat)
    requires k < |entries| && forall i, j :: 0 <= i < j < |entries| ==> entries[i] != entries[j]
    ensures var r := entries[..k] + entries[k + 1..];
            && (forall i, j :: 0 <= i < j < |r| ==> r[i] != r[j])
            && forall x :: x in r <==> x in entries && x != entries[k]
  {
    var r := entries[..k] + entries[k + 1..];
    forall x | x in entries && x != entries[k] ensures x in r {
      var i :| 0 <= i < |entries| && entries[i] == x;
      assert r[if i < k then i else i - 1] == x;
    }
    forall x | x in r ensures x in entries && x != entries[k] {
      var i :| 0 <= i < |r| && r[i] == x;
      assert entries[if i < k then i else i + 1] == x;
    }
  }

  lemma AgreesUnlinked(index: map<CString, nat>, entries: seq<nat>, cells: map<nat, Cell>, k: nat)
    requires Agrees(index, entries, cells) && k < |entries|
    ensures Linked(index, cells, entries[k])
    ensures var name := cells[entries[k]].name;
            var index', entries' := index - {name}, entries[..k] + entries[k + 1..];
            Agrees(index', entries', cells)
              && BindingsOf(index', entries', cells) == BindingsOf(index, entries, cells) - {name}
  {
    hide IsCString;
    Without(entries, k);
    assert Linked(index, cells, entries[k]);
    var name := cells[entries[k]].name;
    var index', entries' := index - {name}, entries[..k] + entries[k + 1..];
    forall id | id in entries' ensures Linked(index', cells, id) { assert Linked(index, cells, id); }
  }

  /** A name the list does not have is not in the index either. */
  lemma NotListed(index: map<CString, nat>, entries: seq<nat>, cells: map<nat, Cell>, name: CString)
    requires Agrees(index, entries, cells)
    requires forall i :: 0 <= i < |entries| ==> entries[i] in cells && cells[entries[i]].name != name
    ensures name !in index
  {
  }

  /** The list without its k-th entry. */
  function Unlisted(entries: seq<nat>, k: nat): seq<nat> {
    if k < |entries| then entries[..k] + entries[k + 1..] else entries
  }

  lemma AgreesRemoved(index: map<CString, nat>, entries: seq<nat>, cells: map<nat, Cell>, k: nat, name: CString)
    requires Agrees(index, entries, cells)
    requires if k < |entries| then entries[k] in cells && cells[entries[k]].name == name else name !in index
    ensures Agrees(index - {name}, Unlisted(entries, k), cells)
    ensures BindingsOf(index - {name}, Unlisted(entries, k), cells) == BindingsOf(index, entries, cells) - {name}
    ensures (name in index <==> name in BindingsOf(index, entries, cells)) && (name in index <==> k < |entries|)
  {
    hide IsCString;
    if k < |entries| {
      AgreesUnlinked(index, entries, cells, k);
    } else {
      assert index - {name} == index;
    }
  }

  class Store {
    const readOnly: set<CString>
    const index: H.HashMap<nat>
    var entries: seq<nat>
    var cells: map<nat, Cell>
    var nextCell: nat

    ghost predicate Valid()
      reads this, index, index.buckets
    {
      index.Valid() && Agrees(index.contents, entries, cells) && forall k :: k in cells ==> k < nextCell
    }

    ghost function Bound(): Bindings
      requires Valid()
      reads this, index, index.buckets
    {
      BindingsOf(index.contents, entries, cells)
    }

    constructor (readOnly: set<CString>)
      ensures Valid() && fresh(index) && fresh(index.buckets) && Bound() == map[] && this.readOnly == readOnly
    {
      this.readOnly := readOnly;
      index := new H.HashMap<nat>(64);
      entries, cells, nextCell := [], map[], 0;
    }

    /** The setters: an entry found by name is overwritten in place unless it is read-only; a new
        one goes to the head of the list and into the index. */
    method Put(name: CString, v: Value)
      requires Valid()
      modifies this, index, index.buckets
      ensures Valid() && fresh({index.buckets} - {old(index.buckets)})
      ensures Bound() == Bind(old(Bound()), readOnly, name, v)
    {
      var found := index.Get(name);
      hide H.HashMap.Valid, IsCString;
      if found.Some? {
        if name in readOnly { return; }
        AgreesOverwritten(index.contents, entries, cells, name, v);
        cells := cells[found.value := Cell(name, v)];
      } else {
        Insert(name, v);
      }
    }

    /** A new entry at the head of the list and in the index. */
    method Insert(name: CString, v: Value)
      requires Valid() && name !in index.contents
      modifies this, index, index.buckets
      ensures Valid() && fresh({index.buckets} - {old(index.buckets)})
      ensures Bound() == old(Bound())[name := v]
    {
      var id := nextCell;
      ghost var was := Bound();
      AgreesPrepended(index.contents, entries, cells, id, name, v);
      hide H.HashMap.Valid, IsCString, Agrees, BindingsOf;
      nextCell := nextCell + 1;
      cells := cells[id := Cell(name, v)];
      entries := [id] + entries;
      index.Put(name, id);
      assert Bound() == was[name := v];
    }

    /** The search along the list. */
    method Position(name: CString) returns (k: nat)
      requires Valid()
      ensures k < |entries| ==> entries[k] in cells && cells[entries[k]].name == name
      ensures k >= |entries| ==> name !in index.contents
    {
      hide H.HashMap.Valid;
      assert forall i :: 0 <= i < |entries| ==> Linked(index.contents, cells, entries[i]);
      k := 0;
      while k < |entries| && cells[entries[k]].name != name
        invariant k <= |entries| && forall j :: 0 <= j < k ==> cells[entries[j]].name != name
      {
        k := k + 1;
      }
      if k == |entries| { NotListed(index.contents, entries, cells, name); }
    }

    /** cdsl_context_remove unbinds the name, read-only or not. */
    method Delete(name: CString) returns (found: bool)
      requires Valid()
      modifies this, index, index.buckets
      ensures Valid() && index.buckets == old(index.buckets)
      ensures found == (name in old(Bound())) && Bound() == Apply(old(Bound()), readOnly, Remove(name))
    {
      var k := Position(name);
      found := k < |entries|;
      ghost var names, list, was := index.contents, entries, Bound();
      AgreesRemoved(names, list, cells, k, name);
      hide H.HashMap.Valid, Agrees, BindingsOf, Unlisted, IsCString;
      assert BindingsOf(names - {name}, Unlisted(list, k), cells) == was - {name};
      Unlink(name, k);
      assert Bound() == was - {name};
    }

    /** The two removals: from the index, then from the list. */
    method Unlink(name: CString, k: nat)
      requires Valid() && Agrees(index.contents - {name}, Unlisted(entries, k), cells)
      modifies this`entries, index, index.buckets
      ensures Valid() && index.buckets == old(index.buckets)
      ensures index.contents == old(index.contents) - {name} && entries == Unlisted(old(entries), k)
    {
      hide H.HashMap.Valid, Agrees, Unlisted, IsCString;
      var _ := index.Remove(name);
      entries := Unlisted(entries, k);
    }

    /** load_json_recursive sets the object's leaves in document order. */
    method Load(ms: seq<Member>, prefix: CString, bits: real -> bits64)
      requires Valid()
      modifies this, index, index.buckets
      ensures Valid() && fresh({index.buckets} - {old(index.buckets)})
      ensures Bound() == ApplyAll(old(Bound()), readOnly, Flatten(ms, prefix, bits))
      decreases ms
    {
      hide Agrees, BindingsOf, ChildOps, ApplyAll, H.HashMap.Valid;
      ghost var start := Bound();
      assert ms[0..] == ms;
      var i := 0;
      while i < |ms|
        invariant i <= |ms| && Valid() && fresh({index.buckets} - {old(index.buckets)})
        invariant ApplyAll(Bound(), readOnly, Flatten(ms[i..], prefix, bits)) ==
                  ApplyAll(start, readOnly, Flatten(ms, prefix, bits))
      {
        FlattenOne(Bound(), readOnly, ms[i..], prefix, bits);
        assert ms[i..][1..] == ms[i + 1..];
        LoadChild(ms[i], prefix, bits);
        i := i + 1;
      }
      NothingToApply(Bound(), readOnly);
    }

    /** One child of the object: a nested object extends the path, null is passed over. */
    method LoadChild(m: Member, prefix: CString, bits: real -> bits64)
      requires Valid()
      modifies this, index, index.buckets
      ensures Valid() && fresh({index.buckets} - {old(index.buckets)})
      ensures Bound() == ApplyAll(old(Bound()), readOnly, ChildOps(m, prefix, bits))
      decreases m
    {
      hide Agrees, BindingsOf, H.HashMap.Valid;
      var child := m.value;
      var key := Path(prefix, Terminated(m.key));
      hide Path, Terminated, ArrayValue, ElementValue, IsCString;
      if child.Obj? {
        Load(child.members, key, bits);
      } else if child.Arr? {
        ApplyOne(Bound(), readOnly, Set(key, ArrayValue(child.items, bits)));
        Put(key, ArrayValue(child.items, bits));
      } else if child != Null {
        ApplyOne(Bound(), readOnly, Set(key, ElementValue(child, bits)));
        Put(key, ElementValue(child, bits));
      }
    }
  }

  lemma NothingToApply(m: Bindings, readOnly: set<CString>)
    ensures ApplyAll(m, readOnly, []) == m
  {
  }

  lemma ApplyOne(m: Bindings, readOnly: set<CString>, op: Op)
    ensures ApplyAll(m, readOnly, [op]) == Apply(m, readOnly, op)
  {
    assert [op][1..] == [];
  }

  lemma FlattenOne(m: Bindings, readOnly: set<CString>, ms: seq<Member>, prefix: CString, bits: real -> bits64)
    requires ms != []
    ensures ApplyAll(m, readOnly, Flatten(ms, prefix, bits)) ==
            ApplyAll(ApplyAll(m, readOnly, ChildOps(ms[0], prefix, bits)), readOnly, Flatten(ms[1..], prefix, bits))
  {
    ApplyConcat(m, readOnly, ChildOps(ms[0], prefix, bits), Flatten(ms[1..], prefix, bits));
  }

  // ----- what loading binds -----

  lemma {:induction false} TerminatedIsWhole(s: CString)
    ensures Terminated(s) == s
  {
    if s != [] {
      assert 0 < s[0] as int < 256;
      TerminatedIsWhole(s[1..]);
      assert s == [s[0]] + s[1..];
    }
  }

  /** The names from an object down to a leaf, with a dot between them. */
  function Dotted(keys: seq<CString>): CString
    requires keys != []
  {
    if |keys| == 1 then keys[0] else keys[0] + "." + Dotted(keys[1..])
  }

  /** The leaf inside objects of one member each. */
  function Nested(keys: seq<CString>, leaf: Json): Json {
    if keys == [] then leaf else Obj([Member(keys[0], Nested(keys[1..], leaf))])
  }

  ghost predicate Equals(n: int, x: real) { n as real == x }

  /** The value a number, a BOOL or a string binds: an INT if it is a 32-bit integer. */
  ghost predicate LoadsScalar(leaf: Json, bits: real -> bits64, v: Value) {
    match leaf
    case Number(x) =>
      if v.IntV? then Equals(v.i, x)
      else v == FloatV(bits(x)) && forall n: int :: -0x8000_0000 <= n < 0x8000_0000 ==> !Equals(n, x)
    case Bool(b) => v == BoolV(b)
    case Str(s) => v.StrV? && (IsCString(s) ==> v.s == s)
    case _ => false
  }

  predicate IsScalar(j: Json) { j.Number? || j.Bool? || j.Str? }

  /** The value a leaf binds. */
  ghost predicate Loads(leaf: Json, bits: real -> bits64, v: Value) {
    if leaf.Arr? then
      v.ArrV? && |v.items| == |leaf.items| &&
      forall k :: 0 <= k < |v.items| ==>
        if IsScalar(leaf.items[k]) then LoadsScalar(leaf.items[k], bits, v.items[k]) else v.items[k] == IntV(0)
    else LoadsScalar(leaf, bits, v)
  }

  lemma ScalarLoads(leaf: Json, bits: real -> bits64)
    requires IsScalar(leaf)
    ensures LoadsScalar(leaf, bits, ElementValue(leaf, bits))
  {
    if leaf.Str? && IsCString(leaf.s) { TerminatedIsWhole(leaf.s); }
  }

  lemma LeafLoads(m: Member, prefix: CString, bits: real -> bits64)
    requires !m.value.Obj?
    ensures m.value.Null? ==> ChildOps(m, prefix, bits) == []
    ensures !m.value.Null? ==>
              exists v :: Loads(m.value, bits, v) &&
                          ChildOps(m, prefix, bits) == [Set(Path(prefix, Terminated(m.key)), v)]
  {
    hide Terminated;
    if m.value.Arr? {
      var items := m.value.items;
      forall k | 0 <= k < |items| && IsScalar(items[k])
        ensures LoadsScalar(items[k], bits, ElementValue(items[k], bits))
      {
        ScalarLoads(items[k], bits);
      }
      assert Loads(m.value, bits, ArrayValue(items, bits));
    } else if !m.value.Null? {
      ScalarLoads(m.value, bits);
      assert Loads(m.value, bits, ElementValue(m.value, bits));
    }
  }

  lemma OnlyMember(m: Member, prefix: CString, bits: real -> bits64)
    requires m.key != [] && IsCString(m.key)
    ensures
      var path: CString := if prefix == [] then m.key else prefix + "." + m.key;
      && Path(prefix, Terminated(m.key)) == path
      && Flatten([m], prefix, bits) ==
         if m.value.Obj? then Flatten(m.value.members, path, bits) else ChildOps(m, prefix, bits)
  {
    TerminatedIsWhole(m.key);
    assert [m][1..] == [] && Flatten([], prefix, bits) == [];
    hide Terminated;
    assert ChildOps(m, prefix, bits) + [] == ChildOps(m, prefix, bits);
  }

  /** A leaf is bound under the names of the objects around it and its own, joined by dots. */
  lemma {:induction false} LeavesHaveDottedNames(keys: seq<CString>, leaf: Json, prefix: CString, bits: real -> bits64)
    requires keys != [] && !leaf.Obj? && !leaf.Null? && forall k :: 0 <= k < |keys| ==> keys[k] != []
    ensures exists v :: Loads(leaf, bits, v) &&
              Flatten(Nested(keys, leaf).members, prefix, bits)
              == [Set(if prefix == [] then Dotted(keys) else prefix + "." + Dotted(keys), v)]
    decreases |keys|
  {
    hide Loads, Flatten, ChildOps, Path, Terminated;
    var m := Member(keys[0], Nested(keys[1..], leaf));
    var path := if prefix == [] then keys[0] else prefix + "." + keys[0];
    OnlyMember(m, prefix, bits);
    if |keys| == 1 {
      assert keys[1..] == [];
      LeafLoads(m, prefix, bits);
    } else {
      LeavesHaveDottedNames(keys[1..], leaf, path, bits);
      var v :| Loads(leaf, bits, v) &&
               Flatten(Nested(keys[1..], leaf).members, path, bits) == [Set(path + "." + Dotted(keys[1..]), v)];
      assert path + "." + Dotted(keys[1..]) == if prefix == [] then Dotted(keys) else prefix + "." + Dotted(keys);
    }
  }
}
