/**
 The chained hash map (src/util/hashmap.c) against a finite map. A bucket's chain is the
 sequence of its entries from the head on.
 */
module HashMap {
  import opened Values
  import opened Bytes

  const MAX_BUCKETS := 0x10_0000
  const MIN_BUCKETS := 64
  const WORD := 0x1_0000_0000

  datatype Entry<V> = Entry(key: CString, value: V)

  /** The djb2 hash before any wrapping. */
  function Djb2(key: CString): nat {
    if key == [] then 5381 else 33 * Djb2(key[..|key| - 1]) + key[|key| - 1] as nat
  }

  /** The bucket a key belongs in. */
  function Home(key: CString, buckets: nat): (r: nat)
    requires buckets > 0
    ensures r < buckets
  {
    (Djb2(key) % WORD) % buckets
  }

  /** hash_string: every shift and addition wraps to 32 bits. */
  method HashString(key: CString, buckets: nat) returns (r: nat)
    requires buckets > 0
    ensures r == Home(key, buckets)
  {
    var h := 5381;
    var i := 0;
    while i < |key|
      invariant i <= |key| && h == Djb2(key[..i]) % WORD
    {
      ghost var exact := Djb2(key[..i]);
      assert key[..i + 1][..i] == key[..i];
      Wraps(exact, key[i] as nat);
      h := ((h * 32 % WORD + h) % WORD + key[i] as nat) % WORD;
      i := i + 1;
    }
    assert key[..i] == key;
    r := h % buckets;
  }

  lemma Wraps(x: nat, c: nat)
    ensures var h := x % WORD; ((h * 32 % WORD + h) % WORD + c) % WORD == (33 * x + c) % WORD
  {
    var h, q := x % WORD, x / WORD;
    var a := h * 32 % WORD;
    var b := (a + h) % WORD;
    assert h * 32 == WORD * (h * 32 / WORD) + a;
    assert a + h == WORD * ((a + h) / WORD) + b;
    assert 33 * x + c == WORD * (33 * q + h * 32 / WORD + (a + h) / WORD) + (b + c);
    ModuloMultiple(33 * q + h * 32 / WORD + (a + h) / WORD, b + c);
  }

  lemma ModuloMultiple(k: int, y: int)
    ensures (WORD * k + y) % WORD == y % WORD
  {
  }

  // ----- tables -----

  ghost predicate DistinctKeys<V>(chain: seq<Entry<V>>) {
    forall j, k :: 0 <= j < k < |chain| ==> chain[j].key != chain[k].key
  }

  /** Every entry is in its own bucket, under a key no other entry of the bucket has. */
  ghost predicate Homed<V>(bs: seq<seq<Entry<V>>>) {
    && |bs| > 0
    && (forall i :: 0 <= i < |bs| ==> DistinctKeys(bs[i]))
    && (forall i, e :: 0 <= i < |bs| && e in bs[i] ==> Home(e.key, |bs|) == i)
  }

  ghost predicate Bound<V(!new)>(m: map<CString, V>, e: Entry<V>) {
    e.key in m && m[e.key] == e.value
  }

  /** The table holds the bindings of the map and nothing else. */
  ghost predicate Represents<V(!new)>(bs: seq<seq<Entry<V>>>, m: map<CString, V>) {
    Homed(bs) && forall e: Entry<V> :: e in bs[Home(e.key, |bs|)] <==> Bound(m, e)
  }

  function Total<V>(bs: seq<seq<Entry<V>>>): nat {
    if bs == [] then 0 else Total(bs[..|bs| - 1]) + |bs[|bs| - 1]|
  }

  lemma {:induction false} TotalUpdate<V>(bs: seq<seq<Entry<V>>>, i: nat, c: seq<Entry<V>>)
    requires i < |bs|
    ensures Total(bs[i := c]) == Total(bs) - |bs[i]| + |c|
  {
    var n := |bs| - 1;
    if i < n {
      TotalUpdate(bs[..n], i, c);
      assert bs[i := c][..n] == bs[..n][i := c];
    } else {
      assert bs[i := c][..n] == bs[..n];
    }
  }

  /** A chain may change as long as it holds the bindings of its own bucket and the map changes
      nowhere else. */
  lemma ChainReplaced<V(!new)>(bs: seq<seq<Entry<V>>>, m: map<CString, V>, i: nat, c: seq<Entry<V>>,
      m': map<CString, V>)
    requires Represents(bs, m) && i < |bs| && DistinctKeys(c)
    requires forall e :: e in c ==> Home(e.key, |bs|) == i
    requires forall e: Entry<V> :: Home(e.key, |bs|) == i ==> (e in c <==> Bound(m', e))
    requires forall e: Entry<V> :: Home(e.key, |bs|) != i ==> (Bound(m, e) <==> Bound(m', e))
    ensures Represents(bs[i := c], m') && Total(bs[i := c]) == Total(bs) - |bs[i]| + |c|
  {
    TotalUpdate(bs, i, c);
  }

  /** Prepending an entry whose key the table lacks adds its binding. */
  lemma Prepended<V(!new)>(bs: seq<seq<Entry<V>>>, m: map<CString, V>, e: Entry<V>)
    requires Represents(bs, m) && e.key !in m
    ensures var i := Home(e.key, |bs|);
            Represents(bs[i := [e] + bs[i]], m[e.key := e.value]) && Total(bs[i := [e] + bs[i]]) == Total(bs) + 1
  {
    var i := Home(e.key, |bs|);
    var m' := m[e.key := e.value];
    forall x | x in bs[i] ensures x.key != e.key { assert Bound(m, x); }
    forall x: Entry<V> | Home(x.key, |bs|) == i ensures x in [e] + bs[i] <==> Bound(m', x) {
      assert x in bs[i] <==> Bound(m, x);
    }
    forall x: Entry<V> | Home(x.key, |bs|) != i ensures Bound(m, x) <==> Bound(m', x) {
    }
    ChainReplaced(bs, m, i, [e] + bs[i], m');
  }

  lemma ChainOverwritten<V>(c: seq<Entry<V>>, j: nat, v: V)
    requires DistinctKeys(c) && j < |c|
    ensures var c' := c[j := Entry(c[j].key, v)];
            && DistinctKeys(c')
            && forall x :: x in c' <==> x == Entry(c[j].key, v) || (x.key != c[j].key && x in c)
  {
    var c' := c[j := Entry(c[j].key, v)];
    forall x ensures x in c' <==> x == Entry(c[j].key, v) || (x.key != c[j].key && x in c) {
      if x == Entry(c[j].key, v) { assert c'[j] == x; }
      if x.key != c[j].key && x in c {
        var k :| 0 <= k < |c| && c[k] == x;
        assert c'[k] == x;
      }
    }
  }

  /** Overwriting an entry in place rebinds its key. */
  lemma Overwritten<V(!new)>(bs: seq<seq<Entry<V>>>, m: map<CString, V>, i: nat, j: nat, v: V)
    requires Represents(bs, m) && i < |bs| && j < |bs[i]|
    ensures var k := bs[i][j].key;
            var bs' := bs[i := bs[i][j := Entry(k, v)]];
            k in m && Represents(bs', m[k := v]) && Total(bs') == Total(bs)
  {
    var k := bs[i][j].key;
    var c, m' := bs[i][j := Entry(k, v)], m[k := v];
    assert bs[i][j] in bs[i] && Bound(m, bs[i][j]);
    ChainOverwritten(bs[i], j, v);
    forall x: Entry<V> | Home(x.key, |bs|) == i ensures x in c <==> Bound(m', x) {
      assert x in bs[i] <==> Bound(m, x);
    }
    forall x: Entry<V> | Home(x.key, |bs|) != i ensures Bound(m, x) <==> Bound(m', x) {
    }
    ChainReplaced(bs, m, i, c, m');
  }

  lemma ChainUnlinked<V>(c: seq<Entry<V>>, j: nat)
    requires DistinctKeys(c) && j < |c|
    ensures var c' := c[..j] + c[j + 1..];
            DistinctKeys(c') && forall x :: x in c' <==> x.key != c[j].key && x in c
  {
    var c' := c[..j] + c[j + 1..];
    forall x | x in c' ensures x.key != c[j].key && x in c {
      var k :| 0 <= k < |c'| && c'[k] == x;
      assert x == c[if k < j then k else k + 1];
    }
    forall x: Entry<V> | x.key != c[j].key && x in c ensures x in c' {
      var k :| 0 <= k < |c| && c[k] == x;
      assert c'[if k < j then k else k - 1] == x;
    }
  }

  /** Unlinking an entry removes its key. */
  lemma Unlinked<V(!new)>(bs: seq<seq<Entry<V>>>, m: map<CString, V>, i: nat, j: nat)
    requires Represents(bs, m) && i < |bs| && j < |bs[i]|
    ensures var k := bs[i][j].key;
            var bs' := bs[i := bs[i][..j] + bs[i][j + 1..]];
            k in m && Represents(bs', m - {k}) && Total(bs') == Total(bs) - 1
  {
    var k := bs[i][j].key;
    var c, m' := bs[i][..j] + bs[i][j + 1..], m - {k};
    assert bs[i][j] in bs[i] && Bound(m, bs[i][j]);
    ChainUnlinked(bs[i], j);
    forall x: Entry<V> | Home(x.key, |bs|) == i ensures x in c <==> Bound(m', x) {
      assert x in bs[i] <==> Bound(m, x);
    }
    forall x: Entry<V> | Home(x.key, |bs|) != i ensures Bound(m, x) <==> Bound(m', x) {
    }
    ChainReplaced(bs, m, i, c, m');
  }

  /** A table represents one map only. */
  lemma RepresentsOne<V(!new)>(bs: seq<seq<Entry<V>>>, m: map<CString, V>, m': map<CString, V>)
    requires Represents(bs, m) && Represents(bs, m')
    ensures m == m'
  {
    forall k ensures k in m <==> k in m' {
      if k in m { assert Bound(m, Entry(k, m[k])); assert Bound(m', Entry(k, m[k])); }
      if k in m' { assert Bound(m', Entry(k, m'[k])); assert Bound(m, Entry(k, m'[k])); }
    }
    forall k | k in m ensures m[k] == m'[k] {
      assert Bound(m, Entry(k, m[k]));
      assert Bound(m', Entry(k, m[k]));
    }
  }

  /** The load factor stays at three quarters unless doubling would pass the greatest size. */
  predicate LoadBounded(size: nat, buckets: nat) {
    4 * size <= 3 * buckets || 2 * buckets > MAX_BUCKETS
  }

  // ----- rehashing -----

  /** What has been moved when the first i chains and the first j entries of chain i have been. */
  ghost predicate Moved<V(!new)>(chains: seq<seq<Entry<V>>>, contents: map<CString, V>, i: nat, j: nat,
      m: map<CString, V>)
    requires i <= |chains| && (if i < |chains| then j <= |chains[i]| else j == 0) && |chains| > 0
  {
    forall e: Entry<V> :: Bound(m, e) <==>
      Bound(contents, e) && (Home(e.key, |chains|) < i || (i < |chains| && e in chains[i][..j]))
  }

  lemma MoveOne<V(!new)>(chains: seq<seq<Entry<V>>>, contents: map<CString, V>, i: nat, j: nat, m: map<CString, V>)
    requires Represents(chains, contents) && i < |chains| && j < |chains[i]| && Moved(chains, contents, i, j, m)
    ensures var e := chains[i][j];
            e.key !in m && Moved(chains, contents, i, j + 1, m[e.key := e.value])
  {
    var e := chains[i][j];
    var m' := m[e.key := e.value];
    assert e in chains[i] && Bound(contents, e);
    if e.key in m { assert Bound(m, Entry(e.key, m[e.key])); }
    assert chains[i][..j + 1] == chains[i][..j] + [e];
    forall x: Entry<V> ensures Bound(m', x) <==>
      Bound(contents, x) && (Home(x.key, |chains|) < i || x in chains[i][..j + 1])
    {
      assert Bound(m, x) <==> Bound(contents, x) && (Home(x.key, |chains|) < i || x in chains[i][..j]);
    }
  }

  lemma NextChain<V(!new)>(chains: seq<seq<Entry<V>>>, contents: map<CString, V>, i: nat, m: map<CString, V>)
    requires Represents(chains, contents) && i < |chains| && Moved(chains, contents, i, |chains[i]|, m)
    ensures Moved(chains, contents, i + 1, 0, m)
  {
    assert chains[i][..|chains[i]|] == chains[i];
    forall x: Entry<V> | Bound(contents, x) ensures Home(x.key, |chains|) == i <==> x in chains[i] {
    }
  }

  lemma AllMoved<V(!new)>(chains: seq<seq<Entry<V>>>, contents: map<CString, V>, m: map<CString, V>)
    requires |chains| > 0 && Moved(chains, contents, |chains|, 0, m)
    ensures m == contents
  {
    forall k ensures k in m <==> k in contents {
      if k in m { assert Bound(m, Entry(k, m[k])); }
      if k in contents { assert Bound(m, Entry(k, contents[k])); }
    }
    forall k | k in m ensures m[k] == contents[k] { assert Bound(m, Entry(k, m[k])); }
  }

  /** The inner loop of rehash_internal: every entry of one chain goes to the head of its new one. */
  method MoveChain<V(!new)>(chain: seq<Entry<V>>, doubled: array<seq<Entry<V>>>,
      ghost chains: seq<seq<Entry<V>>>, ghost contents: map<CString, V>, ghost i: nat, ghost m: map<CString, V>)
    returns (ghost m': map<CString, V>)
    requires Represents(chains, contents) && i < |chains| && chain == chains[i] && Moved(chains, contents, i, 0, m)
    requires Represents(doubled[..], m) && Total(doubled[..]) == |m|
    modifies doubled
    ensures Represents(doubled[..], m') && Total(doubled[..]) == |m'| && Moved(chains, contents, i, |chain|, m')
  {
    hide Represents, Moved, Total;
    m' := m;
    assert doubled.Length > 0 by { NotEmpty(doubled[..], m); }
    var j := 0;
    while j < |chain|
      invariant j <= |chain| && Moved(chains, contents, i, j, m')
      invariant Represents(doubled[..], m') && Total(doubled[..]) == |m'|
    {
      var e := chain[j];
      var idx := HashString(e.key, doubled.Length);
      MoveOne(chains, contents, i, j, m');
      Prepended(doubled[..], m', e);
      ghost var was := doubled[..];
      doubled[idx] := [e] + doubled[idx];
      assert doubled[..] == was[idx := [e] + was[idx]];
      m' := m'[e.key := e.value];
      j := j + 1;
    }
  }

  lemma NotEmpty<V(!new)>(bs: seq<seq<Entry<V>>>, m: map<CString, V>)
    requires Represents(bs, m)
    ensures |bs| > 0
  {
  }

  class HashMap<V(!new)> {
    var buckets: array<seq<Entry<V>>>
    var size: nat
    ghost var contents: map<CString, V>

    ghost predicate Valid()
      reads this, buckets
    {
      && Represents(buckets[..], contents)
      && size == Total(buckets[..]) == |contents|
      && LoadBounded(size, buckets.Length)
    }

    /** cdsl_hashmap_create. */
    constructor (bucketCount: int)
      ensures Valid() && contents == map[] && fresh(buckets)
      ensures buckets.Length == if bucketCount > 0 then bucketCount else 64
    {
      var n := if bucketCount > 0 then bucketCount else MIN_BUCKETS;
      buckets := new seq<Entry<V>>[n](_ => []);
      size, contents := 0, map[];
      new;
      NoEntries(buckets[..]);
    }

    /** The position of the key in its chain. */
    method Search(key: CString) returns (i: nat, j: nat)
      requires Valid()
      ensures i == Home(key, buckets.Length) && j <= |buckets[i]|
      ensures j < |buckets[i]| ==> key in contents && buckets[i][j] == Entry(key, contents[key])
      ensures j == |buckets[i]| ==> key !in contents
    {
      i := HashString(key, buckets.Length);
      j := 0;
      while j < |buckets[i]|
        invariant j <= |buckets[i]| && forall k :: 0 <= k < j ==> buckets[i][k].key != key
      {
        if buckets[i][j].key == key {
          assert Bound(contents, buckets[i][j]);
          return;
        }
        j := j + 1;
      }
      if key in contents { assert Bound(contents, Entry(key, contents[key])); }
    }

    /** cdsl_hashmap_get. */
    method Get(key: CString) returns (r: Option<V>)
      requires Valid()
      ensures r == if key in contents then Some(contents[key]) else None
    {
      var i, j := Search(key);
      if j < |buckets[i]| { r := Some(buckets[i][j].value); } else { r := None; }
    }

    /** rehash_internal: twice the buckets, the same bindings; false, and nothing changed, when
        that would pass the greatest size. */
    method Rehash() returns (ok: bool)
      requires Represents(buckets[..], contents) && size == Total(buckets[..]) == |contents|
      modifies this`buckets
      ensures Represents(buckets[..], contents) && size == Total(buckets[..])
      ensures ok <==> 2 * old(buckets.Length) <= MAX_BUCKETS
      ensures if ok then fresh(buckets) && buckets.Length == 2 * old(buckets.Length) else buckets == old(buckets)
    {
      var n := buckets.Length * 2;
      if n > MAX_BUCKETS { return false; }
      var doubled := new seq<Entry<V>>[n](_ => []);
      NoEntries(doubled[..]);
      ghost var m: map<CString, V> := map[];
      ghost var chains := buckets[..];
      assert Moved(chains, contents, 0, 0, m);
      hide Represents, Moved, Total;
      var i := 0;
      while i < buckets.Length
        invariant i <= buckets.Length && Moved(chains, contents, i, 0, m)
        invariant Represents(doubled[..], m) && Total(doubled[..]) == |m|
        modifies doubled
      {
        m := MoveChain(buckets[i], doubled, chains, contents, i, m);
        NextChain(chains, contents, i, m);
        i := i + 1;
      }
      AllMoved(chains, contents, m);
      buckets := doubled;
      ok := true;
    }

    /** cdsl_hashmap_put binds the key, and nothing else changes. */
    method Put(key: CString, value: V)
      requires Valid()
      modifies this, buckets
      ensures Valid() && contents == old(contents)[key := value]
      ensures fresh({buckets} - {old(buckets)})
      ensures buckets.Length ==
              if key !in old(contents) && 4 * |contents| > 3 * old(buckets.Length) && 2 * old(buckets.Length) <= 1048576
              then 2 * old(buckets.Length) else old(buckets.Length)
    {
      var i, j := Search(key);
      ghost var was := buckets[..];
      if j < |buckets[i]| {
        Overwritten(was, contents, i, j, value);
        buckets[i] := buckets[i][j := Entry(key, value)];
        assert buckets[..] == was[i := was[i][j := Entry(key, value)]];
        contents := contents[key := value];
        return;
      }
      Prepended(was, contents, Entry(key, value));
      buckets[i] := [Entry(key, value)] + buckets[i];
      assert buckets[..] == was[i := [Entry(key, value)] + was[i]];
      contents := contents[key := value];
      size := size + 1;
      if buckets.Length < MAX_BUCKETS && size * 4 > buckets.Length * 3 {
        var _ := Rehash();
      }
    }

    /** cdsl_hashmap_remove unbinds the key, and nothing else changes. */
    method Remove(key: CString) returns (found: bool)
      requires Valid()
      modifies this, buckets
      ensures Valid() && found == (key in old(contents)) && contents == old(contents) - {key}
      ensures buckets == old(buckets)
    {
      var i, j := Search(key);
      ghost var was := buckets[..];
      found := j < |buckets[i]|;
      if found {
        Unlinked(was, contents, i, j);
        buckets[i] := buckets[i][..j] + buckets[i][j + 1..];
        assert buckets[..] == was[i := was[i][..j] + was[i][j + 1..]];
        contents := contents - {key};
        size := size - 1;
      } else {
        assert contents - {key} == contents;
      }
    }
  }

  lemma {:induction false} NoEntries<V(!new)>(bs: seq<seq<Entry<V>>>)
    requires forall i :: 0 <= i < |bs| ==> bs[i] == []
    ensures Total(bs) == 0 && (bs != [] ==> Represents(bs, map[]))
  {
    if bs != [] { NoEntries(bs[..|bs| - 1]); }
  }

  function Pow33(n: nat): nat { if n == 0 then 1 else 33 * Pow33(n - 1) }

  /** The bytes as the digits of a number in base 33. */
  function Base33(key: CString): nat
  {
    if key == [] then 0 else key[0] as nat * Pow33(|key| - 1) + Base33(key[1..])
  }

  /** The bucket is the key's number in base 33 behind a leading 5381, as a 32-bit word, modulo the
      number of buckets. */
  lemma HomeExactly(key: CString, buckets: nat)
    requires buckets > 0
    ensures Home(key, buckets) == ((5381 * Pow33(|key|) + Base33(key)) % 0x1_0000_0000) % buckets
  {
    Djb2IsBase33(key);
  }

  lemma {:induction false} Djb2IsBase33(key: CString)
    ensures Djb2(key) == 5381 * Pow33(|key|) + Base33(key)
    decreases |key|
  {
    if key != [] {
      var n := |key| - 1;
      Djb2IsBase33(key[..n]);
      Base33Snoc(key[..n], key[n]);
      assert key[..n] + [key[n]] == key;
    }
  }

  lemma {:induction false} Base33Snoc(key: CString, c: char)
    requires 0 < c as int < 256
    ensures Base33(key + [c]) == 33 * Base33(key) + c as nat
    decreases |key|
  {
    if key == [] {
      assert key + [c] == [c] && [c][1..] == [];
    } else {
      assert (key + [c])[1..] == key[1..] + [c];
      Base33Snoc(key[1..], c);
      assert Pow33(|key|) == 33 * Pow33(|key| - 1);
    }
  }
}
