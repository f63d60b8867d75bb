/**
 The JSON parser (src/util/json.c): what it reads from each position, and the parser object that
 reads it.

 A failure also has a position, because an object or array whose next value is malformed still
 closes when the parser happens to stand at its closing bracket.
 */
module JsonParser {
  import opened Values
  import opened Bytes
  import opened JsonText

  const MAX_DEPTH := 256

  datatype Parsed<+T> = Parsed(value: Option<T>, end: nat)

  /** The elements a loop collected before it stopped at `end`. */
  datatype Collected<T> = Collected(elems: seq<T>, end: nat)

  /** strtod of the C library, for numbers other than plain integers: the number read and where it
      ends. It reads at least one byte, which a lone minus sign does not grant. */
  type Strtod = f: (CString, nat) -> (real, nat) | forall s: CString, p: nat :: p < |s| ==> p < f(s, p).1 <= |s|
    witness (s: CString, p: nat) => (0.0, |s|)

  predicate IsSpace(c: char) {
    c == ' ' || 9 <= c as int <= 13
  }

  function SkipWs(src: CString, pos: nat): (r: nat)
    requires pos <= |src|
    ensures pos <= r <= |src|
    decreases |src| - pos
  {
    if IsSpace(At(src, pos)) then SkipWs(src, pos + 1) else pos
  }

  // ----- strings -----

  predicate IsHex(c: char) {
    '0' <= c <= '9' || 'a' <= c <= 'f' || 'A' <= c <= 'F'
  }

  function HexValue(c: char): (r: nat)
    requires IsHex(c)
    ensures r < 16
  {
    if '0' <= c <= '9' then c as int - 48 else if 'a' <= c <= 'f' then c as int - 87 else c as int - 55
  }

  /** n more hexadecimal digits. */
  function Hex(src: CString, pos: nat, n: nat, code: nat): (r: Parsed<nat>)
    requires pos <= |src|
    ensures pos <= r.end <= |src| && (r.value.Some? ==> r.end == pos + n)
    decreases n
  {
    if n == 0 then Parsed(Some(code), pos)
    else if IsHex(At(src, pos)) then Hex(src, pos + 1, n - 1, code * 16 + HexValue(At(src, pos)))
    else Parsed(None, pos)
  }

  /** The bytes of a code point below 0x10000. */
  function Utf8(code: nat): string {
    if code < 128 then [code as char]
    else if code < 0x800 then [(0xC0 + code / 64 % 32) as char, (0x80 + code % 64) as char]
    else [(0xE0 + code / 4096 % 16) as char, (0x80 + code / 64 % 64) as char, (0x80 + code % 64) as char]
  }

  function Unescaped(e: char): char {
    if e == 'b' then 8 as char
    else if e == 'f' then 12 as char
    else if e == 'n' then '\n'
    else if e == 'r' then '\r'
    else if e == 't' then '\t'
    else e
  }

  /** The rest of a string whose first bytes are already in the buffer. */
  function StringTail(src: CString, pos: nat, buf: string): (r: Parsed<string>)
    requires pos <= |src|
    ensures pos <= r.end <= |src| && (r.value.Some? ==> pos < r.end)
    decreases |src| - pos
  {
    var c := At(src, pos);
    if c == NUL then Parsed(None, pos)
    else if c == '"' then Parsed(Some(buf), pos + 1)
    else if c != '\\' then StringTail(src, pos + 1, buf + [c])
    else
      var e := At(src, pos + 1);
      if e == NUL then Parsed(None, pos + 1)
      else if e != 'u' then StringTail(src, pos + 2, buf + [Unescaped(e)])
      else
        var h := Hex(src, pos + 2, 4, 0);
        if h.value.None? then Parsed(None, h.end)
        else StringTail(src, pos + 6, buf + Utf8(h.value.value))
  }

  function StringAt(src: CString, pos: nat): (r: Parsed<string>)
    requires pos <= |src|
    ensures pos <= r.end <= |src| && (r.value.Some? ==> pos + 1 < r.end)
  {
    if At(src, pos) == '"' then StringTail(src, pos + 1, []) else Parsed(None, pos)
  }

  // ----- numbers -----

  predicate IsDigit(c: char) {
    '0' <= c <= '9'
  }

  function DigitsEnd(src: CString, pos: nat): (r: nat)
    requires pos <= |src|
    ensures pos <= r <= |src| && (forall i :: pos <= i < r ==> IsDigit(src[i])) && !IsDigit(At(src, r))
    decreases |src| - pos
  {
    if IsDigit(At(src, pos)) then DigitsEnd(src, pos + 1) else pos
  }

  const EXACT_DOUBLE := 0x20_0000_0000_0000

  /** A decimal integer not followed by a fraction, an exponent or a hexadecimal part is read
      exactly, as a double can hold it; anything else is strtod's. */
  function NumberAt(strtod: Strtod, src: CString, pos: nat): (r: Parsed<real>)
    requires pos < |src|
    ensures pos < r.end <= |src| && r.value.Some?
  {
    var first := if src[pos] == '-' then pos + 1 else pos;
    var end := DigitsEnd(src, first);
    var n := DigitsValue(src[first..end]);
    if end > first && n <= EXACT_DOUBLE && At(src, end) !in {'.', 'e', 'E', 'x', 'X'}
    then Parsed(Some(if first > pos then -(n as real) else n as real), end)
    else Parsed(Some(strtod(src, pos).0), strtod(src, pos).1)
  }

  // ----- values -----

  /** The literal word starts here (strncmp). */
  predicate Word(src: CString, pos: nat, w: string) {
    pos + |w| <= |src| && src[pos..pos + |w|] == w
  }

  function ValueAt(strtod: Strtod, src: CString, pos: nat, depth: nat): (r: Parsed<Json>)
    requires pos <= |src|
    ensures pos <= r.end <= |src| && (r.value.Some? ==> pos < r.end)
    decreases |src| - pos, 1
  {
    if depth >= MAX_DEPTH then Parsed(None, pos)
    else
      var p := SkipWs(src, pos);
      var c := At(src, p);
      if c == '{' then
        var r := Members(strtod, src, SkipWs(src, p + 1), depth + 1, []);
        if At(src, r.end) == '}' then Parsed(Some(Obj(r.elems)), r.end + 1) else Parsed(None, r.end)
      else if c == '[' then
        var r := Items(strtod, src, SkipWs(src, p + 1), depth + 1, []);
        if At(src, r.end) == ']' then Parsed(Some(Arr(r.elems)), r.end + 1) else Parsed(None, r.end)
      else if c == '"' then
        var r := StringAt(src, p);
        if r.value.Some? then Parsed(Some(Str(r.value.value)), r.end) else Parsed(None, r.end)
      else if c == 't' then if Word(src, p, "true") then Parsed(Some(Bool(true)), p + 4) else Parsed(None, p)
      else if c == 'f' then if Word(src, p, "false") then Parsed(Some(Bool(false)), p + 5) else Parsed(None, p)
      else if c == 'n' then if Word(src, p, "null") then Parsed(Some(Null), p + 4) else Parsed(None, p)
      else if c == '-' || IsDigit(c) then
        var r := NumberAt(strtod, src, p);
        Parsed(Some(Number(r.value.value)), r.end)
      else Parsed(None, p)
  }

  /** The loop of parse_array, entered at pos with the items so far. */
  function Items(strtod: Strtod, src: CString, pos: nat, depth: nat, done: seq<Json>): (r: Collected<Json>)
    requires pos <= |src|
    ensures pos <= r.end <= |src|
    decreases |src| - pos, 2
  {
    if At(src, pos) == NUL || At(src, pos) == ']' then Collected(done, pos)
    else
      var v := ValueAt(strtod, src, SkipWs(src, pos), depth);
      if v.value.None? then Collected(done, v.end)
      else Items(strtod, src, AfterComma(src, v.end), depth, done + [v.value.value])
  }

  /** Past the white space and the comma, if there is one, that follow an element. */
  function AfterComma(src: CString, pos: nat): (r: nat)
    requires pos <= |src|
    ensures pos <= r <= |src|
  {
    var p := SkipWs(src, pos);
    if At(src, p) == ',' then p + 1 else p
  }

  /** One key, colon and value. */
  function MemberAt(strtod: Strtod, src: CString, pos: nat, depth: nat): (r: Parsed<Member>)
    requires pos <= |src|
    ensures pos <= r.end <= |src| && (r.value.Some? ==> pos < r.end)
    decreases |src| - pos, 2
  {
    var k := StringAt(src, SkipWs(src, pos));
    if k.value.None? then Parsed(None, k.end)
    else
      var p := SkipWs(src, k.end);
      if At(src, p) != ':' then Parsed(None, p)
      else
        var v := ValueAt(strtod, src, SkipWs(src, p + 1), depth);
        if v.value.None? then Parsed(None, v.end) else Parsed(Some(Member(k.value.value, v.value.value)), v.end)
  }

  /** The loop of parse_object. */
  function Members(strtod: Strtod, src: CString, pos: nat, depth: nat, done: seq<Member>): (r: Collected<Member>)
    requires pos <= |src|
    ensures pos <= r.end <= |src|
    decreases |src| - pos, 3
  {
    if At(src, pos) == NUL || At(src, pos) == '}' then Collected(done, pos)
    else
      var m := MemberAt(strtod, src, pos, depth);
      if m.value.None? then Collected(done, m.end)
      else Members(strtod, src, AfterComma(src, m.end), depth, done + [m.value.value])
  }

  // ----- single steps -----

  lemma ObjectAt(strtod: Strtod, src: CString, pos: nat, depth: nat)
    requires pos < |src| && src[pos] == '{' && depth < MAX_DEPTH
    ensures var r := Members(strtod, src, SkipWs(src, pos + 1), depth + 1, []);
            ValueAt(strtod, src, pos, depth) ==
            if At(src, r.end) == '}' then Parsed(Some(Obj(r.elems)), r.end + 1) else Parsed(None, r.end)
  {
  }

  lemma ArrayAt(strtod: Strtod, src: CString, pos: nat, depth: nat)
    requires pos < |src| && src[pos] == '[' && depth < MAX_DEPTH
    ensures var r := Items(strtod, src, SkipWs(src, pos + 1), depth + 1, []);
            ValueAt(strtod, src, pos, depth) ==
            if At(src, r.end) == ']' then Parsed(Some(Arr(r.elems)), r.end + 1) else Parsed(None, r.end)
  {
  }

  lemma ItemsEnd(strtod: Strtod, src: CString, pos: nat, depth: nat, done: seq<Json>)
    requires pos <= |src| && (At(src, pos) == NUL || At(src, pos) == ']')
    ensures Items(strtod, src, pos, depth, done) == Collected(done, pos)
  {
  }

  lemma ItemsStep(strtod: Strtod, src: CString, pos: nat, depth: nat, done: seq<Json>)
    requires pos <= |src| && At(src, pos) != NUL && At(src, pos) != ']'
    ensures var v := ValueAt(strtod, src, SkipWs(src, pos), depth);
            Items(strtod, src, pos, depth, done) ==
            if v.value.None? then Collected(done, v.end)
            else Items(strtod, src, AfterComma(src, v.end), depth, done + [v.value.value])
  {
  }

  lemma MembersEnd(strtod: Strtod, src: CString, pos: nat, depth: nat, done: seq<Member>)
    requires pos <= |src| && (At(src, pos) == NUL || At(src, pos) == '}')
    ensures Members(strtod, src, pos, depth, done) == Collected(done, pos)
  {
  }

  lemma MembersStep(strtod: Strtod, src: CString, pos: nat, depth: nat, done: seq<Member>)
    requires pos <= |src| && At(src, pos) != NUL && At(src, pos) != '}'
    ensures var m := MemberAt(strtod, src, pos, depth);
            Members(strtod, src, pos, depth, done) ==
            if m.value.None? then Collected(done, m.end)
            else Members(strtod, src, AfterComma(src, m.end), depth, done + [m.value.value])
  {
  }

  lemma TailOfByte(src: CString, pos: nat, buf: string)
    requires pos < |src| && src[pos] != '"' && src[pos] != '\\'
    ensures StringTail(src, pos, buf) == StringTail(src, pos + 1, buf + [src[pos]])
  {
  }

  lemma TailOfEscape(src: CString, pos: nat, buf: string)
    requires pos + 1 < |src| && src[pos] == '\\' && src[pos + 1] != 'u'
    ensures StringTail(src, pos, buf) == StringTail(src, pos + 2, buf + [Unescaped(src[pos + 1])])
  {
  }

  lemma TailOfHex(src: CString, pos: nat, buf: string)
    requires pos + 1 < |src| && src[pos] == '\\' && src[pos + 1] == 'u'
    ensures var h := Hex(src, pos + 2, 4, 0);
            StringTail(src, pos, buf) == if h.value.None? then Parsed(None, h.end)
                                         else StringTail(src, pos + 6, buf + Utf8(h.value.value))
  {
  }

  lemma TailEnds(src: CString, pos: nat, buf: string)
    requires pos <= |src|
    ensures At(src, pos) == NUL ==> StringTail(src, pos, buf) == Parsed(None, pos)
    ensures At(src, pos) == '"' ==> StringTail(src, pos, buf) == Parsed(Some(buf), pos + 1)
    ensures At(src, pos) == '\\' && At(src, pos + 1) == NUL ==> StringTail(src, pos, buf) == Parsed(None, pos + 1)
  {
  }

  // ----- the parser object -----

  class Parser {
    const strtod: Strtod
    const src: CString
    var pos: nat
    var depth: nat

    ghost predicate Valid()
      reads this
    {
      pos <= |src|
    }

    constructor (strtod: Strtod, src: CString)
      ensures Valid() && pos == 0 && depth == 0 && this.src == src && this.strtod == strtod
    {
      this.strtod, this.src, pos, depth := strtod, src, 0, 0;
    }

    method SkipSpace()
      requires Valid()
      modifies this`pos
      ensures Valid() && pos == SkipWs(src, old(pos))
    {
      while IsSpace(At(src, pos))
        invariant Valid() && SkipWs(src, pos) == SkipWs(src, old(pos))
        decreases |src| - pos
      {
        pos := pos + 1;
      }
    }

    /** The four digits of a \\u escape; pos is left at the last one read. */
    method ReadHex() returns (r: Option<nat>)
      requires Valid() && pos < |src|
      modifies this`pos
      ensures Valid() && r == Hex(src, old(pos) + 1, 4, 0).value
      ensures pos == if r.Some? then old(pos) + 4 else Hex(src, old(pos) + 1, 4, 0).end
    {
      hide HexValue, IsHex;
      var code: nat := 0;
      var i: nat := 0;
      while i < 4
        invariant 0 <= i <= 4 && pos == old(pos) + i < |src|
        invariant Hex(src, pos + 1, 4 - i, code) == Hex(src, old(pos) + 1, 4, 0)
      {
        pos := pos + 1;
        code := code * 16;
        if !IsHex(At(src, pos)) { return None; }
        code := code + HexValue(At(src, pos));
        i := i + 1;
      }
      r := Some(code);
    }

    /** parse_string_raw. */
    method ParseString() returns (r: Option<string>)
      requires Valid()
      modifies this`pos
      ensures Valid() && Parsed(r, pos) == StringAt(src, old(pos))
    {
      hide StringTail, Hex, Utf8, Unescaped;
      if At(src, pos) != '"' { return None; }
      pos := pos + 1;
      var buf: string := [];
      while At(src, pos) != NUL && At(src, pos) != '"'
        invariant Valid() && StringTail(src, pos, buf) == StringTail(src, old(pos) + 1, [])
        decreases |src| - pos
      {
        if src[pos] == '\\' {
          TailEnds(src, pos, buf);
          pos := pos + 1;
          if At(src, pos) == NUL { return None; }
          if src[pos] == 'u' {
            TailOfHex(src, pos - 1, buf);
            var code := ReadHex();
            if code.None? { return None; }
            buf := buf + Utf8(code.value);
          } else {
            TailOfEscape(src, pos - 1, buf);
            buf := buf + [Unescaped(src[pos])];
          }
          pos := pos + 1;
        } else {
          TailOfByte(src, pos, buf);
          buf := buf + [src[pos]];
          pos := pos + 1;
        }
      }
      TailEnds(src, pos, buf);
      if At(src, pos) != '"' { return None; }
      pos := pos + 1;
      r := Some(buf);
    }

    /** The body of parse_object's loop, up to the value. */
    method ParseMember() returns (r: Option<Member>)
      requires Valid()
      modifies this
      ensures Valid() && depth == old(depth)
      ensures Parsed(r, pos) == MemberAt(strtod, src, old(pos), old(depth))
      decreases |src| - pos, 2
    {
      hide StringAt, ValueAt, SkipWs;
      SkipSpace();
      var key := ParseString();
      if key.None? { return None; }
      SkipSpace();
      if At(src, pos) != ':' { return None; }
      pos := pos + 1;
      SkipSpace();
      var val := ParseValue();
      r := if val.Some? then Some(Member(key.value, val.value)) else None;
    }

    /** parse_object. */
    method ParseObject() returns (r: Option<Json>)
      requires Valid() && At(src, pos) == '{'
      modifies this
      ensures Valid() && depth == old(depth)
      ensures var ms := Members(strtod, src, SkipWs(src, old(pos) + 1), old(depth), []);
              Parsed(r, pos) == if At(src, ms.end) == '}' then Parsed(Some(Obj(ms.elems)), ms.end + 1)
                                else Parsed(None, ms.end)
      decreases |src| - pos, 0
    {
      hide MemberAt, SkipWs, Members;
      pos := pos + 1;
      var items: seq<Member> := [];
      SkipSpace();
      ghost var all := Members(strtod, src, pos, depth, []);
      while At(src, pos) != NUL && At(src, pos) != '}'
        invariant Valid() && depth == old(depth) && pos > old(pos)
        invariant Members(strtod, src, pos, depth, items) == all
        decreases |src| - pos
      {
        MembersStep(strtod, src, pos, depth, items);
        var m := ParseMember();
        if m.None? { break; }
        items := items + [m.value];
        SkipSpace();
        if At(src, pos) == ',' { pos := pos + 1; }
      }
      if At(src, pos) == NUL || At(src, pos) == '}' { MembersEnd(strtod, src, pos, depth, items); }
      if At(src, pos) != '}' { return None; }
      pos := pos + 1;
      r := Some(Obj(items));
    }

    /** parse_array. */
    method ParseArray() returns (r: Option<Json>)
      requires Valid() && At(src, pos) == '['
      modifies this
      ensures Valid() && depth == old(depth)
      ensures var es := Items(strtod, src, SkipWs(src, old(pos) + 1), old(depth), []);
              Parsed(r, pos) == if At(src, es.end) == ']' then Parsed(Some(Arr(es.elems)), es.end + 1)
                                else Parsed(None, es.end)
      decreases |src| - pos, 0
    {
      hide ValueAt, SkipWs, Items;
      pos := pos + 1;
      var items: seq<Json> := [];
      SkipSpace();
      ghost var all := Items(strtod, src, pos, depth, []);
      while At(src, pos) != NUL && At(src, pos) != ']'
        invariant Valid() && depth == old(depth) && pos > old(pos)
        invariant Items(strtod, src, pos, depth, items) == all
        decreases |src| - pos
      {
        ItemsStep(strtod, src, pos, depth, items);
        SkipSpace();
        var val := ParseValue();
        if val.None? { break; }
        items := items + [val.value];
        SkipSpace();
        if At(src, pos) == ',' { pos := pos + 1; }
      }
      if At(src, pos) == NUL || At(src, pos) == ']' { ItemsEnd(strtod, src, pos, depth, items); }
      if At(src, pos) != ']' { return None; }
      pos := pos + 1;
      r := Some(Arr(items));
    }

    /** parse_value. */
    method ParseValue() returns (r: Option<Json>)
      requires Valid()
      modifies this
      ensures Valid() && depth == old(depth)
      ensures Parsed(r, pos) == ValueAt(strtod, src, old(pos), old(depth))
      decreases |src| - pos, 1
    {
      hide StringAt, NumberAt, Items, Members, SkipWs;
      if depth >= MAX_DEPTH { return None; }
      SkipSpace();
      var c := At(src, pos);
      if c == '{' {
        depth := depth + 1;
        r := ParseObject();
        depth := depth - 1;
      } else if c == '[' {
        depth := depth + 1;
        r := ParseArray();
        depth := depth - 1;
      } else if c == '"' {
        var s := ParseString();
        r := if s.Some? then Some(Str(s.value)) else None;
      } else if c == 't' {
        if !Word(src, pos, "true") { return None; }
        r, pos := Some(Bool(true)), pos + 4;
      } else if c == 'f' {
        if !Word(src, pos, "false") { return None; }
        r, pos := Some(Bool(false)), pos + 5;
      } else if c == 'n' {
        if !Word(src, pos, "null") { return None; }
        r, pos := Some(Null), pos + 4;
      } else if c == '-' || IsDigit(c) {
        var n := NumberAt(strtod, src, pos);
        r, pos := Some(Number(n.value.value)), n.end;
      } else {
        r := None;
      }
    }
  }

  /** cdsl_json_parse. */
  method Parse(strtod: Strtod, src: CString) returns (r: Option<Json>)
    ensures r == ValueAt(strtod, src, 0, 0).value
  {
    var p := new Parser(strtod, src);
    r := p.ParseValue();
  }

  // ----- what the reader takes for what -----

  /** White space is the six bytes isspace knows. */
  lemma SpacesExactly(c: char)
    ensures IsSpace(c) <==> c == ' ' || c == '\t' || c == '\n' || c == '\r' || c == 11 as char || c == 12 as char
  {
  }

  predicate AllSpaces(src: CString, p: nat, q: nat)
  {
    p <= q <= |src| && forall i :: p <= i < q ==> IsSpace(src[i])
  }

  lemma {:induction false} SpacesSkipped(src: CString, p: nat, q: nat)
    requires AllSpaces(src, p, q)
    ensures SkipWs(src, p) == SkipWs(src, q)
    decreases q - p
  {
    if p < q { SpacesSkipped(src, p + 1, q); }
  }

  lemma {:induction false} SpacesUpTo(src: CString, p: nat)
    requires p <= |src|
    ensures AllSpaces(src, p, SkipWs(src, p))
    decreases |src| - p
  {
    if IsSpace(At(src, p)) { SpacesUpTo(src, p + 1); }
  }

  /** White space in front of a value, a member or a comma makes no difference. */
  lemma SpacesAreIrrelevant(strtod: Strtod, src: CString, p: nat, q: nat, depth: nat)
    requires AllSpaces(src, p, q) && depth < 256
    ensures ValueAt(strtod, src, p, depth) == ValueAt(strtod, src, q, depth)
    ensures MemberAt(strtod, src, p, depth) == MemberAt(strtod, src, q, depth)
    ensures AfterComma(src, p) == AfterComma(src, q)
  {
    SpacesSkipped(src, p, q);
    SpacedValue(strtod, src, p, q, depth);
    hide SkipWs, ValueAt, StringAt;
  }

  lemma SpacedValue(strtod: Strtod, src: CString, p: nat, q: nat, depth: nat)
    requires p <= |src| && q <= |src| && SkipWs(src, p) == SkipWs(src, q) && depth < 256
    ensures ValueAt(strtod, src, p, depth) == ValueAt(strtod, src, q, depth)
  {
    hide SkipWs, Members, Items, StringAt, NumberAt, Word;
  }

  /** Nor does it behind an opening brace or bracket. */
  lemma SpacedOpening(strtod: Strtod, src: CString, p: nat, q: nat, depth: nat)
    requires p < |src| && AllSpaces(src, p + 1, q) && depth < 256
    ensures src[p] == '{' ==>
              var r := Members(strtod, src, SkipWs(src, q), depth + 1, []);
              ValueAt(strtod, src, p, depth) ==
              if At(src, r.end) == '}' then Parsed(Some(Obj(r.elems)), r.end + 1) else Parsed(None, r.end)
    ensures src[p] == '[' ==>
              var r := Items(strtod, src, SkipWs(src, q), depth + 1, []);
              ValueAt(strtod, src, p, depth) ==
              if At(src, r.end) == ']' then Parsed(Some(Arr(r.elems)), r.end + 1) else Parsed(None, r.end)
  {
    SpacesSkipped(src, p + 1, q);
    if src[p] == '{' { ObjectAt(strtod, src, p, depth); }
    if src[p] == '[' { ArrayAt(strtod, src, p, depth); }
    hide SkipWs, Members, Items, ValueAt;
  }

  /** A member is a key, a colon and a value with any white space between them. */
  lemma SpacedMember(strtod: Strtod, src: CString, pos: nat, colon: nat, v: nat, depth: nat)
    requires pos < |src| && src[pos] == '"' && depth < 256
    requires StringAt(src, pos).value.Some?
    requires AllSpaces(src, StringAt(src, pos).end, colon) && colon < |src| && src[colon] == ':'
    requires AllSpaces(src, colon + 1, v)
    ensures var j := ValueAt(strtod, src, v, depth);
            MemberAt(strtod, src, pos, depth) ==
            if j.value.Some? then Parsed(Some(Member(StringAt(src, pos).value.value, j.value.value)), j.end)
            else Parsed(None, j.end)
  {
    hide StringAt;
    SpacesSkipped(src, StringAt(src, pos).end, colon);
    SpacesSkipped(src, colon + 1, v);
    SpacesUpTo(src, v);
    SpacesAreIrrelevant(strtod, src, v, SkipWs(src, v), depth);
  }

  /** A simple escape stands for one byte: the five control bytes for their letters, and for any other
      byte, a quote, a backslash or a slash among them, itself. */
  lemma SimpleEscapesExactly(src: CString, pos: nat, buf: string)
    requires pos + 1 < |src| && src[pos] == '\\' && src[pos + 1] != 'u'
    ensures var e := src[pos + 1];
            StringTail(src, pos, buf) ==
            StringTail(src, pos + 2, buf + [if e == 'b' then 8 as char else if e == 't' then 9 as char
                                            else if e == 'n' then 10 as char else if e == 'f' then 12 as char
                                            else if e == 'r' then 13 as char else e])
  {
  }

  lemma HexDigitsExactly(c: char)
    requires IsHex(c)
    ensures c == "0123456789abcdef"[HexValue(c)] || c == "0123456789ABCDEF"[HexValue(c)]
  {
    var low, high := "0123456789abcdef", "0123456789ABCDEF";
    assert forall d :: 0 <= d < 10 ==> low[d] == (48 + d) as char;
    assert forall d :: 10 <= d < 16 ==> low[d] == (87 + d) as char && high[d] == (55 + d) as char;
  }

  /** The code point that bytes in UTF-8 stand for. */
  function CodePoint(s: string): nat
    requires |s| in {1, 2, 3} && forall i :: 0 <= i < |s| ==> s[i] as int < 256
  {
    if |s| == 1 then s[0] as nat
    else if |s| == 2 then (s[0] as nat % 32) * 64 + s[1] as nat % 64
    else (s[0] as nat % 16) * 4096 + (s[1] as nat % 64) * 64 + s[2] as nat % 64
  }

  /** A spelled-out code point is stored in UTF-8 (section 3 of RFC 3629): in as few bytes as hold it,
      marked as leading and following ones, which read as the code point again. */
  lemma Utf8Exactly(code: nat)
    requires code < 0x10000
    ensures var s := Utf8(code);
            && |s| == (if code < 0x80 then 1 else if code < 0x800 then 2 else 3)
            && (forall i :: 0 <= i < |s| ==> s[i] as int < 256) && CodePoint(s) == code
            && (|s| == 1 ==> s[0] as int < 0x80)
            && (|s| == 2 ==> s[0] as int / 32 == 6) && (|s| == 3 ==> s[0] as int / 16 == 14)
            && (forall i :: 1 <= i < |s| ==> s[i] as int / 64 == 2)
  {
    if code >= 0x80 { SixBits(code); }
    if code >= 0x800 { SixBits(code / 64); }
  }

  /** The low six bits and the rest. */
  lemma SixBits(x: nat)
    ensures x == x / 64 * 64 + x % 64 && (0x80 + x % 64) / 64 == 2 && (0x80 + x % 64) % 64 == x % 64
    ensures x < 0x800 ==> x / 64 % 32 == x / 64 && (0xC0 + x / 64 % 32) / 32 == 6
                          && (0xC0 + x / 64 % 32) % 32 == x / 64
    ensures x < 0x400 ==> x / 64 < 16 && (0xE0 + x / 64) / 16 == 14 && (0xE0 + x / 64) % 16 == x / 64
    ensures x / 4096 == x / 64 / 64
  {
  }

  /** Four hexadecimal digits behind a backslash and a u are that code point. */
  lemma UnicodeEscapeReads(src: CString, pos: nat, buf: string)
    requires pos + 6 <= |src| && src[pos] == '\\' && src[pos + 1] == 'u'
    requires forall i :: pos + 2 <= i < pos + 6 ==> IsHex(src[i])
    ensures var code := HexValue(src[pos + 2]) * 4096 + HexValue(src[pos + 3]) * 256 +
                        HexValue(src[pos + 4]) * 16 + HexValue(src[pos + 5]);
            StringTail(src, pos, buf) == StringTail(src, pos + 6, buf + Utf8(code))
  {
    hide StringTail, HexValue, IsHex;
    TailOfHex(src, pos, buf);
    var a, b, c, d := HexValue(src[pos + 2]), HexValue(src[pos + 3]), HexValue(src[pos + 4]), HexValue(src[pos + 5]);
    assert Hex(src, pos + 5, 1, (a * 16 + b) * 16 + c) == Hex(src, pos + 6, 0, ((a * 16 + b) * 16 + c) * 16 + d);
    assert Hex(src, pos + 4, 2, a * 16 + b) == Hex(src, pos + 5, 1, (a * 16 + b) * 16 + c);
    assert Hex(src, pos + 3, 3, a) == Hex(src, pos + 4, 2, a * 16 + b);
    assert Hex(src, pos + 2, 4, 0) == Hex(src, pos + 3, 3, a);
  }

  predicate AllDigits(src: CString, pos: nat, end: nat)
    ensures AllDigits(src, pos, end) ==>
              pos <= end <= |src| && forall i :: 0 <= i < |src[pos..end]| ==> '0' <= src[pos..end][i] <= '9'
  {
    pos <= end <= |src| && forall i :: pos <= i < end ==> IsDigit(src[i])
  }

  lemma {:induction false} DigitsUpTo(src: CString, pos: nat, end: nat)
    requires AllDigits(src, pos, end) && !IsDigit(At(src, end))
    ensures DigitsEnd(src, pos) == end
    decreases end - pos
  {
    if pos < end { DigitsUpTo(src, pos + 1, end); }
  }

  /** A plain integer of at most 2^53 is read as itself; with a fraction, an exponent or a hexadecimal
      mark behind its digits it is what strtod makes of it. */
  lemma PlainIntegersAreExact(strtod: Strtod, src: CString, pos: nat, end: nat)
    requires AllDigits(src, pos, end) && pos < end && !IsDigit(At(src, end))
    ensures NumberAt(strtod, src, pos) ==
            if DigitsValue(src[pos..end]) <= 9007199254740992 && At(src, end) !in {'.', 'e', 'E', 'x', 'X'}
            then Parsed(Some(DigitsValue(src[pos..end]) as real), end)
            else Parsed(Some(strtod(src, pos).0), strtod(src, pos).1)
  {
    DigitsUpTo(src, pos, end);
    assert IsDigit(src[pos]);
    hide DigitsValue;
  }
}
