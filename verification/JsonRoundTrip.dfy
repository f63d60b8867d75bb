/**
 The parser reads back what compact printing wrote, wherever in a text it stands.
 */
module JsonRoundTrip {
  import opened Values
  import opened Bytes
  import opened JsonText
  import opened JsonParser

  lemma WordSplit(src: CString, pos: nat, a: string, b: string)
    requires Word(src, pos, a + b)
    ensures Word(src, pos, a) && Word(src, pos + |a|, b)
  {
    assert src[pos..pos + |a|] == (a + b)[..|a|];
    assert src[pos + |a|..pos + |a| + |b|] == (a + b)[|a|..];
  }

  lemma WordAt(src: CString, pos: nat, w: string, i: nat)
    requires Word(src, pos, w) && i < |w|
    ensures src[pos + i] == w[i] && At(src, pos + i) == w[i]
  {
    assert src[pos..pos + |w|][i] == w[i];
  }

  // ----- strings -----

  lemma HexBack(d: nat)
    requires d < 16
    ensures IsHex(HexDigit(d)) && HexValue(HexDigit(d)) == d
  {
  }

  lemma HexReadsBack(src: CString, pos: nat, c: nat)
    requires c < 0x20 && Word(src, pos, ['0', '0', HexDigit(c / 16), HexDigit(c % 16)])
    ensures Hex(src, pos, 4, 0) == Parsed(Some(c), pos + 4)
  {
    var w := ['0', '0', HexDigit(c / 16), HexDigit(c % 16)];
    WordAt(src, pos, w, 0);
    WordAt(src, pos, w, 1);
    WordAt(src, pos, w, 2);
    WordAt(src, pos, w, 3);
    HexBack(c / 16);
    HexBack(c % 16);
    hide HexDigit, HexValue, IsHex;
    assert IsHex('0') && HexValue('0') == 0;
    assert Hex(src, pos + 2, 2, 0) == Parsed(Some(c), pos + 4);
  }

  /** One escaped byte reads back as itself. */
  lemma ByteReadsBack(src: CString, pos: nat, c: char, buf: string)
    requires 0 < c as int < 256 && Word(src, pos, EscapeByte(c))
    ensures StringTail(src, pos, buf) == StringTail(src, pos + |EscapeByte(c)|, buf + [c])
  {
    var w := EscapeByte(c);
    WordAt(src, pos, w, 0);
    if |w| == 2 {
      WordAt(src, pos, w, 1);
      TailOfEscape(src, pos, buf);
    } else if |w| == 6 {
      WordAt(src, pos, w, 1);
      WordSplit(src, pos, "\\u", w[2..]);
      assert w == "\\u" + w[2..];
      HexReadsBack(src, pos + 2, c as int);
      TailOfHex(src, pos, buf);
    } else {
      TailOfByte(src, pos, buf);
    }
  }

  lemma EscapeNothing()
    ensures Escape([]) == []
  {
  }

  lemma EscapeSplits(s: CString)
    requires s != []
    ensures Escape(s) + "\"" == EscapeByte(s[0]) + (Escape(s[1..]) + "\"")
    ensures |Escape(s)| == |EscapeByte(s[0])| + |Escape(s[1..])|
  {
    hide EscapeByte;
  }

  lemma {:induction false} StringReadsBack(src: CString, pos: nat, s: CString, buf: string)
    requires Word(src, pos, Escape(s) + "\"")
    ensures StringTail(src, pos, buf) == Parsed(Some(buf + s), pos + |Escape(s)| + 1)
    decreases |s|
  {
    hide EscapeByte, StringTail, Word, Escape;
    if s == [] {
      EscapeNothing();
      WordAt(src, pos, Escape(s) + "\"", 0);
      TailEnds(src, pos, buf);
      assert buf + s == buf;
    } else {
      var e, r := EscapeByte(s[0]), Escape(s[1..]) + "\"";
      EscapeSplits(s);
      WordSplit(src, pos, e, r);
      ByteReadsBack(src, pos, s[0], buf);
      StringReadsBack(src, pos + |e|, s[1..], buf + [s[0]]);
      assert buf + [s[0]] + s[1..] == buf + s;
    }
  }

  /** A quoted string reads back byte for byte. */
  lemma QuotedReadsBack(src: CString, pos: nat, s: CString)
    requires Word(src, pos, Quoted(s))
    ensures StringAt(src, pos) == Parsed(Some(s), pos + |Quoted(s)|) && At(src, pos) == '"'
  {
    hide Escape, Word, StringTail, Quoted;
    QuotedSplits(s);
    WordSplit(src, pos, "\"", Escape(s) + "\"");
    WordAt(src, pos, "\"", 0);
    StringReadsBack(src, pos + 1, s, []);
    assert [] + s == s;
  }

  lemma QuotedSplits(s: CString)
    ensures Quoted(s) == "\"" + (Escape(s) + "\"") && |Quoted(s)| == |Escape(s)| + 2
  {
    hide Escape;
  }

  // ----- numbers -----

  predicate Closes(c: char) {
    c == ',' || c == ']' || c == '}' || c == NUL
  }

  lemma {:induction false} DigitsEndAt(src: CString, pos: nat, end: nat)
    requires pos <= end <= |src| && (forall i :: pos <= i < end ==> IsDigit(src[i])) && !IsDigit(At(src, end))
    ensures DigitsEnd(src, pos) == end
    decreases end - pos
  {
    if pos < end { DigitsEndAt(src, pos + 1, end); }
  }

  /** Digits followed by a closing byte end where their text does. */
  lemma DigitsReadBack(src: CString, first: nat, m: nat)
    requires Word(src, first, Digits(m)) && Closes(At(src, first + |Digits(m)|))
    ensures DigitsEnd(src, first) == first + |Digits(m)| && src[first..first + |Digits(m)|] == Digits(m)
  {
    var end := first + |Digits(m)|;
    forall i | first <= i < end ensures IsDigit(src[i]) {
      WordAt(src, first, Digits(m), i - first);
    }
    DigitsEndAt(src, first, end);
  }

  lemma NumberAtDigits(strtod: Strtod, src: CString, pos: nat, first: nat, m: nat)
    requires pos < |src| && first == (if src[pos] == '-' then pos + 1 else pos) && m <= EXACT_DOUBLE
    requires Word(src, first, Digits(m)) && Closes(At(src, first + |Digits(m)|))
    ensures NumberAt(strtod, src, pos) ==
            Parsed(Some(if first > pos then -(m as real) else m as real), first + |Digits(m)|)
  {
    DigitsReadBack(src, first, m);
    DigitsRoundTrip(m);
    hide DigitsEnd, DigitsValue, Digits, Word;
  }

  lemma NumberReadsBack(strtod: Strtod, src: CString, pos: nat, n: int32)
    requires Word(src, pos, Decimal(n)) && Closes(At(src, pos + |Decimal(n)|))
    ensures pos < |src| && NumberAt(strtod, src, pos) == Parsed(Some(n as int as real), pos + |Decimal(n)|)
    ensures At(src, pos) == '-' || IsDigit(At(src, pos))
  {
    hide Digits, NumberAt, Closes;
    WordAt(src, pos, Decimal(n), 0);
    if n < 0 {
      WordSplit(src, pos, "-", Digits(-(n as int)));
      NumberAtDigits(strtod, src, pos, pos + 1, -(n as int));
    } else {
      NumberAtDigits(strtod, src, pos, pos, n);
    }
  }

  // ----- values -----

  predicate ClosesNothing(c: char) {
    c != ']' && c != '}' && c != NUL
  }

  lemma RenderStarts(j: Json)
    requires Printable(j)
    ensures var c := Render(j)[0]; !IsSpace(c) && ClosesNothing(c)
  {
    hide Escape, Digits, RenderItems, RenderMembers;
  }

  lemma ValueStarts(src: CString, pos: nat, j: Json)
    requires Printable(j) && Word(src, pos, Render(j))
    ensures pos < |src| && At(src, pos) == Render(j)[0] && SkipWs(src, pos) == pos && ClosesNothing(At(src, pos))
  {
    RenderStarts(j);
    WordAt(src, pos, Render(j), 0);
  }

  lemma NumberValueReadsBack(strtod: Strtod, src: CString, pos: nat, depth: nat, n: int32)
    requires depth < MAX_DEPTH && Word(src, pos, Decimal(n)) && Closes(At(src, pos + |Decimal(n)|))
    requires pos < |src| && SkipWs(src, pos) == pos
    ensures ValueAt(strtod, src, pos, depth) == Parsed(Some(Number(n as int as real)), pos + |Decimal(n)|)
  {
    NumberReadsBack(strtod, src, pos, n);
    hide NumberAt, Decimal, Word, SkipWs, StringAt, Closes;
  }

  lemma StringValueReadsBack(strtod: Strtod, src: CString, pos: nat, depth: nat, s: CString)
    requires depth < MAX_DEPTH && Word(src, pos, Quoted(s)) && SkipWs(src, pos) == pos
    ensures ValueAt(strtod, src, pos, depth) == Parsed(Some(Str(s)), pos + |Quoted(s)|)
  {
    QuotedReadsBack(src, pos, s);
    hide StringAt, Quoted, Word, SkipWs, NumberAt;
  }

  lemma WordReadsBack(strtod: Strtod, src: CString, pos: nat, depth: nat, j: Json)
    requires depth < MAX_DEPTH && (j.Null? || j.Bool?) && Word(src, pos, Render(j)) && SkipWs(src, pos) == pos
    requires pos < |src| && At(src, pos) == Render(j)[0]
    ensures ValueAt(strtod, src, pos, depth) == Parsed(Some(j), pos + |Render(j)|)
  {
    hide NumberAt, StringAt, SkipWs, Word;
  }

  lemma ScalarReadsBack(strtod: Strtod, src: CString, pos: nat, depth: nat, j: Json)
    requires Printable(j) && !j.Arr? && !j.Obj? && depth < MAX_DEPTH
    requires Word(src, pos, Render(j)) && Closes(At(src, pos + |Render(j)|))
    ensures ValueAt(strtod, src, pos, depth) == Parsed(Some(j), pos + |Render(j)|)
  {
    ValueStarts(src, pos, j);
    hide ValueAt, Word, SkipWs, Decimal, Quoted, Closes;
    match j
    case Number(x) => NumberValueReadsBack(strtod, src, pos, depth, x.Floor);
    case Str(s) => StringValueReadsBack(strtod, src, pos, depth, s);
    case _ => WordReadsBack(strtod, src, pos, depth, j);
  }

  /** After an element stands the comma before the next, or the closing bracket. */
  lemma AfterElement(src: CString, pos: nat)
    requires pos <= |src| && Closes(At(src, pos))
    ensures AfterComma(src, pos) == if At(src, pos) == ',' then pos + 1 else pos
  {
  }

  /** The parser on the text of a value at any depth: it reads the value back exactly when its
      nesting fits, and otherwise fails at a byte that closes nothing. */
  lemma {:induction false} ValueReadsBack(strtod: Strtod, src: CString, pos: nat, depth: nat, j: Json)
    requires Printable(j) && Word(src, pos, Render(j)) && Closes(At(src, pos + |Render(j)|))
    ensures var r := ValueAt(strtod, src, pos, depth);
            if depth + Height(j) <= MAX_DEPTH then r == Parsed(Some(j), pos + |Render(j)|)
            else r.value.None? && ClosesNothing(At(src, r.end))
    decreases j, 1
  {
    ValueStarts(src, pos, j);
    if depth >= MAX_DEPTH {
      hide Render, Word;
    } else if j.Arr? {
      ArrayReadsBack(strtod, src, pos, depth, j);
    } else if j.Obj? {
      ObjectReadsBack(strtod, src, pos, depth, j);
    } else {
      ScalarReadsBack(strtod, src, pos, depth, j);
    }
  }

  lemma {:induction false} ArrayReadsBack(strtod: Strtod, src: CString, pos: nat, depth: nat, j: Json)
    requires Printable(j) && j.Arr? && Word(src, pos, Render(j)) && depth < MAX_DEPTH
    ensures var r := ValueAt(strtod, src, pos, depth);
            if depth + Height(j) <= MAX_DEPTH then r == Parsed(Some(j), pos + |Render(j)|)
            else r.value.None? && ClosesNothing(At(src, r.end))
    decreases j, 0
  {
    hide Word, ValueAt, Items, SkipWs, RenderItems;
    var inner := RenderItems(j.items) + "]";
    assert Render(j) == "[" + inner;
    WordSplit(src, pos, "[", inner);
    WordAt(src, pos, "[", 0);
    ItemsReadBack(strtod, src, pos + 1, depth + 1, j.items, []);
    assert [] + j.items == j.items;
    ArrayAt(strtod, src, pos, depth);
  }

  lemma ItemsSplit(items: seq<Json>)
    requires items != [] && forall i :: 0 <= i < |items| ==> Printable(items[i])
    ensures RenderItems(items) + "]" ==
            Render(items[0]) + (if |items| == 1 then "]" else "," + (RenderItems(items[1..]) + "]"))
    ensures |RenderItems(items)| == |Render(items[0])| + (if |items| == 1 then 0 else 1 + |RenderItems(items[1..])|)
  {
    hide Render;
    if |items| > 1 {
      var a, r := Render(items[0]), RenderItems(items[1..]);
      assert RenderItems(items) == a + "," + r;
      BehindComma(a, r, "]");
    }
    hide RenderItems;
  }

  lemma BehindComma(a: string, r: string, z: string)
    ensures (a + "," + r) + z == a + ("," + (r + z))
  {
    Regroup(a, ",", r);
    Regroup(a, "," + r, z);
    Regroup(",", r, z);
  }

  lemma MembersSplit(ms: seq<Member>)
    requires ms != [] && forall i :: 0 <= i < |ms| ==> IsCString(ms[i].key) && Printable(ms[i].value)
    ensures RenderMembers(ms) + "}" ==
            RenderMember(ms[0]) + (if |ms| == 1 then "}" else "," + (RenderMembers(ms[1..]) + "}"))
    ensures |RenderMembers(ms)| == |RenderMember(ms[0])| + (if |ms| == 1 then 0 else 1 + |RenderMembers(ms[1..])|)
  {
    hide RenderMember;
    if |ms| > 1 {
      var a, r := RenderMember(ms[0]), RenderMembers(ms[1..]);
      assert RenderMembers(ms) == a + "," + r;
      BehindComma(a, r, "}");
    }
    hide RenderMembers;
  }

  lemma {:induction false} ItemsReadBack(strtod: Strtod, src: CString, pos: nat, depth: nat, items: seq<Json>,
      done: seq<Json>)
    requires (forall i :: 0 <= i < |items| ==> Printable(items[i])) && Word(src, pos, RenderItems(items) + "]")
    ensures SkipWs(src, pos) == pos
    ensures var r := Items(strtod, src, pos, depth, done);
            if items == [] || depth + HeightItems(items) <= MAX_DEPTH
            then r == Collected(done + items, pos + |RenderItems(items)|) && At(src, r.end) == ']'
            else ClosesNothing(At(src, r.end))
    decreases items, 1
  {
    hide Word, ValueAt, Items, Render;
    var text := RenderItems(items) + "]";
    if items == [] {
      WordAt(src, pos, text, 0);
      ItemsEnd(strtod, src, pos, depth, done);
      assert done + items == done;
    } else {
      var rest := if |items| == 1 then "]" else "," + (RenderItems(items[1..]) + "]");
      var v := Render(items[0]);
      ItemsSplit(items);
      hide RenderItems;
      WordSplit(src, pos, v, rest);
      WordAt(src, pos + |v|, rest, 0);
      ValueStarts(src, pos, items[0]);
      ValueReadsBack(strtod, src, pos, depth, items[0]);
      ItemsStep(strtod, src, pos, depth, done);
      AfterElement(src, pos + |v|);
      RestOfItems(strtod, src, pos + |v|, depth, items, done);
    }
  }

  /** What follows the first item. */
  lemma {:induction false} RestOfItems(strtod: Strtod, src: CString, pos: nat, depth: nat, items: seq<Json>,
      done: seq<Json>)
    requires items != [] && forall i :: 0 <= i < |items| ==> Printable(items[i])
    requires Word(src, pos, if |items| == 1 then "]" else "," + (RenderItems(items[1..]) + "]"))
    ensures var next := if |items| == 1 then pos else pos + 1;
            && next <= |src|
            && var r := Items(strtod, src, next, depth, done + [items[0]]);
            if |items| == 1 || depth + HeightItems(items[1..]) <= MAX_DEPTH
            then r == Collected(done + items, pos + |RenderItems(items)| - |Render(items[0])|) && At(src, r.end) == ']'
            else ClosesNothing(At(src, r.end))
    decreases items, 0
  {
    hide Word, ValueAt, Items, Render;
    var rest := if |items| == 1 then "]" else "," + (RenderItems(items[1..]) + "]");
    WordAt(src, pos, rest, 0);
    if |items| == 1 {
      ItemsEnd(strtod, src, pos, depth, done + [items[0]]);
      assert done + items == done + [items[0]];
    } else {
      WordSplit(src, pos, ",", RenderItems(items[1..]) + "]");
      ItemsReadBack(strtod, src, pos + 1, depth, items[1..], done + [items[0]]);
      assert done + [items[0]] + items[1..] == done + items;
    }
  }

  lemma {:induction false} ObjectReadsBack(strtod: Strtod, src: CString, pos: nat, depth: nat, j: Json)
    requires Printable(j) && j.Obj? && Word(src, pos, Render(j)) && depth < MAX_DEPTH
    ensures var r := ValueAt(strtod, src, pos, depth);
            if depth + Height(j) <= MAX_DEPTH then r == Parsed(Some(j), pos + |Render(j)|)
            else r.value.None? && ClosesNothing(At(src, r.end))
    decreases j, 0
  {
    hide Word, ValueAt, Members, SkipWs, RenderMembers;
    var inner := RenderMembers(j.members) + "}";
    assert Render(j) == "{" + inner;
    WordSplit(src, pos, "{", inner);
    WordAt(src, pos, "{", 0);
    MembersReadBack(strtod, src, pos + 1, depth + 1, j.members, []);
    assert [] + j.members == j.members;
    ObjectAt(strtod, src, pos, depth);
  }

  lemma QuotedStarts(src: CString, pos: nat, s: CString)
    requires Word(src, pos, Quoted(s))
    ensures pos < |src| && SkipWs(src, pos) == pos && At(src, pos) == '"'
  {
    QuotedReadsBack(src, pos, s);
  }

  lemma {:induction false} MemberReadsBack(strtod: Strtod, src: CString, pos: nat, depth: nat, m: Member)
    requires IsCString(m.key) && Printable(m.value) && Word(src, pos, RenderMember(m))
    requires Closes(At(src, pos + |RenderMember(m)|))
    ensures SkipWs(src, pos) == pos && At(src, pos) == '"'
    ensures var r := MemberAt(strtod, src, pos, depth);
            if depth + Height(m.value) <= MAX_DEPTH then r == Parsed(Some(m), pos + |RenderMember(m)|)
            else r.value.None? && ClosesNothing(At(src, r.end))
    decreases m
  {
    hide Word, ValueAt, Render, Quoted, StringAt;
    var q, v := Quoted(m.key), Render(m.value);
    assert RenderMember(m) == q + (":" + v);
    WordSplit(src, pos, q, ":" + v);
    WordSplit(src, pos + |q|, ":", v);
    WordAt(src, pos + |q|, ":", 0);
    QuotedStarts(src, pos, m.key);
    QuotedReadsBack(src, pos, m.key);
    ValueStarts(src, pos + |q| + 1, m.value);
    ValueReadsBack(strtod, src, pos + |q| + 1, depth, m.value);
  }

  lemma {:induction false} MembersReadBack(strtod: Strtod, src: CString, pos: nat, depth: nat, ms: seq<Member>,
      done: seq<Member>)
    requires forall i :: 0 <= i < |ms| ==> IsCString(ms[i].key) && Printable(ms[i].value)
    requires Word(src, pos, RenderMembers(ms) + "}")
    ensures SkipWs(src, pos) == pos
    ensures var r := Members(strtod, src, pos, depth, done);
            if ms == [] || depth + HeightMembers(ms) <= MAX_DEPTH
            then r == Collected(done + ms, pos + |RenderMembers(ms)|) && At(src, r.end) == '}'
            else ClosesNothing(At(src, r.end))
    decreases ms, 1
  {
    hide Word, MemberAt, Members, RenderMember;
    var text := RenderMembers(ms) + "}";
    if ms == [] {
      WordAt(src, pos, text, 0);
      MembersEnd(strtod, src, pos, depth, done);
      assert done + ms == done;
    } else {
      var rest := if |ms| == 1 then "}" else "," + (RenderMembers(ms[1..]) + "}");
      var m := RenderMember(ms[0]);
      MembersSplit(ms);
      hide RenderMembers;
      WordSplit(src, pos, m, rest);
      WordAt(src, pos + |m|, rest, 0);
      MemberReadsBack(strtod, src, pos, depth, ms[0]);
      MembersStep(strtod, src, pos, depth, done);
      AfterElement(src, pos + |m|);
      RestOfMembers(strtod, src, pos + |m|, depth, ms, done);
    }
  }

  /** What follows the first member. */
  lemma {:induction false} RestOfMembers(strtod: Strtod, src: CString, pos: nat, depth: nat, ms: seq<Member>,
      done: seq<Member>)
    requires ms != [] && forall i :: 0 <= i < |ms| ==> IsCString(ms[i].key) && Printable(ms[i].value)
    requires Word(src, pos, if |ms| == 1 then "}" else "," + (RenderMembers(ms[1..]) + "}"))
    ensures var next := if |ms| == 1 then pos else pos + 1;
            && next <= |src|
            && var r := Members(strtod, src, next, depth, done + [ms[0]]);
            if |ms| == 1 || depth + HeightMembers(ms[1..]) <= MAX_DEPTH
            then r == Collected(done + ms, pos + |RenderMembers(ms)| - |RenderMember(ms[0])|) && At(src, r.end) == '}'
            else ClosesNothing(At(src, r.end))
    decreases ms, 0
  {
    hide Word, MemberAt, Members, RenderMember;
    var rest := if |ms| == 1 then "}" else "," + (RenderMembers(ms[1..]) + "}");
    WordAt(src, pos, rest, 0);
    if |ms| == 1 {
      MembersEnd(strtod, src, pos, depth, done + [ms[0]]);
      assert done + ms == done + [ms[0]];
    } else {
      WordSplit(src, pos, ",", RenderMembers(ms[1..]) + "}");
      MembersReadBack(strtod, src, pos + 1, depth, ms[1..], done + [ms[0]]);
      assert done + [ms[0]] + ms[1..] == done + ms;
    }
  }

  /** Compact text parses to the value it was printed from, exactly when the value nests no deeper
      than the parser's limit. */
  lemma PrintedTextParses(strtod: Strtod, j: Json)
    requires Printable(j)
    ensures ValueAt(strtod, Render(j), 0, 0).value == if Height(j) <= 256 then Some(j) else None
  {
    var t := Render(j);
    assert t[0..0 + |t|] == t;
    ValueReadsBack(strtod, t, 0, 0, j);
  }
}
