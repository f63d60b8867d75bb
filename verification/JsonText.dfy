/**
 JSON values and their compact text, as the report writer prints them (src/vm/eval.c) and
 section 7 of RFC 8259 defines strings.
 */
module JsonText {
  import opened Values
  import opened Bytes

  /** Strings and keys are the bytes the parser's buffer holds. */
  datatype Json =
    | Null
    | Bool(b: bool)
    | Number(x: real)
    | Str(s: string)
    | Arr(items: seq<Json>)
    | Obj(members: seq<Member>)

  datatype Member = Member(key: string, value: Json)

  // ----- strings -----

  function HexDigit(d: nat): (c: char)
    requires d < 16
    ensures 0 < c as int < 128
  {
    if d < 10 then (48 + d) as char else (87 + d) as char
  }

  /** A quote, a backslash or a control byte is escaped; every other byte stands for itself. */
  function EscapeByte(c: char): (r: CString)
    requires 0 < c as int < 256
    ensures 1 <= |r| <= 6
  {
    if c == '"' then "\\\""
    else if c == '\\' then "\\\\"
    else if c == '\n' then "\\n"
    else if c == '\r' then "\\r"
    else if c == '\t' then "\\t"
    else if c == 8 as char then "\\b"
    else if c == 12 as char then "\\f"
    else if c as int < 0x20 then ['\\', 'u', '0', '0', HexDigit(c as int / 16), HexDigit(c as int % 16)]
    else [c]
  }

  function Escape(s: CString): (r: CString)
    ensures |s| <= |r|
  {
    if s == [] then [] else EscapeByte(s[0]) + Escape(s[1..])
  }

  lemma {:induction false} EscapeConcat(a: CString, b: CString)
    ensures Escape(a + b) == Escape(a) + Escape(b)
  {
    hide EscapeByte;
    if a == [] {
      assert a + b == b;
    } else {
      EscapeConcat(a[1..], b);
      assert (a + b)[1..] == a[1..] + b && (a + b)[0] == a[0];
      assert Escape(a + b) == EscapeByte(a[0]) + Escape(a[1..] + b);
      assert Escape(a) == EscapeByte(a[0]) + Escape(a[1..]);
    }
  }

  predicate PlainChar(c: char) {
    0x20 <= c as int < 256 && c != '"' && c != '\\'
  }

  predicate Plain(s: string) {
    forall i :: 0 <= i < |s| ==> PlainChar(s[i])
  }

  lemma PlainByte(c: char)
    requires PlainChar(c)
    ensures EscapeByte(c) == [c]
  {
  }

  lemma {:induction false} PlainIsItself(s: CString)
    requires Plain(s)
    ensures Escape(s) == s
  {
    hide EscapeByte;
    if s != [] { PlainByte(s[0]); }
    if s != [] { PlainIsItself(s[1..]); }
  }

  lemma Regroup(a: string, b: string, c: string)
    ensures (a + b) + c == a + (b + c)
  {
  }

  // ----- integers -----

  function Digits(n: nat): (r: CString)
    ensures |r| > 0 && forall i :: 0 <= i < |r| ==> '0' <= r[i] <= '9'
  {
    var d := ['0' + (n % 10) as char];
    if n < 10 then d else Digits(n / 10) + d
  }

  function Decimal(n: int): (r: CString)
    ensures |r| > 0 && (r[0] == '-' || '0' <= r[0] <= '9')
  {
    if n < 0 then "-" + Digits(-n) else Digits(n)
  }

  function DigitsValue(s: string): nat
    requires forall i :: 0 <= i < |s| ==> '0' <= s[i] <= '9'
  {
    if s == [] then 0 else 10 * DigitsValue(s[..|s| - 1]) + (s[|s| - 1] as int - '0' as int)
  }

  lemma {:induction false} DigitsRoundTrip(n: nat)
    ensures DigitsValue(Digits(n)) == n
  {
    if n >= 10 {
      DigitsRoundTrip(n / 10);
      assert Digits(n)[..|Digits(n)| - 1] == Digits(n / 10);
    }
  }

  function Pow10(k: nat): nat {
    if k == 0 then 1 else 10 * Pow10(k - 1)
  }

  lemma {:induction false} DigitsLength(n: nat, k: nat)
    requires k > 0 && n < Pow10(k)
    ensures |Digits(n)| <= k
  {
    if n >= 10 { DigitsLength(n / 10, k - 1); }
  }

  /** A 32-bit integer prints in at most eleven bytes. */
  lemma DecimalLength(n: int32)
    ensures |Decimal(n)| <= 11
  {
    assert Pow10(10) == 10_000_000_000;
    if n < 0 { DigitsLength(-(n as int), 10); } else { DigitsLength(n, 10); }
  }

  // ----- values -----

  function Quoted(s: CString): CString {
    "\"" + Escape(s) + "\""
  }

  /** What the writer can print: NUL-free strings and 32-bit integers. */
  ghost predicate Printable(j: Json) {
    match j
    case Null => true
    case Bool(_) => true
    case Number(x) => INT_MIN <= x.Floor <= INT_MAX && x == x.Floor as real
    case Str(s) => IsCString(s)
    case Arr(items) => forall i :: 0 <= i < |items| ==> Printable(items[i])
    case Obj(ms) => forall i :: 0 <= i < |ms| ==> IsCString(ms[i].key) && Printable(ms[i].value)
  }

  ghost function Render(j: Json): (r: CString)
    requires Printable(j)
    ensures |r| > 0
    decreases j
  {
    match j
    case Null => "null"
    case Bool(b) => if b then "true" else "false"
    case Number(x) => Decimal(x.Floor)
    case Str(s) => Quoted(s)
    case Arr(items) => "[" + RenderItems(items) + "]"
    case Obj(ms) => "{" + RenderMembers(ms) + "}"
  }

  ghost function RenderItems(items: seq<Json>): (r: CString)
    requires forall i :: 0 <= i < |items| ==> Printable(items[i])
    decreases items
  {
    if items == [] then []
    else if |items| == 1 then Render(items[0])
    else Render(items[0]) + "," + RenderItems(items[1..])
  }

  ghost function RenderMember(m: Member): (r: CString)
    requires IsCString(m.key) && Printable(m.value)
    decreases m
  {
    Quoted(m.key) + ":" + Render(m.value)
  }

  ghost function RenderMembers(ms: seq<Member>): (r: CString)
    requires forall i :: 0 <= i < |ms| ==> IsCString(ms[i].key) && Printable(ms[i].value)
    decreases ms
  {
    if ms == [] then []
    else if |ms| == 1 then RenderMember(ms[0])
    else RenderMember(ms[0]) + "," + RenderMembers(ms[1..])
  }

  /** How deeply values nest. */
  function Height(j: Json): (h: nat)
    ensures h >= 1
    decreases j
  {
    match j
    case Arr(items) => 1 + HeightItems(items)
    case Obj(ms) => 1 + HeightMembers(ms)
    case _ => 1
  }

  function HeightItems(items: seq<Json>): nat
    decreases items
  {
    if items == [] then 0 else var h, r := Height(items[0]), HeightItems(items[1..]); if h < r then r else h
  }

  function HeightMembers(ms: seq<Member>): nat
    decreases ms
  {
    if ms == [] then 0 else var h, r := Height(ms[0].value), HeightMembers(ms[1..]); if h < r then r else h
  }

  /** The escapes of the writer: seven bytes have a short one, the other control bytes are spelled in
      four hexadecimal digits, and nothing else is touched. */
  lemma EscapedExactly(c: char)
    requires 0 < c as int < 256
    ensures EscapeByte('"') == ['\\', '"'] && EscapeByte('\\') == ['\\', '\\']
    ensures EscapeByte(8 as char) == ['\\', 'b'] && EscapeByte(9 as char) == ['\\', 't']
    ensures EscapeByte(10 as char) == ['\\', 'n'] && EscapeByte(12 as char) == ['\\', 'f']
    ensures EscapeByte(13 as char) == ['\\', 'r']
    ensures c as int < 0x20 && c as int !in {8, 9, 10, 12, 13} ==>
              EscapeByte(c) == ['\\', 'u', '0', '0', "01"[c as int / 16], "0123456789abcdef"[c as int % 16]]
    ensures c as int >= 0x20 && c != '"' && c != '\\' ==> EscapeByte(c) == [c]
  {
    var digits := "0123456789abcdef";
    assert forall d :: 0 <= d < 16 ==> HexDigit(d) == digits[d];
  }
}
