/**
 The report writer's buffer (json_escape_len, json_escape_buf and cdsl_report_to_json in
 src/vm/eval.c): text goes into an array at a moving offset, which is enlarged before each part
 by an estimate of the part's size. The formatted writes and the escaping both cut off what does
 not fit; the theorem is that the estimates always suffice.
 */
module JsonWriter {
  import opened Values
  import opened Bytes
  import opened JsonText
  import opened JsonReport

  /** json_escape_len. */
  method EscapeLen(s: CString) returns (len: nat)
    ensures len == |Escape(s)|
  {
    len := 0;
    var i := 0;
    while i < |s|
      invariant i <= |s| && len == |Escape(s[..i])|
    {
      EscapeSnoc(s, i);
      if s[i] in {'"', '\\', '\n', '\r', '\t', 8 as char, 12 as char} {
        len := len + 2;
      } else if s[i] as int < 0x20 {
        len := len + 6;
      } else {
        len := len + 1;
      }
      i := i + 1;
    }
    assert s[..i] == s;
  }

  lemma EscapeSnoc(s: CString, i: nat)
    requires i < |s|
    ensures IsCString(s[..i]) && IsCString(s[..i + 1]) && Escape(s[..i + 1]) == Escape(s[..i]) + EscapeByte(s[i])
  {
    assert s[..i + 1] == s[..i] + [s[i]];
    EscapeConcat(s[..i], [s[i]]);
    assert Escape([s[i]]) == EscapeByte(s[i]) + Escape([]);
    hide EscapeByte;
  }

  class Buffer {
    var bytes: array<char>
    var off: nat

    ghost predicate Valid()
      reads this
    {
      off <= bytes.Length
    }

    /** What has been written. */
    ghost function Written(): string
      requires Valid()
      reads this, bytes
    {
      bytes[..off]
    }

    constructor (capacity: nat)
      ensures Valid() && Written() == [] && bytes.Length == capacity && fresh(bytes)
    {
      bytes, off := new char[capacity](_ => NUL), 0;
    }

    /** Copies bytes that fit to the offset. */
    method Put(text: string)
      requires Valid() && off + |text| <= bytes.Length
      modifies this`off, bytes
      ensures Valid() && off == old(off) + |text| && Written() == old(Written()) + text
    {
      ghost var before := bytes[..off];
      var k := 0;
      while k < |text|
        invariant k <= |text| && off == old(off)
        invariant bytes[..off] == before && bytes[off..off + k] == text[..k]
      {
        bytes[off + k] := text[k];
        k := k + 1;
      }
      off := off + |text|;
      assert bytes[..off] == before + text[..k];
    }

    /** snprintf at the offset, which moves by the full length of the text even if the text is cut. */
    method Format(text: string) returns (cut: bool)
      requires Valid()
      modifies this`off, bytes
      ensures off == old(off) + |text| && cut == (off >= bytes.Length)
      ensures !cut ==> Written() == old(Written()) + text
    {
      var room := bytes.Length - off;
      cut := |text| >= room;
      if cut {
        off := off + |text|;
      } else {
        Put(text);
        bytes[off] := NUL;
      }
    }

    /** json_escape_buf stops, between two escapes, once fewer than eight bytes are left. */
    method EscapeInto(s: CString)
      requires Valid()
      modifies this`off, bytes
      ensures Valid()
      ensures exists k: nat :: k <= |s| && IsCString(s[..k]) && Written() == old(Written()) + Escape(s[..k])
      ensures old(off) + |Escape(s)| + 7 <= bytes.Length ==> Written() == old(Written()) + Escape(s)
    {
      hide Escape, EscapeByte;
      ghost var start := Written();
      EmptyEscape();
      assert s[..0] == [];
      var i := 0;
      while i < |s|
        invariant i <= |s| && Valid() && IsCString(s[..i]) && Written() == start + Escape(s[..i])
      {
        EscapeSnoc(s, i);
        EscapePrefix(s, i);
        if off + 7 >= bytes.Length { break; }
        Put(EscapeByte(s[i]));
        i := i + 1;
      }
      assert i == |s| ==> s[..i] == s;
      if off < bytes.Length { bytes[off] := NUL; }
      assert Written() == start + Escape(s[..i]);
    }

    /** JSON_CHECK_CAP: room for n more bytes and a terminator. */
    method EnsureRoom(n: nat)
      requires Valid()
      modifies this`bytes
      ensures Valid() && off + n + 1 <= bytes.Length && Written() == old(Written())
      ensures bytes == old(bytes) || fresh(bytes)
    {
      if off + n + 1 > bytes.Length {
        var larger := new char[(off + n + 1) * 2](_ => NUL);
        var k := 0;
        while k < off
          invariant k <= off && larger[..k] == bytes[..k]
          modifies larger
        {
          larger[k] := bytes[k];
          k := k + 1;
        }
        bytes := larger;
      }
    }
  }

  lemma EmptyEscape()
    ensures Escape([]) == []
  {
  }

  lemma EscapePrefix(s: CString, i: nat)
    requires i < |s|
    ensures IsCString(s[..i]) && |Escape(s[..i])| + 1 <= |Escape(s)|
  {
    assert s == s[..i] + s[i..];
    EscapeConcat(s[..i], s[i..]);
  }

  // ----- the writer -----

  lemma NumbersLength(m: MetricFields)
    ensures |Numbers(m)| <= 103
  {
    DecimalLength(m.weight);
    DecimalLength(m.score);
    DecimalLength(m.critical);
    DecimalLength(m.passed);
    hide Decimal;
  }

  lemma HeadNumbersLength(r: ReportFields)
    ensures |HeadNumbers(r)| <= 113
  {
    DecimalLength(r.totalMax);
    DecimalLength(r.totalObtained);
    hide Decimal, StatusText;
  }

  function EscapeLength(s: Option<CString>): nat {
    if s.Some? then |Escape(s.value)| else 0
  }

  function MetricRoom(m: MetricFields): nat {
    256 + |Escape(OrEmpty(m.name))| + |Escape(OrEmpty(m.description))| + EscapeLength(m.reason)
  }

  /** The rest is still to be written for the goal to be reached. */
  ghost predicate Owes(written: string, rest: string, goal: string) {
    written + rest == goal
  }

  lemma Owing(written: string, text: string)
    ensures Owes(written, text, written + text)
  {
  }

  /** A part that leaves the rest still to be written. */
  method Part(b: Buffer, text: string, ghost rest: string, ghost goal: string)
    requires b.Valid() && b.off + |text| < b.bytes.Length && Owes(b.Written(), text + rest, goal)
    modifies b`off, b.bytes
    ensures b.Valid() && b.off == old(b.off) + |text| && Owes(b.Written(), rest, goal)
  {
    Regroup(b.Written(), text, rest);
    var _ := b.Format(text);
  }

  method EscapedPart(b: Buffer, s: CString, ghost rest: string, ghost goal: string)
    requires b.Valid() && b.off + |Escape(s)| + 7 <= b.bytes.Length && Owes(b.Written(), Escape(s) + rest, goal)
    modifies b`off, b.bytes
    ensures b.Valid() && b.off == old(b.off) + |Escape(s)| && Owes(b.Written(), rest, goal)
  {
    Regroup(b.Written(), Escape(s), rest);
    b.EscapeInto(s);
    assert |b.Written()| == b.off;
  }

  /** A metric, once JSON_CHECK_CAP has made room. */
  method MetricInto(b: Buffer, m: MetricFields)
    requires b.Valid() && b.off + MetricRoom(m) <= b.bytes.Length
    modifies b`off, b.bytes
    ensures b.Valid() && b.Written() == old(b.Written()) + MetricText(m)
  {
    NumbersLength(m);
    ghost var goal := b.Written() + MetricText(m);
    ghost var n := AfterNumbers(m);
    Owing(b.Written(), MetricText(m));
    hide Escape, Numbers, Owes, Buffer.Written, MetricStart, DescriptionStart, ReasonStart, AfterNumbers, OrEmpty;
    Part(b, MetricStart(), Escape(OrEmpty(m.name)) + AfterName(m), goal);
    EscapedPart(b, OrEmpty(m.name), AfterName(m), goal);
    Part(b, DescriptionStart(), Escape(OrEmpty(m.description)) + (("\"," + Numbers(m)) + n), goal);
    EscapedPart(b, OrEmpty(m.description), ("\"," + Numbers(m)) + n, goal);
    Part(b, "\"," + Numbers(m), n, goal);
    ReasonInto(b, m, goal);
  }

  /** The optional reason and the closing brace. */
  method ReasonInto(b: Buffer, m: MetricFields, ghost goal: string)
    requires b.Valid() && b.off + EscapeLength(m.reason) + 32 <= b.bytes.Length
      && Owes(b.Written(), AfterNumbers(m), goal)
    modifies b`off, b.bytes
    ensures b.Valid() && b.Written() == goal
  {
    if m.reason.Some? {
      Part(b, ReasonStart(), Escape(m.reason.value) + ("\"" + "}"), goal);
      EscapedPart(b, m.reason.value, "\"" + "}", goal);
      Part(b, "\"", "}", goal);
    }
    assert "}" + [] == "}";
    Part(b, "}", [], goal);
  }

  /** One turn of the loop over the metrics: room is made, then the metric is written. */
  method OneMetric(b: Buffer, m: MetricFields, first: bool)
    requires b.Valid()
    modifies b, b.bytes
    ensures b.Valid() && b.Written() == (old(b.Written()) + (if first then [] else ",")) + MetricText(m)
    ensures b.bytes == old(b.bytes) || fresh(b.bytes)
  {
    hide Escape, MetricText;
    var name := EscapeLen(OrEmpty(m.name));
    var description := EscapeLen(OrEmpty(m.description));
    var reason := 0;
    if m.reason.Some? { reason := EscapeLen(m.reason.value); }
    b.EnsureRoom(256 + name + description + reason);
    NothingLeft(b.Written());
    if !first { var _ := b.Format(","); }
    MetricInto(b, m);
  }

  /** cdsl_report_to_json: no part is ever cut off. */
  method ReportToJson(r: ReportFields) returns (text: string)
    ensures text == ReportText(r)
  {
    HeadNumbersLength(r);
    hide Escape, MetricTexts, MetricText, Head, HeadNumbers, StatusText;
    var name := EscapeLen(OrEmpty(r.ruleName));
    var description := EscapeLen(OrEmpty(r.description));
    var summary := EscapeLen(OrEmpty(r.summary));
    var needed := 256 + name + description + summary;
    var b := new Buffer(if needed > 1024 then needed * 2 else 1024);
    HeadInto(b, r);
    NoMetrics(Head(r), r.metrics);
    var i := 0;
    while i < |r.metrics|
      invariant i <= |r.metrics| && b.Valid() && fresh(b) && fresh(b.bytes)
      invariant b.Written() == Head(r) + MetricTexts(r.metrics[..i])
    {
      OneMetric(b, r.metrics[i], i == 0);
      NextMetric(Head(r), r.metrics, i);
      i := i + 1;
    }
    assert r.metrics[..i] == r.metrics;
    b.EnsureRoom(4);
    var _ := b.Format("]}");
    Regroup(Head(r), MetricTexts(r.metrics), "]}");
    text := b.bytes[..b.off];
  }

  lemma NoMetrics(head: string, ms: seq<MetricFields>)
    ensures head + MetricTexts(ms[..0]) == head
  {
  }

  lemma NextMetric(head: string, ms: seq<MetricFields>, i: nat)
    requires i < |ms|
    ensures ((head + MetricTexts(ms[..i])) + (if i == 0 then [] else ",")) + MetricText(ms[i])
         == head + MetricTexts(ms[..i + 1])
  {
    hide MetricText;
    assert ms[..i + 1][..i] == ms[..i];
    var t, c := MetricTexts(ms[..i]), if i == 0 then [] else ",";
    Regroup(head + t, c, MetricText(ms[i]));
    Regroup(head, t, c + MetricText(ms[i]));
  }

  method HeadInto(b: Buffer, r: ReportFields)
    requires b.Valid() && b.Written() == []
    requires 256 + |Escape(OrEmpty(r.ruleName))| + |Escape(OrEmpty(r.description))| + |Escape(OrEmpty(r.summary))|
             <= b.bytes.Length
    modifies b`off, b.bytes
    ensures b.Valid() && b.Written() == Head(r)
  {
    HeadNumbersLength(r);
    ghost var goal := Head(r);
    assert b.Written() + Head(r) == goal;
    assert b.off == |b.Written()|;
    hide Escape, HeadNumbers, Buffer.Written, ReportStart, DescriptionStart, MetricsStart, OrEmpty;
    Part(b, ReportStart(), Escape(OrEmpty(r.ruleName)) + AfterRuleName(r), goal);
    EscapedPart(b, OrEmpty(r.ruleName), AfterRuleName(r), goal);
    ghost var after := ("\"," + HeadNumbers(r)) + (Escape(OrEmpty(r.summary)) + MetricsStart());
    Part(b, DescriptionStart(), Escape(OrEmpty(r.description)) + after, goal);
    EscapedPart(b, OrEmpty(r.description), after, goal);
    hide Owes;
    Part(b, "\"," + HeadNumbers(r), Escape(OrEmpty(r.summary)) + MetricsStart(), goal);
    EscapedPart(b, OrEmpty(r.summary), MetricsStart(), goal);
    NothingLeft(MetricsStart());
    Part(b, MetricsStart(), [], goal);
    Paid(b.Written(), goal);
  }

  lemma NothingLeft(t: string)
    ensures t + [] == t
  {
  }

  lemma Paid(written: string, goal: string)
    requires Owes(written, [], goal)
    ensures written == goal
  {
    NothingLeft(written);
  }
}
