/**
 A report as JSON (cdsl_report_to_json in src/vm/eval.c): the text its formats spell out, and
 that the parser reads the whole report back from it.
 */
module JsonReport {
  import opened Values
  import opened Bytes
  import Ast
  import opened JsonText
  import opened JsonParser
  import opened JsonRoundTrip

  datatype MetricFields = MetricFields(
    name: Option<CString>, description: Option<CString>,
    weight: int32, score: int32, critical: int32, passed: int32,
    reason: Option<CString>)

  datatype ReportFields = ReportFields(
    ruleName: Option<CString>, description: Option<CString>, status: Ast.RuleStatus,
    totalMax: int32, totalObtained: int32, summary: Option<CString>,
    metrics: seq<MetricFields>)

  function OrEmpty(s: Option<CString>): CString {
    if s.Some? then s.value else []
  }

  function StatusText(st: Ast.RuleStatus): (r: CString)
    ensures |r| <= 16 && Plain(r)
  {
    match st
    case Passed => "PASSED"
    case PartiallyPassed => "PARTIALLY PASSED"
    case Failed => "FAILED"
    case Errored => "ERROR"
  }

  // ----- the value a report stands for -----

  /** The member names of a report, and those of a metric that are its own. */
  datatype ReportKey =
    | RuleNameKey | DescriptionKey | StatusKey | TotalMaxScoreKey | TotalObtainedScoreKey | DecisionSummaryKey
    | MetricsKey

  datatype MetricKey =
    | MetricNameKey | MaxWeightKey | ScoreObtainedKey | IsCriticalKey | IsPassedKey | ViolationReasonKey

  function Spelled(k: ReportKey): (r: string)
    ensures Plain(r)
  {
    match k
    case RuleNameKey => "rule_name"
    case DescriptionKey => "description"
    case StatusKey => "status"
    case TotalMaxScoreKey => "total_max_score"
    case TotalObtainedScoreKey => "total_obtained_score"
    case DecisionSummaryKey => "decision_summary"
    case MetricsKey => "metrics"
  }

  function SpelledInMetric(k: MetricKey): (r: string)
    ensures Plain(r)
  {
    match k
    case MetricNameKey => "metric_name"
    case MaxWeightKey => "max_weight"
    case ScoreObtainedKey => "score_obtained"
    case IsCriticalKey => "is_critical"
    case IsPassedKey => "is_passed"
    case ViolationReasonKey => "violation_reason"
  }

  function Num(n: int32): Json { Number(n as int as real) }

  function MetricJson(m: MetricFields): Json {
    Obj([Member(SpelledInMetric(MetricNameKey), Str(OrEmpty(m.name)))] +
        ([Member(Spelled(DescriptionKey), Str(OrEmpty(m.description)))] + NumberMembers(m)))
  }

  function NumberMembers(m: MetricFields): seq<Member> {
    [Member(SpelledInMetric(MaxWeightKey), Num(m.weight))] +
    ([Member(SpelledInMetric(ScoreObtainedKey), Num(m.score))] +
    ([Member(SpelledInMetric(IsCriticalKey), Num(m.critical))] +
    ([Member(SpelledInMetric(IsPassedKey), Num(m.passed))] + ReasonMembers(m))))
  }

  function ReasonMembers(m: MetricFields): seq<Member> {
    if m.reason.Some? then [Member(SpelledInMetric(ViolationReasonKey), Str(m.reason.value))] else []
  }

  function MetricsJson(ms: seq<MetricFields>): (r: seq<Json>)
    ensures |r| == |ms| && forall i :: 0 <= i < |ms| ==> r[i] == MetricJson(ms[i])
  {
    seq(|ms|, i requires 0 <= i < |ms| => MetricJson(ms[i]))
  }

  function ReportJson(r: ReportFields): Json {
    Obj([Member(Spelled(RuleNameKey), Str(OrEmpty(r.ruleName)))] +
        ([Member(Spelled(DescriptionKey), Str(OrEmpty(r.description)))] + LaterMembers(r)))
  }

  function LaterMembers(r: ReportFields): seq<Member> {
    [Member(Spelled(StatusKey), Str(StatusText(r.status)))] + ([Member(Spelled(TotalMaxScoreKey), Num(r.totalMax))] +
    ([Member(Spelled(TotalObtainedScoreKey), Num(r.totalObtained))] +
    ([Member(Spelled(DecisionSummaryKey), Str(OrEmpty(r.summary)))] +
    [Member(Spelled(MetricsKey), Arr(MetricsJson(r.metrics)))])))
  }

  // ----- the text the formats spell out -----

  function Name(key: string): string { "\"" + key + "\":" }

  /** Opens a string member. */
  function Opening(key: string): string { Name(key) + "\"" }

  function MetricStart(): (r: string)
    ensures |r| == 16
  {
    "{" + Opening(SpelledInMetric(MetricNameKey))
  }

  function DescriptionStart(): (r: string)
    ensures |r| == 17
  {
    "\"," + Opening(Spelled(DescriptionKey))
  }

  function ReasonStart(): (r: string)
    ensures |r| == 21
  {
    "," + Opening(SpelledInMetric(ViolationReasonKey))
  }

  function MetricText(m: MetricFields): string {
    MetricStart() + (Escape(OrEmpty(m.name)) + AfterName(m))
  }

  function AfterName(m: MetricFields): string {
    DescriptionStart() + (Escape(OrEmpty(m.description)) + (("\"," + Numbers(m)) + AfterNumbers(m)))
  }

  function Numbers(m: MetricFields): string {
    (Name(SpelledInMetric(MaxWeightKey)) + Decimal(m.weight)) +
    ("," + ((Name(SpelledInMetric(ScoreObtainedKey)) + Decimal(m.score)) +
    ("," + ((Name(SpelledInMetric(IsCriticalKey)) + Decimal(m.critical)) +
    ("," + (Name(SpelledInMetric(IsPassedKey)) + Decimal(m.passed)))))))
  }

  function AfterNumbers(m: MetricFields): string {
    if m.reason.Some? then ReasonStart() + (Escape(m.reason.value) + ("\"" + "}")) else "}"
  }

  function MetricTexts(ms: seq<MetricFields>): string {
    if ms == [] then []
    else MetricTexts(ms[..|ms| - 1]) + ((if |ms| > 1 then "," else []) + MetricText(ms[|ms| - 1]))
  }

  function ReportStart(): (r: string)
    ensures |r| == 14
  {
    "{" + Opening(Spelled(RuleNameKey))
  }

  function MetricsStart(): (r: string)
    ensures |r| == 13
  {
    "\"," + (Name(Spelled(MetricsKey)) + "[")
  }

  function Head(r: ReportFields): string {
    ReportStart() + (Escape(OrEmpty(r.ruleName)) + AfterRuleName(r))
  }

  function AfterRuleName(r: ReportFields): string {
    DescriptionStart() + (Escape(OrEmpty(r.description)) +
    (("\"," + HeadNumbers(r)) + (Escape(OrEmpty(r.summary)) + MetricsStart())))
  }

  function HeadNumbers(r: ReportFields): string {
    (Opening(Spelled(StatusKey)) + (StatusText(r.status) + "\"")) +
    ("," + ((Name(Spelled(TotalMaxScoreKey)) + Decimal(r.totalMax)) +
    ("," + ((Name(Spelled(TotalObtainedScoreKey)) + Decimal(r.totalObtained)) +
    ("," + Opening(Spelled(DecisionSummaryKey)))))))
  }

  function ReportText(r: ReportFields): string {
    Head(r) + (MetricTexts(r.metrics) + "]}")
  }

  // ----- it is the compact text of that value -----

  lemma PlainIsCString()
    ensures forall s: string :: Plain(s) ==> IsCString(s)
  {
  }

  lemma Stringy(key: CString, s: CString)
    requires Plain(key)
    ensures RenderMember(Member(key, Str(s))) == Opening(key) + (Escape(s) + "\"")
  {
    PlainIsItself(key);
    var e := Escape(s);
    assert RenderMember(Member(key, Str(s))) == (("\"" + key + "\"") + ":") + ("\"" + e + "\"");
    hide *;
    QuotesRegrouped(key, e);
    NameIs(key);
    assert Opening(key) == ("\"" + key + "\":") + "\"" by { OpeningIs(key); }
  }

  lemma OpeningIs(key: string)
    ensures Opening(key) == ("\"" + key + "\":") + "\""
  {
  }

  lemma QuotesRegrouped(key: string, e: string)
    ensures (("\"" + key + "\"") + ":") + ("\"" + e + "\"") == (("\"" + key + "\":") + "\"") + (e + "\"")
  {
    var n := "\"" + key;
    Regroup(n, "\"", ":");
    assert "\"" + ":" == "\":";
    Regroup("\"", e, "\"");
    Regroup(n + "\":", "\"", e + "\"");
  }

  lemma Numeric(key: CString, n: int32)
    requires Plain(key)
    ensures Printable(Num(n)) && RenderMember(Member(key, Num(n))) == Name(key) + Decimal(n)
  {
    PlainIsItself(key);
    assert (n as int as real).Floor == n;
    var d := Decimal(n);
    hide Escape, Plain, Decimal;
    assert ("\"" + key + "\"") + ":" + d == ("\"" + key + "\":") + d;
  }

  lemma MembersCons(m: Member, ms: seq<Member>)
    requires IsCString(m.key) && Printable(m.value) && ms != []
    requires forall i :: 0 <= i < |ms| ==> IsCString(ms[i].key) && Printable(ms[i].value)
    ensures RenderMembers([m] + ms) == RenderMember(m) + ("," + RenderMembers(ms))
  {
    assert ([m] + ms)[1..] == ms;
  }

  /** Printable members render one after the other. */
  ghost predicate Fine(ms: seq<Member>) {
    forall i :: 0 <= i < |ms| ==> IsCString(ms[i].key) && Printable(ms[i].value)
  }

  lemma CloseQuote(o: string, e: string, t: string)
    ensures (o + (e + "\"")) + ("," + t) == o + (e + ("\"," + t))
  {
    Regroup(o, e + "\"", "," + t);
    Regroup(e, "\"", "," + t);
    Regroup("\"", ",", t);
    assert "\"" + "," == "\",";
  }

  /** Text added behind a list whose first element is a. */
  lemma Behind(a: string, x: string, z: string)
    ensures (a + ("," + x)) + z == a + ("," + (x + z))
  {
    Regroup(a, "," + x, z);
    Regroup(",", x, z);
  }

  lemma StringMember(key: CString, s: CString, ms: seq<Member>)
    requires Plain(key) && Fine(ms) && ms != []
    ensures Fine([Member(key, Str(s))] + ms)
    ensures RenderMembers([Member(key, Str(s))] + ms) == Opening(key) + (Escape(s) + ("\"," + RenderMembers(ms)))
  {
    Stringy(key, s);
    MembersCons(Member(key, Str(s)), ms);
    CloseQuote(Opening(key), Escape(s), RenderMembers(ms));
    hide Opening, Escape, RenderMembers, RenderMember, Plain;
  }

  lemma NumberMember(key: CString, n: int32, ms: seq<Member>)
    requires Plain(key) && Fine(ms) && ms != []
    ensures Fine([Member(key, Num(n))] + ms)
    ensures RenderMembers([Member(key, Num(n))] + ms) == (Name(key) + Decimal(n)) + ("," + RenderMembers(ms))
  {
    Numeric(key, n);
    MembersCons(Member(key, Num(n)), ms);
  }

  lemma ReasonRegrouped(n: string, o: string, e: string)
    ensures (n + ("," + (o + (e + "\"")))) + "}" == n + (("," + o) + (e + ("\"" + "}")))
  {
    Behind(n, o + (e + "\""), "}");
    Regroup(o, e + "\"", "}");
    Regroup(e, "\"", "}");
    Regroup(",", o, e + ("\"" + "}"));
  }

  lemma LastText(kp: CString, passed: int32, kr: CString, reason: Option<CString>)
    requires Plain(kp) && Plain(kr)
    ensures var ms := [Member(kp, Num(passed))] + (if reason.Some? then [Member(kr, Str(reason.value))] else []);
            && Fine(ms)
            && RenderMembers(ms) + "}" == (Name(kp) + Decimal(passed)) +
               (if reason.Some? then ("," + Opening(kr)) + (Escape(reason.value) + ("\"" + "}")) else "}")
  {
    hide Name, Escape, Plain, Decimal, RenderMember, Opening;
    var p := Member(kp, Num(passed));
    Numeric(kp, passed);
    if reason.Some? {
      var w := Member(kr, Str(reason.value));
      Stringy(kr, reason.value);
      FineString(w);
      assert RenderMembers([w]) == RenderMember(w);
      NumberMember(kp, passed, [w]);
      ReasonRegrouped(Name(kp) + Decimal(passed), Opening(kr), Escape(reason.value));
    } else {
      assert [p] + [] == [p];
    }
  }

  lemma FineString(m: Member)
    requires IsCString(m.key) && m.value.Str? && IsCString(m.value.s)
    ensures Fine([m])
  {
  }

  lemma Behind3(a: string, b: string, c: string, x: string, z: string)
    ensures (a + ("," + (b + ("," + (c + ("," + x)))))) + z == a + ("," + (b + ("," + (c + ("," + (x + z))))))
  {
    Behind(a, b + ("," + (c + ("," + x))), z);
    Behind(b, c + ("," + x), z);
    Behind(c, x, z);
  }

  lemma NumbersText(k1: CString, n1: int32, k2: CString, n2: int32, k3: CString, n3: int32, ms: seq<Member>)
    requires Plain(k1) && Plain(k2) && Plain(k3) && Fine(ms) && ms != []
    ensures var all := [Member(k1, Num(n1))] + ([Member(k2, Num(n2))] + ([Member(k3, Num(n3))] + ms));
            && Fine(all)
            && RenderMembers(all) + "}" ==
               (Name(k1) + Decimal(n1)) + ("," + ((Name(k2) + Decimal(n2)) + ("," + ((Name(k3) + Decimal(n3)) +
               ("," + (RenderMembers(ms) + "}"))))))
  {
    hide Name, Escape, Plain, Decimal, RenderMembers, Printable;
    var m3 := [Member(k3, Num(n3))] + ms;
    NumberMember(k3, n3, ms);
    NumberMember(k2, n2, m3);
    NumberMember(k1, n1, [Member(k2, Num(n2))] + m3);
    Behind3(Name(k1) + Decimal(n1), Name(k2) + Decimal(n2), Name(k3) + Decimal(n3), RenderMembers(ms), "}");
  }

  lemma TwoStrings(k1: CString, s1: CString, k2: CString, s2: CString, ms: seq<Member>, z: string)
    requires Plain(k1) && Plain(k2) && Fine(ms) && ms != []
    ensures var all := [Member(k1, Str(s1))] + ([Member(k2, Str(s2))] + ms);
            && Fine(all)
            && RenderMembers(all) + z ==
               Opening(k1) + (Escape(s1) + (("\"," + Opening(k2)) + (Escape(s2) + ("\"," + (RenderMembers(ms) + z)))))
  {
    hide Opening, Escape, Plain, RenderMembers, Printable;
    StringMember(k2, s2, ms);
    StringMember(k1, s1, [Member(k2, Str(s2))] + ms);
    var o1, e1, o2, e2, t := Opening(k1), Escape(s1), Opening(k2), Escape(s2), RenderMembers(ms);
    Regroup(o1, e1 + ("\"," + (o2 + (e2 + ("\"," + t)))), z);
    Regroup(e1, "\"," + (o2 + (e2 + ("\"," + t))), z);
    Regroup("\",", o2 + (e2 + ("\"," + t)), z);
    Regroup(o2, e2 + ("\"," + t), z);
    Regroup(e2, "\"," + t, z);
    Regroup("\",", t, z);
    Regroup("\",", o2, e2 + ("\"," + (t + z)));
  }

  /** The text a metric is given is the compact text of its value. */
  lemma MetricIsRendered(m: MetricFields)
    ensures Printable(MetricJson(m)) && Render(MetricJson(m)) == MetricText(m)
  {
    hide Spelled, SpelledInMetric, Opening, Name, Escape, Decimal, RenderMembers;
    PlainIsCString();
    hide Plain;
    LastText(SpelledInMetric(IsPassedKey), m.passed, SpelledInMetric(ViolationReasonKey), m.reason);
    var last := [Member(SpelledInMetric(IsPassedKey), Num(m.passed))] + ReasonMembers(m);
    NumbersText(SpelledInMetric(MaxWeightKey), m.weight, SpelledInMetric(ScoreObtainedKey), m.score,
                SpelledInMetric(IsCriticalKey), m.critical, last);
    Behind3(Name(SpelledInMetric(MaxWeightKey)) + Decimal(m.weight),
            Name(SpelledInMetric(ScoreObtainedKey)) + Decimal(m.score),
            Name(SpelledInMetric(IsCriticalKey)) + Decimal(m.critical),
            Name(SpelledInMetric(IsPassedKey)) + Decimal(m.passed), AfterNumbers(m));
    TwoStrings(SpelledInMetric(MetricNameKey), OrEmpty(m.name), Spelled(DescriptionKey), OrEmpty(m.description),
               NumberMembers(m), "}");
    Regroup("\",", Numbers(m), AfterNumbers(m));
    Regroup("{", RenderMembers(MetricJson(m).members), "}");
    Regroup("{", Opening(SpelledInMetric(MetricNameKey)), Escape(OrEmpty(m.name)) + AfterName(m));
  }

  // ----- the whole report -----

  /** Text added behind the status and the totals: the numbers' separators stay where they are. */
  lemma BehindNumbers(a: string, b: string, o: string, y: string)
    ensures ("," + (a + ("," + (b + ("," + o))))) + y == "," + (a + ("," + (b + ("," + (o + y)))))
  {
    Regroup(",", a + ("," + (b + ("," + o))), y);
    Behind(a, b + ("," + o), y);
    Behind(b, o, y);
  }

  lemma StatusRegrouped(o3: string, st: string, a: string, b: string, o4: string, y: string)
    ensures ("\"," + ((o3 + (st + "\"")) + ("," + (a + ("," + (b + ("," + o4))))))) + y ==
            "\"," + (o3 + (st + ("\"," + (a + ("," + (b + ("," + (o4 + y))))))))
  {
    var numbers := "," + (a + ("," + (b + ("," + o4))));
    Regroup("\",", (o3 + (st + "\"")) + numbers, y);
    Regroup(o3 + (st + "\""), numbers, y);
    BehindNumbers(a, b, o4, y);
    CloseQuote(o3, st, a + ("," + (b + ("," + (o4 + y)))));
  }

  lemma StatusBehind(o3: string, st: string, x: string, z: string)
    ensures (o3 + (st + ("\"," + x))) + z == o3 + (st + ("\"," + (x + z)))
  {
    Regroup(o3, st + ("\"," + x), z);
    Regroup(st, "\"," + x, z);
    Regroup("\",", x, z);
  }

  lemma TotalsBehind(a: string, b: string, o4: string, e4: string, x: string, z: string)
    ensures (a + ("," + (b + ("," + (o4 + (e4 + ("\"," + x))))))) + z ==
            a + ("," + (b + ("," + (o4 + (e4 + ("\"," + (x + z)))))))
  {
    Behind(a, b + ("," + (o4 + (e4 + ("\"," + x)))), z);
    Behind(b, o4 + (e4 + ("\"," + x)), z);
    StatusBehind(o4, e4, x, z);
  }

  lemma HeadBehind(p: string, e1: string, q: string, e2: string, h: string, e4: string, n: string, u: string)
    ensures (p + (e1 + (q + (e2 + (h + (e4 + n)))))) + u == p + (e1 + (q + (e2 + (h + (e4 + (n + u))))))
  {
    Regroup(p, e1 + (q + (e2 + (h + (e4 + n)))), u);
    Regroup(e1, q + (e2 + (h + (e4 + n))), u);
    Regroup(q, e2 + (h + (e4 + n)), u);
    Regroup(e2, h + (e4 + n), u);
    Regroup(h, e4 + n, u);
    Regroup(e4, n, u);
  }

  lemma ArrayMember(key: CString, items: seq<Json>)
    requires Plain(key) && forall i :: 0 <= i < |items| ==> Printable(items[i])
    ensures Fine([Member(key, Arr(items))])
    ensures RenderMembers([Member(key, Arr(items))]) + "}" == (Name(key) + "[") + (RenderItems(items) + "]}")
  {
    hide Escape, Plain, RenderItems;
    PlainIsItself(key);
    var m := Member(key, Arr(items));
    assert RenderMembers([m]) == RenderMember(m);
    var q, v := Quoted(key), Render(Arr(items));
    assert q == "\"" + key + "\"" && RenderMember(m) == q + ":" + v;
    assert v == "[" + RenderItems(items) + "]";
    hide *;
    ArrayRegrouped(key, RenderItems(items));
    assert Name(key) == "\"" + key + "\":" by { NameIs(key); }
  }

  lemma NameIs(key: string)
    ensures Name(key) == "\"" + key + "\":"
  {
  }

  lemma ArrayRegrouped(key: string, t: string)
    ensures (("\"" + key + "\"") + ":") + ("[" + t + "]") + "}" == (("\"" + key + "\":") + "[") + (t + "]}")
  {
    Regroup("\"" + key, "\"", ":");
    assert "\"" + ":" == "\":" && "]" + "}" == "]}";
    Regroup("\"" + key + "\":", "[" + t + "]", "}");
    Regroup("[", t, "]");
    Regroup("[", t + "]", "}");
    Regroup(t, "]", "}");
    Regroup("\"" + key + "\":", "[", t + "]}");
  }

  lemma StatusAndTotals(ks: CString, st: CString, kt: CString, t: int32, ko: CString, o: int32,
      kd: CString, d: CString, ms: seq<Member>)
    requires Plain(ks) && Plain(st) && Plain(kt) && Plain(ko) && Plain(kd) && Fine(ms) && ms != []
    ensures var all := [Member(ks, Str(st))] +
      ([Member(kt, Num(t))] + ([Member(ko, Num(o))] + ([Member(kd, Str(d))] + ms)));
            && Fine(all)
            && RenderMembers(all) + "}" ==
               Opening(ks) + (st + ("\"," + ((Name(kt) + Decimal(t)) + ("," + ((Name(ko) + Decimal(o)) + ("," +
               (Opening(kd) + (Escape(d) + ("\"," + (RenderMembers(ms) + "}"))))))))))
  {
    hide Name, Opening, Escape, Plain, Decimal, RenderMembers, Printable;
    PlainIsItself(st);
    var m4 := [Member(kd, Str(d))] + ms;
    var m3 := [Member(ko, Num(o))] + m4;
    var m2 := [Member(kt, Num(t))] + m3;
    StringMember(kd, d, ms);
    NumberMember(ko, o, m4);
    NumberMember(kt, t, m3);
    StringMember(ks, st, m2);
    StatusBehind(Opening(ks), st, RenderMembers(m2), "}");
    TotalsBehind(Name(kt) + Decimal(t), Name(ko) + Decimal(o), Opening(kd), Escape(d), RenderMembers(ms), "}");
  }

  lemma ItemsCons(j: Json, items: seq<Json>)
    requires Printable(j) && forall i :: 0 <= i < |items| ==> Printable(items[i])
    ensures RenderItems([j] + items) == if items == [] then Render(j) else Render(j) + ("," + RenderItems(items))
  {
    hide Printable, Render;
    assert ([j] + items)[1..] == items;
  }

  lemma {:induction false} ItemsSnoc(items: seq<Json>, j: Json)
    requires Printable(j) && forall i :: 0 <= i < |items| ==> Printable(items[i])
    ensures RenderItems(items + [j]) == if items == [] then Render(j) else RenderItems(items) + ("," + Render(j))
  {
    hide Printable, Render, RenderItems;
    if items == [] {
      ItemsCons(j, []);
      assert [] + [j] == [j] + [];
    } else {
      ItemsSnoc(items[1..], j);
      ItemsCons(items[0], items[1..] + [j]);
      ItemsCons(items[0], items[1..]);
      assert [items[0]] + items[1..] == items && [items[0]] + (items[1..] + [j]) == items + [j];
      if |items| > 1 { Behind(Render(items[0]), RenderItems(items[1..]), "," + Render(j)); }
    }
  }

  lemma MetricsJsonSnoc(ms: seq<MetricFields>, m: MetricFields)
    ensures MetricsJson(ms + [m]) == MetricsJson(ms) + [MetricJson(m)]
  {
    hide MetricJson;
  }

  lemma MetricTextsSnoc(ms: seq<MetricFields>, m: MetricFields)
    ensures MetricTexts(ms + [m]) == MetricTexts(ms) + ((if ms == [] then [] else ",") + MetricText(m))
  {
    hide MetricText;
    assert (ms + [m])[..|ms|] == ms;
  }

  lemma {:induction false} MetricsAreRendered(ms: seq<MetricFields>)
    ensures (forall i :: 0 <= i < |ms| ==> Printable(MetricsJson(ms)[i]))
      && RenderItems(MetricsJson(ms)) == MetricTexts(ms)
  {
    hide MetricText, MetricJson, Render, Printable;
    if ms != [] {
      hide MetricTexts, RenderItems;
      var n := |ms| - 1;
      MetricsAreRendered(ms[..n]);
      MetricIsRendered(ms[n]);
      assert ms == ms[..n] + [ms[n]];
      MetricsJsonSnoc(ms[..n], ms[n]);
      MetricTextsSnoc(ms[..n], ms[n]);
      ItemsSnoc(MetricsJson(ms[..n]), MetricJson(ms[n]));
      if n == 0 { NoText(MetricText(ms[n])); }
    }
  }

  lemma NoText(t: string)
    ensures MetricTexts([]) + ([] + t) == t
  {
    assert [] + t == t;
  }

  lemma LaterText(r: ReportFields)
    ensures Fine(LaterMembers(r))
    ensures "\"," + (RenderMembers(LaterMembers(r)) + "}") ==
            ("\"," + HeadNumbers(r)) + (Escape(OrEmpty(r.summary)) +
            ("\"," + ((Name(Spelled(MetricsKey)) + "[") + (MetricTexts(r.metrics) + "]}"))))
  {
    hide Spelled, SpelledInMetric, Name, Opening, Escape, Decimal, RenderMembers, StatusText, MetricTexts,
      MetricsJson, Printable;
    PlainIsCString();
    hide Plain;
    MetricsAreRendered(r.metrics);
    ArrayMember(Spelled(MetricsKey), MetricsJson(r.metrics));
    StatusAndTotals(Spelled(StatusKey), StatusText(r.status), Spelled(TotalMaxScoreKey), r.totalMax,
                    Spelled(TotalObtainedScoreKey), r.totalObtained, Spelled(DecisionSummaryKey), OrEmpty(r.summary),
                    [Member(Spelled(MetricsKey), Arr(MetricsJson(r.metrics)))]);
    var y := Escape(OrEmpty(r.summary)) +
      ("\"," + ((Name(Spelled(MetricsKey)) + "[") + (MetricTexts(r.metrics) + "]}")));
    var os, st, od := Opening(Spelled(StatusKey)), StatusText(r.status), Opening(Spelled(DecisionSummaryKey));
    var a := Name(Spelled(TotalMaxScoreKey)) + Decimal(r.totalMax);
    var b := Name(Spelled(TotalObtainedScoreKey)) + Decimal(r.totalObtained);
    assert RenderMembers(LaterMembers(r)) + "}" == os + (st + ("\"," + (a + ("," + (b + ("," + (od + y)))))));
    assert HeadNumbers(r) == (os + (st + "\"")) + ("," + (a + ("," + (b + ("," + od)))));
    hide *;
    StatusRegrouped(os, st, a, b, od, y);
  }

  /** The text the writer's formats spell out is the compact text of the report's value. */
  lemma ReportIsRendered(r: ReportFields)
    ensures Printable(ReportJson(r)) && Render(ReportJson(r)) == ReportText(r)
  {
    hide Spelled, SpelledInMetric, Opening, Name, Escape, Decimal, RenderMembers, HeadNumbers, MetricTexts,
      LaterMembers;
    PlainIsCString();
    hide Plain;
    LaterText(r);
    LaterNotEmpty(r);
    TwoStrings(Spelled(RuleNameKey), OrEmpty(r.ruleName), Spelled(DescriptionKey), OrEmpty(r.description),
      LaterMembers(r), "}");
    HeadBehind("{" + Opening(Spelled(RuleNameKey)), Escape(OrEmpty(r.ruleName)),
      "\"," + Opening(Spelled(DescriptionKey)),
               Escape(OrEmpty(r.description)), "\"," + HeadNumbers(r), Escape(OrEmpty(r.summary)),
               "\"," + (Name(Spelled(MetricsKey)) + "["), MetricTexts(r.metrics) + "]}");
    Regroup("\",", Name(Spelled(MetricsKey)) + "[", MetricTexts(r.metrics) + "]}");
    Regroup("{", RenderMembers(ReportJson(r).members), "}");
    Regroup("{", Opening(Spelled(RuleNameKey)), Escape(OrEmpty(r.ruleName)) +
            (("\"," + Opening(Spelled(DescriptionKey))) + (Escape(OrEmpty(r.description)) +
            ("\"," + (RenderMembers(LaterMembers(r)) + "}")))));
  }

  lemma LaterNotEmpty(r: ReportFields)
    ensures LaterMembers(r) != []
  {
  }

  lemma {:induction false} MetricsAreShallow(ms: seq<MetricFields>)
    ensures HeightItems(MetricsJson(ms)) <= 2
  {
    hide Spelled, SpelledInMetric, OrEmpty;
    if ms != [] {
      MetricsAreShallow(ms[1..]);
      assert MetricsJson(ms)[1..] == MetricsJson(ms[1..]);
      FlatHeight(MetricJson(ms[0]).members);
    }
  }

  lemma {:induction false} FlatHeight(ms: seq<Member>)
    requires forall i :: 0 <= i < |ms| ==> ms[i].value.Str? || ms[i].value.Number?
    ensures HeightMembers(ms) <= 1
  {
    if ms != [] { FlatHeight(ms[1..]); }
  }

  lemma {:induction false} MembersHeight(ms: seq<Member>, h: nat)
    requires forall i :: 0 <= i < |ms| ==> Height(ms[i].value) <= h
    ensures HeightMembers(ms) <= h
  {
    if ms != [] { MembersHeight(ms[1..], h); }
  }

  lemma ReportIsShallow(r: ReportFields)
    ensures Height(ReportJson(r)) <= 4
  {
    MetricsAreShallow(r.metrics);
    MembersHeight(ReportJson(r).members, 3);
  }

  /** Parsing the text of a report gives back the report: every string byte for byte, every
      integer, and the metrics in order. */
  lemma ReportRoundTrip(strtod: Strtod, r: ReportFields)
    ensures IsCString(ReportText(r)) && ValueAt(strtod, ReportText(r), 0, 0).value == Some(ReportJson(r))
  {
    ReportIsRendered(r);
    ReportIsShallow(r);
    PrintedTextParses(strtod, ReportJson(r));
  }

  /** Reports with the same text have the same strings, integers and metrics. */
  lemma ReportTextIsFaithful(strtod: Strtod, a: ReportFields, b: ReportFields)
    requires ReportText(a) == ReportText(b)
    ensures ReportJson(a) == ReportJson(b)
  {
    ReportRoundTrip(strtod, a);
    ReportRoundTrip(strtod, b);
  }

  // ----- what a reader of the text finds under each name -----

  /** The value of the first member of that name. */
  function Lookup(ms: seq<Member>, name: string): Option<Json> {
    if ms == [] then None else if ms[0].key == name then Some(ms[0].value) else Lookup(ms[1..], name)
  }

  lemma LookupBehind(m: Member, rest: seq<Member>, name: string)
    ensures Lookup([m] + rest, name) == if m.key == name then Some(m.value) else Lookup(rest, name)
  {
    assert ([m] + rest)[1..] == rest;
  }

  /** The names by their lengths and first letters, which tell them all apart. */
  lemma NamesApart()
    ensures |Spelled(RuleNameKey)| == 9 && |Spelled(DescriptionKey)| == 11 && |Spelled(StatusKey)| == 6
    ensures |Spelled(TotalMaxScoreKey)| == 15 && |Spelled(TotalObtainedScoreKey)| == 20
    ensures |Spelled(DecisionSummaryKey)| == 16 && |Spelled(MetricsKey)| == 7
    ensures |SpelledInMetric(MetricNameKey)| == 11 && SpelledInMetric(MetricNameKey)[0] == 'm'
    ensures |SpelledInMetric(IsCriticalKey)| == 11 && SpelledInMetric(IsCriticalKey)[0] == 'i'
    ensures Spelled(DescriptionKey)[0] == 'd' && |SpelledInMetric(MaxWeightKey)| == 10
    ensures |SpelledInMetric(ScoreObtainedKey)| == 14 && |SpelledInMetric(IsPassedKey)| == 9
    ensures |SpelledInMetric(ViolationReasonKey)| == 16
  {
  }

  ghost predicate Says(j: Json, name: string, value: Json) {
    j.Obj? && Lookup(j.members, name) == Some(value)
  }

  ghost predicate SaysText(j: Json, name: string, text: Option<CString>) {
    Says(j, name, Str(if text.Some? then text.value else ""))
  }

  ghost predicate SaysNumber(j: Json, name: string, n: int32) {
    Says(j, name, Number(n as real))
  }

  ghost predicate SaysMetric(j: Json, m: MetricFields) {
    && SaysText(j, "metric_name", m.name) && SaysText(j, "description", m.description)
    && SaysNumber(j, "max_weight", m.weight) && SaysNumber(j, "score_obtained", m.score)
    && SaysNumber(j, "is_critical", m.critical) && SaysNumber(j, "is_passed", m.passed)
    && (if m.reason.Some? then SaysText(j, "violation_reason", m.reason)
        else j.Obj? && Lookup(j.members, "violation_reason") == None)
  }

  ghost predicate SaysReport(j: Json, r: ReportFields) {
    && SaysText(j, "rule_name", r.ruleName) && SaysText(j, "description", r.description)
    && Says(j, "status", Str(match r.status case Passed => "PASSED" case PartiallyPassed => "PARTIALLY PASSED"
                                            case Failed => "FAILED" case Errored => "ERROR"))
    && SaysNumber(j, "total_max_score", r.totalMax) && SaysNumber(j, "total_obtained_score", r.totalObtained)
    && SaysText(j, "decision_summary", r.summary)
    && exists items :: Says(j, "metrics", Arr(items)) && |items| == |r.metrics| &&
         forall i :: 0 <= i < |items| ==> SaysMetric(items[i], r.metrics[i])
  }

  lemma NumbersSay(m: MetricFields, name: string)
    ensures Lookup(NumberMembers(m), name) ==
            if name == SpelledInMetric(MaxWeightKey) then Some(Num(m.weight))
            else if name == SpelledInMetric(ScoreObtainedKey) then Some(Num(m.score))
            else if name == SpelledInMetric(IsCriticalKey) then Some(Num(m.critical))
            else if name == SpelledInMetric(IsPassedKey) then Some(Num(m.passed))
            else Lookup(ReasonMembers(m), name)
  {
    hide SpelledInMetric, Lookup, ReasonMembers;
    var r4 := ReasonMembers(m);
    var r3 := [Member(SpelledInMetric(IsPassedKey), Num(m.passed))] + r4;
    var r2 := [Member(SpelledInMetric(IsCriticalKey), Num(m.critical))] + r3;
    var r1 := [Member(SpelledInMetric(ScoreObtainedKey), Num(m.score))] + r2;
    LookupBehind(Member(SpelledInMetric(IsPassedKey), Num(m.passed)), r4, name);
    LookupBehind(Member(SpelledInMetric(IsCriticalKey), Num(m.critical)), r3, name);
    LookupBehind(Member(SpelledInMetric(ScoreObtainedKey), Num(m.score)), r2, name);
    LookupBehind(Member(SpelledInMetric(MaxWeightKey), Num(m.weight)), r1, name);
  }

  lemma MetricSaysSpelled(m: MetricFields, name: string)
    ensures Lookup(MetricJson(m).members, name) ==
            if name == SpelledInMetric(MetricNameKey) then Some(Str(OrEmpty(m.name)))
            else if name == Spelled(DescriptionKey) then Some(Str(OrEmpty(m.description)))
            else Lookup(NumberMembers(m), name)
  {
    hide SpelledInMetric, Spelled, Lookup, NumberMembers;
    var r1 := [Member(Spelled(DescriptionKey), Str(OrEmpty(m.description)))] + NumberMembers(m);
    LookupBehind(Member(Spelled(DescriptionKey), Str(OrEmpty(m.description))), NumberMembers(m), name);
    LookupBehind(Member(SpelledInMetric(MetricNameKey), Str(OrEmpty(m.name))), r1, name);
  }

  lemma ReasonSays(m: MetricFields, name: string)
    ensures Lookup(ReasonMembers(m), name) ==
            if m.reason.Some? && name == SpelledInMetric(ViolationReasonKey) then Some(Str(m.reason.value)) else None
  {
    hide SpelledInMetric;
    if m.reason.Some? { LookupBehind(Member(SpelledInMetric(ViolationReasonKey), Str(m.reason.value)), [], name); }
  }

  lemma MetricSays(m: MetricFields)
    ensures SaysMetric(MetricJson(m), m)
  {
    NamesApart();
    hide Lookup, NumberMembers, ReasonMembers;
    forall name ensures Lookup(MetricJson(m).members, name) ==
            if name == SpelledInMetric(MetricNameKey) then Some(Str(OrEmpty(m.name)))
            else if name == Spelled(DescriptionKey) then Some(Str(OrEmpty(m.description)))
            else if name == SpelledInMetric(MaxWeightKey) then Some(Num(m.weight))
            else if name == SpelledInMetric(ScoreObtainedKey) then Some(Num(m.score))
            else if name == SpelledInMetric(IsCriticalKey) then Some(Num(m.critical))
            else if name == SpelledInMetric(IsPassedKey) then Some(Num(m.passed))
            else if m.reason.Some? && name == SpelledInMetric(ViolationReasonKey) then Some(Str(m.reason.value))
            else None
    {
      MetricSaysSpelled(m, name);
      NumbersSay(m, name);
      ReasonSays(m, name);
    }
  }

  lemma ReportSaysSpelled(r: ReportFields, name: string)
    ensures Lookup(ReportJson(r).members, name) ==
            if name == Spelled(RuleNameKey) then Some(Str(OrEmpty(r.ruleName)))
            else if name == Spelled(DescriptionKey) then Some(Str(OrEmpty(r.description)))
            else Lookup(LaterMembers(r), name)
  {
    hide Spelled, Lookup, LaterMembers;
    var r1 := [Member(Spelled(DescriptionKey), Str(OrEmpty(r.description)))] + LaterMembers(r);
    LookupBehind(Member(Spelled(DescriptionKey), Str(OrEmpty(r.description))), LaterMembers(r), name);
    LookupBehind(Member(Spelled(RuleNameKey), Str(OrEmpty(r.ruleName))), r1, name);
  }

  lemma LaterSays(r: ReportFields, name: string)
    ensures Lookup(LaterMembers(r), name) ==
            if name == Spelled(StatusKey) then Some(Str(StatusText(r.status)))
            else if name == Spelled(TotalMaxScoreKey) then Some(Num(r.totalMax))
            else if name == Spelled(TotalObtainedScoreKey) then Some(Num(r.totalObtained))
            else if name == Spelled(DecisionSummaryKey) then Some(Str(OrEmpty(r.summary)))
            else if name == Spelled(MetricsKey) then Some(Arr(MetricsJson(r.metrics)))
            else None
  {
    hide Spelled, StatusText, MetricsJson;
    var r4 := [Member(Spelled(MetricsKey), Arr(MetricsJson(r.metrics)))];
    var r3 := [Member(Spelled(DecisionSummaryKey), Str(OrEmpty(r.summary)))] + r4;
    var r2 := [Member(Spelled(TotalObtainedScoreKey), Num(r.totalObtained))] + r3;
    var r1 := [Member(Spelled(TotalMaxScoreKey), Num(r.totalMax))] + r2;
    assert r4 + [] == r4 && Lookup([], name) == None;
    hide Lookup;
    LookupBehind(r4[0], [], name);
    LookupBehind(r3[0], r4, name);
    LookupBehind(r2[0], r3, name);
    LookupBehind(r1[0], r2, name);
    LookupBehind(Member(Spelled(StatusKey), Str(StatusText(r.status))), r1, name);
  }

  lemma ReportSays(r: ReportFields)
    ensures SaysReport(ReportJson(r), r)
  {
    NamesApart();
    hide Lookup, LaterMembers, SaysMetric;
    forall name ensures Lookup(ReportJson(r).members, name) ==
            if name == Spelled(RuleNameKey) then Some(Str(OrEmpty(r.ruleName)))
            else if name == Spelled(DescriptionKey) then Some(Str(OrEmpty(r.description)))
            else if name == Spelled(StatusKey) then Some(Str(StatusText(r.status)))
            else if name == Spelled(TotalMaxScoreKey) then Some(Num(r.totalMax))
            else if name == Spelled(TotalObtainedScoreKey) then Some(Num(r.totalObtained))
            else if name == Spelled(DecisionSummaryKey) then Some(Str(OrEmpty(r.summary)))
            else if name == Spelled(MetricsKey) then Some(Arr(MetricsJson(r.metrics)))
            else None
    {
      ReportSaysSpelled(r, name);
      LaterSays(r, name);
    }
    forall i | 0 <= i < |r.metrics| ensures SaysMetric(MetricsJson(r.metrics)[i], r.metrics[i]) {
      MetricSays(r.metrics[i]);
    }
    assert Says(ReportJson(r), "metrics", Arr(MetricsJson(r.metrics)));
  }

  /** The object read from a report's text has under each name what the report says there. */
  lemma ReportTextSays(strtod: Strtod, r: ReportFields)
    ensures IsCString(ReportText(r))
    ensures var j := ValueAt(strtod, ReportText(r), 0, 0).value; j.Some? && SaysReport(j.value, r)
  {
    ReportRoundTrip(strtod, r);
    ReportSays(r);
  }
}
