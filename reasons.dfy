/**
 * What `_parse_assessments` extracts from a list of assessments, stated as
 * functions: one `Reason` per violation, in the order the parser meets them,
 * and the Vietnamese text each reason is rendered as.
 */
module Reasons {
  import opened Wrappers
  import opened Assessment

  /** One violation reason, before it is rendered as text. */
  datatype Reason =
    | ContentFilter(filterType: string, action: string, confidence: string)
    | SensitiveEntity(entityType: string, action: string)
    | SensitivePattern(name: string, action: string)
    | BannedWords(matches: seq<string>, truncated: bool)
    | ManagedWords(count: nat)
    | TopicViolation(name: string)

  /** The position of a reason's category in the order the parser visits the categories. */
  function Rank(r: Reason): nat {
    match r
    case ContentFilter(_, _, _) => 0
    case SensitiveEntity(_, _) => 1
    case SensitivePattern(_, _) => 2
    case BannedWords(_, _) => 3
    case ManagedWords(_) => 4
    case TopicViolation(_) => 5
  }

  // ---------------------------------------------------------------------------
  // Entries that carry an action

  /** Python's `action and action != 'NONE'`: present, not empty, not NONE. */
  predicate Active(action: Option<string>) {
    action.Some? && action.value != "" && action.value != "NONE"
  }

  function FilterReason(f: Filter): (r: Option<Reason>)
    ensures r.Some? <==> Active(f.action)
    ensures r.Some? ==> Rank(r.value) == 0 && r.value.action == f.action.value
  {
    if Active(f.action) then
      Some(ContentFilter(f.filterType.GetOr("Unknown"), f.action.value, f.confidence.GetOr("N/A")))
    else None
  }

  function EntityReason(e: PiiEntity): (r: Option<Reason>)
    ensures r.Some? <==> Active(e.action)
    ensures r.Some? ==> Rank(r.value) == 1 && r.value.action == e.action.value
  {
    if Active(e.action) then Some(SensitiveEntity(e.entityType.GetOr("Unknown"), e.action.value)) else None
  }

  function PatternReason(x: RegexMatch): (r: Option<Reason>)
    ensures r.Some? <==> Active(x.action)
    ensures r.Some? ==> Rank(r.value) == 2 && r.value.action == x.action.value
  {
    if Active(x.action) then Some(SensitivePattern(x.name.GetOr("Unknown"), x.action.value)) else None
  }

  function TopicReason(t: Topic): (r: Option<Reason>)
    ensures r.Some? <==> Active(t.action)
    ensures r.Some? ==> Rank(r.value) == 5
  {
    if Active(t.action) then Some(TopicViolation(t.name.GetOr("Unknown"))) else None
  }

  /** What one entry adds to the reasons list: its reason, if it has one. */
  function Contribution(o: Option<Reason>): seq<Reason> {
    if o.Some? then [o.value] else []
  }

  /** The reasons of a list whose entries each add at most one reason, in list order. */
  function Collect<T>(s: seq<T>, pick: T -> Option<Reason>): seq<Reason>
  {
    if s == [] then [] else Collect(s[..|s| - 1], pick) + Contribution(pick(s[|s| - 1]))
  }

  /** The number of entries of `s` that add a reason, counted from the front. */
  function CountActive<T>(s: seq<T>, pick: T -> Option<Reason>): nat
  {
    if s == [] then 0 else (if pick(s[0]).Some? then 1 else 0) + CountActive(s[1..], pick)
  }

  lemma {:induction false} CollectAppend<T>(s: seq<T>, t: seq<T>, pick: T -> Option<Reason>)
    ensures Collect(s + t, pick) == Collect(s, pick) + Collect(t, pick)
    decreases |t|
  {
    if t == [] {
      assert s + t == s;
    } else {
      var n := |t| - 1;
      assert (s + t)[..|s + t| - 1] == s + t[..n];
      assert (s + t)[|s + t| - 1] == t[n];
      CollectAppend(s, t[..n], pick);
    }
  }

  /** A one-entry list yields the entry's reason if it has one, and nothing otherwise. */
  lemma CollectSingle<T>(x: T, pick: T -> Option<Reason>)
    ensures Collect([x], pick) == Contribution(pick(x))
  {
    assert [x][..0] == [];
    assert [] + Contribution(pick(x)) == Contribution(pick(x));
  }

  /** One reason per entry that has one: the length is the number of such entries. */
  lemma {:induction false} CollectLength<T>(s: seq<T>, pick: T -> Option<Reason>)
    ensures |Collect(s, pick)| == CountActive(s, pick)
    decreases |s|
  {
    if s != [] {
      assert [s[0]] + s[1..] == s;
      CollectAppend([s[0]], s[1..], pick);
      CollectSingle(s[0], pick);
      CollectLength(s[1..], pick);
    }
  }

  /** A reason is collected iff some entry of the list gives it. */
  lemma {:induction false} CollectMember<T>(s: seq<T>, pick: T -> Option<Reason>, r: Reason)
    ensures r in Collect(s, pick) <==> exists i :: 0 <= i < |s| && pick(s[i]) == Some(r)
    decreases |s|
  {
    if s != [] {
      var n := |s| - 1;
      var init := s[..n];
      assert Collect(s, pick) == Collect(init, pick) + Contribution(pick(s[n]));
      CollectMember(init, pick, r);
      if r in Collect(s, pick) {
        if r in Collect(init, pick) {
          var i :| 0 <= i < |init| && pick(init[i]) == Some(r);
          assert s[i] == init[i];
        } else {
          assert pick(s[n]) == Some(r);
        }
      }
      if exists i :: 0 <= i < |s| && pick(s[i]) == Some(r) {
        var i :| 0 <= i < |s| && pick(s[i]) == Some(r);
        if i < n {
          assert init[i] == s[i];
        }
      }
    }
  }

  /** No reason is collected iff no entry gives one. */
  lemma {:induction false} CollectEmpty<T>(s: seq<T>, pick: T -> Option<Reason>)
    ensures Collect(s, pick) == [] <==> forall i :: 0 <= i < |s| ==> pick(s[i]).None?
    decreases |s|
  {
    if s != [] {
      var n := |s| - 1;
      CollectEmpty(s[..n], pick);
      if Collect(s, pick) == [] {
        forall i | 0 <= i < |s| ensures pick(s[i]).None? {
          if i < n { assert s[..n][i] == s[i]; }
        }
      }
    }
  }

  /** Every collected reason has rank `k` when every reason `pick` gives has rank `k`. */
  lemma CollectRank<T>(s: seq<T>, pick: T -> Option<Reason>, k: nat)
    requires forall x :: pick(x).Some? ==> Rank(pick(x).value) == k
    ensures forall r :: r in Collect(s, pick) ==> Rank(r) == k
  {
    forall r | r in Collect(s, pick) ensures Rank(r) == k {
      CollectMember(s, pick, r);
    }
  }

  // ---------------------------------------------------------------------------
  // Word policy: no action is read

  function MatchedWords(ws: seq<CustomWord>): seq<string> {
    seq(|ws|, i requires 0 <= i < |ws| => ws[i].matchText.GetOr(""))
  }

  /** At most three custom words are listed; `truncated` records that there were more. */
  function CustomWordReasons(ws: seq<CustomWord>): seq<Reason> {
    if ws == [] then []
    else [BannedWords(MatchedWords(if |ws| <= 3 then ws else ws[..3]), |ws| > 3)]
  }

  function ManagedListReasons(ls: seq<ManagedWord>): seq<Reason> {
    if ls == [] then [] else [ManagedWords(|ls|)]
  }

  // ---------------------------------------------------------------------------
  // Sections, assessments, assessment lists

  function ContentReasons(a: Assessment): seq<Reason> {
    match a.contentPolicy
    case None => []
    case Some(p) => Collect(p.filters, FilterReason)
  }

  function EntityReasons(a: Assessment): seq<Reason> {
    match a.sensitiveInformationPolicy
    case None => []
    case Some(p) => Collect(p.piiEntities, EntityReason)
  }

  function PatternReasons(a: Assessment): seq<Reason> {
    match a.sensitiveInformationPolicy
    case None => []
    case Some(p) => Collect(p.regexes, PatternReason)
  }

  function CustomReasons(a: Assessment): seq<Reason> {
    match a.wordPolicy
    case None => []
    case Some(p) => CustomWordReasons(p.customWords)
  }

  function ManagedReasons(a: Assessment): seq<Reason> {
    match a.wordPolicy
    case None => []
    case Some(p) => ManagedListReasons(p.managedWordLists)
  }

  function TopicReasons(a: Assessment): seq<Reason> {
    match a.topicPolicy
    case None => []
    case Some(p) => Collect(p.topics, TopicReason)
  }

  /** The reasons of one assessment: its sections in the parser's order. */
  function AssessmentReasons(a: Assessment): seq<Reason> {
    ContentReasons(a) + EntityReasons(a) + PatternReasons(a) + CustomReasons(a) + ManagedReasons(a) + TopicReasons(a)
  }

  /** The reasons of each element of `s` under `f`, one element after the other. */
  function Gather<T>(s: seq<T>, f: T -> seq<Reason>): seq<Reason>
  {
    if s == [] then [] else Gather(s[..|s| - 1], f) + f(s[|s| - 1])
  }

  lemma {:induction false} GatherAppend<T>(x: seq<T>, y: seq<T>, f: T -> seq<Reason>)
    ensures Gather(x + y, f) == Gather(x, f) + Gather(y, f)
    decreases |y|
  {
    if y == [] {
      assert x + y == x;
    } else {
      var n := |y| - 1;
      assert (x + y)[..|x + y| - 1] == x + y[..n];
      assert (x + y)[|x + y| - 1] == y[n];
      GatherAppend(x, y[..n], f);
    }
  }

  /** The reasons of a list of assessments, in list order. */
  function AllReasons(assessments: seq<Assessment>): seq<Reason> {
    Gather(assessments, AssessmentReasons)
  }

  /** The reasons of a list of assessments are those of its parts, one after the other. */
  lemma AllReasonsAppend(x: seq<Assessment>, y: seq<Assessment>)
    ensures AllReasons(x + y) == AllReasons(x) + AllReasons(y)
  {
    GatherAppend(x, y, AssessmentReasons);
  }

  /** How many reasons an assessment yields, counted entry by entry. */
  function ExpectedCount(a: Assessment): nat {
    (match a.contentPolicy
     case None => 0
     case Some(p) => CountActive(p.filters, FilterReason))
    + (match a.sensitiveInformationPolicy
       case None => 0
       case Some(p) => CountActive(p.piiEntities, EntityReason) + CountActive(p.regexes, PatternReason))
    + (match a.wordPolicy
       case None => 0
       case Some(p) => (if p.customWords != [] then 1 else 0) + (if p.managedWordLists != [] then 1 else 0))
    + (match a.topicPolicy
       case None => 0
       case Some(p) => CountActive(p.topics, TopicReason))
  }

  function TotalExpected(assessments: seq<Assessment>): nat {
    if assessments == [] then 0 else ExpectedCount(assessments[0]) + TotalExpected(assessments[1..])
  }

  /** The reasons of a one-element list are those of its element. */
  lemma AllReasonsSingle(a: Assessment)
    ensures AllReasons([a]) == AssessmentReasons(a)
  {
    assert [a][..0] == [];
    assert Gather([a], AssessmentReasons) == Gather([], AssessmentReasons) + AssessmentReasons(a);
    assert [] + AssessmentReasons(a) == AssessmentReasons(a);
  }

  /** One reason per active entry, plus one per non-empty word list. */
  lemma AssessmentLength(a: Assessment)
    ensures |AssessmentReasons(a)| == ExpectedCount(a)
  {
    match a.contentPolicy {
      case None =>
      case Some(p) => CollectLength(p.filters, FilterReason);
    }
    match a.sensitiveInformationPolicy {
      case None =>
      case Some(p) =>
        CollectLength(p.piiEntities, EntityReason);
        CollectLength(p.regexes, PatternReason);
    }
    match a.topicPolicy {
      case None =>
      case Some(p) => CollectLength(p.topics, TopicReason);
    }
  }

  /**
   * The length of the reasons list is the number of active filter, PII, regex and
   * topic entries, plus one per non-empty custom word list and one per non-empty
   * managed word list, summed over the assessments.
   */
  lemma {:induction false} AllReasonsLength(assessments: seq<Assessment>)
    ensures |AllReasons(assessments)| == TotalExpected(assessments)
    decreases |assessments|
  {
    if assessments != [] {
      var a, rest := assessments[0], assessments[1..];
      assert assessments == [a] + rest;
      AllReasonsAppend([a], rest);
      AllReasonsSingle(a);
      AssessmentLength(a);
      AllReasonsLength(rest);
    }
  }

  /** Ranks never decrease along `rs`. */
  predicate RankOrdered(rs: seq<Reason>) {
    forall i, j :: 0 <= i < j < |rs| ==> Rank(rs[i]) <= Rank(rs[j])
  }

  predicate RanksAtMost(rs: seq<Reason>, k: nat) {
    forall r :: r in rs ==> Rank(r) <= k
  }

  predicate RanksAre(rs: seq<Reason>, k: nat) {
    forall r :: r in rs ==> Rank(r) == k
  }

  lemma OrderedAppend(x: seq<Reason>, y: seq<Reason>, k: nat)
    requires RankOrdered(x) && RanksAtMost(x, k) && RanksAre(y, k)
    ensures RankOrdered(x + y) && RanksAtMost(x + y, k)
  {
    forall i, j | 0 <= i < j < |x + y| ensures Rank((x + y)[i]) <= Rank((x + y)[j]) {
      if j >= |x| {
        assert (x + y)[j] in y;
        if i < |x| { assert (x + y)[i] in x; } else { assert (x + y)[i] in y; }
      }
    }
  }

  /** Every reason of each section has that section's rank. */
  lemma SectionRanks(a: Assessment)
    ensures RanksAre(ContentReasons(a), 0) && RanksAre(EntityReasons(a), 1) && RanksAre(PatternReasons(a), 2)
    ensures RanksAre(CustomReasons(a), 3) && RanksAre(ManagedReasons(a), 4) && RanksAre(TopicReasons(a), 5)
  {
    match a.contentPolicy {
      case None =>
      case Some(p) => CollectRank(p.filters, FilterReason, 0);
    }
    match a.sensitiveInformationPolicy {
      case None =>
      case Some(p) =>
        CollectRank(p.piiEntities, EntityReason, 1);
        CollectRank(p.regexes, PatternReason, 2);
    }
    match a.topicPolicy {
      case None =>
      case Some(p) => CollectRank(p.topics, TopicReason, 5);
    }
  }

  /**
   * Within one assessment the categories come in the parser's order: content
   * filters, PII entities, regexes, custom words, managed word lists, topics.
   */
  lemma AssessmentOrdered(a: Assessment)
    ensures RankOrdered(AssessmentReasons(a))
  {
    SectionRanks(a);
    var c := ContentReasons(a);
    var ce := c + EntityReasons(a);
    var cep := ce + PatternReasons(a);
    var cepw := cep + CustomReasons(a);
    var cepwm := cepw + ManagedReasons(a);
    OrderedAppend([], c, 0);
    assert [] + c == c;
    OrderedAppend(c, EntityReasons(a), 1);
    OrderedAppend(ce, PatternReasons(a), 2);
    OrderedAppend(cep, CustomReasons(a), 3);
    OrderedAppend(cepw, ManagedReasons(a), 4);
    OrderedAppend(cepwm, TopicReasons(a), 5);
  }

  predicate QuietContent(a: Assessment) {
    a.contentPolicy.Some? ==> forall f :: f in a.contentPolicy.value.filters ==> !Active(f.action)
  }

  predicate QuietSensitive(a: Assessment) {
    a.sensitiveInformationPolicy.Some? ==>
      (forall e :: e in a.sensitiveInformationPolicy.value.piiEntities ==> !Active(e.action))
      && (forall x :: x in a.sensitiveInformationPolicy.value.regexes ==> !Active(x.action))
  }

  predicate QuietWords(a: Assessment) {
    a.wordPolicy.Some? ==> a.wordPolicy.value.customWords == [] && a.wordPolicy.value.managedWordLists == []
  }

  predicate QuietTopics(a: Assessment) {
    a.topicPolicy.Some? ==> forall t :: t in a.topicPolicy.value.topics ==> !Active(t.action)
  }

  /** An assessment in which nothing is reported. */
  predicate Quiet(a: Assessment) {
    QuietContent(a) && QuietSensitive(a) && QuietWords(a) && QuietTopics(a)
  }

  /** A list yields no reason iff none of its entries is active. */
  lemma CollectQuiet<T>(s: seq<T>, pick: T -> Option<Reason>)
    ensures Collect(s, pick) == [] <==> forall x :: x in s ==> pick(x).None?
  {
    CollectEmpty(s, pick);
    if forall x :: x in s ==> pick(x).None? {
      forall i | 0 <= i < |s| ensures pick(s[i]).None? {
        assert s[i] in s;
      }
    }
  }

  lemma ContentQuiet(a: Assessment)
    ensures ContentReasons(a) == [] <==> QuietContent(a)
  {
    if a.contentPolicy.Some? {
      CollectQuiet(a.contentPolicy.value.filters, FilterReason);
    }
  }

  lemma SensitiveQuiet(a: Assessment)
    ensures EntityReasons(a) == [] && PatternReasons(a) == [] <==> QuietSensitive(a)
  {
    if a.sensitiveInformationPolicy.Some? {
      CollectQuiet(a.sensitiveInformationPolicy.value.piiEntities, EntityReason);
      CollectQuiet(a.sensitiveInformationPolicy.value.regexes, PatternReason);
    }
  }

  lemma TopicsQuiet(a: Assessment)
    ensures TopicReasons(a) == [] <==> QuietTopics(a)
  {
    if a.topicPolicy.Some? {
      CollectQuiet(a.topicPolicy.value.topics, TopicReason);
    }
  }

  /**
   * An assessment yields no reason iff every filter, PII, regex and topic entry is
   * inactive and both word lists are empty; absent sections yield nothing.
   */
  lemma AssessmentEmpty(a: Assessment)
    ensures AssessmentReasons(a) == [] <==> Quiet(a)
  {
    ContentQuiet(a);
    SensitiveQuiet(a);
    TopicsQuiet(a);
    assert CustomReasons(a) == [] && ManagedReasons(a) == [] <==> QuietWords(a);
    assert |AssessmentReasons(a)| == |ContentReasons(a)| + |EntityReasons(a)| + |PatternReasons(a)|
                                   + |CustomReasons(a)| + |ManagedReasons(a)| + |TopicReasons(a)|;
  }

  /** A list of assessments yields no reason iff each of them is quiet; in particular the empty list. */
  lemma {:induction false} AllReasonsEmpty(assessments: seq<Assessment>)
    ensures AllReasons(assessments) == [] <==> forall a :: a in assessments ==> Quiet(a)
    decreases |assessments|
  {
    if assessments != [] {
      var n := |assessments| - 1;
      var init, last := assessments[..n], assessments[n];
      assert assessments == init + [last];
      AllReasonsAppend(init, [last]);
      AllReasonsSingle(last);
      AllReasonsEmpty(init);
      AssessmentEmpty(last);
      if forall a :: a in assessments ==> Quiet(a) {
        assert last in assessments;
        forall a | a in init ensures Quiet(a) {
          assert a in assessments;
        }
      }
      if AllReasons(assessments) == [] {
        forall a | a in assessments ensures Quiet(a) {
          if a != last { assert a in init; }
        }
      }
    }
  }

  /** The custom words' own actions play no part: a word whose action is NONE is still reported. */
  lemma CustomWordsIgnoreAction(ws: seq<CustomWord>, vs: seq<CustomWord>)
    requires |ws| == |vs|
    requires forall i :: 0 <= i < |ws| ==> ws[i].matchText == vs[i].matchText
    ensures CustomWordReasons(ws) == CustomWordReasons(vs)
    ensures ws != [] ==> |CustomWordReasons(ws)| == 1
  {
    if ws != [] {
      assert MatchedWords(if |ws| <= 3 then ws else ws[..3]) == MatchedWords(if |vs| <= 3 then vs else vs[..3]);
    }
  }

  // ---------------------------------------------------------------------------
  // Rendering

  /** Python's `', '.join(ms)`. */
  function Join(ms: seq<string>): string {
    if ms == [] then "" else if |ms| == 1 then ms[0] else ms[0] + ", " + Join(ms[1..])
  }

  function DigitChar(d: nat): char
    requires d < 10
  {
    ('0' as int + d) as char
  }

  /** The decimal form of `n`, as Python's f-string writes it. */
  function NatToString(n: nat): string {
    if n < 10 then [DigitChar(n)] else NatToString(n / 10) + [DigitChar(n % 10)]
  }

  predicate IsDigits(s: string) {
    forall i :: 0 <= i < |s| ==> '0' <= s[i] <= '9'
  }

  function DigitsValue(s: string): nat
    requires IsDigits(s)
  {
    if s == [] then 0 else DigitsValue(s[..|s| - 1]) * 10 + (s[|s| - 1] as int - '0' as int)
  }

  /** The count written in a managed-word-list reason reads back as the count. */
  lemma {:induction false} NatToStringValue(n: nat)
    ensures NatToString(n) != [] && IsDigits(NatToString(n))
    ensures DigitsValue(NatToString(n)) == n
    decreases n
  {
    if n >= 10 {
      NatToStringValue(n / 10);
      var s := NatToString(n);
      assert s == NatToString(n / 10) + [DigitChar(n % 10)];
      assert s[..|s| - 1] == NatToString(n / 10);
      assert s[|s| - 1] as int - '0' as int == n % 10;
    }
  }

  const ContentPrefix := "Nội dung "
  const EntityPrefix := "Thông tin nhạy cảm ("
  const PatternPrefix := "Pattern nhạy cảm ("
  const WordsPrefix := "Từ bị cấm: "
  const ManagedPrefix := "Managed word list: "
  const TopicPrefix := "Chủ đề vi phạm: "

  /** The fixed text a reason of category `k` starts with. */
  function Prefix(k: nat): string {
    if k == 0 then ContentPrefix
    else if k == 1 then EntityPrefix
    else if k == 2 then PatternPrefix
    else if k == 3 then WordsPrefix
    else if k == 4 then ManagedPrefix
    else TopicPrefix
  }

  /** The text of a reason after its category's prefix. */
  function Body(r: Reason): string {
    match r
    case ContentFilter(t, a, c) => t + ": " + a + " (Độ tin cậy: " + c + ")"
    case SensitiveEntity(t, a) => t + "): " + a
    case SensitivePattern(n, a) => n + "): " + a
    case BannedWords(ms, tr) => Join(ms) + (if tr then "..." else "")
    case ManagedWords(n) => NatToString(n) + " vi phạm"
    case TopicViolation(n) => n
  }

  /** The text `_parse_assessments` appends for a reason. */
  function Render(r: Reason): string {
    Prefix(Rank(r)) + Body(r)
  }

  /** The line `f` gives for each element of `s`, in order. */
  function Lines<T>(s: seq<T>, f: T -> string): seq<string> {
    if s == [] then [] else Lines(s[..|s| - 1], f) + [f(s[|s| - 1])]
  }

  lemma {:induction false} LinesAppend<T>(x: seq<T>, y: seq<T>, f: T -> string)
    ensures Lines(x + y, f) == Lines(x, f) + Lines(y, f)
    decreases |y|
  {
    if y == [] {
      assert x + y == x;
    } else {
      var n := |y| - 1;
      assert (x + y)[..|x + y| - 1] == x + y[..n];
      assert (x + y)[|x + y| - 1] == y[n];
      LinesAppend(x, y[..n], f);
    }
  }

  lemma {:induction false} LinesAt<T>(s: seq<T>, f: T -> string, i: nat)
    requires i < |s|
    ensures |Lines(s, f)| == |s| && Lines(s, f)[i] == f(s[i])
    decreases |s|
  {
    var n := |s| - 1;
    if i < n {
      LinesAt(s[..n], f, i);
      assert s[..n][i] == s[i];
    } else if n > 0 {
      LinesAt(s[..n], f, 0);
    }
  }

  /** The rendered lines of `rs`, one per reason, in order. */
  function RenderAll(rs: seq<Reason>): seq<string> {
    Lines(rs, Render)
  }

  lemma RenderAllAppend(x: seq<Reason>, y: seq<Reason>)
    ensures RenderAll(x + y) == RenderAll(x) + RenderAll(y)
  {
    LinesAppend(x, y, Render);
  }

  lemma RenderAllSingle(r: Reason)
    ensures RenderAll([r]) == [Render(r)]
  {
    assert [r][..0] == [];
    assert Lines([r], Render) == Lines([], Render) + [Render(r)];
  }

  /** One line per reason: the `i`-th line is the rendering of the `i`-th reason. */
  lemma RenderAllLength(rs: seq<Reason>)
    ensures |RenderAll(rs)| == |rs|
    ensures forall i :: 0 <= i < |rs| ==> RenderAll(rs)[i] == Render(rs[i])
  {
    if rs != [] {
      LinesAt(rs, Render, 0);
    }
    forall i | 0 <= i < |rs| ensures RenderAll(rs)[i] == Render(rs[i]) {
      LinesAt(rs, Render, i);
    }
  }

  /** The category of a rendered reason, read back from its prefix. */
  function Category(line: string): Option<nat> {
    if ContentPrefix <= line then Some(0)
    else if EntityPrefix <= line then Some(1)
    else if PatternPrefix <= line then Some(2)
    else if WordsPrefix <= line then Some(3)
    else if ManagedPrefix <= line then Some(4)
    else if TopicPrefix <= line then Some(5)
    else None
  }

  lemma StartsWith(p: string, rest: string)
    ensures p <= p + rest
  {
  }

  lemma Mismatch(p: string, q: string, rest: string, k: nat)
    requires k < |p| && k < |q| && p[k] != q[k]
    ensures !(p <= q + rest)
  {
    assert (q + rest)[k] == q[k];
  }

  /** A line that starts with a category's prefix is read back as that category, whatever follows. */
  lemma CategoryOfPrefix(k: nat, body: string)
    requires k < 6
    ensures Category(Prefix(k) + body) == Some(k)
  {
    var q := Prefix(k);
    StartsWith(q, body);
    if k >= 1 { Mismatch(ContentPrefix, q, body, 0); }
    if k >= 2 { Mismatch(EntityPrefix, q, body, if k == 3 then 1 else 0); }
    if k >= 3 { Mismatch(PatternPrefix, q, body, 0); }
    if k >= 4 { Mismatch(WordsPrefix, q, body, 0); }
    if k >= 5 { Mismatch(ManagedPrefix, q, body, 0); }
  }

  /** Rendering keeps the category: the category of every reason text can be read back from its prefix. */
  lemma CategoryOfRender(r: Reason)
    ensures Category(Render(r)) == Some(Rank(r))
  {
    CategoryOfPrefix(Rank(r), Body(r));
  }

  /**
   * The lines of one assessment, read back category by category, come in the
   * parser's order: every line has a category and the categories never go back.
   */
  lemma RenderedCategoriesOrdered(a: Assessment)
    ensures forall i :: 0 <= i < |RenderAll(AssessmentReasons(a))| ==>
              Category(RenderAll(AssessmentReasons(a))[i]).Some?
    ensures forall i, j :: 0 <= i < j < |RenderAll(AssessmentReasons(a))| ==>
              Category(RenderAll(AssessmentReasons(a))[i]).value <= Category(RenderAll(AssessmentReasons(a))[j]).value
  {
    var rs := AssessmentReasons(a);
    RenderAllLength(rs);
    AssessmentOrdered(a);
    forall i | 0 <= i < |rs| ensures Category(RenderAll(rs)[i]) == Some(Rank(rs[i])) {
      CategoryOfRender(rs[i]);
    }
  }

  /**
   * Five custom words are listed as the first three followed by the truncation
   * marker; a word without a match is listed as the empty string, and one whose
   * action is NONE is listed all the same.
   */
  lemma FiveCustomWords()
    ensures var ws := [CustomWord(None, Some("a")), CustomWord(None, None), CustomWord(Some("NONE"), Some("c")),
                       CustomWord(None, Some("d")), CustomWord(None, Some("e"))];
            RenderAll(CustomWordReasons(ws)) == [WordsPrefix + "a, , c..."]
  {
    var ws := [CustomWord(None, Some("a")), CustomWord(None, None), CustomWord(Some("NONE"), Some("c")),
               CustomWord(None, Some("d")), CustomWord(None, Some("e"))];
    var r := BannedWords(["a", "", "c"], true);
    assert MatchedWords(ws[..3]) == ["a", "", "c"];
    assert CustomWordReasons(ws) == [r];
    assert Join(["a", "", "c"]) == "a, , c" by {
      assert ["a", "", "c"][1..] == ["", "c"];
      assert ["", "c"][1..] == ["c"];
    }
    assert Body(r) == "a, , c...";
    assert [r][..0] == [];
  }
}
