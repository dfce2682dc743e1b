/**
 * The moderation service: the assessment parser, the content check built on
 * the Bedrock Guardrail response, and the two-phase chat gate. The calls to
 * Bedrock (`apply_guardrail`, `converse`) are not made here; what they return,
 * or the exception they raise, is an input.
 */
module GuardrailService {
  import opened Wrappers
  import opened Assessment
  import opened Reasons

  // ---------------------------------------------------------------------------
  // Parsing assessments

  /**
   * Walks the assessments and appends one line per violation, section by
   * section, as `_parse_assessments` does; the result is the rendering of
   * `AllReasons`, whose order, length and emptiness are proved in `Reasons`.
   */
  method ParseAssessments(assessments: seq<Assessment>) returns (reasons: seq<string>)
    ensures reasons == RenderAll(AllReasons(assessments))
    ensures |reasons| == TotalExpected(assessments)
  {
    reasons := [];
    for i := 0 to |assessments|
      invariant reasons == RenderAll(AllReasons(assessments[..i]))
    {
      reasons := AppendAssessment(reasons, assessments[i]);
      AllReasonsStep(assessments, i);
    }
    assert assessments[..|assessments|] == assessments;
    RenderAllLength(AllReasons(assessments));
    AllReasonsLength(assessments);
  }

  /** The body of the outer loop: appends the lines of one assessment to `reasons`, section by section. */
  method AppendAssessment(start: seq<string>, assessment: Assessment) returns (reasons: seq<string>)
    ensures reasons == start + RenderAll(AssessmentReasons(assessment))
  {
    var c, e, p, w, m, t := ContentReasons(assessment), EntityReasons(assessment), PatternReasons(assessment),
                            CustomReasons(assessment), ManagedReasons(assessment), TopicReasons(assessment);
    reasons := AppendContent(start, assessment);
    reasons := AppendEntities(reasons, assessment);
    RenderedExtend(start, c, e);
    reasons := AppendPatterns(reasons, assessment);
    RenderedExtend(start, c + e, p);
    reasons := AppendCustomWords(reasons, assessment);
    RenderedExtend(start, c + e + p, w);
    reasons := AppendManagedLists(reasons, assessment);
    RenderedExtend(start, c + e + p + w, m);
    reasons := AppendTopics(reasons, assessment);
    RenderedExtend(start, c + e + p + w + m, t);
  }

  /** The content policy: one line per active filter. */
  method AppendContent(start: seq<string>, assessment: Assessment) returns (reasons: seq<string>)
    ensures reasons == start + RenderAll(ContentReasons(assessment))
  {
    reasons := start;
    if assessment.contentPolicy.Some? {
      var filters := assessment.contentPolicy.value.filters;
      for j := 0 to |filters|
        invariant reasons == start + RenderAll(Collect(filters[..j], FilterReason))
      {
        CollectStep(start, filters, j, FilterReason);
        var f := filters[j];
        var action := f.action;
        if action.Some? && action.value != "" && action.value != "NONE" {
          var filterType := f.filterType.GetOr("Unknown");
          var confidence := f.confidence.GetOr("N/A");
          assert FilterReason(f) == Some(ContentFilter(filterType, action.value, confidence));
          reasons := reasons + [Render(ContentFilter(filterType, action.value, confidence))];
        }
      }
      assert filters[..|filters|] == filters;
    }
  }

  /** The sensitive-information policy, first part: one line per active PII entity. */
  method AppendEntities(start: seq<string>, assessment: Assessment) returns (reasons: seq<string>)
    ensures reasons == start + RenderAll(EntityReasons(assessment))
  {
    reasons := start;
    if assessment.sensitiveInformationPolicy.Some? {
      var entities := assessment.sensitiveInformationPolicy.value.piiEntities;
      for j := 0 to |entities|
        invariant reasons == start + RenderAll(Collect(entities[..j], EntityReason))
      {
        CollectStep(start, entities, j, EntityReason);
        var entity := entities[j];
        var action := entity.action;
        if action.Some? && action.value != "" && action.value != "NONE" {
          var entityType := entity.entityType.GetOr("Unknown");
          assert EntityReason(entity) == Some(SensitiveEntity(entityType, action.value));
          reasons := reasons + [Render(SensitiveEntity(entityType, action.value))];
        }
      }
      assert entities[..|entities|] == entities;
    }
  }

  /** The sensitive-information policy, second part: one line per active regex. */
  method AppendPatterns(start: seq<string>, assessment: Assessment) returns (reasons: seq<string>)
    ensures reasons == start + RenderAll(PatternReasons(assessment))
  {
    reasons := start;
    if assessment.sensitiveInformationPolicy.Some? {
      var regexes := assessment.sensitiveInformationPolicy.value.regexes;
      for j := 0 to |regexes|
        invariant reasons == start + RenderAll(Collect(regexes[..j], PatternReason))
      {
        CollectStep(start, regexes, j, PatternReason);
        var regex := regexes[j];
        var action := regex.action;
        if action.Some? && action.value != "" && action.value != "NONE" {
          var name := regex.name.GetOr("Unknown");
          assert PatternReason(regex) == Some(SensitivePattern(name, action.value));
          reasons := reasons + [Render(SensitivePattern(name, action.value))];
        }
      }
      assert regexes[..|regexes|] == regexes;
    }
  }

  /** The word policy, first part: one line listing at most three custom words, whatever their actions. */
  method AppendCustomWords(start: seq<string>, assessment: Assessment) returns (reasons: seq<string>)
    ensures reasons == start + RenderAll(CustomReasons(assessment))
  {
    reasons := start;
    if assessment.wordPolicy.Some? {
      var customWords := assessment.wordPolicy.value.customWords;
      if customWords != [] {
        var listed := if |customWords| <= 3 then customWords else customWords[..3];
        var matched := MatchedWords(listed);
        var wordList := Join(matched);
        if |customWords| > 3 {
          wordList := wordList + "...";
        }
        assert WordsPrefix + wordList == Render(BannedWords(matched, |customWords| > 3));
        reasons := reasons + [WordsPrefix + wordList];
        RenderAllSingle(BannedWords(matched, |customWords| > 3));
      }
    }
  }

  /** The word policy, second part: one line with the number of managed-list entries. */
  method AppendManagedLists(start: seq<string>, assessment: Assessment) returns (reasons: seq<string>)
    ensures reasons == start + RenderAll(ManagedReasons(assessment))
  {
    reasons := start;
    if assessment.wordPolicy.Some? {
      var managedLists := assessment.wordPolicy.value.managedWordLists;
      if managedLists != [] {
        reasons := reasons + [Render(ManagedWords(|managedLists|))];
        RenderAllSingle(ManagedWords(|managedLists|));
      }
    }
  }

  /** The topic policy: one line per active topic. */
  method AppendTopics(start: seq<string>, assessment: Assessment) returns (reasons: seq<string>)
    ensures reasons == start + RenderAll(TopicReasons(assessment))
  {
    reasons := start;
    if assessment.topicPolicy.Some? {
      var topics := assessment.topicPolicy.value.topics;
      for j := 0 to |topics|
        invariant reasons == start + RenderAll(Collect(topics[..j], TopicReason))
      {
        CollectStep(start, topics, j, TopicReason);
        var topic := topics[j];
        var action := topic.action;
        if action.Some? && action.value != "" && action.value != "NONE" {
          var name := topic.name.GetOr("Unknown");
          assert TopicReason(topic) == Some(TopicViolation(name));
          reasons := reasons + [Render(TopicViolation(name))];
        }
      }
      assert topics[..|topics|] == topics;
    }
  }

  lemma SeqAssoc(a: seq<string>, b: seq<string>, c: seq<string>)
    ensures a + b + c == a + (b + c)
  {
  }

  /** Extending the prefix of an entry list by one entry appends that entry's rendered reason, if it has one. */
  lemma CollectStep<T>(start: seq<string>, s: seq<T>, j: nat, pick: T -> Option<Reason>)
    requires j < |s|
    ensures start + RenderAll(Collect(s[..j + 1], pick))
         == if pick(s[j]).Some? then start + RenderAll(Collect(s[..j], pick)) + [Render(pick(s[j]).value)]
            else start + RenderAll(Collect(s[..j], pick))
  {
    var prior := Collect(s[..j], pick);
    assert s[..j + 1][..j] == s[..j];
    assert Collect(s[..j + 1], pick) == prior + Contribution(pick(s[j]));
    if pick(s[j]).Some? {
      var r := pick(s[j]).value;
      assert (prior + [r])[..|prior|] == prior;
      assert RenderAll(prior + [r]) == RenderAll(prior) + [Render(r)];
      SeqAssoc(start, RenderAll(prior), [Render(r)]);
    } else {
      assert prior + [] == prior;
    }
  }

  lemma AllReasonsStep(assessments: seq<Assessment>, i: nat)
    requires i < |assessments|
    ensures RenderAll(AllReasons(assessments[..i + 1]))
         == RenderAll(AllReasons(assessments[..i])) + RenderAll(AssessmentReasons(assessments[i]))
  {
    assert assessments[..i + 1] == assessments[..i] + [assessments[i]];
    AllReasonsAppend(assessments[..i], [assessments[i]]);
    AllReasonsSingle(assessments[i]);
    RenderAllAppend(AllReasons(assessments[..i]), AssessmentReasons(assessments[i]));
  }

  lemma RenderedExtend(start: seq<string>, x: seq<Reason>, y: seq<Reason>)
    ensures start + RenderAll(x) + RenderAll(y) == start + RenderAll(x + y)
  {
    RenderAllAppend(x, y);
    SeqAssoc(start, RenderAll(x), RenderAll(y));
  }

  /** What `_parse_assessments` returns for a list of assessments. */
  function ParsedReasons(assessments: seq<Assessment>): seq<string> {
    RenderAll(AllReasons(assessments))
  }

  // ---------------------------------------------------------------------------
  // Checking content

  /** One entry of the response's `outputs`. */
  datatype Output = Output(text: Option<string>)

  /** The fields of the `apply_guardrail` response that the service reads. */
  datatype GuardrailResponse = GuardrailResponse(action: Option<string>, assessments: seq<Assessment>, outputs: seq<Output>)

  /** What the `apply_guardrail` call gives back: a response, or the exception it raised. */
  datatype ApplyOutcome =
    | Applied(response: GuardrailResponse)
    | ApplyFailed(error: string, errorType: string)

  /** The dictionary `check_content` returns. */
  datatype CheckResult =
    | Checked(text: string, action: string, reasons: seq<string>, isBlocked: bool, maskedText: Option<string>)
    | CheckFailed(error: string, errorType: string, text: string)
  {
    predicate Success() { Checked? }

    /** The `is_blocked` key: false in the error dictionary. */
    predicate IsBlocked() { Checked? && isBlocked }
  }

  const UnknownAction := "UNKNOWN"
  const BlockedDefault := "Nội dung vi phạm chính sách guardrail"
  const SafeDefault := "Nội dung an toàn"

  /** The actions that block content: BLOCK and GUARDRAIL_INTERVENED. */
  predicate BlockingAction(action: string) {
    action in ["BLOCK", "GUARDRAIL_INTERVENED"]
  }

  /** The masked text, when the first output carries a non-empty one. */
  function MaskedText(outputs: seq<Output>): Option<string> {
    if outputs != [] && outputs[0].text.GetOr("") != "" then Some(outputs[0].text.value) else None
  }

  /** The reasons reported: the parsed ones, or a single default when there are none. */
  function FinalReasons(parsed: seq<string>, isBlocked: bool): seq<string> {
    if parsed != [] then parsed else if isBlocked then [BlockedDefault] else [SafeDefault]
  }

  /** `check_content(text)`, given what the guardrail call returned or raised. */
  function CheckContent(text: string, outcome: ApplyOutcome): (r: CheckResult)
    // Fail open: a failed call reports the error, the text, and not blocked.
    ensures outcome.ApplyFailed? ==>
      !r.Success() && !r.IsBlocked() && r == CheckFailed(outcome.error, outcome.errorType, text)
    ensures outcome.Applied? ==> r.Success() && r.text == text
    // The verdict: a missing action reads as UNKNOWN; blocked iff BLOCK or GUARDRAIL_INTERVENED.
    ensures outcome.Applied? ==>
      r.action == (if outcome.response.action.Some? then outcome.response.action.value else "UNKNOWN")
    ensures outcome.Applied? ==>
      (r.IsBlocked() <==> outcome.response.action == Some("BLOCK") || outcome.response.action == Some("GUARDRAIL_INTERVENED"))
    // The reasons are never empty; the parsed ones are kept whenever there are any.
    ensures r.Success() ==> |r.reasons| >= 1
    ensures r.Success() && ParsedReasons(outcome.response.assessments) != [] ==>
      r.reasons == ParsedReasons(outcome.response.assessments)
    ensures r.Success() && ParsedReasons(outcome.response.assessments) == [] ==>
      r.reasons == (if r.IsBlocked() then [BlockedDefault] else [SafeDefault])
    // The masked text is attached iff the first output has a non-empty text, even one equal to the input.
    ensures r.Success() ==>
      (r.maskedText.Some? <==> |outcome.response.outputs| > 0 && outcome.response.outputs[0].text.Some?
                               && outcome.response.outputs[0].text.value != "")
    ensures r.Success() && r.maskedText.Some? ==> r.maskedText.value == outcome.response.outputs[0].text.value
  {
    match outcome
    case ApplyFailed(error, errorType) => CheckFailed(error, errorType, text)
    case Applied(response) =>
      var action := response.action.GetOr(UnknownAction);
      var isBlocked := BlockingAction(action);
      Checked(text, action, FinalReasons(ParsedReasons(response.assessments), isBlocked), isBlocked,
              MaskedText(response.outputs))
  }

  /** Every action other than BLOCK and GUARDRAIL_INTERVENED lets content through, NONE, ALLOW and a missing one included. */
  lemma NonBlockingActions(text: string, assessments: seq<Assessment>, outputs: seq<Output>)
    ensures !CheckContent(text, Applied(GuardrailResponse(Some("NONE"), assessments, outputs))).IsBlocked()
    ensures !CheckContent(text, Applied(GuardrailResponse(Some("ALLOW"), assessments, outputs))).IsBlocked()
    ensures !CheckContent(text, Applied(GuardrailResponse(None, assessments, outputs))).IsBlocked()
  {
  }

  /** When no assessment reports anything, a check gives exactly one default reason matching its verdict. */
  lemma QuietCheck(text: string, response: GuardrailResponse)
    requires forall a :: a in response.assessments ==> Quiet(a)
    ensures CheckContent(text, Applied(response)).reasons
         == (if CheckContent(text, Applied(response)).IsBlocked() then [BlockedDefault] else [SafeDefault])
  {
    AllReasonsEmpty(response.assessments);
  }

  // ---------------------------------------------------------------------------
  // Chat

  /** The fields of the `converse` response that the service reads. */
  datatype ConverseResponse = ConverseResponse(stopReason: Option<string>, firstText: Option<string>)

  /** What the `converse` call gives back: a response, or the exception it raised. */
  datatype ConverseOutcome =
    | Conversed(response: ConverseResponse)
    | ConverseFailed(error: string, errorType: string)

  /** Why a chat failed: the exception `converse` raised, or a response without output text. */
  datatype ChatError =
    | ClientError(error: string, errorType: string)
    | MissingOutputText

  /** The dictionary `chat_with_ai` returns. */
  datatype ChatResult =
    | InputBlocked(message: string, reasons: seq<string>, inputCheck: CheckResult)
    | OutputBlocked(message: string, reasons: seq<string>, inputCheck: CheckResult, stopReason: Option<string>)
    | Answered(userMessage: string, aiResponse: string, inputCheck: CheckResult, stopReason: Option<string>)
    | ChatFailed(cause: ChatError)
  {
    predicate Success() { Answered? }

    /** The `is_safe` key, present (and true) only on an answer. */
    predicate IsSafe() { Answered? }
  }

  const InputBlockedMessage := "Tin nhắn của bạn bị chặn vì vi phạm chính sách nội dung"
  const OutputBlockedMessage := "Phản hồi của AI bị chặn vì vi phạm chính sách nội dung"
  const OutputViolation := "Output vi phạm guardrail"
  const GuardrailIntervened := "guardrail_intervened"

  /** Whether `chat_with_ai(message)` goes on to call the model: only when the input check does not block. */
  predicate ModelInvoked(message: string, guard: ApplyOutcome) {
    !CheckContent(message, guard).IsBlocked()
  }

  /**
   * `chat_with_ai(message)`, given what the guardrail call returned for the
   * message and what the model call returned (consulted only when the model is invoked).
   */
  function ChatWithAi(message: string, guard: ApplyOutcome, converse: ConverseOutcome): (r: ChatResult)
    // Phase one: a blocked input is refused with its check, and the model is not invoked.
    ensures r.InputBlocked? <==> !ModelInvoked(message, guard)
    ensures r.InputBlocked? ==>
      !r.Success() && r.message == InputBlockedMessage && r.inputCheck == CheckContent(message, guard)
      && r.reasons == r.inputCheck.reasons && |r.reasons| >= 1
    // Phase two: the model's output is refused when the guardrail intervened on it.
    ensures r.OutputBlocked? <==>
      ModelInvoked(message, guard) && converse.Conversed? && converse.response.stopReason == Some(GuardrailIntervened)
    ensures r.OutputBlocked? ==>
      !r.Success() && r.message == OutputBlockedMessage && r.reasons == [OutputViolation]
      && r.stopReason == Some(GuardrailIntervened) && r.inputCheck == CheckContent(message, guard)
    // Otherwise the answer is the model's text, and safe.
    ensures r.Success() ==>
      r.IsSafe() && r.userMessage == message && converse.Conversed?
      && Some(r.aiResponse) == converse.response.firstText && r.stopReason == converse.response.stopReason
      && r.inputCheck == CheckContent(message, guard) && !r.inputCheck.IsBlocked()
    ensures r.ChatFailed? ==>
      ModelInvoked(message, guard)
      && (r.cause.ClientError? <==> converse.ConverseFailed?)
      && (converse.ConverseFailed? ==> r.cause == ClientError(converse.error, converse.errorType))
      && (r.cause.MissingOutputText? ==> converse.response.firstText.None?)
  {
    var inputCheck := CheckContent(message, guard);
    if inputCheck.IsBlocked() then
      InputBlocked(InputBlockedMessage, inputCheck.reasons, inputCheck)
    else
      match converse
      case ConverseFailed(error, errorType) => ChatFailed(ClientError(error, errorType))
      case Conversed(response) =>
        if response.stopReason == Some(GuardrailIntervened) then
          OutputBlocked(OutputBlockedMessage, [OutputViolation], inputCheck, response.stopReason)
        else if response.firstText.None? then
          ChatFailed(MissingOutputText)
        else
          Answered(message, response.firstText.value, inputCheck, response.stopReason)
  }

  /** When the input is blocked, what the model would have returned makes no difference. */
  lemma BlockedInputIgnoresModel(message: string, guard: ApplyOutcome, c1: ConverseOutcome, c2: ConverseOutcome)
    requires CheckContent(message, guard).IsBlocked()
    ensures ChatWithAi(message, guard, c1) == ChatWithAi(message, guard, c2)
    ensures ChatWithAi(message, guard, c1).InputBlocked?
  {
  }

  /**
   * When the input is not blocked, the model's outcome decides the result: its
   * exception is reported as is, and its text, unless the guardrail intervened,
   * is the answer.
   */
  lemma UnblockedInputUsesModel(message: string, guard: ApplyOutcome, error: string, errorType: string,
                                stopReason: Option<string>, text: string)
    requires !CheckContent(message, guard).IsBlocked()
    ensures ChatWithAi(message, guard, ConverseFailed(error, errorType)) == ChatFailed(ClientError(error, errorType))
    ensures stopReason != Some(GuardrailIntervened) ==>
      ChatWithAi(message, guard, Conversed(ConverseResponse(stopReason, Some(text))))
        == Answered(message, text, CheckContent(message, guard), stopReason)
    ensures ChatWithAi(message, guard, Conversed(ConverseResponse(Some(GuardrailIntervened), Some(text)))).OutputBlocked?
    ensures ChatWithAi(message, guard, ConverseFailed(error, errorType))
         != ChatWithAi(message, guard, Conversed(ConverseResponse(stopReason, Some(text))))
  {
  }

  /** A failed input check does not stop the chat: the model is invoked with the unchecked message. */
  lemma FailedCheckReachesModel(message: string, error: string, errorType: string, response: ConverseResponse)
    requires response.stopReason != Some(GuardrailIntervened) && response.firstText.Some?
    ensures ChatWithAi(message, ApplyFailed(error, errorType), Conversed(response)).Success()
  {
  }
}
