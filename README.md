# Guardrail moderation service — Dafny model

This project models the decision logic of the employee-assistant moderation
service (`employee-assistant/src/guardrail_service.py`). The service sends
text to an AWS Bedrock Guardrail, turns the returned assessment records into
a list of human-readable (Vietnamese) violation reasons, decides whether the
text is blocked, and gates a chat with a generative model on that verdict.

- `wrappers.dfy` — `Option`, for JSON keys that may be absent.
- `assessment.dfy` — the assessment records as the service reads them. There
  are four optional policy sections (content filters, sensitive information,
  word policy, topics), and each entry is a record of `Option<string>` fields.
  A list read with `.get(key, [])` is a `seq`, and an absent list is the empty
  one. The JSON key `match` is called `matchText`, because `match` is a Dafny
  keyword.
- `reasons.dfy` — the specification of `_parse_assessments`. Each violation
  becomes a `Reason` value and `Render` gives its text. `AllReasons` gives the
  ordered reasons of a list of assessments. The lemmas prove which entries
  contribute a reason, how many reasons there are, their order, when the list
  is empty, and that the category of each line can be read back from its text.
- `guardrail_service.dfy` — the service itself:
  - `ParseAssessments` is the imperative parser. It appends to a local list,
    and the result is proved equal to the rendering of `AllReasons`.
  - `CheckContent` is `check_content` over the outcome of the `apply_guardrail`
    call: a response, or the exception the call raised.
  - `ChatWithAi` is the two-phase gate of `chat_with_ai` over the guardrail
    outcome and the outcome of the `converse` call.

  The body of the parser's outer loop is the method `AppendAssessment`. Each
  policy block in that body is a method of its own (`AppendContent`,
  `AppendEntities`, `AppendPatterns`, `AppendCustomWords`,
  `AppendManagedLists`, `AppendTopics`), and they are called in the source's
  order. Each method first tests whether its section is present. Where the
  source loops over entries, the method does too, with the same inline action
  test.

Two behaviours of the code are worth stating plainly:
- Unlike filter, PII, regex and topic entries, custom words and managed word
  lists are reported whatever their action: no action is read on them
  (guardrail_service.py lines 99-115). `CustomWordsIgnoreAction` and
  `FiveCustomWords` show that a custom word with action `NONE` is still
  reported.
- The masked text is attached whenever the first output's text is non-empty,
  even when it equals the input. The comparison with the input at line 170
  only decides a log line.

The helper functions stand for these parts of `guardrail_service.py`:
`Prefix`, `Body` and `Render` are the f-strings at lines 73-75, 85-87, 95-97,
106-109, 113-115 and 124-126; `Join` is the `', '.join` at line 104;
`NatToString` writes `len(managed_lists)` at line 114; `MatchedWords` and
`CustomWordReasons` are lines 102-108; `BlockingAction` is line 175;
`FinalReasons` is lines 177-181; `MaskedText` is lines 167-169 with the test
at lines 192-194.

## Model

| member | source | states |
|---|---|---|
| `GuardrailService.ParseAssessments` | employee-assistant/src/guardrail_service.py:52-128 | the reasons list is exactly the rendering of `AllReasons`: for each assessment in order, its content, PII, regex, custom-word, managed-list and topic reasons; its length is the number of active entries plus one per non-empty word list, summed over the assessments |
| `GuardrailService.AppendAssessment` | employee-assistant/src/guardrail_service.py:64-126 | one pass of the outer loop appends exactly the rendered reasons of that assessment, sections in source order, and leaves the earlier lines unchanged |
| `GuardrailService.AppendContent` | employee-assistant/src/guardrail_service.py:65-75 | the content-policy block appends one line per active filter, in list order, and nothing when the section is absent |
| `GuardrailService.AppendEntities` | employee-assistant/src/guardrail_service.py:77-87 | the PII-entity loop appends one line per active entity, in list order, and nothing when the section is absent |
| `GuardrailService.AppendPatterns` | employee-assistant/src/guardrail_service.py:89-97 | the regex loop appends one line per active regex, in list order, and nothing when the section is absent |
| `GuardrailService.AppendCustomWords` | employee-assistant/src/guardrail_service.py:99-109 | a non-empty custom word list appends exactly one line: the first three matches joined by `", "`, with `...` when there are more than three |
| `GuardrailService.AppendManagedLists` | employee-assistant/src/guardrail_service.py:111-115 | a non-empty managed word list appends exactly one line carrying its length; an empty one appends nothing |
| `GuardrailService.AppendTopics` | employee-assistant/src/guardrail_service.py:117-126 | the topic loop appends one line per active topic, in list order, and nothing when the section is absent |
| `Reasons.FilterReason` | employee-assistant/src/guardrail_service.py:68-75 | a filter gives a reason iff its action is present, non-empty and not `NONE`; the reason is a content reason carrying that action |
| `Reasons.EntityReason` | employee-assistant/src/guardrail_service.py:81-87 | a PII entity gives a reason iff its action is active; the reason is a PII reason carrying that action |
| `Reasons.PatternReason` | employee-assistant/src/guardrail_service.py:91-97 | a regex gives a reason iff its action is active; the reason is a pattern reason carrying that action |
| `Reasons.TopicReason` | employee-assistant/src/guardrail_service.py:120-126 | a topic gives a reason iff its action is active; the reason is a topic reason |
| `Reasons.CollectSingle` | employee-assistant/src/guardrail_service.py:68-126 | in each of the four action loops (lines 68-75, 81-87, 91-97, 120-126), a single filter, PII, regex or topic entry yields exactly its own reason if it is active, and nothing otherwise |
| `Reasons.CollectAppend` | employee-assistant/src/guardrail_service.py:68-126 | in each of the four action loops (lines 68-75, 81-87, 91-97, 120-126), the reasons of a concatenated entry list are the reasons of the first part followed by those of the second |
| `Reasons.CollectLength` | employee-assistant/src/guardrail_service.py:68-126 | in each of the four action loops (lines 68-75, 81-87, 91-97, 120-126), an entry list yields exactly as many reasons as it has active entries |
| `Reasons.CollectMember` | employee-assistant/src/guardrail_service.py:68-126 | in each of the four action loops (lines 68-75, 81-87, 91-97, 120-126), a reason is produced iff some entry of the list produces it |
| `Reasons.CollectEmpty` | employee-assistant/src/guardrail_service.py:68-126 | in each of the four action loops (lines 68-75, 81-87, 91-97, 120-126), an entry list yields no reason iff none of its entries is active |
| `Reasons.CustomWordsIgnoreAction` | employee-assistant/src/guardrail_service.py:101-109 | a non-empty custom word list yields exactly one reason, and the words' actions play no part in it |
| `Reasons.FiveCustomWords` | employee-assistant/src/guardrail_service.py:101-109 | five custom words, the second without `match` and the third with action `NONE`, render as `a, , c...`: the first three matches joined by `", "` (a missing match as the empty string), followed by `...` |
| `Reasons.NatToStringValue` | employee-assistant/src/guardrail_service.py:111-115 | the count written in a managed-word-list reason is a non-empty string of decimal digits that reads back as the list's length |
| `Reasons.AllReasonsAppend` | employee-assistant/src/guardrail_service.py:64-126 | the reasons of a list of assessments are the reasons of its parts in order: the output is the concatenation of the per-assessment outputs |
| `Reasons.AllReasonsSingle` | employee-assistant/src/guardrail_service.py:64-126 | a one-assessment list yields exactly that assessment's reasons |
| `Reasons.AssessmentLength` | employee-assistant/src/guardrail_service.py:64-126 | an assessment yields one reason per active filter, PII, regex and topic entry, plus one for non-empty custom words and one for non-empty managed lists |
| `Reasons.AllReasonsLength` | employee-assistant/src/guardrail_service.py:62-128 | the length of the reasons list is that count summed over all assessments |
| `Reasons.SectionRanks` | employee-assistant/src/guardrail_service.py:64-126 | every reason a section yields belongs to that section's category |
| `Reasons.AssessmentOrdered` | employee-assistant/src/guardrail_service.py:64-126 | within one assessment the categories never go backwards: content filters, PII entities, regexes, custom words, managed lists, topics |
| `Reasons.ContentQuiet` | employee-assistant/src/guardrail_service.py:66-75 | the content section yields nothing iff it is absent or all its filters are inactive |
| `Reasons.SensitiveQuiet` | employee-assistant/src/guardrail_service.py:78-97 | the sensitive-information section yields nothing iff it is absent or all its PII entities and regexes are inactive |
| `Reasons.TopicsQuiet` | employee-assistant/src/guardrail_service.py:118-126 | the topic section yields nothing iff it is absent or all its topics are inactive |
| `Reasons.AssessmentEmpty` | employee-assistant/src/guardrail_service.py:62-128 | an assessment yields no reason iff every filter, PII, regex and topic entry is inactive and both word lists are empty; absent sections yield nothing |
| `Reasons.AllReasonsEmpty` | employee-assistant/src/guardrail_service.py:62-128 | a list of assessments, the empty list included, yields no reason iff every assessment in it is quiet; it never fails |
| `Reasons.CategoryOfRender` | employee-assistant/src/guardrail_service.py:73-126 | the category of every rendered line can be read back from its fixed prefix |
| `Reasons.RenderAllLength` | employee-assistant/src/guardrail_service.py:62-128 | one appended line per reason: the number of lines is the number of reasons, and the `i`-th line renders the `i`-th reason |
| `Reasons.RenderedCategoriesOrdered` | employee-assistant/src/guardrail_service.py:64-126 | every line produced for one assessment has a category, and the categories of its lines never go back: content, PII, regex, custom words, managed lists, topics |
| `GuardrailService.CheckContent` | employee-assistant/src/guardrail_service.py:145-213 | a failed call gives the fail-open result: not successful, not blocked, with the error and the text. Otherwise a missing action reads as `UNKNOWN`, the result is blocked iff the action is `BLOCK` or `GUARDRAIL_INTERVENED`, and the reasons are never empty. Non-empty parsed reasons are kept unchanged; otherwise the single blocked or safe default is given. The masked text is present iff the first output has a non-empty text |
| `GuardrailService.NonBlockingActions` | employee-assistant/src/guardrail_service.py:157-175 | `NONE`, `ALLOW` and a missing action (read as `UNKNOWN`) do not block |
| `GuardrailService.QuietCheck` | employee-assistant/src/guardrail_service.py:177-181 | when no assessment reports anything, the reasons are exactly the one default that matches the verdict |
| `GuardrailService.ChatWithAi` | employee-assistant/src/guardrail_service.py:230-313 | a blocked input gives a failure with the input check and its non-empty reasons, and the model is not invoked. A `guardrail_intervened` stop reason gives a failure with the single output-violation reason. A failed model call gives a failure carrying that call's error message and type, and a response without text gives a failure. Otherwise the result is successful and safe, and carries the model's text and the input check |
| `GuardrailService.BlockedInputIgnoresModel` | employee-assistant/src/guardrail_service.py:236-243 | when the input is blocked, the result does not depend on anything the model call would return |
| `GuardrailService.UnblockedInputUsesModel` | employee-assistant/src/guardrail_service.py:234-313 | when the input is not blocked, the model's outcome decides the result: a raised exception gives a failure with its message and type, a reply without intervention gives the answer with its text and stop reason, an intervention gives the output-blocked result, and a failure and a reply give different results |
| `GuardrailService.FailedCheckReachesModel` | employee-assistant/src/guardrail_service.py:205-243 | when the guardrail call fails, the chat still reaches the model and can succeed with the unchecked message |

## Left out

- The boto3 client construction and the `apply_guardrail` and `converse` network calls. What they return, or the exception they raise, is an input (`ApplyOutcome`, `ConverseOutcome`).
- Loading the environment and configuration, including the startup check that fails when `GUARDRAIL_ID` is missing. This is process configuration.
- All logging, and the `__main__` smoke tests, which need a live AWS backend.
- Building the `converse` request: the message list, the guardrail config, `maxTokens`, the `temperature` float and the optional `system_prompt`. None of these affects the result beyond what the model returns.
- Exception types. A failed call carries its message and type name as opaque input strings. A `converse` response without output text is the single `MissingOutputText` cause, in place of the `KeyError`/`IndexError` Python would raise and report.
- JSON values of the wrong shape: a `null` list, a non-string action, or a key present with value `null`, which Python would render as `None`. The model takes the records as well-formed, as the provider's schema defines them.
- `employee-assistant/src/api.py`: the Flask routes, request validation, CORS and JSON serialisation are HTTP plumbing. Its batch loop applies `check_content` to each text in order, and is not part of this model.
- `employee-assistant/run.py`: it only sets up `sys.path` and starts the server.
