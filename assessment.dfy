/**
 * The assessment records returned by the Bedrock Guardrail `ApplyGuardrail`
 * call, as far as the service reads them. Every JSON key the service reads
 * with `.get(key)` is an `Option`; a list it reads with `.get(key, [])` is a
 * `seq`, the absent list being the empty one; a policy section it tests with
 * `key in assessment` is an `Option` of a record.
 */
module Assessment {
  import opened Wrappers

  /** One entry of `contentPolicy.filters` (hate, violence, sexual, ...). */
  datatype Filter = Filter(action: Option<string>, filterType: Option<string>, confidence: Option<string>)

  /** One entry of `sensitiveInformationPolicy.piiEntities`. */
  datatype PiiEntity = PiiEntity(action: Option<string>, entityType: Option<string>)

  /** One entry of `sensitiveInformationPolicy.regexes`. */
  datatype RegexMatch = RegexMatch(action: Option<string>, name: Option<string>)

  /** One entry of `wordPolicy.customWords`; `matchText` is the JSON key `match`. */
  datatype CustomWord = CustomWord(action: Option<string>, matchText: Option<string>)

  /** One entry of `wordPolicy.managedWordLists`; only their number is read. */
  datatype ManagedWord = ManagedWord(action: Option<string>, matchText: Option<string>, wordType: Option<string>)

  /** One entry of `topicPolicy.topics`. */
  datatype Topic = Topic(action: Option<string>, name: Option<string>)

  datatype ContentPolicy = ContentPolicy(filters: seq<Filter>)

  datatype SensitiveInformationPolicy = SensitiveInformationPolicy(piiEntities: seq<PiiEntity>, regexes: seq<RegexMatch>)

  datatype WordPolicy = WordPolicy(customWords: seq<CustomWord>, managedWordLists: seq<ManagedWord>)

  datatype TopicPolicy = TopicPolicy(topics: seq<Topic>)

  /** One assessment record: four independent, optional policy sections. */
  datatype Assessment = Assessment(
    contentPolicy: Option<ContentPolicy>,
    sensitiveInformationPolicy: Option<SensitiveInformationPolicy>,
    wordPolicy: Option<WordPolicy>,
    topicPolicy: Option<TopicPolicy>)
}
