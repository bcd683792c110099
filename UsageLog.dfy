/** The usage and cost accounting of `MyCustomHandler.log_event` and of the
    two post-call hooks that call it (home-manager/llm/custom_litellm.py).
    The printed lines become a `UsageRecord` value; the proxy's pricing
    function `litellm.completion_cost` is a parameter. */
module UsageLog {
  import opened Wrappers
  import opened Text
  import opened PreCallHook

  /** The parts of the proxy's call parameters (`kwargs`) that are read; a
      key the dictionary lacks is None. */
  datatype ModelInfo = ModelInfo(id: Option<string>)
  datatype Metadata = Metadata(modelGroup: Option<string>, deployment: Option<string>,
                               modelInfo: Option<ModelInfo>, apiBase: Option<string>)
  datatype LitellmParams = LitellmParams(metadata: Option<Metadata>)
  datatype CallKwargs = CallKwargs(model: Option<string>, messages: Option<seq<Message>>,
                                   litellmParams: Option<LitellmParams>,
                                   exception: Option<string>, traceback: Option<string>)

  /** Token counts of a response; `usage` is None when it is absent or empty. */
  datatype Usage = Usage(totalTokens: Option<nat>, promptTokens: Option<nat>, completionTokens: Option<nat>)
  datatype Response = Response(usage: Option<Usage>)

  /** What the proxy's pricing function gives for a response: a cost, or the
      exception it raises. */
  type Pricing = Response -> Result<real, string>

  /** The fields of the record printed for one call. */
  datatype UsageRecord = UsageRecord(
    preview: string, model: Option<string>, modelGroup: Option<string>,
    modelId: Option<string>, deployment: Option<string>, apiBase: Option<string>,
    totalTokens: nat, promptTokens: nat, completionTokens: nat, cost: real)

  /** The exceptions that escape `log_event`. */
  datatype LogError = PricingFailed(reason: string) | KeyMissing(key: string)

  /** What one `log_event` call does: print the null-response warning, print
      the record, or raise. */
  datatype LogOutcome =
    | NullResponseWarning(eventType: string, model: Option<string>)
    | Logged(record: UsageRecord)
    | Raised(error: LogError)

  const SuccessEvent: string := "Async Success"
  const FailureEvent: string := "Async Failure"
  const PreviewWords: nat := 10

  /** `kwargs.get("litellm_params", {}).get("metadata", {})` */
  function MetadataOf(kwargs: CallKwargs): Metadata {
    var empty := Metadata(None, None, None, None);
    match kwargs.litellmParams
    case None => empty
    case Some(p) => p.metadata.GetOr(empty)
  }

  function ModelIdOf(m: Metadata): Option<string> {
    match m.modelInfo
    case None => None
    case Some(info) => info.id
  }

  /** `api_base and "githubcopilot" in api_base`: GitHub Copilot calls are free. */
  predicate IsCopilotBase(apiBase: Option<string>) {
    apiBase.Some? && apiBase.value != "" && Contains(apiBase.value, "githubcopilot")
  }

  /** The cost of a call: 0.0 for GitHub Copilot without asking the pricing
      function, otherwise whatever the pricing function gives or raises. */
  function ResolveCost(apiBase: Option<string>, response: Response, pricing: Pricing): Result<real, LogError> {
    if IsCopilotBase(apiBase) then Ok(0.0)
    else
      match pricing(response)
      case Ok(c) => Ok(c)
      case Err(reason) => Err(PricingFailed(reason))
  }

  /** For GitHub Copilot the pricing function makes no difference at all. */
  lemma CopilotCostIgnoresPricing(apiBase: Option<string>, response: Response, pricing: Pricing, other: Pricing)
    requires IsCopilotBase(apiBase)
    ensures ResolveCost(apiBase, response, pricing) == ResolveCost(apiBase, response, other) == Ok(0.0)
  {
  }

  /** The scan `next((item["content"] for item in messages if item["role"] ==
      "user"), "")` up to the first user message: its index, None when no
      message is from the user, or the KeyError of a message without a role
      met before that. */
  function FirstUserIndex(msgs: seq<Message>): (r: Result<Option<nat>, LogError>)
    ensures r.Ok? && r.value.Some? ==>
              r.value.value < |msgs| && msgs[r.value.value].role == Some("user")
              && forall j :: 0 <= j < r.value.value ==> msgs[j].role.Some? && msgs[j].role != Some("user")
    ensures r.Ok? && r.value.None? ==>
              forall j :: 0 <= j < |msgs| ==> msgs[j].role.Some? && msgs[j].role != Some("user")
    ensures r.Err? ==>
              r.error == KeyMissing("role")
              && exists i :: 0 <= i < |msgs| && msgs[i].role.None?
                             && forall j :: 0 <= j < i ==> msgs[j].role != Some("user")
  {
    if msgs == [] then Ok(None)
    else if msgs[0].role.None? then Err(KeyMissing("role"))
    else if msgs[0].role == Some("user") then Ok(Some(0))
    else
      match FirstUserIndex(msgs[1..])
      case Err(e) =>
        assert exists i :: 1 <= i < |msgs| && msgs[i].role.None?
                           && forall j :: 1 <= j < i ==> msgs[j].role != Some("user")
        by {
          var i :| 0 <= i < |msgs[1..]| && msgs[1..][i].role.None?
                   && forall j :: 0 <= j < i ==> msgs[1..][j].role != Some("user");
          assert forall j :: 1 <= j < i + 1 ==> msgs[j] == msgs[1..][j - 1];
        }
        Err(e)
      case Ok(None) => Ok(None)
      case Ok(Some(i)) => Ok(Some(i + 1))
  }

  /** The prompt text the preview is made of: "" when there are no messages
      or no user message, the first user message's content otherwise. */
  function PromptText(messages: Option<seq<Message>>): (r: Result<string, LogError>)
    ensures messages.None? || messages == Some([]) ==> r == Ok("")
    ensures messages.Some? && FirstUserIndex(messages.value) == Ok(None) ==> r == Ok("")
    ensures messages.Some? && FirstUserIndex(messages.value).Err? ==> r == Err(KeyMissing("role"))
    ensures messages.Some? && FirstUserIndex(messages.value).Ok? && FirstUserIndex(messages.value).value.Some? ==>
              var m := messages.value[FirstUserIndex(messages.value).value.value];
              r == if m.content.Some? then Ok(m.content.value) else Err(KeyMissing("content"))
  {
    match messages
    case None => Ok("")
    case Some(msgs) =>
      if msgs == [] then Ok("")
      else
        match FirstUserIndex(msgs)
        case Err(e) => Err(e)
        case Ok(None) => Ok("")
        case Ok(Some(i)) =>
          match msgs[i].content
          case None => Err(KeyMissing("content"))
          case Some(c) => Ok(c)
  }

  /** `" ".join(content.split()[:10])` */
  function Preview(content: string): string {
    JoinWords(Take(Words(content), PreviewWords))
  }

  /** The preview is made of the first ten words of the content, in order,
      so it has at most ten words. */
  lemma PreviewIsFirstWords(content: string)
    ensures Words(Preview(content)) == Take(Words(content), PreviewWords)
    ensures |Words(Preview(content))| <= PreviewWords
  {
    var ws := Words(content);
    var first := Take(ws, PreviewWords);
    assert AllWords(first) by {
      forall k | 0 <= k < |first| ensures IsWord(first[k]) {
        assert first[k] == ws[k];
      }
    }
    WordsOfJoin(first);
  }

  /** `response_obj.get("usage") or {}` */
  function UsageOrEmpty(usage: Option<Usage>): Usage {
    usage.GetOr(Usage(None, None, None))
  }

  /** The printed record: the preview of the prompt text, the identifiers
      from `kwargs`, the token counts with 0 for each missing one, and the cost. */
  function RecordOf(kwargs: CallKwargs, resp: Response, content: string, cost: real): (rec: UsageRecord)
    ensures |Words(rec.preview)| <= PreviewWords
    ensures content == "" ==> rec.preview == ""
  {
    PreviewIsFirstWords(content);
    var meta := MetadataOf(kwargs);
    var usage := UsageOrEmpty(resp.usage);
    UsageRecord(
      Preview(content), kwargs.model, meta.modelGroup, ModelIdOf(meta), meta.deployment, meta.apiBase,
      usage.totalTokens.GetOr(0), usage.promptTokens.GetOr(0), usage.completionTokens.GetOr(0),
      cost)
  }

  /** One `log_event(event_type, kwargs, response_obj)` call. */
  function LogEvent(eventType: string, kwargs: CallKwargs, response: Option<Response>, pricing: Pricing): (r: LogOutcome)
    ensures response.None? <==> r.NullResponseWarning?
    ensures response.None? ==> r == NullResponseWarning(eventType, kwargs.model)
    ensures response.Some? && IsCopilotBase(MetadataOf(kwargs).apiBase) ==>
              !(r.Raised? && r.error.PricingFailed?) && (r.Logged? ==> r.record.cost == 0.0)
    ensures response.Some? && !IsCopilotBase(MetadataOf(kwargs).apiBase) ==>
              match pricing(response.value)
              case Err(reason) => r == Raised(PricingFailed(reason))
              case Ok(c) => r.Logged? ==> r.record.cost == c
    ensures response.Some? ==>
              (r.Logged? <==> ResolveCost(MetadataOf(kwargs).apiBase, response.value, pricing).Ok?
                              && PromptText(kwargs.messages).Ok?)
    ensures (response.Some? && ResolveCost(MetadataOf(kwargs).apiBase, response.value, pricing).Ok?
             && PromptText(kwargs.messages).Err?) ==> r == Raised(PromptText(kwargs.messages).error)
    ensures r.Logged? ==>
              r.record.model == kwargs.model
              && r.record.modelGroup == MetadataOf(kwargs).modelGroup
              && r.record.modelId == ModelIdOf(MetadataOf(kwargs))
              && r.record.deployment == MetadataOf(kwargs).deployment
              && r.record.apiBase == MetadataOf(kwargs).apiBase
    ensures r.Logged? ==>
              r.record.totalTokens == UsageOrEmpty(response.value.usage).totalTokens.GetOr(0)
              && r.record.promptTokens == UsageOrEmpty(response.value.usage).promptTokens.GetOr(0)
              && r.record.completionTokens == UsageOrEmpty(response.value.usage).completionTokens.GetOr(0)
    ensures r.Logged? && response.value.usage.None? ==>
              r.record.totalTokens == r.record.promptTokens == r.record.completionTokens == 0
    ensures r.Logged? ==> |Words(r.record.preview)| <= PreviewWords
    ensures r.Logged? && (kwargs.messages.None? || kwargs.messages == Some([])) ==> r.record.preview == ""
    ensures r.Logged? && kwargs.messages.Some? && FirstUserIndex(kwargs.messages.value) == Ok(None) ==>
              r.record.preview == ""
    ensures (r.Logged? && kwargs.messages.Some? && FirstUserIndex(kwargs.messages.value).Ok?
             && FirstUserIndex(kwargs.messages.value).value.Some?) ==>
              var m := kwargs.messages.value[FirstUserIndex(kwargs.messages.value).value.value];
              m.content.Some? && r.record.preview == Preview(m.content.value)
  {
    var meta := MetadataOf(kwargs);
    match response
    case None => NullResponseWarning(eventType, kwargs.model)
    case Some(resp) =>
      match ResolveCost(meta.apiBase, resp, pricing)
      case Err(e) => Raised(e)
      case Ok(cost) =>
        match PromptText(kwargs.messages)
        case Err(e) => Raised(e)
        case Ok(content) => Logged(RecordOf(kwargs, resp, content, cost))
  }

  /** `async_log_success_event` */
  function LogSuccessEvent(kwargs: CallKwargs, response: Option<Response>, pricing: Pricing): (r: LogOutcome)
    ensures r == LogEvent(SuccessEvent, kwargs, response, pricing)
    ensures response.None? ==> r == NullResponseWarning(SuccessEvent, kwargs.model)
    ensures response.Some? ==> !r.NullResponseWarning?
  {
    LogEvent(SuccessEvent, kwargs, response, pricing)
  }

  /** The exception and traceback printed after a failed call's record. */
  datatype FailureDetails = FailureDetails(exception: Option<string>, traceback: Option<string>)

  /** A failure event: what `log_event` did and, unless it raised, the
      exception details printed after it. */
  datatype FailureLog = FailureLog(event: LogOutcome, details: Option<FailureDetails>)

  /** `async_log_failure_event` */
  function LogFailureEvent(kwargs: CallKwargs, response: Option<Response>, pricing: Pricing): (r: FailureLog)
    ensures r.event == LogEvent(FailureEvent, kwargs, response, pricing)
    ensures r.details.None? <==> r.event.Raised?
    ensures r.details.Some? ==> r.details.value == FailureDetails(kwargs.exception, kwargs.traceback)
    ensures response.None? ==> r == FailureLog(NullResponseWarning(FailureEvent, kwargs.model),
                                               Some(FailureDetails(kwargs.exception, kwargs.traceback)))
  {
    var event := LogEvent(FailureEvent, kwargs, response, pricing);
    if event.Raised? then FailureLog(event, None)
    else FailureLog(event, Some(FailureDetails(kwargs.exception, kwargs.traceback)))
  }
}
