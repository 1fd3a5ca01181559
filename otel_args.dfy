// Option validation and the publisher-option mapping of the OpenTelemetry
// Pub/Sub publisher samples (pubsub-open-telemetry/parse_args.cc).
module OtelArgs {
  import opened Wrappers

  /** The option values after command-line tokenising; None when not given.
      `argc` is the argument count including the program name. */
  datatype CommandLine = CommandLine(
    argc: int,
    help: bool,
    projectId: Option<string>,
    topicId: Option<string>,
    tracingRate: Option<real>,
    maxQueueSize: Option<int>,
    messageCount: Option<int>,
    messageSize: Option<int>,
    maxPendingMessages: Option<nat>,
    maxPendingBytes: Option<nat>,
    publisherAction: Option<string>,
    maxHoldTime: Option<int>,
    maxBatchBytes: Option<nat>,
    maxBatchMessages: Option<nat>)

  /** pubsub::FullPublisherAction. */
  datatype FullPublisherAction = Rejects | Blocks | Ignored

  /** The publisher options the sample sets; None stands for an option left unset. */
  datatype PublisherOptions = PublisherOptions(
    openTelemetryTracing: bool,
    maxPendingMessages: Option<nat>,
    maxPendingBytes: Option<nat>,
    fullPublisherAction: Option<FullPublisherAction>,
    maxHoldTimeMicroseconds: Option<int>,
    maxBatchBytes: Option<nat>,
    maxBatchMessages: Option<nat>)

  const NoPublisherOptions := PublisherOptions(false, None, None, None, None, None, None)

  /** ParseResult; `tracingRate` is the one entry of the tracing options. */
  datatype ParseResult = ParseResult(
    projectId: string,
    topicId: string,
    messageCount: int,
    messageSize: int,
    maxQueueSize: int,
    tracingRate: Option<real>,
    publisherOptions: PublisherOptions)

  /** The result returned for --help or an empty command line: empty names,
      no options, and 0 for the integers. */
  const UsageResult := ParseResult("", "", 0, 0, 0, None, NoPublisherOptions)

  /** A missing required option is reported by the option parser; the rest
      are the runtime_error messages of the sample. */
  datatype ParseError = MissingRequiredOption | Invalid(message: string)

  const DefaultTracingRate: real := 1.0
  const DefaultMaxQueueSize := 0
  const DefaultMessageCount := 1
  const DefaultMessageSize := 1

  const InvalidActionMessage := "publisher-action is invalid. it must be one of the three values: block|ignore|reject"

  function ActionName(a: FullPublisherAction): string
  {
    match a
    case Rejects => "reject"
    case Blocks => "block"
    case Ignored => "ignore"
  }

  /** The publisher-action names; None for any other text. */
  function ParseAction(s: string): (r: Option<FullPublisherAction>)
    ensures r.Some? <==> s == "reject" || s == "block" || s == "ignore"
    ensures r.Some? ==> ActionName(r.value) == s
  {
    if s == "reject" then Some(Rejects)
    else if s == "block" then Some(Blocks)
    else if s == "ignore" then Some(Ignored)
    else None
  }

  lemma ActionRoundTrip(a: FullPublisherAction)
    ensures ParseAction(ActionName(a)) == Some(a)
  {
  }

  function ValueOr<T>(o: Option<T>, default: T): T
  {
    if o.Some? then o.value else default
  }

  /** The checks after the usage shortcut, in the order the sample makes them. */
  function Validate(cl: CommandLine): (r: Option<ParseError>)
    ensures r.None? <==> (cl.projectId.Some? && cl.topicId.Some?
                          && cl.projectId.value != "" && cl.topicId.value != ""
                          && ValueOr(cl.tracingRate, DefaultTracingRate) != 0.0
                          && ValueOr(cl.messageCount, DefaultMessageCount) != 0
                          && (cl.publisherAction.None? || ParseAction(cl.publisherAction.value).Some?))
  {
    if cl.projectId.None? || cl.topicId.None? then Some(MissingRequiredOption)
    else if cl.projectId.value == "" then Some(Invalid("The project-id cannot be empty"))
    else if cl.topicId.value == "" then Some(Invalid("The topic-id cannot be empty"))
    else if ValueOr(cl.tracingRate, DefaultTracingRate) == 0.0 then
      Some(Invalid("Setting the tracing rate to 0 will produce zero traces."))
    else if ValueOr(cl.messageCount, DefaultMessageCount) == 0 then
      Some(Invalid("Setting the message count to 0 will produce zero traces."))
    else if cl.publisherAction.Some? && ParseAction(cl.publisherAction.value).None? then
      Some(Invalid(InvalidActionMessage))
    else None
  }

  /** ParseArguments: the usage shortcut, the checks, then the result filled
      in field by field. */
  method ParseArguments(cl: CommandLine) returns (r: Result<ParseResult, ParseError>)
    ensures cl.help || cl.argc == 1 ==> r == Ok(UsageResult)
    ensures !(cl.help || cl.argc == 1) ==> (r.Ok? <==> Validate(cl).None?)
    ensures !(cl.help || cl.argc == 1) && r.Err? ==> r.error == Validate(cl).value
    ensures !(cl.help || cl.argc == 1) && r.Ok? ==>
      var p := r.value;
      p.projectId == cl.projectId.value && p.topicId == cl.topicId.value
      && p.messageCount == ValueOr(cl.messageCount, DefaultMessageCount)
      && p.messageSize == ValueOr(cl.messageSize, DefaultMessageSize)
      && p.maxQueueSize == ValueOr(cl.maxQueueSize, DefaultMaxQueueSize)
      && p.tracingRate == Some(ValueOr(cl.tracingRate, DefaultTracingRate))
      && p.publisherOptions.openTelemetryTracing
      && p.publisherOptions.maxPendingMessages == cl.maxPendingMessages
      && p.publisherOptions.maxPendingBytes == cl.maxPendingBytes
      && (cl.publisherAction.Some? ==> p.publisherOptions.fullPublisherAction == ParseAction(cl.publisherAction.value))
      && (cl.publisherAction.None? ==> p.publisherOptions.fullPublisherAction.None?)
      && p.publisherOptions.maxHoldTimeMicroseconds == cl.maxHoldTime
      && p.publisherOptions.maxBatchBytes == cl.maxBatchBytes
      && p.publisherOptions.maxBatchMessages == cl.maxBatchMessages
  {
    if cl.help || cl.argc == 1 {
      return Ok(UsageResult);
    }
    var e := Validate(cl);
    if e.Some? {
      return Err(e.value);
    }
    var result := UsageResult.(
      projectId := cl.projectId.value,
      topicId := cl.topicId.value,
      messageCount := ValueOr(cl.messageCount, DefaultMessageCount),
      messageSize := ValueOr(cl.messageSize, DefaultMessageSize),
      maxQueueSize := ValueOr(cl.maxQueueSize, DefaultMaxQueueSize),
      tracingRate := Some(ValueOr(cl.tracingRate, DefaultTracingRate)));
    var options := NoPublisherOptions.(openTelemetryTracing := true);
    if cl.maxPendingMessages.Some? {
      options := options.(maxPendingMessages := cl.maxPendingMessages);
    }
    if cl.maxPendingBytes.Some? {
      options := options.(maxPendingBytes := cl.maxPendingBytes);
    }
    if cl.publisherAction.Some? {
      var action := ParseAction(cl.publisherAction.value);
      options := options.(fullPublisherAction := action);
    }
    if cl.maxHoldTime.Some? {
      options := options.(maxHoldTimeMicroseconds := cl.maxHoldTime);
    }
    if cl.maxBatchBytes.Some? {
      options := options.(maxBatchBytes := cl.maxBatchBytes);
    }
    if cl.maxBatchMessages.Some? {
      options := options.(maxBatchMessages := cl.maxBatchMessages);
    }
    result := result.(publisherOptions := options);
    return Ok(result);
  }

  /** Only zero is refused: negative tracing rates and message counts pass. */
  lemma NegativeValuesPass(cl: CommandLine)
    requires cl.projectId.Some? && cl.projectId.value != ""
    requires cl.topicId.Some? && cl.topicId.value != ""
    requires cl.tracingRate.Some? && cl.tracingRate.value < 0.0
    requires cl.messageCount.Some? && cl.messageCount.value < 0
    requires cl.publisherAction.None?
    ensures Validate(cl).None?
  {
  }

  /** The first failing check decides the error: an empty project id is
      reported even when every other value is also wrong. */
  lemma EmptyProjectReportedFirst(cl: CommandLine)
    requires cl.projectId == Some("") && cl.topicId.Some?
    ensures Validate(cl) == Some(Invalid("The project-id cannot be empty"))
  {
  }
}
