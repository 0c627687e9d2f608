/** The construction state machine of FormWork.java: the prompt sent on the first attempt,
    the corrective prompt sent on later ones, the bounded attempt loop that carries the last
    failure and the last non-blank response forward, and the configuration builder.

    The language-model caller is a function of the attempt number and the prompt, so any
    scripted sequence of answers can be expressed. The hooks of RetryMetrics, the error
    callback, the sleeps and the re-raised interrupt flag are recorded as events of a trace. */
module FormWork {
  import opened Wrappers
  import opened JavaString
  import JsonParser
  import SchemaManager

  const DefaultMaxRetries: int := 3
  const DefaultRetryDelayMs: int := 1000

  // ---------------------------------------------------------------------------
  // Exceptions, caller outcomes, configuration

  /** The exception classes the loop tells apart: IllegalArgumentException is retried,
      InterruptedException comes only from the retry delay, everything else is fatal. */
  datatype ExceptionKind = IllegalArgument | Interrupted | OtherException

  /** A thrown exception with its (possibly null) getMessage(). */
  datatype JavaException = JavaException(kind: ExceptionKind, message: Option<string>)

  /** What one call of the language model does: return a possibly-null String, or throw. */
  datatype CallOutcome = Returned(response: Option<string>) | Threw(exception: JavaException)

  /** The caller, asked on the given attempt number with the given prompt. */
  type LlmCaller = (int, string) -> CallOutcome

  /** ConstructionConfig. The callback and the metrics sink are present or absent; what
      they do is recorded as trace events. */
  datatype ConstructionConfig = ConstructionConfig(
    targetClass: SchemaManager.TypeId,
    basePrompt: string,
    llmCaller: LlmCaller,
    maxRetries: int,
    retryDelayMs: int,
    hasErrorCallback: bool,
    hasRetryMetrics: bool)

  /** How construction fails: a FormWorkException with its message and cause, or an
      exception that escapes the loop unwrapped. */
  datatype ConstructError =
    | FormWorkException(message: string, cause: Option<JavaException>)
    | Escaped(exception: JavaException)

  /** The side effects of one construction, in order. */
  datatype Event =
    | AttemptStart(attempt: int, maxRetries: int)
    | LlmCall(attempt: int, prompt: string)
    | AttemptSuccess(attempt: int, maxRetries: int)
    | CallbackInvoked(error: JavaException)
    | AttemptRetry(attempt: int, maxRetries: int, error: JavaException)
    | Slept(ms: int)
    | FinalFailure(totalAttempts: int, error: JavaException)
    | InterruptRestored

  /** What the code around the loop depends on: the class registry for the enum walk, what
      toJsonSchema produced (None when it threw), Jackson's readTree and treeToValue, and
      whether the retry delay after a given attempt is interrupted. */
  datatype Environment<!Tree, V> = Environment(
    reg: SchemaManager.Registry,
    schema: Option<string>,
    readTree: string -> Result<Tree, Option<string>>,
    treeToValue: Tree -> Result<V, Option<string>>,
    interrupted: int -> bool)

  /** A configuration whose target class the registry describes. */
  predicate Describes<Tree, V>(env: Environment<Tree, V>, cfg: ConstructionConfig) {
    SchemaManager.Closed(env.reg) && cfg.targetClass in env.reg
  }

  /** The loop state at the head of attempt `attempt`: a described target class, and from
      the second attempt on a failure for the corrective prompt to report. */
  predicate LoopState<Tree, V>(env: Environment<Tree, V>, cfg: ConstructionConfig, attempt: int,
                               lastException: Option<JavaException>) {
    Describes(env, cfg) && 1 <= attempt && (attempt > 1 ==> lastException.Some?)
  }

  const EmptyResponseMessage: string := "LLM returned empty response"
  const UnexpectedEndMessage: string := "Unexpected end of retry loop"
  const InterruptedMessage: string := "Construction interrupted during retry delay"
  /** The message of the IllegalArgumentException Thread.sleep throws for a negative delay. */
  const NegativeTimeoutMessage: string := "timeout value is negative"
  /** The InterruptedException Thread.sleep throws when interrupted. */
  const SleepInterruption: JavaException := JavaException(Interrupted, Some("sleep interrupted"))

  const FailedToConstruct: string := "Failed to construct "
  const NonRetryableTail: string := " due to non-retryable error"
  const AfterWord: string := " after "
  const ExhaustedTail: string := " attempts due to JSON parsing errors"

  function NonRetryableMessage(simpleName: string): string {
    FailedToConstruct + simpleName + NonRetryableTail
  }

  function ExhaustedMessage(simpleName: string, attempts: int): string {
    FailedToConstruct + simpleName + AfterWord + IntToString(attempts) + ExhaustedTail
  }

  // ---------------------------------------------------------------------------
  // Prompts

  /** hasEnumFields: whether some directly declared field has an enum type. Fields of
      nested classes are not looked at. */
  function HasEnumFields(reg: SchemaManager.Registry, clazz: SchemaManager.TypeId): (has: bool)
    requires SchemaManager.Closed(reg) && clazz in reg
    ensures has <==> exists i :: 0 <= i < |reg[clazz].declaredFields| &&
                                 reg[reg[clazz].declaredFields[i].fieldType].isEnum
  {
    AnyEnumField(reg, reg[clazz].declaredFields, clazz, 0)
  }

  function AnyEnumField(reg: SchemaManager.Registry, fields: seq<SchemaManager.Field>,
                        clazz: SchemaManager.TypeId, i: nat): (has: bool)
    requires SchemaManager.Closed(reg) && clazz in reg && fields == reg[clazz].declaredFields
    requires i <= |fields|
    ensures has <==> exists k :: i <= k < |fields| && reg[fields[k].fieldType].isEnum
    decreases |fields| - i
  {
    if i == |fields| then false
    else reg[fields[i].fieldType].isEnum || AnyEnumField(reg, fields, clazz, i + 1)
  }

  // The fixed texts of the two prompts, named so that the prompts read as their parts.
  const BlankLine: string := "\n\n"
  const OutputFormatIntro: string :=
    "=== OUTPUT FORMAT ===\n\nYou MUST respond with valid JSON that matches this exact schema:\n\n"
  const SchemaIntro: string := "JSON Schema for "
  const ColonLine: string := ":\n"
  const TargetClassIntro: string := "Target class: "
  const ImportantHead: string := "IMPORTANT: Return ONLY valid JSON that can be parsed into a "
  const ObjectTail: string := " object. Do not include explanations, markdown formatting, or additional text."
  const RequestOpen: string := "<original_request>\n"
  const RequestClose: string := "\n</original_request>\n\n"
  const ErrorOpen: string := "<error>\nYour previous response failed with this error:\n"
  const ErrorClose: string := "\n</error>\n\n"
  const PreviousOpen: string := "<previous_response>\n"
  const PreviousClose: string := "\n</previous_response>\n\n"
  const InstructionsHead: string :=
    "<instructions>\nCRITICAL: Carefully review the desired output format in the <original_request>. " +
    "Fix the specific error mentioned above. Return ONLY valid JSON that can be parsed into a "
  const InstructionsClose: string := "\n</instructions>"

  function SchemaSection(simpleName: string, schema: Option<string>): string {
    match schema
    case Some(s) => SchemaIntro + simpleName + ColonLine + s + BlankLine
    case None => TargetClassIntro + simpleName + BlankLine
  }

  function ImportantLine(simpleName: string): string {
    ImportantHead + simpleName + ObjectTail + "\n"
  }

  /** The enum block of the full prompt: the walker's text and a blank line, only when a
      directly declared field is an enum. */
  function EnumSection(reg: SchemaManager.Registry, targetClass: SchemaManager.TypeId): string
    requires SchemaManager.Closed(reg) && targetClass in reg
  {
    if HasEnumFields(reg, targetClass) then SchemaManager.EnumConstraintsPrompt(reg, targetClass) + BlankLine
    else ""
  }

  /** buildFullPrompt. `schema` is what toJsonSchema produced, None when it threw. */
  function FullPrompt(reg: SchemaManager.Registry, targetClass: SchemaManager.TypeId,
                      basePrompt: string, schema: Option<string>): string
    requires SchemaManager.Closed(reg) && targetClass in reg
  {
    var name := reg[targetClass].simpleName;
    basePrompt + BlankLine + OutputFormatIntro + SchemaSection(name, schema) +
    EnumSection(reg, targetClass) + ImportantLine(name)
  }

  function OriginalRequestSection(basePrompt: string): string {
    RequestOpen + basePrompt + RequestClose
  }

  function ErrorSection(message: Option<string>): string {
    ErrorOpen + NullableText(message) + ErrorClose
  }

  /** The previous response is quoted only when it is non-null and not blank. */
  function PreviousResponseSection(lastResponse: Option<string>): string {
    match lastResponse
    case Some(r) => if IsBlank(r) then "" else PreviousOpen + r + PreviousClose
    case None => ""
  }

  function InstructionsSection(simpleName: string): string {
    InstructionsHead + simpleName + ObjectTail + InstructionsClose
  }

  /** buildRetryPrompt. `message` is the previous exception's getMessage(). */
  function RetryPrompt(simpleName: string, basePrompt: string, message: Option<string>,
                       lastResponse: Option<string>): string
  {
    OriginalRequestSection(basePrompt) + ErrorSection(message) +
    PreviousResponseSection(lastResponse) + InstructionsSection(simpleName)
  }

  // ---------------------------------------------------------------------------
  // The attempt loop, as functions

  datatype Outcome<V> = Outcome(result: Result<V, ConstructError>, trace: seq<Event>)

  /** Events that happen before what `rest` describes. */
  function Then<V>(events: seq<Event>, rest: Outcome<V>): Outcome<V> {
    Outcome(rest.result, events + rest.trace)
  }

  /** The events so far, and `e` after them when the hook that records it is present. */
  function Note(events: seq<Event>, present: bool, e: Event): seq<Event> {
    if present then events + [e] else events
  }

  /** The prompt of an attempt: the full prompt first, the corrective prompt afterwards.
      From the second attempt on the loop always carries a failure (LoopState), so the
      corrective prompt never lacks one. */
  function PromptFor(simpleName: string, basePrompt: string, fullPrompt: string, attempt: int,
                     lastException: Option<JavaException>, lastResponse: Option<string>): string
  {
    if attempt == 1 then fullPrompt
    else
      var message := match lastException case Some(e) => e.message case None => None;
      RetryPrompt(simpleName, basePrompt, message, lastResponse)
  }

  /** The body of the try block after the call: a blank answer and every extraction failure
      become IllegalArgumentExceptions; an exception of the caller passes through. */
  function AttemptBody<Tree, V>(env: Environment<Tree, V>, o: CallOutcome): Result<V, JavaException> {
    match o
    case Threw(e) => Failure(e)
    case Returned(resp) =>
      if resp.None? || IsBlank(resp.value) then Failure(JavaException(IllegalArgument, Some(EmptyResponseMessage)))
      else
        match JsonParser.ExtractAs(resp.value, env.readTree, env.treeToValue)
        case Success(v) => Success(v)
        case Failure(err) => Failure(JavaException(IllegalArgument, Some(err.Message())))
  }

  /** lastLlmResponse after a call: replaced only by a non-blank answer. */
  function Recorded(lastResponse: Option<string>, o: CallOutcome): Option<string> {
    if o.Returned? && o.response.Some? && !IsBlank(o.response.value) then o.response else lastResponse
  }

  /** What one pass through the loop body does: end the construction, or go on to the
      next attempt after these events, carrying this failure and this response. */
  datatype Step<V> =
    | Finished(outcome: Outcome<V>)
    | Continue(events: seq<Event>, failure: JavaException, lastResponse: Option<string>)

  /** The two catch blocks, for failure `e` of attempt `attempt` after the events `called`. */
  function OnFailure<Tree, V>(cfg: ConstructionConfig, env: Environment<Tree, V>, name: string,
                              attempt: int, e: JavaException, called: seq<Event>,
                              recorded: Option<string>): Step<V>
  {
    if e.kind != IllegalArgument then
      Finished(Outcome(Failure(FormWorkException(NonRetryableMessage(name), Some(e))), called))
    else
      var failed := Note(called, cfg.hasErrorCallback, CallbackInvoked(e));
      if attempt < cfg.maxRetries then
        var retrying := Note(failed, cfg.hasRetryMetrics, AttemptRetry(attempt, cfg.maxRetries, e));
        if cfg.retryDelayMs < 0 then
          Finished(Outcome(Failure(Escaped(JavaException(IllegalArgument, Some(NegativeTimeoutMessage)))), retrying))
        else if env.interrupted(attempt) then
          Finished(Outcome(Failure(FormWorkException(InterruptedMessage, Some(SleepInterruption))),
                           retrying + [Slept(cfg.retryDelayMs), InterruptRestored]))
        else
          Continue(retrying + [Slept(cfg.retryDelayMs)], e, recorded)
      else
        Finished(Outcome(Failure(FormWorkException(ExhaustedMessage(name, cfg.maxRetries), Some(e))),
                         Note(failed, cfg.hasRetryMetrics, FinalFailure(cfg.maxRetries, e))))
  }

  /** One pass through the loop body for attempt `attempt`. */
  function AttemptStep<Tree, V>(cfg: ConstructionConfig, env: Environment<Tree, V>, fullPrompt: string,
                                attempt: int, lastException: Option<JavaException>,
                                lastResponse: Option<string>): Step<V>
    requires Describes(env, cfg)
  {
    var name := env.reg[cfg.targetClass].simpleName;
    var prompt := PromptFor(name, cfg.basePrompt, fullPrompt, attempt, lastException, lastResponse);
    var o := cfg.llmCaller(attempt, prompt);
    var called := Note([], cfg.hasRetryMetrics, AttemptStart(attempt, cfg.maxRetries)) + [LlmCall(attempt, prompt)];
    match AttemptBody(env, o)
    case Success(v) => Finished(Outcome(Success(v), Note(called, cfg.hasRetryMetrics, AttemptSuccess(attempt, cfg.maxRetries))))
    case Failure(e) => OnFailure(cfg, env, name, attempt, e, called, Recorded(lastResponse, o))
  }

  /** The shape of the retry loop from `attempt` on: while attempts remain, the pass of the
      attempt either ends the construction or continues, carrying its failure and the last
      response to the next attempt; past the last attempt the loop falls through to
      "Unexpected end of retry loop". */
  function Loop<V>(pass: (int, Option<JavaException>, Option<string>) -> Step<V>, maxRetries: int,
                   attempt: int, lastException: Option<JavaException>, lastResponse: Option<string>): Outcome<V>
    decreases if attempt <= maxRetries then maxRetries - attempt + 1 else 0
  {
    if attempt > maxRetries then Outcome(Failure(FormWorkException(UnexpectedEndMessage, None)), [])
    else
      match pass(attempt, lastException, lastResponse)
      case Finished(out) => out
      case Continue(events, e, recorded) =>
        Then(events, Loop(pass, maxRetries, attempt + 1, Some(e), recorded))
  }

  /** The loop body of constructWithConfig, as a function of the loop state. */
  function Pass<Tree, V>(cfg: ConstructionConfig, env: Environment<Tree, V>, fullPrompt: string)
    : (int, Option<JavaException>, Option<string>) -> Step<V>
    requires Describes(env, cfg)
  {
    (attempt: int, lastException: Option<JavaException>, lastResponse: Option<string>) =>
      AttemptStep(cfg, env, fullPrompt, attempt, lastException, lastResponse)
  }

  /** The loop of constructWithConfig from `attempt` on, given the failure and the response
      it carries. */
  function Attempts<Tree, V>(cfg: ConstructionConfig, env: Environment<Tree, V>, fullPrompt: string,
                             attempt: int, lastException: Option<JavaException>,
                             lastResponse: Option<string>): Outcome<V>
    requires Describes(env, cfg)
  {
    Loop(Pass(cfg, env, fullPrompt), cfg.maxRetries, attempt, lastException, lastResponse)
  }

  /** constructWithConfig, as a function. */
  function Construct<Tree, V>(cfg: ConstructionConfig, env: Environment<Tree, V>): Outcome<V>
    requires Describes(env, cfg)
  {
    var fullPrompt := FullPrompt(env.reg, cfg.targetClass, cfg.basePrompt, env.schema);
    Attempts(cfg, env, fullPrompt, 1, None, None)
  }

  lemma ThenThen<V>(a: seq<Event>, b: seq<Event>, o: Outcome<V>)
    ensures Then(a, Then(b, o)) == Then(a + b, o)
  {
    assert a + (b + o.trace) == (a + b) + o.trace;
  }

  // ---------------------------------------------------------------------------
  // The Java methods

  /** constructWithConfig: the loop of the source, returning the construction's result and
      the events it caused. */
  method ConstructWithConfig<Tree, V>(cfg: ConstructionConfig, env: Environment<Tree, V>)
    returns (r: Result<V, ConstructError>, trace: seq<Event>)
    requires Describes(env, cfg)
    ensures Outcome(r, trace) == Construct(cfg, env)
  {
    var fullPrompt := BuildFullPrompt(env.reg, cfg.targetClass, cfg.basePrompt, env.schema);
    var lastException: Option<JavaException> := None;
    var lastLlmResponse: Option<string> := None;
    trace := [];
    var attempt := 1;
    while attempt <= cfg.maxRetries
      invariant LoopState(env, cfg, attempt, lastException)
      invariant Construct(cfg, env) ==
                Then(trace, Attempts(cfg, env, fullPrompt, attempt, lastException, lastLlmResponse))
      decreases cfg.maxRetries - attempt
    {
      var step := RunAttempt(cfg, env, fullPrompt, attempt, lastException, lastLlmResponse);
      match step {
        case Finished(out) =>
          r := out.result;
          ThenThen(trace, out.trace, Outcome(r, []));
          trace := trace + out.trace;
          return;
        case Continue(events, failure, recorded) =>
          ThenThen(trace, events, Attempts(cfg, env, fullPrompt, attempt + 1, Some(failure), recorded));
          trace := trace + events;
          lastException := Some(failure);
          lastLlmResponse := recorded;
          attempt := attempt + 1;
      }
    }
    r := Failure(FormWorkException(UnexpectedEndMessage, None));
  }

  /** One pass through the body of the loop: the call, the try block and both catch
      blocks, with the events each hook sees. */
  method RunAttempt<Tree, V>(cfg: ConstructionConfig, env: Environment<Tree, V>, fullPrompt: string,
                             attempt: int, lastException: Option<JavaException>,
                             lastLlmResponse: Option<string>)
    returns (step: Step<V>)
    requires LoopState(env, cfg, attempt, lastException)
    ensures step == AttemptStep(cfg, env, fullPrompt, attempt, lastException, lastLlmResponse)
  {
    var simpleName := env.reg[cfg.targetClass].simpleName;
    var events: seq<Event> := [];
    if cfg.hasRetryMetrics {
      events := events + [AttemptStart(attempt, cfg.maxRetries)];
    }
    var promptToUse;
    if attempt == 1 {
      promptToUse := fullPrompt;
    } else {
      promptToUse := RetryPrompt(simpleName, cfg.basePrompt, lastException.value.message, lastLlmResponse);
    }
    events := events + [LlmCall(attempt, promptToUse)];
    var llmResponse := cfg.llmCaller(attempt, promptToUse);
    var attemptResult, recorded := TryAttempt(env, llmResponse, lastLlmResponse);
    if attemptResult.Success? {
      if cfg.hasRetryMetrics {
        events := events + [AttemptSuccess(attempt, cfg.maxRetries)];
      }
      return Finished(Outcome(Success(attemptResult.value), events));
    }
    step := HandleFailure(cfg, env, simpleName, attempt, attemptResult.error, events, recorded);
  }

  /** The two catch blocks for failure `e` of attempt `attempt`, after the events `called`:
      anything but an IllegalArgumentException ends the construction at once; otherwise the
      callback sees it, and either the next attempt follows a delay or the attempts are
      used up. */
  method HandleFailure<Tree, V>(cfg: ConstructionConfig, env: Environment<Tree, V>, simpleName: string,
                                attempt: int, e: JavaException, called: seq<Event>,
                                recorded: Option<string>)
    returns (step: Step<V>)
    ensures step == OnFailure(cfg, env, simpleName, attempt, e, called, recorded)
  {
    if e.kind != IllegalArgument {
      return Finished(Outcome(Failure(FormWorkException(NonRetryableMessage(simpleName), Some(e))), called));
    }
    var events := called;
    if cfg.hasErrorCallback {
      events := events + [CallbackInvoked(e)];
    }
    if attempt < cfg.maxRetries {
      if cfg.hasRetryMetrics {
        events := events + [AttemptRetry(attempt, cfg.maxRetries, e)];
      }
      if cfg.retryDelayMs < 0 {
        return Finished(Outcome(Failure(Escaped(JavaException(IllegalArgument, Some(NegativeTimeoutMessage)))), events));
      }
      events := events + [Slept(cfg.retryDelayMs)];
      if env.interrupted(attempt) {
        events := events + [InterruptRestored];
        return Finished(Outcome(Failure(FormWorkException(InterruptedMessage, Some(SleepInterruption))), events));
      }
      return Continue(events, e, recorded);
    } else {
      if cfg.hasRetryMetrics {
        events := events + [FinalFailure(cfg.maxRetries, e)];
      }
      return Finished(Outcome(Failure(FormWorkException(ExhaustedMessage(simpleName, cfg.maxRetries), Some(e))), events));
    }
  }

  /** The try block after the call: a null or blank answer is an IllegalArgumentException,
      a non-blank one is recorded as the last response and handed to the extractor. */
  method TryAttempt<Tree, V>(env: Environment<Tree, V>, llmResponse: CallOutcome, lastLlmResponse: Option<string>)
    returns (r: Result<V, JavaException>, recorded: Option<string>)
    ensures r == AttemptBody(env, llmResponse)
    ensures recorded == Recorded(lastLlmResponse, llmResponse)
  {
    recorded := lastLlmResponse;
    match llmResponse {
      case Threw(e) =>
        r := Failure(e);
      case Returned(resp) =>
        if resp.None? || IsBlank(resp.value) {
          r := Failure(JavaException(IllegalArgument, Some(EmptyResponseMessage)));
        } else {
          recorded := resp;
          var extracted := JsonParser.ExtractJsonAs(resp.value, env.readTree, env.treeToValue);
          match extracted {
            case Success(v) => r := Success(v);
            case Failure(err) => r := Failure(JavaException(IllegalArgument, Some(err.Message())));
          }
        }
    }
  }

  /** buildFullPrompt, assembled in the order of the source; the enum block comes from the
      walker. */
  method BuildFullPrompt(reg: SchemaManager.Registry, targetClass: SchemaManager.TypeId,
                         basePrompt: string, schema: Option<string>) returns (prompt: string)
    requires SchemaManager.Closed(reg) && targetClass in reg
    ensures prompt == FullPrompt(reg, targetClass, basePrompt, schema)
  {
    var name := reg[targetClass].simpleName;
    prompt := basePrompt + BlankLine + OutputFormatIntro;
    match schema {
      case Some(s) => prompt := prompt + (SchemaIntro + name + ColonLine + s + BlankLine);
      case None => prompt := prompt + (TargetClassIntro + name + BlankLine);
    }
    ghost var described := prompt;
    assert described == basePrompt + BlankLine + OutputFormatIntro + SchemaSection(name, schema);
    if HasEnumFields(reg, targetClass) {
      var constraints := SchemaManager.GetEnumConstraintsPrompt(reg, targetClass);
      prompt := prompt + (constraints + BlankLine);
    }
    assert prompt == described + EnumSection(reg, targetClass);
    prompt := prompt + ImportantLine(name);
  }

  // ---------------------------------------------------------------------------
  // The builder

  /** ConstructionConfig.Builder: the three mandatory settings start unset, the delay and
      the attempt count start at their defaults. */
  class Builder {
    var targetClass: Option<SchemaManager.TypeId>
    var basePrompt: Option<string>
    var llmCaller: Option<LlmCaller>
    var maxRetries: int
    var retryDelayMs: int
    var errorCallback: bool
    var retryMetrics: bool

    constructor ()
      ensures targetClass == None && basePrompt == None && llmCaller == None
      ensures maxRetries == DefaultMaxRetries && retryDelayMs == DefaultRetryDelayMs
      ensures !errorCallback && !retryMetrics
    {
      targetClass := None;
      basePrompt := None;
      llmCaller := None;
      maxRetries := DefaultMaxRetries;
      retryDelayMs := DefaultRetryDelayMs;
      errorCallback := false;
      retryMetrics := false;
    }

    /** The three mandatory setters store their argument as given; None stands for a null
        argument, which clears the setting again. */
    method SetTargetClass(t: Option<SchemaManager.TypeId>) returns (self: Builder)
      modifies this
      ensures self == this && targetClass == t
      ensures basePrompt == old(basePrompt) && llmCaller == old(llmCaller)
      ensures maxRetries == old(maxRetries) && retryDelayMs == old(retryDelayMs)
      ensures errorCallback == old(errorCallback) && retryMetrics == old(retryMetrics)
    {
      targetClass := t;
      self := this;
    }

    method SetBasePrompt(p: Option<string>) returns (self: Builder)
      modifies this
      ensures self == this && basePrompt == p
      ensures targetClass == old(targetClass) && llmCaller == old(llmCaller)
      ensures maxRetries == old(maxRetries) && retryDelayMs == old(retryDelayMs)
      ensures errorCallback == old(errorCallback) && retryMetrics == old(retryMetrics)
    {
      basePrompt := p;
      self := this;
    }

    method SetLlmCaller(f: Option<LlmCaller>) returns (self: Builder)
      modifies this
      ensures self == this && llmCaller == f
      ensures targetClass == old(targetClass) && basePrompt == old(basePrompt)
      ensures maxRetries == old(maxRetries) && retryDelayMs == old(retryDelayMs)
      ensures errorCallback == old(errorCallback) && retryMetrics == old(retryMetrics)
    {
      llmCaller := f;
      self := this;
    }

    /** Any int is accepted, zero and negative counts included. */
    method SetMaxRetries(n: int) returns (self: Builder)
      modifies this
      ensures self == this && maxRetries == n
      ensures targetClass == old(targetClass) && basePrompt == old(basePrompt) && llmCaller == old(llmCaller)
      ensures retryDelayMs == old(retryDelayMs)
      ensures errorCallback == old(errorCallback) && retryMetrics == old(retryMetrics)
    {
      maxRetries := n;
      self := this;
    }

    /** Any long is accepted, negative delays included. */
    method SetRetryDelayMs(ms: int) returns (self: Builder)
      modifies this
      ensures self == this && retryDelayMs == ms
      ensures targetClass == old(targetClass) && basePrompt == old(basePrompt) && llmCaller == old(llmCaller)
      ensures maxRetries == old(maxRetries)
      ensures errorCallback == old(errorCallback) && retryMetrics == old(retryMetrics)
    {
      retryDelayMs := ms;
      self := this;
    }

    method SetErrorCallback(present: bool) returns (self: Builder)
      modifies this
      ensures self == this && errorCallback == present
      ensures targetClass == old(targetClass) && basePrompt == old(basePrompt) && llmCaller == old(llmCaller)
      ensures maxRetries == old(maxRetries) && retryDelayMs == old(retryDelayMs)
      ensures retryMetrics == old(retryMetrics)
    {
      errorCallback := present;
      self := this;
    }

    method SetRetryMetrics(present: bool) returns (self: Builder)
      modifies this
      ensures self == this && retryMetrics == present
      ensures targetClass == old(targetClass) && basePrompt == old(basePrompt) && llmCaller == old(llmCaller)
      ensures maxRetries == old(maxRetries) && retryDelayMs == old(retryDelayMs)
      ensures errorCallback == old(errorCallback)
    {
      retryMetrics := present;
      self := this;
    }

    /** build: an IllegalStateException naming the first missing mandatory setting, checked
        in the order target class, base prompt, caller; otherwise the configuration holds
        exactly the builder's settings. */
    method Build() returns (r: Result<ConstructionConfig, string>)
      ensures r.Success? <==> targetClass.Some? && basePrompt.Some? && llmCaller.Some?
      ensures targetClass.None? ==> r == Failure("targetClass is required")
      ensures targetClass.Some? && basePrompt.None? ==> r == Failure("basePrompt is required")
      ensures targetClass.Some? && basePrompt.Some? && llmCaller.None? ==> r == Failure("llmCaller is required")
      ensures r.Success? ==>
        r.value.targetClass == targetClass.value && r.value.basePrompt == basePrompt.value &&
        r.value.llmCaller == llmCaller.value &&
        r.value.maxRetries == maxRetries && r.value.retryDelayMs == retryDelayMs &&
        r.value.hasErrorCallback == errorCallback && r.value.hasRetryMetrics == retryMetrics
    {
      if targetClass.None? {
        return Failure("targetClass is required");
      }
      if basePrompt.None? {
        return Failure("basePrompt is required");
      }
      if llmCaller.None? {
        return Failure("llmCaller is required");
      }
      r := Success(ConstructionConfig(targetClass.value, basePrompt.value, llmCaller.value,
                                      maxRetries, retryDelayMs, errorCallback, retryMetrics));
    }
  }

  /** construct(targetClass, basePrompt, llmCaller, maxRetries): the builder with the given
      settings and the default delay, then constructWithConfig. */
  method ConstructWithRetries<Tree, V>(targetClass: SchemaManager.TypeId, basePrompt: string,
                                       llmCaller: LlmCaller, maxRetries: int, env: Environment<Tree, V>)
    returns (r: Result<V, ConstructError>, trace: seq<Event>)
    requires SchemaManager.Closed(env.reg) && targetClass in env.reg
    ensures Outcome(r, trace) ==
      Construct(ConstructionConfig(targetClass, basePrompt, llmCaller, maxRetries, DefaultRetryDelayMs, false, false), env)
  {
    var b := new Builder();
    b := b.SetTargetClass(Some(targetClass));
    b := b.SetBasePrompt(Some(basePrompt));
    b := b.SetLlmCaller(Some(llmCaller));
    b := b.SetMaxRetries(maxRetries);
    b := b.SetRetryDelayMs(DefaultRetryDelayMs);
    var cfg := b.Build();
    r, trace := ConstructWithConfig(cfg.value, env);
  }

  /** construct(targetClass, basePrompt, llmCaller): three attempts one second apart. */
  method ConstructDefault<Tree, V>(targetClass: SchemaManager.TypeId, basePrompt: string,
                                   llmCaller: LlmCaller, env: Environment<Tree, V>)
    returns (r: Result<V, ConstructError>, trace: seq<Event>)
    requires SchemaManager.Closed(env.reg) && targetClass in env.reg
    ensures Outcome(r, trace) ==
      Construct(ConstructionConfig(targetClass, basePrompt, llmCaller, DefaultMaxRetries, DefaultRetryDelayMs, false, false), env)
  {
    r, trace := ConstructWithRetries(targetClass, basePrompt, llmCaller, DefaultMaxRetries, env);
  }
}
