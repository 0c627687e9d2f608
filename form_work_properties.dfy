/** What constructWithConfig promises about the calls, hooks and delays of one construction,
    and what its two prompts contain. */
module FormWorkProperties {
  import opened Wrappers
  import opened JavaString
  import opened FormWork
  import SchemaManager
  import SchemaManagerProperties

  // ---------------------------------------------------------------------------
  // Counting events

  datatype EventKind = StartKind | CallKind | SuccessKind | CallbackKind | RetryKind | SleepKind | FinalKind | InterruptKind

  function KindOf(e: Event): EventKind {
    match e
    case AttemptStart(_, _) => StartKind
    case LlmCall(_, _) => CallKind
    case AttemptSuccess(_, _) => SuccessKind
    case CallbackInvoked(_) => CallbackKind
    case AttemptRetry(_, _, _) => RetryKind
    case Slept(_) => SleepKind
    case FinalFailure(_, _) => FinalKind
    case InterruptRestored => InterruptKind
  }

  /** How many events of kind `k` the trace holds. */
  function CountOf(t: seq<Event>, k: EventKind): nat {
    if t == [] then 0 else (if KindOf(t[0]) == k then 1 else 0) + CountOf(t[1..], k)
  }

  lemma {:induction false} CountOfAppend(a: seq<Event>, b: seq<Event>, k: EventKind)
    ensures CountOf(a + b, k) == CountOf(a, k) + CountOf(b, k)
  {
    if a != [] {
      assert (a + b)[1..] == a[1..] + b;
      CountOfAppend(a[1..], b, k);
    } else {
      assert a + b == b;
    }
  }

  lemma CountOfNote(events: seq<Event>, present: bool, e: Event, k: EventKind)
    ensures CountOf(Note(events, present, e), k) ==
            CountOf(events, k) + (if present && KindOf(e) == k then 1 else 0)
  {
    if present {
      CountOfAppend(events, [e], k);
    }
  }

  /** The events of an attempt up to and including its call. */
  function Called(cfg: ConstructionConfig, attempt: int, prompt: string): seq<Event> {
    Note([], cfg.hasRetryMetrics, AttemptStart(attempt, cfg.maxRetries)) + [LlmCall(attempt, prompt)]
  }

  lemma CalledCounts(cfg: ConstructionConfig, attempt: int, prompt: string, k: EventKind)
    ensures CountOf(Called(cfg, attempt, prompt), k) ==
            (if k == CallKind then 1 else if k == StartKind && cfg.hasRetryMetrics then 1 else 0)
  {
    CountOfNote([], cfg.hasRetryMetrics, AttemptStart(attempt, cfg.maxRetries), k);
    CountOfAppend(Note([], cfg.hasRetryMetrics, AttemptStart(attempt, cfg.maxRetries)), [LlmCall(attempt, prompt)], k);
  }

  /** The prompt and the answer of attempt `attempt`, as the loop state determines them. */
  function PromptOf<Tree, V>(cfg: ConstructionConfig, env: Environment<Tree, V>, fullPrompt: string,
                             attempt: int, lastException: Option<JavaException>,
                             lastResponse: Option<string>): string
    requires Describes(env, cfg)
  {
    PromptFor(env.reg[cfg.targetClass].simpleName, cfg.basePrompt, fullPrompt, attempt, lastException, lastResponse)
  }

  function BodyOf<Tree, V>(cfg: ConstructionConfig, env: Environment<Tree, V>, fullPrompt: string,
                           attempt: int, lastException: Option<JavaException>,
                           lastResponse: Option<string>): Result<V, JavaException>
    requires Describes(env, cfg)
  {
    AttemptBody(env, cfg.llmCaller(attempt, PromptOf(cfg, env, fullPrompt, attempt, lastException, lastResponse)))
  }

  /** The events one pass through the loop body records. */
  function StepTrace<V>(step: Step<V>): seq<Event> {
    match step
    case Finished(o) => o.trace
    case Continue(events, _, _) => events
  }

  /** One pass, unfolded: the call with the prompt of this attempt, then the success event or
      the catch blocks. */
  lemma StepUnfold<Tree, V>(cfg: ConstructionConfig, env: Environment<Tree, V>, fullPrompt: string,
                            attempt: int, lastException: Option<JavaException>,
                            lastResponse: Option<string>)
    requires Describes(env, cfg)
    ensures var prompt := PromptOf(cfg, env, fullPrompt, attempt, lastException, lastResponse);
      var called := Called(cfg, attempt, prompt);
      var body := BodyOf(cfg, env, fullPrompt, attempt, lastException, lastResponse);
      AttemptStep(cfg, env, fullPrompt, attempt, lastException, lastResponse) ==
        if body.Success? then
          Finished(Outcome(Success(body.value), Note(called, cfg.hasRetryMetrics, AttemptSuccess(attempt, cfg.maxRetries))))
        else
          OnFailure(cfg, env, env.reg[cfg.targetClass].simpleName, attempt, body.error, called,
                    Recorded(lastResponse, cfg.llmCaller(attempt, prompt)))
  {
  }

  /** The catch blocks add no call, start or success event. */
  lemma OnFailureKeepsCalls<Tree, V>(cfg: ConstructionConfig, env: Environment<Tree, V>, name: string,
                                     attempt: int, e: JavaException, called: seq<Event>,
                                     recorded: Option<string>, k: EventKind)
    requires k == CallKind || k == StartKind || k == SuccessKind
    ensures CountOf(StepTrace(OnFailure(cfg, env, name, attempt, e, called, recorded)), k) == CountOf(called, k)
  {
    var failed := Note(called, cfg.hasErrorCallback, CallbackInvoked(e));
    var retrying := Note(failed, cfg.hasRetryMetrics, AttemptRetry(attempt, cfg.maxRetries, e));
    CountOfNote(called, cfg.hasErrorCallback, CallbackInvoked(e), k);
    CountOfNote(failed, cfg.hasRetryMetrics, AttemptRetry(attempt, cfg.maxRetries, e), k);
    CountOfNote(failed, cfg.hasRetryMetrics, FinalFailure(cfg.maxRetries, e), k);
    CountOfAppend(retrying, [Slept(cfg.retryDelayMs)], k);
    CountOfAppend(retrying, [Slept(cfg.retryDelayMs), InterruptRestored], k);
    CountOfAppend([Slept(cfg.retryDelayMs)], [InterruptRestored], k);
    assert [Slept(cfg.retryDelayMs)] + [InterruptRestored] == [Slept(cfg.retryDelayMs), InterruptRestored];
  }

  /** Every pass through the loop body calls the model exactly once. */
  lemma StepCallsOnce<Tree, V>(cfg: ConstructionConfig, env: Environment<Tree, V>, fullPrompt: string,
                               attempt: int, lastException: Option<JavaException>,
                               lastResponse: Option<string>)
    requires Describes(env, cfg)
    ensures CountOf(StepTrace(AttemptStep(cfg, env, fullPrompt, attempt, lastException, lastResponse)), CallKind) == 1
  {
    var prompt := PromptOf(cfg, env, fullPrompt, attempt, lastException, lastResponse);
    var called := Called(cfg, attempt, prompt);
    var body := BodyOf(cfg, env, fullPrompt, attempt, lastException, lastResponse);
    StepUnfold(cfg, env, fullPrompt, attempt, lastException, lastResponse);
    CalledCounts(cfg, attempt, prompt, CallKind);
    if body.Success? {
      CountOfNote(called, cfg.hasRetryMetrics, AttemptSuccess(attempt, cfg.maxRetries), CallKind);
    } else {
      OnFailureKeepsCalls(cfg, env, env.reg[cfg.targetClass].simpleName, attempt, body.error, called,
                          Recorded(lastResponse, cfg.llmCaller(attempt, prompt)), CallKind);
    }
  }

  /** A retryable failure before the last attempt, with a valid, uninterrupted delay: the
      callback, the retry event and the sleep, then the next attempt. */
  lemma RetryableContinues<Tree, V>(cfg: ConstructionConfig, env: Environment<Tree, V>, name: string,
                                    attempt: int, e: JavaException, called: seq<Event>,
                                    recorded: Option<string>)
    requires e.kind == IllegalArgument && attempt < cfg.maxRetries
    requires cfg.retryDelayMs >= 0 && !env.interrupted(attempt)
    ensures var step := OnFailure(cfg, env, name, attempt, e, called, recorded);
      step.Continue? && step.failure == e && step.lastResponse == recorded &&
      forall k: EventKind :: CountOf(step.events, k) ==
        CountOf(called, k) + (if cfg.hasErrorCallback && k == CallbackKind then 1 else 0) +
        (if cfg.hasRetryMetrics && k == RetryKind then 1 else 0) + (if k == SleepKind then 1 else 0)
  {
    var failed := Note(called, cfg.hasErrorCallback, CallbackInvoked(e));
    var retrying := Note(failed, cfg.hasRetryMetrics, AttemptRetry(attempt, cfg.maxRetries, e));
    forall k: EventKind
      ensures CountOf(retrying + [Slept(cfg.retryDelayMs)], k) ==
        CountOf(called, k) + (if cfg.hasErrorCallback && k == CallbackKind then 1 else 0) +
        (if cfg.hasRetryMetrics && k == RetryKind then 1 else 0) + (if k == SleepKind then 1 else 0)
    {
      CountOfNote(called, cfg.hasErrorCallback, CallbackInvoked(e), k);
      CountOfNote(failed, cfg.hasRetryMetrics, AttemptRetry(attempt, cfg.maxRetries, e), k);
      CountOfAppend(retrying, [Slept(cfg.retryDelayMs)], k);
    }
  }

  /** A retryable failure on the last attempt: the callback, the final-failure event and the
      "after N attempts" error. */
  lemma RetryableExhausts<Tree, V>(cfg: ConstructionConfig, env: Environment<Tree, V>, name: string,
                                   attempt: int, e: JavaException, called: seq<Event>,
                                   recorded: Option<string>)
    requires e.kind == IllegalArgument && attempt >= cfg.maxRetries
    ensures var step := OnFailure(cfg, env, name, attempt, e, called, recorded);
      step.Finished? &&
      step.outcome.result == Failure(FormWorkException(ExhaustedMessage(name, cfg.maxRetries), Some(e))) &&
      forall k: EventKind :: CountOf(step.outcome.trace, k) ==
        CountOf(called, k) + (if cfg.hasErrorCallback && k == CallbackKind then 1 else 0) +
        (if cfg.hasRetryMetrics && k == FinalKind then 1 else 0)
  {
    var failed := Note(called, cfg.hasErrorCallback, CallbackInvoked(e));
    forall k: EventKind
      ensures CountOf(Note(failed, cfg.hasRetryMetrics, FinalFailure(cfg.maxRetries, e)), k) ==
        CountOf(called, k) + (if cfg.hasErrorCallback && k == CallbackKind then 1 else 0) +
        (if cfg.hasRetryMetrics && k == FinalKind then 1 else 0)
    {
      CountOfNote(called, cfg.hasErrorCallback, CallbackInvoked(e), k);
      CountOfNote(failed, cfg.hasRetryMetrics, FinalFailure(cfg.maxRetries, e), k);
    }
  }

  // ---------------------------------------------------------------------------
  // The number of calls

  /** A loop whose every pass calls the model once calls it once per attempt from
      `attempt` to maxRetries, and never past maxRetries. */
  lemma {:induction false} LoopCallsBounded<V>(pass: (int, Option<JavaException>, Option<string>) -> Step<V>,
                                               maxRetries: int, attempt: int,
                                               lastException: Option<JavaException>, lastResponse: Option<string>)
    requires forall a, x, y :: CountOf(StepTrace(pass(a, x, y)), CallKind) == 1
    ensures CountOf(Loop(pass, maxRetries, attempt, lastException, lastResponse).trace, CallKind) <=
            if attempt <= maxRetries then maxRetries - attempt + 1 else 0
    decreases if attempt <= maxRetries then maxRetries - attempt + 1 else 0
  {
    if attempt <= maxRetries {
      var step := pass(attempt, lastException, lastResponse);
      assert CountOf(StepTrace(step), CallKind) == 1;
      if step.Continue? {
        var rest := Loop(pass, maxRetries, attempt + 1, Some(step.failure), step.lastResponse);
        LoopCallsBounded(pass, maxRetries, attempt + 1, Some(step.failure), step.lastResponse);
        CountOfAppend(step.events, rest.trace, CallKind);
      }
    }
  }

  /** The caller is invoked at most maxRetries times; with maxRetries of zero or less it is
      never invoked and construction fails with "Unexpected end of retry loop". */
  lemma CallsAtMostMaxRetries<Tree, V>(cfg: ConstructionConfig, env: Environment<Tree, V>)
    requires Describes(env, cfg)
    ensures CountOf(Construct(cfg, env).trace, CallKind) <= if cfg.maxRetries > 0 then cfg.maxRetries else 0
    ensures cfg.maxRetries <= 0 ==>
      Construct(cfg, env) == Outcome(Failure(FormWorkException(UnexpectedEndMessage, None)), [])
  {
    var fullPrompt := FullPrompt(env.reg, cfg.targetClass, cfg.basePrompt, env.schema);
    var pass := Pass(cfg, env, fullPrompt);
    forall a, x, y
      ensures CountOf(StepTrace(pass(a, x, y)), CallKind) == 1
    {
      StepCallsOnce(cfg, env, fullPrompt, a, x, y);
    }
    LoopCallsBounded(pass, cfg.maxRetries, 1, None, None);
  }

  // ---------------------------------------------------------------------------
  // Every attempt fails with a retryable error

  /** Every answer the caller could give, to any prompt, ends in an IllegalArgumentException. */
  ghost predicate AlwaysRetryable<Tree, V>(cfg: ConstructionConfig, env: Environment<Tree, V>) {
    forall a: int, p: string {:trigger AttemptBody(env, cfg.llmCaller(a, p))} ::
      AttemptBody(env, cfg.llmCaller(a, p)).Failure? &&
      AttemptBody(env, cfg.llmCaller(a, p)).error.kind == IllegalArgument
  }

  /** Every delay is valid and sleeps without interruption. */
  ghost predicate QuietDelays<Tree, V>(cfg: ConstructionConfig, env: Environment<Tree, V>) {
    cfg.retryDelayMs >= 0 && forall a: int :: !env.interrupted(a)
  }

  /** What the attempts from `attempt` to maxRetries record when all of them fail
      retryably. */
  ghost predicate ExhaustedCounts(cfg: ConstructionConfig, t: seq<Event>, n: int) {
    CountOf(t, CallKind) == n &&
    CountOf(t, StartKind) == (if cfg.hasRetryMetrics then n else 0) &&
    CountOf(t, CallbackKind) == (if cfg.hasErrorCallback then n else 0) &&
    CountOf(t, RetryKind) == (if cfg.hasRetryMetrics then n - 1 else 0) &&
    CountOf(t, SleepKind) == n - 1 &&
    CountOf(t, FinalKind) == (if cfg.hasRetryMetrics then 1 else 0) &&
    CountOf(t, SuccessKind) == 0 &&
    CountOf(t, InterruptKind) == 0
  }

  /** The counts of one retried attempt: its call, its start event and its retry event
      when metrics are present, the callback when present, and one sleep. */
  ghost predicate RetriedCounts(cfg: ConstructionConfig, t: seq<Event>) {
    CountOf(t, CallKind) == 1 &&
    CountOf(t, StartKind) == (if cfg.hasRetryMetrics then 1 else 0) &&
    CountOf(t, CallbackKind) == (if cfg.hasErrorCallback then 1 else 0) &&
    CountOf(t, RetryKind) == (if cfg.hasRetryMetrics then 1 else 0) &&
    CountOf(t, SleepKind) == 1 &&
    CountOf(t, FinalKind) == 0 &&
    CountOf(t, SuccessKind) == 0 &&
    CountOf(t, InterruptKind) == 0
  }

  /** The error of a construction whose last attempt failed retryably; ExhaustedByLastFailure
      says which failure is its cause. */
  ghost predicate IsExhausted<V>(r: Result<V, ConstructError>, name: string, maxRetries: int) {
    r.Failure? && r.error.FormWorkException? &&
    r.error.message == ExhaustedMessage(name, maxRetries) &&
    r.error.cause.Some? && r.error.cause.value.kind == IllegalArgument
  }

  /** A pass of attempt `attempt` that failed retryably: before the last attempt it goes on
      after one retried attempt's events; on the last it reports exhaustion. */
  ghost predicate RetriedPass<V>(cfg: ConstructionConfig, name: string, attempt: int, step: Step<V>) {
    if attempt < cfg.maxRetries then step.Continue? && RetriedCounts(cfg, step.events)
    else step.Finished? && IsExhausted(step.outcome.result, name, cfg.maxRetries) &&
         ExhaustedCounts(cfg, step.outcome.trace, 1)
  }

  /** The counts of one retried attempt followed by those of the remaining ones. */
  lemma ExhaustedCountsCons(cfg: ConstructionConfig, events: seq<Event>, rest: seq<Event>, n: int)
    requires RetriedCounts(cfg, events) && ExhaustedCounts(cfg, rest, n)
    ensures ExhaustedCounts(cfg, events + rest, n + 1)
  {
    forall k: EventKind
      ensures CountOf(events + rest, k) == CountOf(events, k) + CountOf(rest, k)
    {
      CountOfAppend(events, rest, k);
    }
  }

  /** A loop whose passes all fail retryably runs every attempt from `attempt` to
      maxRetries and reports exhaustion. */
  lemma {:induction false} LoopExhausted<V>(cfg: ConstructionConfig, name: string,
                                            pass: (int, Option<JavaException>, Option<string>) -> Step<V>,
                                            attempt: int, lastException: Option<JavaException>,
                                            lastResponse: Option<string>)
    requires 1 <= attempt <= cfg.maxRetries
    requires forall a, x, y :: 1 <= a <= cfg.maxRetries ==> RetriedPass(cfg, name, a, pass(a, x, y))
    ensures var o := Loop(pass, cfg.maxRetries, attempt, lastException, lastResponse);
      IsExhausted(o.result, name, cfg.maxRetries) && ExhaustedCounts(cfg, o.trace, cfg.maxRetries - attempt + 1)
    decreases cfg.maxRetries - attempt
  {
    var step := pass(attempt, lastException, lastResponse);
    assert RetriedPass(cfg, name, attempt, step);
    if attempt < cfg.maxRetries {
      LoopExhausted(cfg, name, pass, attempt + 1, Some(step.failure), step.lastResponse);
      var rest := Loop(pass, cfg.maxRetries, attempt + 1, Some(step.failure), step.lastResponse);
      ExhaustedCountsCons(cfg, step.events, rest.trace, cfg.maxRetries - attempt);
    }
  }

  /** A pass whose try block fails retryably, with quiet delays, is a retried pass. */
  lemma PassRetried<Tree, V>(cfg: ConstructionConfig, env: Environment<Tree, V>, fullPrompt: string,
                             attempt: int, lastException: Option<JavaException>,
                             lastResponse: Option<string>)
    requires Describes(env, cfg) && QuietDelays(cfg, env)
    requires 1 <= attempt <= cfg.maxRetries
    requires BodyOf(cfg, env, fullPrompt, attempt, lastException, lastResponse).Failure?
    requires BodyOf(cfg, env, fullPrompt, attempt, lastException, lastResponse).error.kind == IllegalArgument
    ensures RetriedPass(cfg, env.reg[cfg.targetClass].simpleName, attempt,
                        AttemptStep(cfg, env, fullPrompt, attempt, lastException, lastResponse))
  {
    var name := env.reg[cfg.targetClass].simpleName;
    var prompt := PromptOf(cfg, env, fullPrompt, attempt, lastException, lastResponse);
    var called := Called(cfg, attempt, prompt);
    var body := BodyOf(cfg, env, fullPrompt, attempt, lastException, lastResponse);
    assert body == AttemptBody(env, cfg.llmCaller(attempt, prompt));
    var e := body.error;
    var recorded := Recorded(lastResponse, cfg.llmCaller(attempt, prompt));
    StepUnfold(cfg, env, fullPrompt, attempt, lastException, lastResponse);
    forall k: EventKind
      ensures CountOf(called, k) == (if k == CallKind then 1 else if k == StartKind && cfg.hasRetryMetrics then 1 else 0)
    {
      CalledCounts(cfg, attempt, prompt, k);
    }
    var step := OnFailure(cfg, env, name, attempt, e, called, recorded);
    if attempt < cfg.maxRetries {
      assert !env.interrupted(attempt);
      RetryableContinues(cfg, env, name, attempt, e, called, recorded);
      RetriedOnce(cfg, called, step.events);
    } else {
      RetryableExhausts(cfg, env, name, attempt, e, called, recorded);
      ExhaustedOnce(cfg, called, step.outcome.trace);
    }
  }

  lemma RetriedOnce(cfg: ConstructionConfig, called: seq<Event>, events: seq<Event>)
    requires forall k: EventKind :: CountOf(called, k) ==
               (if k == CallKind then 1 else if k == StartKind && cfg.hasRetryMetrics then 1 else 0)
    requires forall k: EventKind :: CountOf(events, k) ==
               CountOf(called, k) + (if cfg.hasErrorCallback && k == CallbackKind then 1 else 0) +
               (if cfg.hasRetryMetrics && k == RetryKind then 1 else 0) + (if k == SleepKind then 1 else 0)
    ensures RetriedCounts(cfg, events)
  {
    assert CountOf(called, CallKind) == 1 && CountOf(events, CallKind) == 1;
  }

  lemma ExhaustedOnce(cfg: ConstructionConfig, called: seq<Event>, t: seq<Event>)
    requires forall k: EventKind :: CountOf(called, k) ==
               (if k == CallKind then 1 else if k == StartKind && cfg.hasRetryMetrics then 1 else 0)
    requires forall k: EventKind :: CountOf(t, k) ==
               CountOf(called, k) + (if cfg.hasErrorCallback && k == CallbackKind then 1 else 0) +
               (if cfg.hasRetryMetrics && k == FinalKind then 1 else 0)
    ensures ExhaustedCounts(cfg, t, 1)
  {
    assert CountOf(called, CallKind) == 1 && CountOf(t, CallKind) == 1;
  }

  /** A loop whose passes before `last` all go on ends with the outcome of the pass of
      `last`, for the failure and response carried into it, after the events of the
      earlier passes. */
  lemma {:induction false} LoopReaches<V>(pass: (int, Option<JavaException>, Option<string>) -> Step<V>,
                                          maxRetries: int, attempt: int, last: int,
                                          lastException: Option<JavaException>, lastResponse: Option<string>)
    requires attempt <= last <= maxRetries
    requires forall a, x, y :: attempt <= a < last ==> pass(a, x, y).Continue?
    requires forall x, y :: pass(last, x, y).Finished?
    ensures exists x, y, pre :: Loop(pass, maxRetries, attempt, lastException, lastResponse) ==
                               Then(pre, pass(last, x, y).outcome)
    decreases last - attempt
  {
    var step := pass(attempt, lastException, lastResponse);
    if attempt < last {
      LoopReaches(pass, maxRetries, attempt + 1, last, Some(step.failure), step.lastResponse);
      var x, y, pre :| Loop(pass, maxRetries, attempt + 1, Some(step.failure), step.lastResponse) ==
                       Then(pre, pass(last, x, y).outcome);
      ThenThen(step.events, pre, pass(last, x, y).outcome);
    } else {
      var none: seq<Event> := [];
      assert none + step.outcome.trace == step.outcome.trace;
      assert Loop(pass, maxRetries, attempt, lastException, lastResponse) == Then(none, step.outcome);
    }
  }

  /** The call of a pass is in the events it records. */
  lemma CallInStep<Tree, V>(cfg: ConstructionConfig, env: Environment<Tree, V>, fullPrompt: string,
                            attempt: int, lastException: Option<JavaException>,
                            lastResponse: Option<string>)
    requires Describes(env, cfg)
    ensures LlmCall(attempt, PromptOf(cfg, env, fullPrompt, attempt, lastException, lastResponse)) in
            StepTrace(AttemptStep(cfg, env, fullPrompt, attempt, lastException, lastResponse))
  {
    var called := Called(cfg, attempt, PromptOf(cfg, env, fullPrompt, attempt, lastException, lastResponse));
    StepOpensWithCall(cfg, env, fullPrompt, attempt, lastException, lastResponse);
    assert called[|called| - 1] in called;
  }

  /** A retryable failure on the last attempt ends the pass with the "after N attempts"
      error caused by that failure and, when metrics are present, the final-failure event
      for it last. */
  lemma ExhaustedStep<Tree, V>(cfg: ConstructionConfig, env: Environment<Tree, V>, fullPrompt: string,
                               attempt: int, lastException: Option<JavaException>,
                               lastResponse: Option<string>)
    requires Describes(env, cfg) && attempt >= cfg.maxRetries
    requires BodyOf(cfg, env, fullPrompt, attempt, lastException, lastResponse).Failure?
    requires BodyOf(cfg, env, fullPrompt, attempt, lastException, lastResponse).error.kind == IllegalArgument
    ensures var step := AttemptStep(cfg, env, fullPrompt, attempt, lastException, lastResponse);
      var e := BodyOf(cfg, env, fullPrompt, attempt, lastException, lastResponse).error;
      step.Finished? &&
      step.outcome.result ==
        Failure(FormWorkException(ExhaustedMessage(env.reg[cfg.targetClass].simpleName, cfg.maxRetries), Some(e))) &&
      |step.outcome.trace| > 0 &&
      (cfg.hasRetryMetrics ==> step.outcome.trace[|step.outcome.trace| - 1] == FinalFailure(cfg.maxRetries, e))
  {
    StepUnfold(cfg, env, fullPrompt, attempt, lastException, lastResponse);
    CallInStep(cfg, env, fullPrompt, attempt, lastException, lastResponse);
  }

  /** When every answer fails retryably, every pass of the construction is a retried
      pass. */
  lemma AllPassesRetried<Tree, V>(cfg: ConstructionConfig, env: Environment<Tree, V>, fullPrompt: string)
    requires Describes(env, cfg) && AlwaysRetryable(cfg, env) && QuietDelays(cfg, env)
    ensures forall a, x, y :: 1 <= a <= cfg.maxRetries ==>
      RetriedPass(cfg, env.reg[cfg.targetClass].simpleName, a, Pass(cfg, env, fullPrompt)(a, x, y))
  {
    forall a, x, y | 1 <= a <= cfg.maxRetries
      ensures RetriedPass(cfg, env.reg[cfg.targetClass].simpleName, a, Pass(cfg, env, fullPrompt)(a, x, y))
    {
      assert BodyOf(cfg, env, fullPrompt, a, x, y) ==
             AttemptBody(env, cfg.llmCaller(a, PromptOf(cfg, env, fullPrompt, a, x, y)));
      PassRetried(cfg, env, fullPrompt, a, x, y);
    }
  }

  /** The last pass failing retryably, after any earlier events: its call is in the trace,
      its failure causes the error, and with metrics its final-failure event is last. */
  lemma ExhaustedAfter<Tree, V>(cfg: ConstructionConfig, env: Environment<Tree, V>, fullPrompt: string,
                                lastException: Option<JavaException>, lastResponse: Option<string>,
                                pre: seq<Event>)
    requires Describes(env, cfg)
    requires BodyOf(cfg, env, fullPrompt, cfg.maxRetries, lastException, lastResponse).Failure?
    requires BodyOf(cfg, env, fullPrompt, cfg.maxRetries, lastException, lastResponse).error.kind == IllegalArgument
    ensures var step := AttemptStep(cfg, env, fullPrompt, cfg.maxRetries, lastException, lastResponse);
      step.Finished? &&
      var o := Then(pre, step.outcome);
      var p := PromptOf(cfg, env, fullPrompt, cfg.maxRetries, lastException, lastResponse);
      var e := AttemptBody(env, cfg.llmCaller(cfg.maxRetries, p)).error;
      LlmCall(cfg.maxRetries, p) in o.trace &&
      o.result == Failure(FormWorkException(ExhaustedMessage(env.reg[cfg.targetClass].simpleName,
                                                             cfg.maxRetries), Some(e))) &&
      (cfg.hasRetryMetrics ==> o.trace[|o.trace| - 1] == FinalFailure(cfg.maxRetries, e))
  {
    var max := cfg.maxRetries;
    ExhaustedStep(cfg, env, fullPrompt, max, lastException, lastResponse);
    CallInStep(cfg, env, fullPrompt, max, lastException, lastResponse);
    var t := AttemptStep(cfg, env, fullPrompt, max, lastException, lastResponse).outcome.trace;
    assert (pre + t)[|pre + t| - 1] == t[|t| - 1];
  }

  /** When every answer fails retryably, the construction ends with the pass of the last
      attempt: its error is caused by the failure of the answer to the last call, and with
      metrics the final-failure event for that failure closes the trace. */
  lemma ExhaustedByLastFailure<Tree, V>(cfg: ConstructionConfig, env: Environment<Tree, V>)
    requires Describes(env, cfg) && AlwaysRetryable(cfg, env) && QuietDelays(cfg, env)
    requires cfg.maxRetries >= 1
    ensures var o := Construct(cfg, env);
      exists p :: LlmCall(cfg.maxRetries, p) in o.trace &&
        var e := AttemptBody(env, cfg.llmCaller(cfg.maxRetries, p)).error;
        o.result == Failure(FormWorkException(ExhaustedMessage(env.reg[cfg.targetClass].simpleName,
                                                               cfg.maxRetries), Some(e))) &&
        (cfg.hasRetryMetrics ==> o.trace[|o.trace| - 1] == FinalFailure(cfg.maxRetries, e))
  {
    var max := cfg.maxRetries;
    var fullPrompt := FullPrompt(env.reg, cfg.targetClass, cfg.basePrompt, env.schema);
    var pass := Pass(cfg, env, fullPrompt);
    AllPassesRetried(cfg, env, fullPrompt);
    LoopReaches(pass, max, 1, max, None, None);
    var x, y, pre :| Loop(pass, max, 1, None, None) == Then(pre, pass(max, x, y).outcome);
    var p := PromptOf(cfg, env, fullPrompt, max, x, y);
    assert BodyOf(cfg, env, fullPrompt, max, x, y) == AttemptBody(env, cfg.llmCaller(max, p));
    ExhaustedAfter(cfg, env, fullPrompt, x, y, pre);
  }

  /** When every attempt fails retryably: maxRetries calls and callbacks, maxRetries - 1
      retry events and sleeps, one final-failure event, and the "after N attempts" error;
      its cause is the failure of the answer to the last call, the one the final-failure
      event, last in the trace, reports. */
  lemma ExhaustsRetries<Tree, V>(cfg: ConstructionConfig, env: Environment<Tree, V>)
    requires Describes(env, cfg) && AlwaysRetryable(cfg, env) && QuietDelays(cfg, env)
    requires cfg.maxRetries >= 1
    ensures var o := Construct(cfg, env);
      IsExhausted(o.result, env.reg[cfg.targetClass].simpleName, cfg.maxRetries) &&
      ExhaustedCounts(cfg, o.trace, cfg.maxRetries)
    ensures var o := Construct(cfg, env);
      exists p :: LlmCall(cfg.maxRetries, p) in o.trace &&
        var e := AttemptBody(env, cfg.llmCaller(cfg.maxRetries, p)).error;
        o.result == Failure(FormWorkException(ExhaustedMessage(env.reg[cfg.targetClass].simpleName,
                                                               cfg.maxRetries), Some(e))) &&
        (cfg.hasRetryMetrics ==> o.trace[|o.trace| - 1] == FinalFailure(cfg.maxRetries, e))
  {
    var fullPrompt := FullPrompt(env.reg, cfg.targetClass, cfg.basePrompt, env.schema);
    AllPassesRetried(cfg, env, fullPrompt);
    LoopExhausted(cfg, env.reg[cfg.targetClass].simpleName, Pass(cfg, env, fullPrompt), 1, None, None);
    ExhaustedByLastFailure(cfg, env);
  }

  // ---------------------------------------------------------------------------
  // The first success ends the construction

  /** The counts of the attempt that succeeds: its call, and its start and success events
      when metrics are present. */
  ghost predicate SucceededCounts(cfg: ConstructionConfig, t: seq<Event>) {
    CountOf(t, CallKind) == 1 &&
    CountOf(t, StartKind) == (if cfg.hasRetryMetrics then 1 else 0) &&
    CountOf(t, SuccessKind) == (if cfg.hasRetryMetrics then 1 else 0) &&
    CountOf(t, CallbackKind) == 0 && CountOf(t, RetryKind) == 0 && CountOf(t, SleepKind) == 0 &&
    CountOf(t, FinalKind) == 0 && CountOf(t, InterruptKind) == 0
  }

  /** What `n` attempts record when all but the last fail retryably and the last
      succeeds. */
  ghost predicate SuccessCounts(cfg: ConstructionConfig, t: seq<Event>, n: int) {
    CountOf(t, CallKind) == n &&
    CountOf(t, StartKind) == (if cfg.hasRetryMetrics then n else 0) &&
    CountOf(t, SuccessKind) == (if cfg.hasRetryMetrics then 1 else 0) &&
    CountOf(t, CallbackKind) == (if cfg.hasErrorCallback then n - 1 else 0) &&
    CountOf(t, RetryKind) == (if cfg.hasRetryMetrics then n - 1 else 0) &&
    CountOf(t, SleepKind) == n - 1 &&
    CountOf(t, FinalKind) == 0 && CountOf(t, InterruptKind) == 0
  }

  /** A successful try block returns at once: the value, and only the call and the start
      and success events. */
  lemma SuccessStep<Tree, V>(cfg: ConstructionConfig, env: Environment<Tree, V>, fullPrompt: string,
                             attempt: int, lastException: Option<JavaException>,
                             lastResponse: Option<string>)
    requires Describes(env, cfg)
    requires BodyOf(cfg, env, fullPrompt, attempt, lastException, lastResponse).Success?
    ensures var step := AttemptStep(cfg, env, fullPrompt, attempt, lastException, lastResponse);
      step.Finished? &&
      step.outcome.result == Success(BodyOf(cfg, env, fullPrompt, attempt, lastException, lastResponse).value) &&
      SucceededCounts(cfg, step.outcome.trace)
  {
    var prompt := PromptOf(cfg, env, fullPrompt, attempt, lastException, lastResponse);
    var called := Called(cfg, attempt, prompt);
    var t := Note(called, cfg.hasRetryMetrics, AttemptSuccess(attempt, cfg.maxRetries));
    StepUnfold(cfg, env, fullPrompt, attempt, lastException, lastResponse);
    SucceededTrace(cfg, attempt, prompt);
  }

  lemma SucceededTrace(cfg: ConstructionConfig, attempt: int, prompt: string)
    ensures SucceededCounts(cfg, Note(Called(cfg, attempt, prompt), cfg.hasRetryMetrics,
                                      AttemptSuccess(attempt, cfg.maxRetries)))
  {
    var called := Called(cfg, attempt, prompt);
    var t := Note(called, cfg.hasRetryMetrics, AttemptSuccess(attempt, cfg.maxRetries));
    forall k: EventKind
      ensures CountOf(t, k) ==
              (if k == CallKind then 1
               else if (k == StartKind || k == SuccessKind) && cfg.hasRetryMetrics then 1 else 0)
    {
      CalledCounts(cfg, attempt, prompt, k);
      CountOfNote(called, cfg.hasRetryMetrics, AttemptSuccess(attempt, cfg.maxRetries), k);
    }
  }

  lemma SuccessCountsCons(cfg: ConstructionConfig, events: seq<Event>, rest: seq<Event>, n: int)
    requires RetriedCounts(cfg, events) && SuccessCounts(cfg, rest, n)
    ensures SuccessCounts(cfg, events + rest, n + 1)
  {
    forall k: EventKind
      ensures CountOf(events + rest, k) == CountOf(events, k) + CountOf(rest, k)
    {
      CountOfAppend(events, rest, k);
    }
  }

  /** A loop whose passes fail retryably up to attempt `last` and succeed there stops at
      `last`. */
  lemma {:induction false} LoopSucceeds<V>(cfg: ConstructionConfig,
                                           pass: (int, Option<JavaException>, Option<string>) -> Step<V>,
                                           attempt: int, last: int, lastException: Option<JavaException>,
                                           lastResponse: Option<string>)
    requires attempt <= last <= cfg.maxRetries
    requires forall a, x, y :: attempt <= a < last ==>
      pass(a, x, y).Continue? && RetriedCounts(cfg, pass(a, x, y).events)
    requires forall x, y ::
      pass(last, x, y).Finished? && pass(last, x, y).outcome.result.Success? &&
      SucceededCounts(cfg, pass(last, x, y).outcome.trace)
    ensures var o := Loop(pass, cfg.maxRetries, attempt, lastException, lastResponse);
      o.result.Success? && SuccessCounts(cfg, o.trace, last - attempt + 1)
    decreases last - attempt
  {
    var step := pass(attempt, lastException, lastResponse);
    if attempt < last {
      assert step.Continue? && RetriedCounts(cfg, step.events);
      LoopSucceeds(cfg, pass, attempt + 1, last, Some(step.failure), step.lastResponse);
      var rest := Loop(pass, cfg.maxRetries, attempt + 1, Some(step.failure), step.lastResponse);
      SuccessCountsCons(cfg, step.events, rest.trace, last - attempt);
    } else {
      assert step.Finished? && SucceededCounts(cfg, step.outcome.trace);
    }
  }

  /** When the answers of the attempts before `last` all fail retryably, the delays are
      quiet and attempt `last` succeeds whatever it is asked, the construction returns
      the value converted from the answer to call `last` after `last` calls, `last - 1`
      callbacks, retry events and sleeps, one success event and no final failure. */
  lemma SucceedsOnAttempt<Tree, V>(cfg: ConstructionConfig, env: Environment<Tree, V>, last: int)
    requires Describes(env, cfg) && QuietDelays(cfg, env)
    requires 1 <= last <= cfg.maxRetries
    requires forall a, p {:trigger AttemptBody(env, cfg.llmCaller(a, p))} :: 1 <= a < last ==>
      AttemptBody(env, cfg.llmCaller(a, p)).Failure? &&
      AttemptBody(env, cfg.llmCaller(a, p)).error.kind == IllegalArgument
    requires forall p :: AttemptBody(env, cfg.llmCaller(last, p)).Success?
    ensures var o := Construct(cfg, env);
      o.result.Success? && SuccessCounts(cfg, o.trace, last)
    ensures var o := Construct(cfg, env);
      exists p :: LlmCall(last, p) in o.trace && o.result == Success(AttemptBody(env, cfg.llmCaller(last, p)).value)
  {
    var fullPrompt := FullPrompt(env.reg, cfg.targetClass, cfg.basePrompt, env.schema);
    var pass := Pass(cfg, env, fullPrompt);
    forall a, x, y | 1 <= a < last
      ensures pass(a, x, y).Continue? && RetriedCounts(cfg, pass(a, x, y).events)
    {
      assert BodyOf(cfg, env, fullPrompt, a, x, y) ==
             AttemptBody(env, cfg.llmCaller(a, PromptOf(cfg, env, fullPrompt, a, x, y)));
      PassRetried(cfg, env, fullPrompt, a, x, y);
    }
    forall x, y
      ensures pass(last, x, y).Finished? && pass(last, x, y).outcome.result.Success? &&
              SucceededCounts(cfg, pass(last, x, y).outcome.trace)
    {
      assert BodyOf(cfg, env, fullPrompt, last, x, y) ==
             AttemptBody(env, cfg.llmCaller(last, PromptOf(cfg, env, fullPrompt, last, x, y)));
      SuccessStep(cfg, env, fullPrompt, last, x, y);
    }
    LoopSucceeds(cfg, pass, 1, last, None, None);
    LoopReaches(pass, cfg.maxRetries, 1, last, None, None);
    var x, y, pre :| Loop(pass, cfg.maxRetries, 1, None, None) == Then(pre, pass(last, x, y).outcome);
    var p := PromptOf(cfg, env, fullPrompt, last, x, y);
    assert BodyOf(cfg, env, fullPrompt, last, x, y) == AttemptBody(env, cfg.llmCaller(last, p));
    SuccessStep(cfg, env, fullPrompt, last, x, y);
    CallInStep(cfg, env, fullPrompt, last, x, y);
    assert Construct(cfg, env).trace == pre + pass(last, x, y).outcome.trace;
    assert LlmCall(last, p) in Construct(cfg, env).trace;
  }

  // ---------------------------------------------------------------------------
  // Exceptions of the caller, and the retry delay

  /** An exception thrown by the caller: anything but an IllegalArgumentException ends the
      construction with "non-retryable error" after only the call; an
      IllegalArgumentException is handled like a parse failure, retried while attempts
      remain, the last response kept. */
  lemma CallerThrows<Tree, V>(cfg: ConstructionConfig, env: Environment<Tree, V>, fullPrompt: string,
                              attempt: int, lastException: Option<JavaException>,
                              lastResponse: Option<string>, e: JavaException)
    requires Describes(env, cfg)
    requires cfg.llmCaller(attempt, PromptOf(cfg, env, fullPrompt, attempt, lastException, lastResponse)) == Threw(e)
    ensures var name := env.reg[cfg.targetClass].simpleName;
      var called := Called(cfg, attempt, PromptOf(cfg, env, fullPrompt, attempt, lastException, lastResponse));
      var step := AttemptStep(cfg, env, fullPrompt, attempt, lastException, lastResponse);
      (e.kind != IllegalArgument ==>
         step == Finished(Outcome(Failure(FormWorkException(NonRetryableMessage(name), Some(e))), called))) &&
      (e.kind == IllegalArgument && attempt < cfg.maxRetries && cfg.retryDelayMs >= 0 && !env.interrupted(attempt) ==>
         step.Continue? && step.failure == e && step.lastResponse == lastResponse) &&
      (e.kind == IllegalArgument && attempt >= cfg.maxRetries ==>
         step.Finished? && step.outcome.result == Failure(FormWorkException(ExhaustedMessage(name, cfg.maxRetries), Some(e))))
  {
    StepUnfold(cfg, env, fullPrompt, attempt, lastException, lastResponse);
  }

  /** A fatal exception on the first attempt: the construction fails with
      "non-retryable error", and the trace holds the first call and nothing after it: no
      callback, no retry, no final-failure event. */
  lemma FatalFirstAttempt<Tree, V>(cfg: ConstructionConfig, env: Environment<Tree, V>, e: JavaException)
    requires Describes(env, cfg) && cfg.maxRetries >= 1 && e.kind != IllegalArgument
    requires cfg.llmCaller(1, FullPrompt(env.reg, cfg.targetClass, cfg.basePrompt, env.schema)) == Threw(e)
    ensures Construct(cfg, env) ==
      Outcome(Failure(FormWorkException(NonRetryableMessage(env.reg[cfg.targetClass].simpleName), Some(e))),
              Called(cfg, 1, FullPrompt(env.reg, cfg.targetClass, cfg.basePrompt, env.schema)))
  {
    var fullPrompt := FullPrompt(env.reg, cfg.targetClass, cfg.basePrompt, env.schema);
    CallerThrows(cfg, env, fullPrompt, 1, None, None, e);
    var pass := Pass(cfg, env, fullPrompt);
    assert pass(1, None, None) == AttemptStep(cfg, env, fullPrompt, 1, None, None);
  }

  /** The retry delay, after a retryable failure with attempts left: a negative delay makes
      Thread.sleep throw an IllegalArgumentException that escapes unwrapped, with no sleep;
      an interrupted sleep ends the construction with "interrupted during retry delay"
      after the sleep and the restored interrupt flag. */
  lemma DelayOutcomes<Tree, V>(cfg: ConstructionConfig, env: Environment<Tree, V>, name: string,
                               attempt: int, e: JavaException, called: seq<Event>, recorded: Option<string>)
    requires e.kind == IllegalArgument && attempt < cfg.maxRetries
    ensures var step := OnFailure(cfg, env, name, attempt, e, called, recorded);
      var retrying := Note(Note(called, cfg.hasErrorCallback, CallbackInvoked(e)),
                           cfg.hasRetryMetrics, AttemptRetry(attempt, cfg.maxRetries, e));
      (cfg.retryDelayMs < 0 ==>
         step == Finished(Outcome(Failure(Escaped(JavaException(IllegalArgument, Some(NegativeTimeoutMessage)))), retrying)) &&
         CountOf(step.outcome.trace, SleepKind) == CountOf(called, SleepKind)) &&
      (cfg.retryDelayMs >= 0 && env.interrupted(attempt) ==>
         step.Finished? &&
         step.outcome.result == Failure(FormWorkException(InterruptedMessage, Some(SleepInterruption))) &&
         |step.outcome.trace| >= 2 &&
         step.outcome.trace[|step.outcome.trace| - 2..] == [Slept(cfg.retryDelayMs), InterruptRestored])
  {
    var failed := Note(called, cfg.hasErrorCallback, CallbackInvoked(e));
    CountOfNote(called, cfg.hasErrorCallback, CallbackInvoked(e), SleepKind);
    CountOfNote(failed, cfg.hasRetryMetrics, AttemptRetry(attempt, cfg.maxRetries, e), SleepKind);
  }

  // ---------------------------------------------------------------------------
  // The responses the loop carries

  /** A null or blank answer is the retryable "LLM returned empty response" and leaves the
      last response as it was; only a non-blank answer replaces it, so the carried response
      is never blank. */
  lemma ResponseRecording<Tree, V>(env: Environment<Tree, V>, lastResponse: Option<string>, o: CallOutcome)
    requires lastResponse.None? || !IsBlank(lastResponse.value)
    ensures var r := Recorded(lastResponse, o);
      (r.None? || !IsBlank(r.value)) &&
      (r != lastResponse ==> o == Returned(r))
    ensures o.Returned? && (o.response.None? || IsBlank(o.response.value)) ==>
      AttemptBody(env, o) == Failure(JavaException(IllegalArgument, Some(EmptyResponseMessage))) &&
      Recorded(lastResponse, o) == lastResponse
  {
  }

  /** The call of an attempt and the start event before it open the trace of its pass. */
  lemma StepOpensWithCall<Tree, V>(cfg: ConstructionConfig, env: Environment<Tree, V>, fullPrompt: string,
                                   attempt: int, lastException: Option<JavaException>,
                                   lastResponse: Option<string>)
    requires Describes(env, cfg)
    ensures Called(cfg, attempt, PromptOf(cfg, env, fullPrompt, attempt, lastException, lastResponse)) <=
            StepTrace(AttemptStep(cfg, env, fullPrompt, attempt, lastException, lastResponse))
  {
    var prompt := PromptOf(cfg, env, fullPrompt, attempt, lastException, lastResponse);
    var called := Called(cfg, attempt, prompt);
    var body := BodyOf(cfg, env, fullPrompt, attempt, lastException, lastResponse);
    StepUnfold(cfg, env, fullPrompt, attempt, lastException, lastResponse);
    if body.Success? {
      NoteExtends(called, cfg.hasRetryMetrics, AttemptSuccess(attempt, cfg.maxRetries));
    } else {
      OnFailureExtends(cfg, env, env.reg[cfg.targetClass].simpleName, attempt, body.error, called,
                       Recorded(lastResponse, cfg.llmCaller(attempt, prompt)));
    }
  }

  lemma NoteExtends(events: seq<Event>, present: bool, e: Event)
    ensures events <= Note(events, present, e)
  {
  }

  lemma OnFailureExtends<Tree, V>(cfg: ConstructionConfig, env: Environment<Tree, V>, name: string,
                                  attempt: int, e: JavaException, called: seq<Event>, recorded: Option<string>)
    ensures called <= StepTrace(OnFailure(cfg, env, name, attempt, e, called, recorded))
  {
    var failed := Note(called, cfg.hasErrorCallback, CallbackInvoked(e));
    var retrying := Note(failed, cfg.hasRetryMetrics, AttemptRetry(attempt, cfg.maxRetries, e));
    NoteExtends(called, cfg.hasErrorCallback, CallbackInvoked(e));
    NoteExtends(failed, cfg.hasRetryMetrics, AttemptRetry(attempt, cfg.maxRetries, e));
    NoteExtends(failed, cfg.hasRetryMetrics, FinalFailure(cfg.maxRetries, e));
    assert retrying <= retrying + [Slept(cfg.retryDelayMs)];
    assert retrying <= retrying + [Slept(cfg.retryDelayMs), InterruptRestored];
  }

  /** The first call of a construction with at least one attempt sends the full prompt,
      right after the first start event when metrics are present. */
  lemma FirstCallSendsFullPrompt<Tree, V>(cfg: ConstructionConfig, env: Environment<Tree, V>)
    requires Describes(env, cfg) && cfg.maxRetries >= 1
    ensures var t := Construct(cfg, env).trace;
      var i := if cfg.hasRetryMetrics then 1 else 0;
      i < |t| && t[i] == LlmCall(1, FullPrompt(env.reg, cfg.targetClass, cfg.basePrompt, env.schema)) &&
      (cfg.hasRetryMetrics ==> t[0] == AttemptStart(1, cfg.maxRetries))
  {
    var fullPrompt := FullPrompt(env.reg, cfg.targetClass, cfg.basePrompt, env.schema);
    var pass := Pass(cfg, env, fullPrompt);
    var step := AttemptStep(cfg, env, fullPrompt, 1, None, None);
    assert pass(1, None, None) == step;
    var called := Called(cfg, 1, fullPrompt);
    StepOpensWithCall(cfg, env, fullPrompt, 1, None, None);
    var t := Construct(cfg, env).trace;
    if step.Continue? {
      var rest := Loop(pass, cfg.maxRetries, 2, Some(step.failure), step.lastResponse);
      assert t == step.events + rest.trace;
    } else {
      assert t == step.outcome.trace;
    }
    assert called <= t;
    assert called[|called| - 1] == LlmCall(1, fullPrompt);
  }

  /** After a pass that continues, the next attempt reports this attempt's failure and
      quotes the response carried forward: its call sends the corrective prompt built from
      them. */
  lemma NextAttemptPrompt<Tree, V>(cfg: ConstructionConfig, env: Environment<Tree, V>, fullPrompt: string,
                                   attempt: int, lastException: Option<JavaException>,
                                   lastResponse: Option<string>)
    requires Describes(env, cfg) && attempt >= 1
    requires AttemptStep(cfg, env, fullPrompt, attempt, lastException, lastResponse).Continue?
    ensures var step := AttemptStep(cfg, env, fullPrompt, attempt, lastException, lastResponse);
      var prompt := PromptOf(cfg, env, fullPrompt, attempt, lastException, lastResponse);
      var retry := RetryPrompt(env.reg[cfg.targetClass].simpleName, cfg.basePrompt,
                               step.failure.message, step.lastResponse);
      step.failure == BodyOf(cfg, env, fullPrompt, attempt, lastException, lastResponse).error &&
      step.lastResponse == Recorded(lastResponse, cfg.llmCaller(attempt, prompt)) &&
      Called(cfg, attempt + 1, retry) <=
        StepTrace(AttemptStep(cfg, env, fullPrompt, attempt + 1, Some(step.failure), step.lastResponse))
  {
    var step := AttemptStep(cfg, env, fullPrompt, attempt, lastException, lastResponse);
    StepUnfold(cfg, env, fullPrompt, attempt, lastException, lastResponse);
    StepOpensWithCall(cfg, env, fullPrompt, attempt + 1, Some(step.failure), step.lastResponse);
  }

  /** With no attempt allowed the caller is never asked: the construction fails at once
      with "Unexpected end of retry loop" and records nothing. */
  lemma NoAttemptsUnexpectedEnd<Tree, V>(cfg: ConstructionConfig, env: Environment<Tree, V>)
    requires Describes(env, cfg) && cfg.maxRetries <= 0
    ensures Construct(cfg, env) == Outcome(Failure(FormWorkException(UnexpectedEndMessage, None)), [])
  {
  }
}
