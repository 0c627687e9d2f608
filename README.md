# formwork, modelled in Dafny

FormWork turns the free text of a language model into a typed object. It builds a prompt
that describes the target class, calls the model, cuts the first JSON value out of the answer
and converts it. On a parse failure it asks again with a corrective prompt, up to a
configured number of attempts.

This project models the three pieces of that pipeline and proves what each one promises.

- **JSON span extractor** (`JsonParser`, `JsonParserProperties`). The answer is stripped
  and one markdown code fence is peeled off: a leading ```` ```json ```` is preferred over a
  bare ```` ``` ````, and at most one trailing fence goes. The result is stripped again. The
  scan then finds the first `{` or `[` and counts depth on that delimiter pair only, until
  the depth returns to zero. The two loops are methods over `seq<char>`. They are proved
  equal to the functions `FirstOpener` and `BalanceEnd`, and the properties are lemmas about
  those functions. Jackson's `readTree` and `treeToValue` are function parameters that
  may fail.
- **Enum-constraint walker** (`SchemaManager`, `SchemaManagerProperties`). Reflection is
  replaced by a registry that maps each class to its name, simple name, primitive and enum
  flags, enum constants and declared fields. The class `EnumCollector` holds the shared
  `StringBuilder` and the shared `HashSet` of visited classes. Its `CollectEnumFields`
  recurses over the declared fields as the Java method does. It is proved equal to the
  function `Walk`, about which the once-per-class expansion, the termination on cyclic types,
  the dotted paths and the line format are proved.
- **Construction state machine** (`FormWork`, `FormWorkProperties`, `FormWorkPrompts`). This
  covers the full prompt, the corrective prompt, `hasEnumFields`, the configuration
  builder with its defaults, and the attempt loop of `constructWithConfig`:
  - The loop is a method, proved equal to the function `Construct`.
  - The model caller is a function of the attempt number and the prompt, so any scripted
    sequence of answers can be expressed.
  - The RetryMetrics events, the error callback, the sleeps and the re-raised interrupt flag
    are events of a trace. Lemmas count the events of that trace for each kind of run.

`JavaString` holds the java.lang.String operations the core uses: `strip`, `trim`,
`startsWith`, `endsWith`, `Collectors.joining`, `%d` and the `"null"` that
`StringBuilder.append` writes for a null string. `Wrappers` holds `Option` and `Result`.

## Where the comments and the code differ

The model follows the code in each case.

- The javadoc of `construct` calls `maxRetries` the "Maximum number of retry attempts"
  (src/main/java/io/filesurf/formwork/FormWork.java:62). The loop at FormWork.java:92 counts
  the first attempt too, so `maxRetries = 3` means three calls and at most two retries
  (`CallsAtMostMaxRetries`, `ExhaustsRetries`).
- The comment at FormWork.java:220 says the final throw "should never be reached". The
  builder at FormWork.java:362-370 accepts any count and any delay.
  - With `maxRetries <= 0` the loop never runs, and the call fails with "Unexpected end of
    retry loop" (`NoAttemptsUnexpectedEnd`).
  - A negative delay makes `Thread.sleep` (FormWork.java:181) throw an
    `IllegalArgumentException`. It is thrown inside the catch block, so it escapes unwrapped
    rather than as a FormWorkException (`DelayOutcomes`, the `Escaped` error).
- The javadoc of `buildRetryPrompt` calls its last argument "The LLM response that caused
  the error" (FormWork.java:230). The loop stores only a non-null, non-blank answer
  (FormWork.java:123-127). So after a blank answer the corrective prompt quotes the answer
  before it, if there was one (`ResponseRecording`).
- The comments at FormWork.java:153-154 and 206-207 say that only JSON parsing failures are
  retried and that failures of the LLM service fail at once. The catch at FormWork.java:152
  takes every `IllegalArgumentException`, including one thrown by the caller itself, so
  such a failure is retried like a parse failure (`CallerThrows`).

## Model

| member | source | states |
|---|---|---|
| JavaString.StripShape | src/main/java/io/filesurf/formwork/JsonParser.java:32 | `strip()` removes only Java whitespace and leaves a string with none at either end |
| JavaString.StripIdempotent | src/main/java/io/filesurf/formwork/JsonParser.java:45 | stripping the already stripped text again changes nothing |
| JavaString.BlankIffAllTrimSpace | src/main/java/io/filesurf/formwork/FormWork.java:123 | `trim().isEmpty()` holds exactly when every character is at most U+0020 |
| JavaString.NatToStringRoundTrip | src/main/java/io/filesurf/formwork/FormWork.java:200-202 | the `%d` rendering of the attempt count reads back to the count |
| JavaString.JoinSplit | src/main/java/io/filesurf/formwork/SchemaManager.java:118-120 | `joining(" \| ")` keeps the order: a cut of the names is a cut of the text at a separator |
| JsonParser.FirstOpener | src/main/java/io/filesurf/formwork/JsonParser.java:48-64 | -1 exactly when there is no `{` or `[`; otherwise the least index holding one |
| JsonParser.FindStart | src/main/java/io/filesurf/formwork/JsonParser.java:48-64 | the first loop finds the least opener and fixes the pair from that character alone; both chars stay 0 when there is none |
| JsonParser.FindEnd | src/main/java/io/filesurf/formwork/JsonParser.java:70-85 | the second loop returns -1 exactly when the depth never returns to zero, else the first balance point |
| JsonParser.ScanFromSpec | src/main/java/io/filesurf/formwork/JsonParser.java:73-85 | from a positive depth the scan stops exactly where the depth first reaches zero |
| JsonParser.BalanceEndSpec | src/main/java/io/filesurf/formwork/JsonParser.java:70-89 | the second loop's function: -1 exactly when the depth never balances, else the first balance point |
| JsonParser.FirstBalanceUnique | src/main/java/io/filesurf/formwork/JsonParser.java:80-82 | the first balance point is unique |
| JsonParser.ExtractJsonFromLlmOutput | src/main/java/io/filesurf/formwork/JsonParser.java:31-98 | the method that reassigns `working` and runs both loops gives the result of `Extract` |
| JsonParser.ExtractJsonAs | src/main/java/io/filesurf/formwork/JsonParser.java:101-109 | the typed variant gives the result of `ExtractAs`; a conversion failure becomes `ConversionFailed` |
| JsonParserProperties.NoJsonIff | src/main/java/io/filesurf/formwork/JsonParser.java:51-68 | "No JSON object or array found in input" exactly when the cleaned text has no opener |
| JsonParserProperties.UnmatchedIff | src/main/java/io/filesurf/formwork/JsonParser.java:87-89 | "Unmatched brackets in JSON" exactly when an opener exists and the depth from it never returns to zero |
| JsonParserProperties.SpanShape | src/main/java/io/filesurf/formwork/JsonParser.java:70-91 | the span starts at the least opener, opens with it, closes with its partner, has equal counts of both, and every proper prefix is still open |
| JsonParserProperties.FirstBalanceShape | src/main/java/io/filesurf/formwork/JsonParser.java:76-82 | a first balance point lies at least two characters on and is a closer |
| JsonParserProperties.ScanIgnoresOthers | src/main/java/io/filesurf/formwork/JsonParser.java:76-84 | texts that agree on where the chosen pair occurs scan to the same end, whatever the other bracket kind and quotes do |
| JsonParserProperties.ExtractsEmbedded | src/main/java/io/filesurf/formwork/JsonParser.java:47-91 | a balanced value after bracket-free prose is cut out exactly, whatever follows it |
| JsonParserProperties.SpanIdempotent | src/main/java/io/filesurf/formwork/JsonParser.java:31-91 | extracting from an extracted span gives the span back |
| JsonParserProperties.CleanFixesSpan | src/main/java/io/filesurf/formwork/JsonParser.java:32-45 | a text that opens and closes with a bracket pair is unchanged by cleaning |
| JsonParserProperties.ExtractSeesOnlySpan | src/main/java/io/filesurf/formwork/JsonParser.java:31-97 | once a span is found, extracting from the span alone gives the same tree or the same parse failure: the text around it does not matter |
| JsonParserProperties.MessagesDistinguishStages | src/main/java/io/filesurf/formwork/JsonParser.java:67-107 | equal exception messages mean the same failing stage: no JSON, unmatched brackets, parse error or conversion error |
| JsonParserProperties.JsonFenceStripped | src/main/java/io/filesurf/formwork/JsonParser.java:35-43 | a leading ```` ```json ```` is taken before the bare fence, and one trailing fence is removed |
| JsonParserProperties.BareFenceStripped | src/main/java/io/filesurf/formwork/JsonParser.java:37-43 | a bare fence is removed at both ends |
| JsonParserProperties.FencedClean | src/main/java/io/filesurf/formwork/JsonParser.java:32-45 | a fenced answer cleans to its stripped body |
| JsonParserProperties.CleanIsStripped | src/main/java/io/filesurf/formwork/JsonParser.java:45 | the scanned text never starts or ends with whitespace |
| SchemaManager.IsValidEnumValue | src/main/java/io/filesurf/formwork/SchemaManager.java:124-133 | false for null; otherwise true exactly when some constant has that exact name |
| SchemaManager.HasConstant | src/main/java/io/filesurf/formwork/SchemaManager.java:128 | `Enum.valueOf` succeeds exactly when some constant has that name |
| SchemaManager.Walk | src/main/java/io/filesurf/formwork/SchemaManager.java:66-104 | the walk terminates, only grows the visited set, and lists only fields whose type is an enum |
| SchemaManager.EnumCollector.constructor | src/main/java/io/filesurf/formwork/SchemaManager.java:48-52 | a collector starts with the header in the buffer and an empty visited set |
| SchemaManager.EnumCollector.CollectEnumFields | src/main/java/io/filesurf/formwork/SchemaManager.java:66-104 | the recursive method appends the walk's lines to the shared buffer and leaves the shared visited set as the walk says |
| SchemaManager.GetEnumConstraintsPrompt | src/main/java/io/filesurf/formwork/SchemaManager.java:46-63 | a fresh collector and visited set, then the closing sentence when a line was written: the text of `EnumConstraintsPrompt` |
| SchemaManagerProperties.RenderEmptyIff | src/main/java/io/filesurf/formwork/SchemaManager.java:57 | the buffer grows past the header exactly when a line was written |
| SchemaManagerProperties.PromptShape | src/main/java/io/filesurf/formwork/SchemaManager.java:49-62 | the text opens with "ENUM CONSTRAINTS:", and ends with the closing sentence exactly when the walk listed a field |
| SchemaManagerProperties.WalkExpandsOnce | src/main/java/io/filesurf/formwork/SchemaManager.java:69-97 | a walk of an unvisited class expands it first and then only model classes, none twice and none visited before |
| SchemaManagerProperties.EachClassOnce | src/main/java/io/filesurf/formwork/SchemaManager.java:52 | one call of getEnumConstraintsPrompt expands each class at most once, the target first |
| SchemaManagerProperties.WalkPaths | src/main/java/io/filesurf/formwork/SchemaManager.java:81 | every path below a non-empty prefix starts with that prefix and a dot |
| SchemaManagerProperties.LinesAreExpandedEnumFields | src/main/java/io/filesurf/formwork/SchemaManager.java:52-97 | the lines are, as a multiset, exactly the enum fields of the expanded classes, each class once: the target under the empty path, every later one a model class entered through a field of an earlier one under that path qualified by the field name |
| SchemaManagerProperties.WalkListsEnums | src/main/java/io/filesurf/formwork/SchemaManager.java:66-104 | the lines of a walk are the direct enum lines of each class it expanded, under the prefix it entered that class with |
| SchemaManagerProperties.WalkEntersThroughFields | src/main/java/io/filesurf/formwork/SchemaManager.java:66-97 | a walk expands its class first under its prefix, and every later class through a field of an earlier one, with the qualified field path |
| SchemaManagerProperties.DirectEnumListed | src/main/java/io/filesurf/formwork/SchemaManager.java:79-94 | each directly declared enum field is listed under its plain name, so the closing sentence follows |
| SchemaManagerProperties.LineOfEntry | src/main/java/io/filesurf/formwork/SchemaManager.java:87-94 | each listed field is a line `  - <path> (<SimpleName>): V1 \| V2 ...` |
| SchemaManagerProperties.EnumValuesInOrder | src/main/java/io/filesurf/formwork/SchemaManager.java:117-138 | getEnumValues joins exactly getValidEnumValues, in declaration order |
| SchemaManagerProperties.NamesAreCaseSensitive | src/main/java/io/filesurf/formwork/SchemaManager.java:124-133 | for constants LOW and HIGH, "LOW" is valid while "low", "Low", "LOW " and null are not |
| SchemaManagerProperties.ShopWalk | src/main/java/io/filesurf/formwork/SchemaManager.java:66-104 | on a cyclic Order/Customer registry the walk ends, and the customer reached twice is listed once, under its first path |
| FormWork.HasEnumFields | src/main/java/io/filesurf/formwork/FormWork.java:312-319 | true exactly when some directly declared field has an enum type |
| FormWork.ConstructWithConfig | src/main/java/io/filesurf/formwork/FormWork.java:86-222 | the attempt loop, which carries the last failure and response, gives the result and events of `Construct` |
| FormWork.RunAttempt | src/main/java/io/filesurf/formwork/FormWork.java:93-217 | one pass of the loop body, as `AttemptStep` |
| FormWork.HandleFailure | src/main/java/io/filesurf/formwork/FormWork.java:152-217 | the two catch blocks, as `OnFailure` |
| FormWork.TryAttempt | src/main/java/io/filesurf/formwork/FormWork.java:121-129 | a blank answer fails; a non-blank one is recorded and extracted |
| FormWork.BuildFullPrompt | src/main/java/io/filesurf/formwork/FormWork.java:271-306 | the StringBuilder assembly equals `FullPrompt` |
| FormWork.Builder.constructor | src/main/java/io/filesurf/formwork/FormWork.java:339-345 | mandatory settings unset; maxRetries 3, retryDelayMs 1000; no callback, no metrics |
| FormWork.Builder.SetMaxRetries | src/main/java/io/filesurf/formwork/FormWork.java:362-365 | any count is stored and nothing else changes |
| FormWork.Builder.SetRetryDelayMs | src/main/java/io/filesurf/formwork/FormWork.java:367-370 | any delay is stored and nothing else changes |
| FormWork.Builder.SetTargetClass | src/main/java/io/filesurf/formwork/FormWork.java:347-350 | stores the class, or clears it for null, changes nothing else and returns the same builder |
| FormWork.Builder.SetBasePrompt | src/main/java/io/filesurf/formwork/FormWork.java:352-355 | stores the prompt, or clears it for null, changes nothing else and returns the same builder |
| FormWork.Builder.SetLlmCaller | src/main/java/io/filesurf/formwork/FormWork.java:357-360 | stores the caller, or clears it for null, changes nothing else and returns the same builder |
| FormWork.Builder.SetErrorCallback | src/main/java/io/filesurf/formwork/FormWork.java:372-375 | stores whether a callback is present |
| FormWork.Builder.SetRetryMetrics | src/main/java/io/filesurf/formwork/FormWork.java:377-380 | stores whether a metrics sink is present |
| FormWork.Builder.Build | src/main/java/io/filesurf/formwork/FormWork.java:382-401 | succeeds exactly when all three mandatory settings are present, naming the first missing one in source order; the config holds exactly the settings |
| FormWork.ConstructWithRetries | src/main/java/io/filesurf/formwork/FormWork.java:66-76 | the builder with the default delay, then the loop |
| FormWork.ConstructDefault | src/main/java/io/filesurf/formwork/FormWork.java:50-53 | three attempts, one second apart |
| FormWorkProperties.StepCallsOnce | src/main/java/io/filesurf/formwork/FormWork.java:93-217 | each pass of the loop calls the model exactly once |
| FormWorkProperties.CallsAtMostMaxRetries | src/main/java/io/filesurf/formwork/FormWork.java:92 | the model is called at most `maxRetries` times, and never when it is not positive |
| FormWorkProperties.NoAttemptsUnexpectedEnd | src/main/java/io/filesurf/formwork/FormWork.java:221 | with `maxRetries <= 0`: "Unexpected end of retry loop", no events |
| FormWorkProperties.RetryableContinues | src/main/java/io/filesurf/formwork/FormWork.java:152-185 | a retryable failure with attempts left and a quiet delay continues, after the callback, the retry event and one sleep |
| FormWorkProperties.RetryableExhausts | src/main/java/io/filesurf/formwork/FormWork.java:186-204 | a retryable failure on the last attempt ends with "after N attempts due to JSON parsing errors" and the final-failure event |
| FormWorkProperties.ExhaustsRetries | src/main/java/io/filesurf/formwork/FormWork.java:164-203 | if every attempt fails retryably: `maxRetries` calls and callbacks, `maxRetries - 1` retry events and sleeps, one final-failure event, and the exhausted message caused by the failure of the answer to call `maxRetries`, which the final-failure event, last in the trace, also reports |
| FormWorkProperties.ExhaustedByLastFailure | src/main/java/io/filesurf/formwork/FormWork.java:194-203 | the exhausted error is caused by the last call's failure, and with metrics the final-failure event for that failure closes the trace |
| FormWorkProperties.LoopReaches | src/main/java/io/filesurf/formwork/FormWork.java:92-218 | when every pass before attempt k goes on, the construction ends with the outcome of the pass of attempt k, after the earlier events |
| FormWorkProperties.SuccessStep | src/main/java/io/filesurf/formwork/FormWork.java:129-150 | a successful attempt returns its value at once, with only its call and its start and success events |
| FormWorkProperties.SucceedsOnAttempt | src/main/java/io/filesurf/formwork/FormWork.java:92-204 | failures before attempt k and success at k: the value converted from the answer to call k, after k calls, k - 1 callbacks, retries and sleeps, one success event and no final failure |
| FormWorkProperties.CallerThrows | src/main/java/io/filesurf/formwork/FormWork.java:152-217 | a fatal exception of the caller ends with "non-retryable error" after only the call; an IllegalArgumentException of the caller is retried or exhausts the attempts |
| FormWorkProperties.FatalFirstAttempt | src/main/java/io/filesurf/formwork/FormWork.java:205-216 | a fatal first call fails the construction with no callback, retry or final-failure event |
| FormWorkProperties.DelayOutcomes | src/main/java/io/filesurf/formwork/FormWork.java:180-185 | a negative delay escapes unwrapped with no sleep; an interrupted sleep ends with "interrupted during retry delay" and restores the flag |
| FormWorkProperties.ResponseRecording | src/main/java/io/filesurf/formwork/FormWork.java:121-127 | a null or blank answer is "LLM returned empty response" and leaves the last response unchanged; the carried response is never blank |
| FormWorkProperties.StepOpensWithCall | src/main/java/io/filesurf/formwork/FormWork.java:101-121 | each pass opens with its start event (when metrics are present) and its call |
| FormWorkProperties.FirstCallSendsFullPrompt | src/main/java/io/filesurf/formwork/FormWork.java:87-108 | the first call sends the full prompt, right after the first start event |
| FormWorkProperties.NextAttemptPrompt | src/main/java/io/filesurf/formwork/FormWork.java:109-119 | after a retry, the next call sends the corrective prompt built from this failure's message and the recorded response |
| FormWorkPrompts.RetryPromptFrame | src/main/java/io/filesurf/formwork/FormWork.java:233-261 | the corrective prompt opens with the request and the error message (Java's "null" for none), and ends with the instructions naming the class |
| FormWorkPrompts.PreviousOmittedIff | src/main/java/io/filesurf/formwork/FormWork.java:246-250 | the previous response is left out exactly when it is null or blank |
| FormWorkPrompts.QuotedResponseRecoverable | src/main/java/io/filesurf/formwork/FormWork.java:247-249 | a quoted response is quoted verbatim: different responses give different prompts |
| FormWorkPrompts.ErrorMessageRecoverable | src/main/java/io/filesurf/formwork/FormWork.java:241-244 | prompts differ in the error section exactly when the rendered messages differ |
| FormWorkPrompts.FullPromptFrame | src/main/java/io/filesurf/formwork/FormWork.java:271-306 | the full prompt opens with the base prompt and a blank line, ends with the IMPORTANT line, and holds the schema or the "Target class:" fallback |
| FormWorkPrompts.EnumBlockIff | src/main/java/io/filesurf/formwork/FormWork.java:291-298 | the enum block is present exactly when a direct field is an enum; it then ends with the closing sentence and lists each such field |
| FormWorkPrompts.NestedEnumNotAnnounced | src/main/java/io/filesurf/formwork/FormWork.java:312-319 | an enum reached only through a nested class gets no enum block, although the walker would list it |

## Left out

- Jackson (`readTree`, `treeToValue`, `convertValue` and the conversion wrappers): these
  are library code, so they are function parameters that return a value or a failure with
  a possibly-null message.
- `toJsonSchema`: Jackson's schema visitor is library code. Its outcome is a parameter,
  and `None` means the call threw, so the "Target class:" fallback stays reachable.
- Reflection (`getDeclaredFields`, `isEnum`, `getName`, `Class` identity) is replaced by the
  registry. A field's type is always described in it, as in Java, where every field has a
  class.
- SLF4J logging: this is side output only.
- Thread.sleep timing and the thread's interrupt state: each sleep is a `Slept` event, and
  whether the delay after an attempt is interrupted is a parameter of the environment.
- The RetryMetrics hooks and the error callback are events in the trace. The model assumes
  the metrics hooks do not throw. An `IllegalArgumentException` thrown by `onAttemptStart`
  would be retried in Java, and this model does not follow that path. An exception thrown by
  the callback is swallowed in the source, so it changes nothing and is not modelled.
- `Function<String, String>` is generalised to a function of the attempt number and the
  prompt. This lets one caller answer each attempt differently, as a scripted caller
  would.
- Java generics and `Class<T>`: the target class is a registry key, and the value type is
  a type parameter.
- `strip()` is modelled with `Character.isWhitespace` over characters, which are Unicode
  scalar values. Java applies the same test to code points. Unpaired surrogates, which a
  Dafny string cannot hold, are not modelled.
- `FormWork.PromptFor`: the corrective prompt for a later attempt without a recorded failure
  reports a null message. The loop never reaches that case, because from the second
  attempt on it always carries a failure (`FormWork.LoopState`).
- The `long` of `retryDelayMs` and the `int` of `maxRetries` are unbounded integers. Only
  the sign matters to the loop.
- `RetryMetrics.java` (an interface) and `FormWorkException.java` (an exception type) are
  represented by the `Event` and `ConstructError` datatypes.
- `java.lang.Error` (`StackOverflowError`, `OutOfMemoryError` and the like) from the caller
  or from Jackson is not modelled. `catch (Exception e)` does not catch it, so in Java it
  leaves the loop unwrapped.
- FormWork.ConstructWithRetries: its arguments are never null here. In Java a null target
  class, prompt or caller makes `build()` throw an IllegalStateException before the loop,
  which `Builder.Build` models.
