# Verified model of the API runtime

This project models the declarative runtime of the server in Dafny and proves what its parts promise:

- the path, predicate and template languages (`Text`, `Paths`, `Tokens`, `Lexing`, `Parser`, `SyntaxErrors`,
  `Evaluation`, `PredicateMeaning`, `Templates`, `TemplateRules`);
- the validation of request payloads (`FieldValidation`);
- the queued execution recorder, draining it, and its size estimate (`Recorder`, `Outcomes`, `Drain`,
  `PayloadSize`);
- the protocols around one invocation: script RPC, the token cache with its replay, and retries
  (`ScriptRpc`, `ScriptOutcomes`, `TokenCache`, `TokenReplays`, `Resilience`);
- the invocation itself and its record, workflows, secrets and the document store (`Components`,
  `Invocation`, `InvocationRecords`, `InvocationRules`, `Workflow`, `Redaction`, `RedactionRules`,
  `SafeSecrets`, `EnvRefs`, `EnvRefRules`, `Store`), over the values of `Json`.

Code that loops or updates fields is a method or a class here, proved against functions of its
inputs or of its old state; the theorems are lemmas about those functions. The modules named after
rules, meanings, outcomes and errors say what the functions do without following their recursion: on
texts, on the values written or found, and on the events of a run. Concurrent parts are
state machines whose steps are the stretches of code between two awaits, and their theorems hold
for every run.

Where code and documentation differ the model follows the code. Such places are results of their
own, each with the exact condition under which the promise holds:

- an invocation is recorded once unless a secret it collected is not well-formed UTF-16, which makes
  scrubbing throw (`InvocationRecords.RecordedExactlyWhenScrubbable`, `LoneSurrogateEscapes`);
- scrubbing is complete for a long secret exactly when no mask can be part of it
  (`SafeSecrets.SafeExactlyWhenRobust`), and a record is free of it exactly when the parts recorded as
  they are do not hold it (`InvocationRecords.SecretInRecordExactlyWhenRaw`);
- no template text is left in what an accepted template resolves to exactly when no value shown brings
  it along and none is put together where two pieces meet (`Templates.NoTemplateTextLeaks`,
  `Templates.BraceMeetsDollar`);
- the recorder's byte count is exact throughout a run exactly when no queued object is queued again with
  another size (`Recorder.RunBytesExactly`, `Recorder.ResizedEntryDrifts`), and drain throws exactly when an
  exception escapes the pump it awaits (`Drain.DrainThrowsExactlyWhen`, `Drain.DrainMayThrow`);
- masking drops a `__proto__` key, because it assigns keys to a plain object, so the read view is
  compared with the configuration without such keys (`EnvRefs.ResubmissionIsCaught`);
- the document store checks a step's component but not its workflow
  (`Store.RunOwnedExactlyUnlessOrphan`, `Store.StepsMayLackTheirWorkflow`).

Run `dafny verify dfyconfig.toml` to verify everything.

## Model

| member | source | states |
|---|---|---|
| Paths.ParseFieldPath | apps/server/src/core/runtime/request-validation.ts:22-75 | the cursor loop returns the segments the grammar gives the text, or null |
| Paths.FieldPathGrammar | apps/server/src/core/runtime/request-validation.ts:22-75 | for every text and segment list: parsing yields the list if and only if the text is a concatenation of spellings of its segments, so the grammar is unambiguous |
| Paths.FieldPathRoundTrip | apps/server/src/core/runtime/request-validation.ts:77-86 | parsing a formatted well-formed path (keys, quoted keys, indices, wildcards) returns that path |
| Paths.FieldPathNormalForm | apps/server/src/core/runtime/request-validation.ts:22-86 | formatting a parsed path is stable and is its unique shortest spelling |
| Paths.ParsePath | apps/server/src/core/transform/path.ts:14-49 | the cursor loop returns the segments of a `{$...}` path, or null |
| Paths.PathGrammar | apps/server/src/core/transform/path.ts:14-49 | accepts exactly `{$`, a payload path without wildcards and quoted keys, `}` |
| Paths.PathRoundTrip | apps/server/src/core/transform/path.ts:14-49 | parsing a printed path returns its segments |
| Paths.PathNormalForm | apps/server/src/core/transform/path.ts:14-49 | printing a parsed path gives the source back if and only if no index has a leading zero |
| Paths.PathHasNoInnerBrace | apps/server/src/core/transform/path.ts:14-49 | an accepted path holds no `}` before its last character |
| Paths.LookupPath | apps/server/src/core/transform/path.ts:52-70 | the loop finds what own-property lookup segment by segment finds; holes, foreign and unsafe indices are not found |
| Paths.LookupAppend | apps/server/src/core/transform/path.ts:52-70 | looking up a path in two stretches is looking it up at once |
| Paths.LookupIsChain | apps/server/src/core/transform/path.ts:52-70 | a path finds a value if and only if a chain of own properties leads to it |
| Paths.SegmentFinds | apps/server/src/core/transform/path.ts:52-70 | what one segment finds: own keys of objects, own slots, the length and the canonical numerals of arrays, safe indices, and nothing else |
| Tokens.Tokenize | apps/server/src/core/transform/expression.ts:47-114 | the token loop yields the tokens, or the error with its position, of the text from each position on |
| Tokens.TokensCoverSource | apps/server/src/core/transform/expression.ts:47-114 | tokenizing is lossless: tokens strictly advance, each stands in the text as written, and only white space lies between them |
| Tokens.ReadIsWritten | apps/server/src/core/transform/expression.ts:52-109 | whatever is read at a position is a way of writing the token returned |
| Tokens.RenderRoundTrip | apps/server/src/core/transform/expression.ts:47-114 | tokenizing the space-joined rendering of any writable token list returns that list |
| Lexing.ReadIsLongest | apps/server/src/core/transform/expression.ts:51-109 | for every text and position: a token is read up to j if and only if it stands there and no longer stretch writes a token, whatever follows |
| Lexing.BadIsNothing | apps/server/src/core/transform/expression.ts:51-109 | an error is raised at a position if and only if no token stands there and no white space |
| Lexing.TokenizedExactlyWhenLexed | apps/server/src/core/transform/expression.ts:47-114 | for every text: tokenizing yields these tokens if and only if they are its longest-match cover with white space around |
| Lexing.FailsExactlyWithoutCover | apps/server/src/core/transform/expression.ts:47-114 | tokenizing fails if and only if there is no such cover |
| Lexing.ErrorIsWhereNothingStands | apps/server/src/core/transform/expression.ts:47-114 | the error names the first position that tokens and white space lead to and where nothing can be read |
| Lexing.ProblemMeaning | apps/server/src/core/transform/expression.ts:58-109 | which of the problems it is, by the characters at that position |
| Parser.Cursor.ParseOr | apps/server/src/core/transform/expression.ts:176-183 | the closure over the shared cursor leaves the value, the position or the error of the grammar's or level |
| Parser.Cursor.ParseAnd | apps/server/src/core/transform/expression.ts:167-174 | the same for and |
| Parser.Cursor.ParseValue | apps/server/src/core/transform/expression.ts:123-145 | the same for operands and parentheses, without reading past the end-of-input token |
| Parser.ParseExpression | apps/server/src/core/transform/expression.ts:117-191 | tokenizer and parser together, with every syntax error and its position |
| Parser.OrSound | apps/server/src/core/transform/expression.ts:117-183 | what is parsed has canonical shape and prints to exactly the tokens consumed |
| Parser.OrComplete | apps/server/src/core/transform/expression.ts:117-183 | a printed canonical expression, followed by no continuing token, is parsed back |
| Parser.ParseIsInverseOfPrint | apps/server/src/core/transform/expression.ts:117-191 | for every token list and AST: parsing gives the AST if and only if it is canonical and prints to the list |
| Parser.ParsedExactlyWhenPrinted | apps/server/src/core/transform/expression.ts:117-191 | the same for every source text |
| PredicateMeaning.SourceIsPredicateExactlyWhen | apps/server/src/core/transform/expression.ts:47-191 | a source is a given predicate if and only if the printed tokens of the predicate, each the longest that stands, cover it |
| SyntaxErrors.ErrorIsAtFirstImpossibleToken | apps/server/src/core/transform/expression.ts:123-191 | for every token list that does not parse: the error is at the first token that no predicate can have there, or at the end; it asks for a value where one could stand, else for a parenthesis where one could, else rejects the token |
| Parser.PrintIsInjective | apps/server/src/core/transform/expression.ts:117-191 | no two canonical expressions print alike |
| Parser.SourceRoundTrip | apps/server/src/core/transform/expression.ts:47-191 | parsing the rendered text of any canonical expression returns it |
| Parser.RenderIsNormalForm | apps/server/src/core/transform/expression.ts:47-191 | rendering any parsed source parses to the same expression |
| Parser.FirstPathOperandIsFirstInSource | apps/server/src/core/transform/expression.ts:231-247 | firstPathOperand is the first path token of the source |
| Evaluation.PredicateDependsOnItsPaths | apps/server/src/core/transform/expression.ts:193-229 | a predicate's result, for every source, is determined by what the path tokens of the source read as, missing paths reading as null |
| Evaluation.UnreadNamespaceIsInvisible | apps/server/src/core/transform/expression.ts:193-197 | a predicate none of whose path tokens starts with a namespace evaluates alike whatever that namespace holds |
| Evaluation.NegatedOrder | apps/server/src/core/transform/expression.ts:199-211 | negating an order comparison reverses it if and only if both sides are numbers or both are strings |
| Evaluation.Trichotomy | apps/server/src/core/transform/expression.ts:199-211 | order comparisons are mutually exclusive, and hold only between two numbers or two strings |
| PredicateMeaning.HoldsExactlyWhenOneAlternativeDoes | apps/server/src/core/transform/expression.ts:213-217 | a predicate holds if and only if all conjuncts of one of its `or` alternatives hold |
| PredicateMeaning.NegationsAlternate | apps/server/src/core/transform/expression.ts:217 | a test under `!`s holds as without them if their number is even, and the other way round if odd |
| PredicateMeaning.ConjunctsAreTests | apps/server/src/core/transform/expression.ts:147-174 | every conjunct of a parsed predicate is a comparison, an `exists` or a bare value under negations |
| PredicateMeaning.TestMeaning | apps/server/src/core/transform/expression.ts:219-223 | `exists` fails on null alone, a bare value on null and false alone |
| PredicateMeaning.OperandMeaning | apps/server/src/core/transform/expression.ts:193-197 | a path reads as the scope says, a group as the truth value of its content |
| PredicateMeaning.ComparisonMeaning | apps/server/src/core/transform/expression.ts:199-211 | each operator symbol holds exactly by equality or by the order of two numbers or two texts, texts by their first differing unit |
| PredicateMeaning.FractionNumber | apps/server/src/core/transform/expression.ts:94-99 | a numeral with a fraction is the whole plus the digits after the point over a power of ten |
| Templates.ScanIsTheCut | apps/server/src/core/transform/resolve-template.ts:31-55 | a list of pieces is the one scanned if and only if it cuts the text into maximal plain stretches, candidates ending at their first `}` and a final unclosed rest |
| Templates.CutLosesNothing | apps/server/src/core/transform/resolve-template.ts:31-55 | the pieces in a row are the source |
| Templates.WholePathIsOneCandidate | apps/server/src/core/transform/resolve-template.ts:25-29 | a string that is one path is a single candidate to the scan as well |
| Templates.ResolveString | apps/server/src/core/transform/resolve-template.ts:24-57 | the appending loop shows exactly those pieces: plain text and unreadable candidates copied, paths replaced, missing ones by null |
| TemplateRules.EmbeddedPathRule | apps/server/src/core/transform/resolve-template.ts:31-55 | a path with text around it gives way to String of a scalar, JSON of an array or object, `null` for nothing, and the rest follows; an unknown root is an issue |
| TemplateRules.MalformedRule | apps/server/src/core/transform/resolve-template.ts:42-51 | a candidate that is no path is copied up to its first `}` with whatever is inside, and is an issue |
| TemplateRules.UnclosedRule | apps/server/src/core/transform/resolve-template.ts:37-41 | an opening that nothing closes is copied with all that follows, and is an issue |
| TemplateRules.PlainRule | apps/server/src/core/transform/resolve-template.ts:33-36 | a text without an opening is left as it is, without issues |
| TemplateRules.WholePathRule | apps/server/src/core/transform/resolve-template.ts:25-29 | a whole-string path yields the value found in its own type, null for a missing or undefined one |
| Templates.CandidateIssues | apps/server/src/core/transform/template-validation.ts:42-68 | the validator's own loop reports on exactly those pieces |
| Templates.Resolve | apps/server/src/core/transform/resolve-template.ts:59-69 | resolving any nested template gives the specified value, and the log of candidates the walk copied is the specified list |
| TemplateRules.ResolvedInPlace | apps/server/src/core/transform/resolve-template.ts:59-69 | arrays are resolved slot by slot, objects value by value under the same keys in the same order, and every other value is left alone |
| TemplateRules.IssuesAreOfTheStrings | apps/server/src/core/transform/template-validation.ts:27-40 | the issues are those of all strings in document order, each with the path of its string |
| Templates.VerbatimMeansUnchanged | apps/server/src/core/transform/resolve-template.ts:42-51 | a candidate is among those copied if and only if it shows the same text in every scope |
| Templates.ValidatorReportsCopied | apps/server/src/core/transform/template-validation.ts:27-68 | in any nested template the malformed and unterminated issues report exactly the candidates the runtime copies: the same texts in the same order, so as many |
| Templates.AcceptedExactlyWhenResolvable | apps/server/src/core/transform/template-validation.ts:27-68 | no issues if and only if every candidate is a path from a known namespace |
| Templates.AcceptedCopiesNothing | apps/server/src/core/transform/template-validation.ts:14-26 | resolving copies no candidate if and only if there are no issues but unknown roots; so none for an accepted template |
| Templates.NoTemplateTextLeaks | apps/server/src/core/transform/resolve-template.ts:18-23 | the text an accepted string resolves to holds no opening of a template if and only if no value shown for its candidates holds one and nowhere does a shown piece end in a brace where what follows starts with a dollar sign |
| Templates.DollarFreeValuesLeakNothing | apps/server/src/core/transform/resolve-template.ts:18-23 | so none is left when no value shown for a candidate of the string brings a dollar sign and none stands directly after a brace |
| Templates.BraceMeetsDollar | apps/server/src/core/transform/resolve-template.ts:18-23 | an accepted template and a value that put a template together in the resolved text |
| Templates.OnlyKnownRootsResolve | apps/server/src/core/transform/template-validation.ts:3-4 | a path with another root resolves in no scope |
| FieldValidation.CheckTargetMeaning | apps/server/src/core/runtime/request-validation.ts:104-133 | a target passes if and only if it meets every declared constraint; a failure names the target's path |
| FieldValidation.TypeMeaning | apps/server/src/core/runtime/request-validation.ts:92-102 | each declared type accepts exactly the values of that kind; an integer is a number without a fraction |
| FieldValidation.FirstComplaintIsReported | apps/server/src/core/runtime/request-validation.ts:104-133 | of the constraints a target does not meet the first is reported, after its path, unless the field has a message of its own |
| FieldValidation.WalkTargets | apps/server/src/core/runtime/request-validation.ts:135-167 | the early-exit walk returns the failure of the lexicographically first offending choice of wildcard indices, and null only if none offends |
| FieldValidation.FirstOffenceIsUnique | apps/server/src/core/runtime/request-validation.ts:135-167 | that specification determines the result |
| FieldValidation.PassingField | apps/server/src/core/runtime/request-validation.ts:135-167 | null if and only if every wildcard reached is on an array and every expanded target satisfies the field |
| FieldValidation.WildcardFreeIsLookup | apps/server/src/core/runtime/request-validation.ts:153-166 | without wildcards the target is what lookupPath finds |
| FieldValidation.WildcardEntersEveryElement | apps/server/src/core/runtime/request-validation.ts:139-152 | a wildcard on an array that lookupPath finds leads to every element under its index, and on anything else to the complaint about the wildcard itself |
| FieldValidation.TargetPathIsInstantiated | apps/server/src/core/runtime/request-validation.ts:148-151 | a failing target is named by its field path with concrete indices |
| FieldValidation.CollectFieldFailures | apps/server/src/core/runtime/request-validation.ts:169-185 | at most one failure per field, in configuration order; the first stored path that does not parse throws |
| Recorder.QueuedExecutionRecorder.RecordInvocation | apps/server/src/core/runtime/queued-execution-recorder.ts:71-91 | queueing, the two budgets, the bypass and the start of the pump, as one step of the state machine |
| Recorder.QueuedExecutionRecorder.OnPumpResumes | apps/server/src/core/runtime/queued-execution-recorder.ts:112-127 | the next round of the pump, or its finally block with the restart |
| Recorder.QueuedExecutionRecorder.OnWriteDone | apps/server/src/core/runtime/queued-execution-recorder.ts:129-146 | one attempt's result: settle, retry later, or drop |
| Recorder.RunKeeps | apps/server/src/core/runtime/queued-execution-recorder.ts:58-159 | in every reachable state: a non-empty queue has a running pump, one entry at most is in flight, all entries queued are settled, in flight or queued in that order, attempts are bounded by four and one |
| Recorder.Conservation | apps/server/src/core/runtime/queued-execution-recorder.ts:71-159 | every entry handed over is exactly one of queued, in flight or settled |
| Recorder.OnlyEscapesLose | apps/server/src/core/runtime/queued-execution-recorder.ts:129-159 | without an escaping exception every outcome is written, audit-only or dropped |
| Outcomes.AnswersDecide | apps/server/src/core/runtime/queued-execution-recorder.ts:129-146 | in every run the answers of the writer, read off the events and cut into groups, settle the entries one after the other: written on success, audit-only on an audit error, dropped after four failures and retried after fewer |
| Outcomes.WhoIsSettled | apps/server/src/core/runtime/queued-execution-recorder.ts:112-119 | the k-th entry settled is the k-th queued, and the one in flight is the next |
| Outcomes.DirectAnswersDecide | apps/server/src/core/runtime/queued-execution-recorder.ts:148-159 | in every run a direct write has one answer, which settles it |
| Outcomes.BypassedExactlyWhenFull | apps/server/src/core/runtime/queued-execution-recorder.ts:71-91 | an entry is written directly if and only if queueing it would exceed the number or the bytes allowed |
| Recorder.RunBytesExactly | apps/server/src/core/runtime/queued-execution-recorder.ts:71-118 | the byte count is the sum of the queued sizes and within the budget throughout a run if and only if the run never queues a queued object with another size |
| Recorder.RecordBytesExactly | apps/server/src/core/runtime/queued-execution-recorder.ts:71-91 | handing an entry over keeps the count exact if and only if it is not queued with another size |
| Recorder.ResizedEntryDrifts | apps/server/src/core/runtime/queued-execution-recorder.ts:83-85 | a run in which such an entry leaves an empty queue with a negative byte count |
| Drain.Drain | apps/server/src/core/runtime/queued-execution-recorder.ts:98-110 | the loop with its awaits, over any run of recorder events, clock and timer, is the specified state machine |
| Drain.DrainEnds | apps/server/src/core/runtime/queued-execution-recorder.ts:93-110 | begun in any reachable state of the recorder, drain returns with every queued entry settled in order, or at its deadline with work left, or throws with an entry lost |
| Drain.DrainThrowsExactlyWhen | apps/server/src/core/runtime/queued-execution-recorder.ts:98-127 | drain throws if and only if an exception that escapes a write ends a pump while drain awaits it |
| Drain.DrainMayThrow | apps/server/src/core/runtime/queued-execution-recorder.ts:98-127 | a run in which it does |
| Drain.DrainEndsInTime | apps/server/src/core/runtime/queued-execution-recorder.ts:98-110 | with prompt timers drain has ended within its timeout and one poll, in every run |
| Drain.DrainIsNeverStuck | apps/server/src/core/runtime/queued-execution-recorder.ts:98-110 | while drain awaits, the timer can fire after one poll or drain can resume; past the deadline or without work resuming ends it |
| Recorder.PumpProgress | apps/server/src/core/runtime/queued-execution-recorder.ts:112-146 | while work is left a pump event is possible, and each leaves strictly less work |
| Recorder.PumpEventsDrain | apps/server/src/core/runtime/queued-execution-recorder.ts:98-146 | with no new entries a bounded number of pump events drains the recorder |
| PayloadSize.EstimatePayloadBytes | apps/server/src/core/runtime/queued-execution-recorder.ts:19-35 | the walk terminates on any graph; it adds each newly seen object once, all of them reached from the value and closed under reference |
| PayloadSize.EstimateField | apps/server/src/core/runtime/queued-execution-recorder.ts:19-35 | the estimate is the sum over exactly the reachable objects of 16 plus their scalar children |
| PayloadSize.TotalCostTakes | apps/server/src/core/runtime/queued-execution-recorder.ts:19-35 | the sum is independent of the order of the objects |
| PayloadSize.NodeCostMeaning | apps/server/src/core/runtime/queued-execution-recorder.ts:19-35 | an object counts 16 bytes, and of its values a string its length, another scalar 8, null and references nothing |
| PayloadSize.EstimateEntryBytes | apps/server/src/core/runtime/queued-execution-recorder.ts:37-44 | five fields walked separately, plus 256 |
| ScriptRpc.RunKeeps | apps/server/src/core/runtime/script-evaluator.ts:46-135 | under any interleaving: ids belong to one call each, messages carry the parameters of their call, the evaluation settles at most once and a started worker is terminated exactly then |
| ScriptRpc.ResolvedCallHasOwnAnswer | apps/server/src/core/runtime/script-worker.ts:66-101 | a call is resolved at most once, with the envelope computed for its own parameters |
| ScriptRpc.RunTraffic | apps/server/src/core/runtime/script-worker.ts:66-84 | every id travels in one place at a time and none is reused |
| ScriptRpc.SettledIsFinal | apps/server/src/core/runtime/script-evaluator.ts:60-77 | after settling nothing is posted to the worker and the ending stands |
| ScriptOutcomes.FirstSignalDecides | apps/server/src/core/runtime/script-evaluator.ts:46-135 | in every run the evaluation ends as the first signal says: the script finished or failed, the deadline, the exit of the worker, or no worker at all; without a signal it is open |
| ScriptOutcomes.NoCallIsLost | apps/server/src/core/runtime/script-evaluator.ts:69-77 | in every run, as long as the evaluation is open, the ids the script waits for are exactly those requested, handled or answered, and every open call waits under one |
| ScriptRpc.ScriptWorker.DoRpc | apps/server/src/core/runtime/script-worker.ts:69-84 | a call gets a fresh id and is posted, or is resolved locally when it cannot be serialized |
| ScriptRpc.Evaluation.DoFinish | apps/server/src/core/runtime/script-evaluator.ts:60-67 | only the first ending settles, and it terminates the worker |
| TokenCache.AuthRuntime.OAuth2Token | apps/server/src/core/auth/authenticator.ts:72-81 | the cached fetch, or a new one cached at once |
| TokenCache.RunKeeps | apps/server/src/core/auth/authenticator.ts:61-81 | in every reachable state the fetches of a key are the cached one, those dropped by an invalidation and those evicted by their failure |
| TokenCache.FetchesAreBounded | apps/server/src/core/auth/authenticator.ts:72-81 | per key at most one fetch plus one for each invalidation and each failed fetch |
| TokenCache.StaleRejectionEvictsNothing | apps/server/src/core/auth/authenticator.ts:79 | a rejection removes its own entry only; a newer entry survives it |
| TokenCache.ReplayUsesFreshToken | apps/server/src/core/components/rest/rest.component.ts:117-133 | an execution sends at most two requests, and a replay's token is from a fetch started after its 401 |
| TokenReplays.FirstUnauthorizedIsReplayed | apps/server/src/core/components/rest/rest.component.ts:117-133 | in every run, by what the dispatches of an execution came to: a first 401 is followed by a replay unless the fresh token fails; anything else first, and whatever the replay comes to, ends it; and it never ends before a dispatch unless its token failed |
| TokenCache.ReplayStartsAFetch | apps/server/src/core/components/rest/rest.component.ts:127-133 | invalidating and resending always starts a fetch of its own |
| Resilience.Execute | apps/server/src/core/runtime/resilience-executor.ts:47-85 | the handler is called once for each attempt, the attempts made are exactly those up to the first that is not followed by another, and the caller gets that one with the elapsed time |
| Resilience.AttemptsMeaning | apps/server/src/core/runtime/resilience-executor.ts:52-84 | between one and retryCount + 1 attempts; all but the last failed retryably with a retry and time for the delay left, the last did not |
| Resilience.AnotherAttemptExactlyWhen | apps/server/src/core/runtime/resilience-executor.ts:28-83 | another attempt follows if and only if this one failed with a timeout, a connection error or an external error of a listed status in 500..599, retries are left, and the delay, written out, is below the budget left |
| Resilience.AttemptMeaning | apps/server/src/core/runtime/resilience-executor.ts:58-72 | an attempt ends by its own outcome or by the timer, which is the smaller of the timeout and the budget left |
| Resilience.ElapsedIsSum | apps/server/src/core/runtime/resilience-executor.ts:52-84 | the elapsed time is the sum of the attempts and of the delays between them |
| Resilience.WorstCaseElapsed | apps/server/src/core/runtime/resilience-executor.ts:35-85 | the last attempt settles within the elapsed-time budget when one is set, and within (retryCount + 1) timeouts plus all delays when there is a timeout |
| Resilience.NoAttemptAfterClientError | apps/server/src/core/runtime/resilience-executor.ts:28-33 | an attempt that ends in a 4xx is the last, whatever the policy lists as retryable |
| Redaction.FirstMatchIsLongest | apps/server/src/lib/redact.ts:38-50 | of the variants that apply at a position the longest wins |
| Redaction.NoSecretFrom | apps/server/src/lib/redact.ts:38-52 | no secret of six or more characters that a mask cannot be part of survives at any position, however matches overlap |
| Redaction.VariantsMeaning | apps/server/src/lib/redact.ts:37-42 | the pattern tries exactly the secrets and their encodings, longest first |
| RedactionRules.FirstIsMasked | apps/server/src/lib/redact.ts:43-52 | at the first position where a secret stands the longest one gives way to `***`, what precedes is kept, and the rest follows; one of fewer than six characters stands only as a word |
| RedactionRules.CopiedWhole | apps/server/src/lib/redact.ts:43-52 | a text in which no secret stands is left as it is |
| RedactionRules.ScrubbedInPlace | apps/server/src/lib/redact.ts:51-61 | scrubbing keeps the shape; a number or boolean is masked if and only if its text is a secret |
| RedactionRules.ScrubbedUnderKey | apps/server/src/lib/redact.ts:55-59 | under a key of a scrubbed object is the scrubbed value of the last entry whose key scrubs to it |
| RedactionRules.RedactedInPlace | apps/server/src/lib/redact.ts:10-28 | the value of a sensitive key becomes `***`, whatever it is; every key and all else is kept |
| Redaction.ScrubIsComplete | apps/server/src/lib/redact.ts:30-63 | such a secret occurs in no string and no key of the scrubbed value, at any depth, unless scrubbing throws |
| SafeSecrets.SafeExactlyWhenRobust | apps/server/src/lib/redact.ts:30-63 | a secret of six or more characters never occurs in any scrubbed value if and only if it does not start or end with an asterisk and holds no three in a row |
| SafeSecrets.FragileSecretReappears | apps/server/src/lib/redact.ts:30-63 | for every other such secret, some second secret and some text that scrubbing turns into a text holding it |
| SafeSecrets.SecretNeverStandsAlone | apps/server/src/lib/redact.ts:31-52 | a secret of any length that a mask cannot be part of never stands by itself in scrubbed text: where it still occurs it continues a word or stands next to an asterisk |
| SafeSecrets.ShortSecretNextToMask | apps/server/src/lib/redact.ts:44-49 | next to a mask a short secret can stand, although delimited there: in the source it made a word with the secret masked |
| Redaction.SensitiveIsCollected | apps/server/src/lib/redact.ts:66-82 | every scalar at or below a sensitive key is collected |
| RedactionRules.CollectedExactlyWhen | apps/server/src/lib/redact.ts:66-82 | a text is collected if and only if it is not empty and spells a scalar at or below a sensitive key |
| InvocationRecords.SecretInRecordExactlyWhenRaw | apps/server/src/core/runtime/runtime-executor.ts:78-89 | a sensitive input that scrubbing is safe for is in no text of the record if and only if it is not in the parts recorded as they are: names and ids, both statuses, both times, the request method, and the code, keys and kept details of the error |
| InvocationRecords.PasswordNamedLikeService | apps/server/src/core/runtime/runtime-executor.ts:79-80 | an exception: a password that is also the name of the service is recorded |
| InvocationRecords.PasswordSpelledLikeStatus | apps/server/src/core/runtime/runtime-executor.ts:81 | another: the password `failed` is in the record of every failure |
| EnvRefs.NoIssuesMeansAccepted | apps/server/src/core/env-ref/parse.ts:41-72 | no issues if and only if no string is a mask or a malformed reference |
| EnvRefRules.ReferenceGrammar | apps/server/src/core/env-ref/parse.ts:8-28 | a reference is exactly `{$env.`, a name and `}`, and stands for that name |
| EnvRefRules.IssuesAreOfTheStrings | apps/server/src/core/env-ref/parse.ts:41-72 | the issues are those of all strings in document order with their paths: masks, and the prefix without a reference |
| EnvRefs.MaskIsReplacement | apps/server/src/core/env-ref/mask.ts:8-24 | masking replaces exactly the references, each by the mask |
| EnvRefs.Walk | apps/server/src/core/env-ref/resolve.ts:34-52 | resolving is the same replacement by the variables' values, or the first unset variable with its path; either way the set gains exactly the non-empty values used up to there |
| EnvRefs.UnsetExactlyWhenFound | apps/server/src/core/env-ref/resolve.ts:34-40 | resolving fails if and only if some reference at any depth is to an unset variable |
| EnvRefRules.FirstUnsetIsFirstString | apps/server/src/core/env-ref/resolve.ts:34-52 | the error names variable and path of the first string in document order whose variable is not set |
| EnvRefRules.SecretsAreTaken | apps/server/src/core/env-ref/resolve.ts:36-43 | the secrets are exactly the non-empty values of the references before that string |
| EnvRefRules.ReplacedInPlace | apps/server/src/core/env-ref/resolve.ts:44-51 | resolving keeps shape, keys and every other string, and puts the value of its variable for a reference |
| EnvRefs.ResolveEnvRefs | apps/server/src/core/env-ref/resolve.ts:28-54 | the resolved configuration or the first unset variable, and exactly the secrets met |
| EnvRefs.ResubmissionIsCaught | apps/server/src/routes/services.route.ts:9-14 | for an accepted configuration the read view is accepted again if and only if it hides nothing |
| EnvRefs.AcceptedPrefixIsReference | apps/server/src/core/env-ref/parse.ts:8-17 | of the strings of an accepted configuration, at any depth, those that start with `{$env.` are exactly the references |
| EnvRefs.SamePositionsReplaced | apps/server/src/core/env-ref/mask.ts:8-24 | masking and resolving an accepted configuration replace the same strings: all that start with `{$env.` |
| Workflow.Execute | apps/server/src/services/workflow.service.ts:71-95 | the loop runs to the end or to the first step that stops it, with the contributions merged so far |
| Workflow.ReachesExactlyWhen | apps/server/src/services/workflow.service.ts:71-92 | a run completes n steps if and only if each of their components exists and none of them fails unless it is set to continue |
| Workflow.ContextIsInputPlusContributions | apps/server/src/services/workflow.service.ts:71-89 | after any prefix of steps the context is the input overridden by the contributions |
| Workflow.FailedStepLeavesNoTrace | apps/server/src/services/workflow.service.ts:83-91 | a failed `continue` step and a step without an object result leave no trace: the rest of the run, its stops included, is that of the workflow without the step |
| Workflow.LastContributionWins | apps/server/src/services/workflow.service.ts:83-88 | a variable has the value of the last step that contributed it |
| Workflow.Contribution | apps/server/src/core/runtime/script-worker.ts:126-144 | the diff loop yields exactly the added and changed variables |
| Workflow.DeltaReproducesBag | apps/server/src/core/runtime/script-worker.ts:126-147 | merging a script's contribution into its starting bag gives its final bag on every key left in it |
| Workflow.ScriptsRefineOneBag | apps/server/src/services/workflow.service.ts:74-89 | a workflow of scripts over JSON values leaves the context that running them in turn on one bag leaves, where a deleted variable stays |
| Workflow.OnlyDeletionsDiffer | apps/server/src/core/runtime/script-worker.ts:126-147 | merging a script's contribution into its starting bag gives its final bag if and only if the script deletes no variable |
| Workflow.NothingDeletedIsFaithful | apps/server/src/services/workflow.service.ts:74-89 | scripts that delete nothing on the way are run as if on one bag |
| Store.ComponentKeyIsInjective | apps/server/src/core/db/adapters/couchbase-adapter.ts:66-67 | two components share a document key if and only if they share service and action |
| Store.KeyedLookupIsScan | apps/server/src/core/db/adapters/couchbase-adapter.ts:143-153 | a keyed lookup agrees with a scan for the natural key |
| Store.RunKeeps | apps/server/src/core/db/adapters/couchbase-adapter.ts:129-339 | at every point of every sequential run of component, workflow and step operations each document sits under the encoding of its own key and every step's component exists |
| Store.LookupIsScanInRuns | apps/server/src/core/db/adapters/couchbase-adapter.ts:143-153 | at every point of every run a keyed lookup is the one match of a scan for the natural key |
| Store.WorkflowLookupIsScanInRuns | apps/server/src/core/db/adapters/couchbase-adapter.ts:246-256 | the same for workflows and their names |
| Store.SucceedsExactlyWhen | apps/server/src/core/db/adapters/couchbase-adapter.ts:129-339 | an operation is carried out if and only if it brings no second document for a natural key or step id, leaves no step without its component, and finds the id it asks for |
| Store.ComponentStays | apps/server/src/core/db/adapters/couchbase-adapter.ts:129-230 | throughout a run a component is as saved as long as no update or deletion asks for its id |
| Store.StepStays | apps/server/src/core/db/adapters/couchbase-adapter.ts:291-339 | throughout a run a step is as saved as long as the steps of its workflow are not deleted |
| Store.DeletedStepsStayAway | apps/server/src/core/db/adapters/couchbase-adapter.ts:291-303 | once a workflow is deleted none of its steps is left, at any later point of the run until a step is saved for it anew |
| Store.RunOwnedExactlyUnlessOrphan | apps/server/src/core/db/adapters/couchbase-adapter.ts:291-317 | every step belongs to an existing workflow throughout a run if and only if the run never saves a step whose workflow does not exist |
| Store.StepsMayLackTheirWorkflow | apps/server/src/core/db/adapters/couchbase-adapter.ts:305-317 | a run that does: saving a step checks its component only |
| Store.DocumentStore.SaveComponent | apps/server/src/core/db/adapters/couchbase-adapter.ts:129-134 | one transition of the store: insert under the natural key, or a conflict that changes nothing |
| Store.DocumentStore.UpdateComponent | apps/server/src/core/db/adapters/couchbase-adapter.ts:197-216 | one transition of the store: one document with the given id changes in body and version, never in natural key or id |
| Store.DocumentStore.DeleteComponent | apps/server/src/core/db/adapters/couchbase-adapter.ts:218-230 | refused exactly when no component has the id or a step refers to it |
| Store.DocumentStore.SaveWorkflowStep | apps/server/src/core/db/adapters/couchbase-adapter.ts:305-317 | refused exactly when the component does not exist or the step's key is taken |
| Store.DocumentStore.DeleteWorkflowSteps | apps/server/src/core/db/adapters/couchbase-adapter.ts:329-339 | the removing loop leaves exactly the steps of other workflows |
| Store.DocumentStore.DeleteWorkflow | apps/server/src/core/db/adapters/couchbase-adapter.ts:291-303 | removes the document and exactly the workflow's steps, or finds no such workflow |
| Invocation.Frame.RunResponsePipeline | apps/server/src/core/runtime/response-pipeline.ts:21-46 | the first rule that does not pass decides the error; the default replaces an output only if it was empty and every rule passed on it |
| Invocation.RuntimeExecutor.HandleError | apps/server/src/core/runtime/runtime-executor.ts:133-170 | the catch block maps what it can and records and rethrows the sanitized error, or throws again before recording when a secret cannot be encoded |
| Invocation.RuntimeExecutor.DoRecord | apps/server/src/core/runtime/runtime-executor.ts:196-210 | the entry is handed to the recorder once; what the recorder throws is caught and shows in the log only |
| Invocation.RuntimeExecutor.Invoke | apps/server/src/core/runtime/runtime-executor.ts:62-170 | ending and records are those of the scenario, whatever the recorder answers; the recorded attempts are the calls the handler got |
| InvocationRecords.RecordedExactlyWhenScrubbable | apps/server/src/core/runtime/runtime-executor.ts:62-170 | once a component is found one record is written if and only if the handler settles and every secret collected is well-formed UTF-16; otherwise none, and for an ill-formed one another exception escapes |
| InvocationRecords.LimitedInvocationSettles | apps/server/src/core/runtime/resilience-executor.ts:52-68 | with a timeout or a budget the handler's part always settles, so the condition above is about the secrets alone |
| InvocationRecords.LoneSurrogateEscapes | apps/server/src/core/runtime/runtime-executor.ts:73-82 | an input for which nothing is recorded: a password with a lone surrogate, whatever the component |
| InvocationRecords.CompletedExactlyWhenReturned | apps/server/src/core/runtime/runtime-executor.ts:62-170 | invoke returns if and only if a COMPLETED record was written, with the data returned; it rethrows an error if and only if that error was recorded as FAILED |
| InvocationRecords.PrimaryCodeSurvives | apps/server/src/core/runtime/runtime-executor.ts:133-170 | the code of the error thrown is rethrown, recorded and found inside the recorded result, whatever rules, mapping and default do in the catch block |
| Invocation.InjectedErrorIsFound | apps/server/src/core/runtime/response-pipeline.ts:65-75 | the standard error can be read back from any mapped output, enveloped or not, and overwrites no other key |
| InvocationRecords.DefaultNeedsPassingRules | apps/server/src/core/runtime/response-pipeline.ts:20-46 | a configured default has no effect on ending or record unless the output was empty and every response rule passed on it, on success and on failure |
| InvocationRecords.FailureMappingKeepsError | apps/server/src/core/runtime/runtime-executor.ts:135-152 | after a failed execution no mapping, rule or default changes the error |
| InvocationRecords.RuleErrorBeatsMapping | apps/server/src/core/runtime/response-pipeline.ts:21-46 | a rejected rule is reported whatever the transformation would do |
| InvocationRecords.ReturnsExactlyWhenNothingFails | apps/server/src/core/runtime/runtime-executor.ts:93-132 | invoke returns data if and only if the handler answered, every rule passed, the mapping worked and the secrets can be scrubbed |
| InvocationRecords.HandlerCalledExactlyWhen | apps/server/src/core/runtime/runtime-executor.ts:93-125 | the handler is called at least once if and only if the condition neither fails nor is malformed, the type is known and executable, the input valid and every reference set; and at most retryCount + 1 times |
| InvocationRecords.FailedConditionSkips | apps/server/src/core/runtime/runtime-executor.ts:94-106 | a failed condition skips the component, whatever else is wrong with it, with a COMPLETED record of no attempts |
| InvocationRecords.FirstObstacleRejects | apps/server/src/core/runtime/runtime-executor.ts:99-114 | otherwise the first of these errors in order is rethrown and recorded, with no attempts |
| InvocationRules.ReturnedData | apps/server/src/core/runtime/runtime-executor.ts:120-132 | the data returned is the mapping of the answer, or of the default if every rule let an empty answer pass, redacted and scrubbed |
| InvocationRules.RecordMeaning | apps/server/src/core/runtime/runtime-executor.ts:74-91 | the record names its execution, counts the calls the handler got, and shows input, request and response cleaned with all secrets known at the end |
| InvocationRules.SecretsKnown | apps/server/src/core/runtime/runtime-executor.ts:69-143 | which secrets those are: of the input, the configuration, the references, the handler, its answer and the body of a failure |
| InvocationRules.FailureShows | apps/server/src/core/runtime/runtime-executor.ts:133-166 | the recorded result of a failure is the mapping of the disclosed body, the answer or null, after the default where it is due, or null, with the error put in |
| InvocationRules.FirstRuleDecides | apps/server/src/core/runtime/response-pipeline.ts:21-42 | the first rule that does not pass gives the error, and a malformed one the error of its own |
| InvocationRules.OtherExceptionsAreInternal | apps/server/src/core/runtime/runtime-executor.ts:134 | an exception that is no AppError is rethrown as an internal error without details |

## Left out

- HTTP routes, middleware, logging, configuration loading, startup, shutdown and health: no property beyond their own lines.
- Socket timing and TLS material: they depend on the order of platform events and on certificate parsing.
- The SQLite, PostgreSQL, Oracle and MongoDB adapters, schema probing and error translation; execution, log and configuration documents of the Couchbase adapter.
- Concurrent writers of the document store: the repository checks versions and updates in two calls, so the store's runs are sequential.
- Running user JavaScript, JSON text, URL and form encoding, hashing: parameters of the model, assumed injective, non-empty or free of colons where a theorem says so.
- Characters stand for UTF-16 code units, halves of surrogate pairs included (see Text.Unit); lengths and orders are those of code units.
- Numbers are exact: a literal's value is the decimal it writes, before rounding to a double. Path indices are exact naturals; beyond 2^53 the source rounds them, and looks none of them up.
- The wording of syntax errors: a problem and a position stand for the message.
- Which keys are sensitive: the fixed list, compared without case, is a predicate on keys.
- Prototype effects of a `__proto__` key outside of masking, where the key is lost and the model says so.
- assertValidPath, assertValidExpression: parsePath or parseExpression with a root check, whose parts are modelled.
- `=== ` on objects is identity: operands are seen by an abstract identity, not by structure.
- Templates.ResolveString: String(number) and JSON.stringify are parameters of the printer.
- Recorder.QueuedExecutionRecorder.RecordInvocation: the size estimate is an input, so that an object may change between two calls; PayloadSize models the estimate.
- Drain.Drain: the warning it logs; several drains at once, which do not affect one another; what an unhandled rejection of a pump nobody awaits does to the process.
- Recorder.QueuedExecutionRecorder.OnWriteDone: the texts logged, and an exception that escapes a direct write, which is the caller's to handle.
- ScriptRpc.RunKeeps: a bridge reply that is not JSON text, which the host never posts; messages are delivered in order and a terminated worker takes no further step.
- TokenCache.ReplayUsesFreshToken: the REST execute method appears as steps of the state machine, one for each stretch between awaits, not as one method; left out are basic authentication, which has no token and no replay; the token request itself; errors after the response.
- Resilience.Execute: a real clock; timers fire on time and code between awaits takes none. Defaults of the policy are filled in before.
- FieldValidation.WildcardFreeIsLookup: requires array lengths below 2^32, as JavaScript's are.
- Redaction.ScrubIsComplete: secrets shorter than six characters, which are only matched as words, as the source documents (SafeSecrets.SecretNeverStandsAlone says what holds for them); how the encodings work beyond what SafeSecrets.IsEncoding says.
- InvocationRecords.SecretInRecordExactlyWhenRaw: the numbers of a record and the names of its own fields, which are not texts of the invocation.
- Workflow.Execute: response mapping, which is template resolution over the final context; key order of merged objects.
- Workflow.ScriptsRefineOneBag: redaction of a step's data, which it assumes untouched.
- Store.DocumentStore.UpdateComponent: the single fields of a component or workflow are one body; timestamps. That ids are unique is up to the callers who generate them: with several matches a scan by id picks any.
- Invocation.RuntimeExecutor.Invoke: durations, a failing logger, secrets a handler reports after its attempt timed out, a recorder whose promise never settles, and what throws other than the steps named in the scenario, such as a value too deep to walk or a secret so long that the engine refuses the pattern.
