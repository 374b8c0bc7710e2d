# Verified model of openbotstack-core

A Dafny model of the parts of openbotstack-core whose behaviour is decided by its own code, with proofs
about every input, every map-iteration order, every tie-breaking of an unstable sort and every interleaving.

| area | source | modules |
|---|---|---|
| JSON-Schema validator | `validation/schema.go` | `Schemas`, `SchemaFaults`, `SchemaTheorems`, `SchemaPolarity`, `SchemaReports` |
| templates and step preparation | `execution/template/engine.go`, `execution/plan.go` | `Decimals`, `Templates`, `Resolution`, `ResolutionTheorems`, `ResolutionLaws`, `Steps`, `Plans` |
| streaming tool-call decoders | `ai/providers/streaming.go`, `ai/providers/anthropic_streaming.go` | `Streams`, `StreamChannel`, `StreamLoss`, `OpenAI`, `Anthropic`, `StreamEvents`, `OpenAITheorems`, `AnthropicTheorems`, `StreamTheorems` |
| policy engine | `control/policy/policy.go` | `TimeWindows`, `Policy` |
| metrics store | `telemetry/metrics.go` | `LabelKeys`, `LabelReadings`, `Metrics`, `MetricsTheorems` |
| skill registry | `registry/skills/in_memory_registry.go`, `registry/skills/base.go` | `MapStores`, `Registry`, `RegistryRuns` |
| retrieval | `ai/retrieval/pipeline.go` | `Chunking`, `Utf8`, `Retrieval` |

`Values` holds decoded JSON values, `StringOrder` the byte-wise order of strings, `Sequences` facts about
sequences. `dafny verify dfyconfig.toml` checks everything.

Conventions. Loops that visit a Go map take any element next, so each contract covers every iteration
order. `sort.Slice` is a sort that breaks ties arbitrarily. A type whose methods update its fields in Go is
a class here; its methods are proved against functions, and the lemmas are about those functions. Library
calls whose result is not the repository's decision (`jsonEqual`, regular expressions, JSON and `%v`
formatting, UUIDs, tokenising) are parameters, and every theorem holds for every choice of them.

Main results:

- Strict validation is lenient validation of the schema with `additionalProperties: false` put on it and on
  every sub-schema, with the same errors. Both validators decide one declarative satisfaction relation, the
  errors they may report are exactly those some order of visiting the maps reports, and every error names a
  place that exists and fails.
- A value is rejected iff it breaks a keyword, each spelt out, and the first broken one is reported.
- `Resolve` is one-pass substitution: templates resolve one by one, whatever surrounds them.
  `ExtractReferencedSteps` returns exactly the steps its result depends on.
- On every stream of lines, whatever lines there are besides, both stream decoders invert every fragmentation
  and interleaving of a list of tool calls; which chunk carries the complete list is stated as an equivalence,
  and every complete run through the bounded channel delivers it.
- What the enforcer may decide is stated in the fields of the rules; a decision is independent of the order of
  equal priorities exactly when the top rules agree.
- A context assembled from chunks meets its budget in content; the separators come on top, and when the joined
  text stays within the budget is stated in the chunks and the budget (`ContextFitsIff`).
- Concurrent registry events balance with the store in every run; they replay when calls about one identifier
  are serialized, and two of them under way are exactly what may bring them out of order.
- While no label value reads like the start of a later label (no value without a comma does), each
  metrics entry is the exact history of its labels; every label set has the key of exactly one such set, its
  reading, and two share a key iff they share the reading.

Where the code differs from its documentation, the model follows the code:

- `Resolve` and its doc comment (`execution/template/engine.go:17-19`) promise to preserve the type of a
  template that is the whole string; the code returns a string on every path
  (`execution/template/engine.go:50-52`, `215-228`; `ResolveYieldsStrings`). The type is preserved iff it is
  a string already (`TypeIsPreservedIffString`, `NumberBecomesText`).
- `ai/types/types.go:134-136` promises complete tool calls on the final chunk. The OpenAI client asks for a
  usage line (`ai/providers/streaming.go:87`), and a line with usage alone is answered by a chunk without calls:
  the final chunk is complete iff the last data line has choices (`FinalChunkIsCompleteIffChoices`,
  `UsageAloneEndsWithoutCalls`).
- `ai/types/types.go:141-142` promises a final error chunk on a stream error. It is dropped when the buffer is
  full (`ai/providers/streaming.go:252-257`, `262-267`), and the truncated stream then looks complete: this may
  happen iff the stream has more chunks than the buffer holds (`SilentTruncationIff`).
- Strict mode is documented as the tighter one (`validation/schema.go:53-54`); under `oneOf` or `if` it can
  accept what lenient mode rejects (`StrictIsNotStricterUnderOneOf`, `StrictIsNotStricterUnderIf`). A
  sufficient condition for strict acceptance to imply lenient acceptance is proved (`StrictImpliesLenient`).
- `Labels.String` is meant as a map key (`telemetry/metrics.go:13`); values with commas can collide
  (`CommasCollide`, `CollideIffSameReading`).
- Registry events are fired outside the store's lock, so an unregistration may reach a subscriber before
  the registration it follows (`EventsMayOvertake`); `SerializedEventsReplay` and `OrderIsAtRiskIffTwoPending`
  say when.
- `RemoveRule` takes no tenant and may remove another tenant's rule (`RemoveMayTakeAnotherTenantsRule`,
  `RemoveUndoesAddIff`).
- `control/policy/policy.go:166` says that all conditions of a rule must match; with both time keys the others
  are ignored (`control/policy/policy.go:174-185`). `AllConditionsCountIff` says for which rules that makes no
  difference, `OtherConditionIsIgnored` gives attributes that show it.
- `Subscribe` is documented to return an unsubscribe function (`registry/skills/in_memory_registry.go:119`); it returns nothing.

## Model

| member | source | states |
|---|---|---|
| Schemas.ValidateValue | validation/schema.go:68-128 | accepts exactly the values that satisfy the schema in lenient mode; otherwise the error belongs to the first check, in the order of the code, that the value fails |
| Schemas.ValidateValueStrict | validation/schema.go:130-188 | the same for strict mode |
| Schemas.ValidateType | validation/schema.go:190-221 | rejects exactly the values that are not of the declared type, any value under an unsupported type name included; `integer` means a number equal to its int64 truncation |
| Schemas.ValidateEnum | validation/schema.go:223-230 | accepts iff some listed value is JSON-equal to the data |
| Schemas.ValidateBasics | validation/schema.go:73-91 | type, then enum, then const: the first of them that fails is the error |
| Schemas.ValidateShape | validation/schema.go:94-113 | the lenient switch on the declared type: no error iff the constraints of that type hold; array and number keywords bind only under their own type, object keywords also under no type with non-nil properties |
| Schemas.ValidateShapeStrict | validation/schema.go:154-174 | the strict switch on the declared type, likewise |
| Schemas.Validate | validation/schema.go:385-388 | the validator chosen by mode keeps the promise of that mode |
| Schemas.ValidateString | validation/schema.go:238-260 | length bounds, then pattern; a pattern that does not compile is an error |
| Schemas.ValidateNumber | validation/schema.go:262-275 | inclusive bounds; the lower one is reported first |
| Schemas.ValidateArray | validation/schema.go:277-304 | every element satisfies the sub-schema that governs its index (prefix schema, else items); the error is that of the first failing element |
| Schemas.ValidateArrayStrict | validation/schema.go:306-333 | the same in strict mode |
| Schemas.ValidatePrefixItems | validation/schema.go:444-459 | every element that has a prefix schema satisfies it; missing elements are accepted |
| Schemas.ValidateObject | validation/schema.go:335-382 | required keys present, every declared property that is present valid, and no unknown key where unknown keys are rejected; for any order of visiting properties and keys; the first absent required key is the one reported |
| Schemas.ValidateComposition | validation/schema.go:384-424 | anyOf is existence, oneOf is exactly one, allOf is all; the oneOf error carries the number of alternatives that accept |
| Schemas.MatchesAny | validation/schema.go:391-397 | some alternative of anyOf accepts, found with an early exit |
| Schemas.CountMatches | validation/schema.go:404-409 | the number of alternatives of oneOf that accept |
| Schemas.ValidateConditional | validation/schema.go:463-483 | fails iff the branch selected by the if-schema fails, and says which branch |
| Schemas.ExactlyOneMatch | validation/schema.go:403-413 | the counter ends at one iff exactly one alternative accepts |
| SchemaTheorems.StrictIsLenientOfClosed | validation/schema.go:130-188 | strict acceptance of a schema is lenient acceptance of the closed schema: additionalProperties false here and in every sub-schema, oneOf and if included |
| SchemaTheorems.StagesClose | validation/schema.go:335-483 | each check of the validator (basics, shape, anyOf, oneOf, allOf, if) has the same outcome before and after closing |
| SchemaTheorems.StrictErrorsAreErrorsOfClosed | validation/schema.go:130-188 | the errors strict validation may report are those lenient validation of the closed schema may report |
| SchemaPolarity.StrictImpliesLenient | validation/schema.go:335-483 | strict acceptance implies lenient acceptance on schemas where acceptance carries over: a several-way oneOf over sub-schemas the modes agree on, and under if no newly met or newly failed condition that matters |
| SchemaPolarity.AcceptanceCarriesOver | validation/schema.go:335-483 | by polarity, in either direction: the other mode accepts what one mode accepts; a one-way oneOf follows its alternative, an if its condition, and a branch that accepts everything does no harm |
| SchemaPolarity.LenientImpliesStrict | validation/schema.go:367-379 | lenient acceptance implies strict acceptance on schemas whose object schemas reject unknown keys already, up to the polarity of oneOf and if |
| SchemaPolarity.PlainSchemasKeep | validation/schema.go:335-483 | schemas free of if and of oneOf with several alternatives are of the first kind, so strict mode is tighter on them |
| SchemaPolarity.StrictIsNotStricterUnderOneOf | validation/schema.go:403-413 | a concrete schema with a two-way oneOf and a value that only strict mode accepts |
| SchemaPolarity.StrictIsNotStricterUnderIf | validation/schema.go:469-476 | a concrete schema with if and a value that only strict mode accepts |
| SchemaTheorems.ErrorsLocateRealPlaces | validation/schema.go:296-301 | the field of every error spells the path of an existing node, with a key after a dot unless nothing stands before it and an index in brackets; the node breaks the keyword reported and none checked before, nor is one broken on the way there; a missing field adds the first absent key, an unknown property one key not declared |
| SchemaTheorems.FieldTextFrom | validation/schema.go:426-431 | the field built from the outside inwards is the one the segments spell |
| SchemaFaults.RejectedIff | validation/schema.go:68-188 | a value is rejected iff it breaks a keyword itself or an element or declared property of it is rejected; each keyword is spelt out in the fields of the schema |
| SchemaFaults.WrongTypeIsReported | validation/schema.go:190-221 | a value that is not of the declared type is reported as that and nothing else; an integer is a number that some int64 equals |
| SchemaFaults.CompositionIsFirst | validation/schema.go:384-424 | when all earlier checks pass, the error is the first composition keyword that is broken; oneOf tells how many alternatives accept |
| SchemaReports.RunKeepsPromise | validation/schema.go:68-188 | under every choice of orders of visiting properties and object keys, at every level, the verdict is the same and an error is one that explains the rejection |
| SchemaReports.ExplainedErrorIsReported | validation/schema.go:350-378 | every error that explains a rejection is reported under some such choice |
| Decimals.TryParseInt | execution/template/engine.go:247-270 | accepts exactly an optional minus sign and digits (a lone minus sign included) and returns the wrapped decimal value |
| Decimals.ScanInt | execution/template/engine.go:247-258 | decides the integer literals |
| Decimals.EvalInt | execution/template/engine.go:259-269 | int64 accumulation digit by digit gives the decimal value modulo 2^64 |
| Decimals.WrapIsUnique | execution/template/engine.go:259-269 | the result is the one int64 congruent to the value modulo 2^64 |
| Decimals.ParseIntExact | execution/template/engine.go:247-270 | in int64 range parsing is exact |
| Decimals.ParseIntInvertsPrint | execution/template/engine.go:247-270 | parsing inverts decimal printing on every int64, the least one included |
| Decimals.TryParseFloat | execution/template/engine.go:272-320 | accepts exactly an optional minus sign, digits, one dot, digits; and returns the decimal value |
| Decimals.ScanFloat | execution/template/engine.go:272-291 | decides the float literals and finds their only dot |
| Decimals.FloatValueIsQuotient | execution/template/engine.go:292-320 | the value is the digits without the dot over a power of ten, signed |
| Decimals.LiteralsAreDisjoint | execution/template/engine.go:160-169 | no string is a literal of two kinds, so the order of the three attempts is immaterial |
| Decimals.IntLiteralsAre | execution/template/engine.go:247-258 | integer literals are non-empty strings of the ten digits but for a minus in front, which may stand alone for 0 |
| Decimals.FloatLiteralsAre | execution/template/engine.go:272-291 | float literals are a minus or nothing, digits, a dot and digits |
| Decimals.SpelledValue | execution/template/engine.go:292-320 | the value of such a string, by its parts |
| Decimals.PrintIsUnique | validation/schema.go:296-301 | a number has one decimal form without superfluous zeros, and it is the one printed |
| Templates.OccurrencesAreDisjoint | execution/template/engine.go:15 | two distinct occurrences of the template pattern never overlap |
| Templates.MatchAtIsOccurrence | execution/template/engine.go:15 | the greedy matcher finds an occurrence at a position iff there is one, and finds that one |
| Templates.ScanFindsAll | execution/template/engine.go:28 | the leftmost scan returns exactly the occurrences |
| Templates.SplitIsLongestKey | execution/template/engine.go:86-114 | the step is the longest dot-boundary prefix that is a result key, or the whole content when none is; content is step, or step, dot and field; the step is never empty |
| Templates.ResolveTemplateContent | execution/template/engine.go:86-114 | the loop that strips segments from the right computes that split |
| ResolutionLaws.TemplateIff | execution/template/engine.go:15 | double braces around a text are a template iff it is letters, digits, underscores, dots and hyphens and starts with neither dot nor hyphen |
| Resolution.ExtractField | execution/template/engine.go:176-193 | the walk through nested maps, with the first error met |
| Resolution.FieldFromWalks | execution/template/engine.go:176-193 | success and value of the loop are those of walking the path |
| Resolution.FieldOfConcatenation | execution/template/engine.go:176-193 | walking a concatenated path is walking its two halves in turn |
| ResolutionLaws.SegmentsAreBetweenDots | execution/template/engine.go:178 | a text without dots is one segment; a dot separates segments |
| ResolutionLaws.FieldErrorIsWhereWalkStops | execution/template/engine.go:180-189 | a field error tells how far the path can be walked and what is met there: a value that is no map, or a map without the next segment and its keys |
| Resolution.ResolveContent | execution/template/engine.go:39-52 | the text of one reference or its error, consulting no result but that of its step |
| Resolution.Interpolate | execution/template/engine.go:56-76 | replaces each match in turn, leaves failed references standing and collects all errors in order |
| Resolution.ResolveTemplate | execution/template/engine.go:24-81 | all paths of Resolve, and exactly which step results they consult |
| ResolutionTheorems.ParseIsFaithful | execution/template/engine.go:28 | literal text and references put back together give the string; no literal piece holds an occurrence |
| ResolutionTheorems.ResolveIsSubstitution | execution/template/engine.go:24-81 | with any results, Resolve succeeds iff every reference resolves, and then returns the untouched literal text interleaved with the replacements, on the whole-string path too |
| ResolutionTheorems.ResolveYieldsStrings | execution/template/engine.go:17-52 | success always yields a string |
| ResolutionTheorems.TypeIsPreservedIffString | execution/template/engine.go:33-53 | when the whole string is one template, Resolve returns the value it denotes iff that is a string |
| ResolutionTheorems.NumberBecomesText | execution/template/engine.go:33-53 | a template and a number for which the documented type is not preserved |
| ResolutionLaws.ReplacementIsText | execution/template/engine.go:215-245 | what stands for a reference is the string it denotes, or the formatted text of any other value |
| ResolutionLaws.WholeTemplateOutcome | execution/template/engine.go:33-53 | the outcome for one whole template: the text, an unknown step with the known ones, or the error of the field |
| ResolutionLaws.NoResultsNoChange | execution/template/engine.go:25-27 | without results every string resolves to itself |
| ResolutionLaws.NoTemplateNoChange | execution/template/engine.go:28-31 | a string without a template resolves to itself |
| ResolutionLaws.ResolveAround | execution/template/engine.go:56-80 | a string with a template in it resolves to what stands for the template between what the text before and the text after resolve to, and succeeds iff all three do; with the two rows before this determines every success |
| ResolutionLaws.FailuresAreReportedInOrder | execution/template/engine.go:57-78 | embedded references that fail are reported each with its own error, in the order of their positions |
| ResolutionTheorems.ExtractReferencedSteps | execution/template/engine.go:122-147 | the loop with its seen-set returns the specified list |
| ResolutionTheorems.ReferencedSteps | execution/template/engine.go:135-146 | that list has no duplicates and holds exactly the known steps some reference names |
| ResolutionLaws.ReferencedInOrder | execution/template/engine.go:135-146 | it lists them in the order of their first references |
| ResolutionTheorems.ConsultedAreExtracted | execution/template/engine.go:116-147 | the steps whose results Resolve consults are exactly the extracted ones |
| ResolutionTheorems.DependenciesSuffice | execution/template/engine.go:116-147 | results with the same keys that agree on the extracted steps give the same outcome, errors included |
| ResolutionTheorems.DependenciesAreExact | execution/template/engine.go:116-147 | when Resolve succeeds, a step is extracted iff some change of its result alone changes the outcome |
| Steps.Arguments.CoerceStringNumbers | execution/template/engine.go:153-172 | in any key order, maps coercion over the arguments and counts the values changed; the booleans after are those before and the strings "true" and "false" as what they say |
| Steps.CoercionReadsSpelling | execution/template/engine.go:153-172 | which strings become booleans, integers and floats, by their spelling, and that all others stay |
| Steps.NumeralsAreRead | execution/template/engine.go:160-169 | the printed form of every int64 is coerced to it, and a decimal fraction to its value |
| Steps.CoercionIsIdempotent | execution/template/engine.go:153-172 | coercing again changes nothing and counts 0 |
| Steps.ExecutionStep.Clone | execution/plan.go:67-76 | a fresh step with a fresh argument map of equal contents; nil stays nil |
| Steps.ExecutionStep.ResolveArguments | execution/plan.go:90-106 | succeeds iff every string argument resolves, then all are replaced; on failure it names an argument that does not resolve; in any key order |
| Steps.ExecutionStep.Prepare | execution/plan.go:117-124 | succeeds iff every argument still a string after coercion resolves; the result is fresh and pointwise, its booleans those given or spelt; nothing that existed before is modified, on success or failure |
| Steps.PreparedArgument | execution/plan.go:117-124 | same keys; "true", "false" and numerals become what they spell, other strings their template substituted and not coerced again, everything else is kept |
| Steps.PreparationDependsOnReferences | execution/plan.go:117-124 | preparation depends only on the results of the steps its arguments reference |
| Plans.GroupParallelSteps | execution/plan.go:203-227 | the batches concatenate to the steps, each is one ungroupable step or a run of one group, and no two neighbours could be merged |
| Plans.CanonicalIsUnique | execution/plan.go:200-227 | there is only one such partition, so regrouping a flattened one gives it back |
| Plans.FirstBatchIsLongest | execution/plan.go:212-220 | the first batch of such a partition is as long as its run allows |
| Plans.NeighboursShareBatchIff | execution/plan.go:209-224 | a step is in one batch with the next iff both may run in parallel and name the same non-empty group |
| Plans.ExecutionPlan.Freeze | execution/plan.go:154 | the plan is frozen |
| Plans.ExecutionPlan.Validate | execution/plan.go:161-198 | succeeds iff the plan is not frozen, not empty and every step is named, of a known type and of a new name; then it is frozen and has identifiers, those given being kept; an error names the first fault and the steps from there on are untouched |
| Plans.StepsAreOkIff | execution/plan.go:175-191 | steps are in order iff each is named, of type skill, tool or llm, and of a name no other has |
| Plans.FirstFaultIsUnique | execution/plan.go:177-190 | only one fault can be reported: of the first step that is not in order, its empty name, else its unknown type, else the earlier step of its name |
| Streams.EmissionsHaveNoErrors | ai/providers/streaming.go:203-251 | a decoder never emits an error chunk of its own accord |
| StreamChannel.StepKeepsInvariant | ai/providers/streaming.go:170-268 | every step of reader, channel, consumer or cancellation keeps: what was sent, and what is still to be sent, make up the whole sequence, or after a failure a prefix of it and at most one error chunk |
| StreamChannel.RunKeepsInvariant | ai/providers/streaming.go:170-268 | so does every run |
| StreamChannel.DeliveryIsSafe | ai/providers/anthropic_streaming.go:167-311 | in every reachable state the buffer holds at most 64 chunks; consumed and buffered chunks are a prefix of the full sequence, or such a prefix and one error chunk at the end, which only cancellation or a read error explains; an undisturbed closed channel has carried everything, and one closed without an error chunk everything or at least 64 chunks |
| StreamChannel.NothingAfterClose | ai/providers/streaming.go:173 | the channel stays closed and nothing is sent after |
| StreamChannel.EveryStepCounts | ai/providers/streaming.go:180-267 | every step decreases what remains to be done |
| StreamChannel.RunsAreBounded | ai/providers/streaming.go:170-268 | no run takes more than 4 steps a line and 6 more |
| StreamChannel.NeverStuck | ai/providers/streaming.go:250-259 | while the channel is open or holds a chunk, the producer or the consumer can step without cancellation |
| StreamChannel.CancelledProducerCanStep | ai/providers/streaming.go:250-258 | after a cancellation the goroutine itself can step until the channel is closed, whatever the consumer does; with every step counting, it does not leak |
| StreamLoss.SilentTruncationIff | ai/providers/streaming.go:250-267 | some run ends closed with chunks missing and no error chunk iff the stream has more than 64 chunks |
| StreamLoss.SilentRun | ai/providers/streaming.go:250-258 | such a run: nothing is consumed, the buffer is full when the context is cancelled, and the error chunk is dropped |
| StreamChannel.CompleteRunDeliversAll | ai/providers/anthropic_streaming.go:167-311 | a run that can go no further without cancellation or read error has delivered the whole sequence |
| OpenAI.StreamReader.Accumulate | ai/providers/streaming.go:209-231 | folds the deltas of one line into the accumulator |
| OpenAI.StreamReader.CurrentCalls | ai/providers/streaming.go:233-240 | the calls with index below the count, in index order |
| OpenAI.StreamReader.HandleLine | ai/providers/streaming.go:180-251 | the state and the reaction to each kind of line |
| OpenAI.AccumulatorIsFoldPerIndex | ai/providers/streaming.go:210-230 | after any deltas, an index is held iff it occurred, with its last non-empty identifier and name and all its arguments in order |
| OpenAI.CountIsHighest | ai/providers/streaming.go:226-228 | the count is one more than the highest non-negative index, and 0 without one |
| OpenAI.EmittedCallsAreOrdered | ai/providers/streaming.go:233-240 | the calls emitted are those with non-negative index, each once, by increasing index |
| OpenAI.InterleavingIsImmaterial | ai/providers/streaming.go:209-240 | deltas that agree index by index leave the same accumulator |
| OpenAI.ArgumentsOnlyGrow | ai/providers/streaming.go:219 | the arguments of an index only grow at the end |
| Anthropic.StreamReader.BuildToolCalls | ai/providers/anthropic_streaming.go:317-332 | the accumulated calls in the order their blocks were opened; an index opened twice appears twice |
| Anthropic.StreamReader.HandleLine | ai/providers/anthropic_streaming.go:179-303 | the state and the reaction to each kind of line |
| Anthropic.StreamReader.HandleData | ai/providers/anthropic_streaming.go:200-302 | the state and the reaction to a data line under the current event |
| StreamEvents.TableIsTransmitted | ai/providers/anthropic_streaming.go:209-256 | when each block is opened once before its fragments, the table of calls ends with exactly the calls transmitted, however fragments are cut and interleaved |
| StreamEvents.AnyCallsCanBeTransmitted | ai/providers/anthropic_streaming.go:209-256 | whatever the calls, their distinct indexes and the text, some events transmit them |
| AnthropicTheorems.AnthropicInvertsFragmentation | ai/providers/anthropic_streaming.go:179-303 | for every stream of lines that says a list of calls and a text, message starts, pings, text blocks, usage and malformed lines included: the contents concatenate to the text, and the last chunk carries exactly the calls iff nothing more is said about any call after it |
| AnthropicTheorems.DecoderAnswers | ai/providers/anthropic_streaming.go:179-303 | on every stream of lines the decoder emits exactly the answers to what the lines say |
| AnthropicTheorems.CompleteIffQuiet | ai/providers/anthropic_streaming.go:317-332 | the calls built at some point are the final ones iff no block is opened and no non-empty fragment sent after it |
| AnthropicTheorems.FinishedMessageIsComplete | ai/providers/anthropic_streaming.go:270-301 | a message that ends with its stop reason ends with a chunk of all the calls, the reason and the tokens sent, 0 without any |
| AnthropicTheorems.UsageIsWhatWasSent | ai/providers/anthropic_streaming.go:239-301 | on every stream of lines no chunk reports prompt tokens or a total, and output tokens only as sent with the stop reason |
| AnthropicTheorems.OneEntryPerBlockIff | ai/providers/anthropic_streaming.go:317-332 | the list built has one entry for every start, and so one for each block iff no block is started twice |
| AnthropicTheorems.SecondStartDuplicates | ai/providers/anthropic_streaming.go:219-223 | a message that starts a block twice and ends with two copies of the second call |
| OpenAITheorems.EachDataLineIsAnswered | ai/providers/streaming.go:180-251 | on every stream of lines there is one chunk for each data line before the end mark, with the calls accumulated up to it, or none if it has no choices |
| OpenAITheorems.OpenAIGathersCalls | ai/providers/streaming.go:180-251 | for every stream of lines whose deltas hold, index by index, the last identifier, the last name and all arguments of the calls: the chunk of the last line with choices carries exactly the calls, lines without choices carry none, a line without usage reports 0 tokens, and the contents concatenate to the text |
| OpenAITheorems.FinalChunkIsCompleteIffChoices | ai/providers/streaming.go:204-248 | with any calls, the final chunk carries them iff the last data line has choices |
| OpenAITheorems.UsageAloneEndsWithoutCalls | ai/providers/streaming.go:203-248 | a stream with one call whose final chunk, for usage alone, carries none |
| OpenAITheorems.OpenAIInvertsFragmentation | ai/providers/streaming.go:180-251 | the same conclusion for events packed into data lines in any way, opened under increasing indexes |
| StreamTheorems.DecodersAgree | ai/providers/streaming.go:170-268 | when the lines of both wires say the same events, both decoders deliver the same text and the same complete calls |
| StreamTheorems.OpenAIDeliveryIsSafe | ai/providers/streaming.go:170-268 | delivery is safe at every moment of every run of the OpenAI decoder |
| StreamTheorems.AnthropicDeliveryIsSafe | ai/providers/anthropic_streaming.go:167-311 | delivery is safe at every moment of every run of the Anthropic decoder |
| StreamTheorems.OpenAITruncationIff | ai/providers/streaming.go:170-268 | an OpenAI stream can be truncated without a sign iff it has more than 64 data lines |
| StreamTheorems.OpenAIConsumerGetsCalls | ai/providers/streaming.go:170-268 | every complete run through the channel leaves the consumer with the text and, at the last line with choices, the calls, whatever other lines there are |
| StreamTheorems.AnthropicConsumerGetsCalls | ai/providers/anthropic_streaming.go:167-311 | the same for every stream of Anthropic lines |
| TimeWindows.OppositeWindowsPartition | control/policy/policy.go:202-210 | for different ends, windows (a, b) and (b, a) split all times between them |
| TimeWindows.EmptyWindow | control/policy/policy.go:202-210 | a window with equal ends is empty |
| TimeWindows.WindowIsOnePoint | control/policy/policy.go:202-210 | a window holds one time only iff its end is the next string after its start |
| TimeWindows.StringOrderIsMinuteOrder | control/policy/policy.go:203 | on HH:MM strings the string order is the order of minutes |
| TimeWindows.ClockIsTime | control/policy/policy.go:200-210 | two digits of hours, a colon and two of minutes are a time of day, 60 minutes to the hour |
| StringOrder.LessIsLexicographic | control/policy/policy.go:203 | the order of strings: the first difference decides, and a proper prefix comes first |
| TimeWindows.WindowIsAnArc | control/policy/policy.go:200-210 | on HH:MM strings a window is an arc of the 1440-minute clock, past midnight or not |
| Policy.WildcardMatchesSubtree | control/policy/policy.go:155-164 | a prefix and slash-star match the prefix itself and everything below it, nothing else |
| Policy.CoversIff | control/policy/policy.go:155-164 | a resource pattern matches iff it is "*", the resource itself, or slash-star after it or something above it |
| Policy.MatchConditions | control/policy/policy.go:170-198 | with both time keys the window alone decides; otherwise every other condition is an exact match, for any order of visiting them |
| Policy.AllConditionsCountIff | control/policy/policy.go:166-198 | the answer is that all conditions match, for all attributes, iff there is no window, or it is empty, or there is no other condition, or the only other one asks for the only time in the window |
| Policy.OtherConditionIsIgnored | control/policy/policy.go:174-185 | for every other rule with a window, attributes that give the time alone match although another condition fails |
| Policy.SortByPriority | control/policy/policy.go:62-69 | some order by descending priority of exactly the given rules |
| Policy.FirstMatchIsFirst | control/policy/policy.go:71-91 | evaluation over one order is the verdict of its first decisive rule, and allows without one; rules with any other effect are passed over |
| Policy.OrderDecidesPossibly | control/policy/policy.go:62-91 | every descending order decides as one of the top decisive rules |
| Policy.PossibleIsReached | control/policy/policy.go:62-91 | and each of these decisions is reached by some order |
| Policy.OrderIndependentIffTopAgrees | control/policy/policy.go:43-92 | whether a request is allowed is independent of the order iff all top decisive rules share one effect |
| Policy.DecisionIndependentIffOneVerdict | control/policy/policy.go:82-91 | the decision itself, with the rule a denial names, is independent of the order iff the top rules all allow or a single one denies |
| Policy.OutrankedRuleIsIgnored | control/policy/policy.go:71-89 | adding a rule that does not decide, or that a decisive rule outranks, changes no possible decision |
| Policy.DecisionMeans | control/policy/policy.go:43-92 | what may be decided, in the fields of the rules: a denial names a deny rule that applies and is not outranked; the request is allowed by such an allow rule, or where no rule that applies allows or denies |
| Policy.Enforcer.Evaluate | control/policy/policy.go:43-92 | invalid input, else denied by a prevailing deny rule of the tenant, which is named, or allowed by a prevailing allow rule or for want of any that decides; no other tenant matters |
| Policy.Enforcer.AddRule | control/policy/policy.go:95-113 | succeeds iff the identifier is given and new to the tenant; only that entry is added, and the rules of every other tenant stay as they are |
| Policy.Enforcer.RemoveRule | control/policy/policy.go:116-127 | succeeds iff some tenant holds the identifier; exactly one such entry goes |
| Policy.RemoveUndoesAdd | control/policy/policy.go:95-127 | when no tenant used the identifier, removal undoes addition for every tenant |
| Policy.RemoveMayTakeAnotherTenantsRule | control/policy/policy.go:120-125 | when another tenant uses it, removal may take that rule instead |
| Policy.RemoveUndoesAddIff | control/policy/policy.go:95-127 | after a successful addition, removal is sure to undo it iff no other tenant uses the identifier |
| LabelKeys.FilterLabels | telemetry/metrics.go:53-64 | exactly the labels with an allowed key |
| LabelKeys.KeptLabels | telemetry/metrics.go:30-39 | the eight allowed keys, such as provider, survive with their values, and no others |
| LabelKeys.String | telemetry/metrics.go:14-28 | the same text for every order of collecting the keys |
| LabelKeys.SerializeBy | telemetry/metrics.go:18-27 | that text is the join over the one sorted order of the keys |
| MetricsTheorems.SerializeOne | telemetry/metrics.go:22-27 | the text of one label |
| MetricsTheorems.SerializeTwo | telemetry/metrics.go:19-27 | the text of two labels, the smaller key first |
| LabelKeys.CommaFreeIsUnambiguous | telemetry/metrics.go:14-28 | filtered labels whose values hold no comma are unambiguous |
| LabelKeys.SerializeIsInjective | telemetry/metrics.go:13-28 | on unambiguous label sets the text determines the labels |
| LabelKeys.AmbiguousHasTwin | telemetry/metrics.go:13-28 | every filtered label set that is not unambiguous shares its text with a different filtered one |
| LabelReadings.ReadingIsUnique | telemetry/metrics.go:13-28 | every filtered label set shares its text with exactly one unambiguous label set, its reading |
| LabelReadings.CollideIffSameReading | telemetry/metrics.go:13-28 | two filtered label sets have one text iff they have one reading |
| LabelReadings.UnambiguousIffOwnReading | telemetry/metrics.go:13-28 | a filtered label set is unambiguous iff it is its own reading |
| LabelReadings.DeterminedIff | telemetry/metrics.go:13-28 | no other filtered label set shares the text of a filtered one iff it is unambiguous and has at most one label |
| Metrics.MemoryMeter.EnsureLabelKey | telemetry/metrics.go:118-125 | keeps the first labels recorded under a key |
| Metrics.MemoryMeter.Counter | telemetry/metrics.go:128-138 | the tables go on reflecting the log of updates, with this count added |
| Metrics.MemoryMeter.Gauge | telemetry/metrics.go:141-151 | likewise with this setting added |
| Metrics.MemoryMeter.Histogram | telemetry/metrics.go:154-164 | likewise with this observation added |
| Metrics.MemoryMeter.Snapshot | telemetry/metrics.go:167-201 | every name of every table is listed, each key once with its value and the labels recorded with it, in any order; looking up the labels never fails |
| Metrics.UpdatedAt | telemetry/metrics.go:128-164 | an update changes the cell of its name and key as one more event of its history, and no other cell |
| Metrics.UpdateKeepsReflection | telemetry/metrics.go:128-164 | tables that hold, at every name and key, the fold of its history (wrapped sum, last value, list in order) still do after an update |
| Metrics.RecordedHasLabels | telemetry/metrics.go:118-125 | whatever is recorded under a key has labels recorded with it |
| MetricsTheorems.HistoryIsWhatUpdatesAmountTo | telemetry/metrics.go:118-164 | of the updates under one key, a counter is the wrapped sum of the deltas, a gauge the value set last, a histogram the values in order, each if there are any, and the labels are the first ones |
| MetricsTheorems.KeyHistoryIsLabelHistory | telemetry/metrics.go:128-164 | for unambiguous labels the history of a key is the history of its labels |
| MetricsTheorems.StoredLabelsHaveKey | telemetry/metrics.go:118-125 | the labels stored under a key have that key and come from some update |
| MetricsTheorems.EntriesAreExact | telemetry/metrics.go:167-201 | for unambiguous labels each snapshot entry is the exact history of its labels, no two entries share labels, and every label set used has one |
| MetricsTheorems.TablesAreRows | telemetry/metrics.go:128-164 | the three tables of a meter meet the premises of that theorem |
| MetricsTheorems.CountersAddUp | telemetry/metrics.go:128-138 | without any restriction on labels, the counters of a name add up to all its deltas, modulo 2^64 |
| MetricsTheorems.SnapshotTotals | telemetry/metrics.go:177-183 | so do the entries of a snapshot |
| MetricsTheorems.CommasCollide | telemetry/metrics.go:14-28 | two different label sets with one key |
| MapStores.MapStore.PutIfAbsent | registry/skills/base.go:27-35 | stores iff the key is absent, and says so |
| MapStores.MapStore.DeleteIfExists | registry/skills/base.go:53-61 | removes one key and says whether it was there |
| Registry.InMemoryRegistry.Register | registry/skills/in_memory_registry.go:27-48 | the four errors in order; otherwise the skill is stored and every subscriber gets one event, and the events of each subscriber still replay to the store |
| Registry.InMemoryRegistry.Unregister | registry/skills/in_memory_registry.go:108-116 | an error iff nothing is stored; otherwise the skill goes and every subscriber gets one event, still replaying to the store |
| Registry.InMemoryRegistry.Subscribe | registry/skills/in_memory_registry.go:120-124 | adds a subscriber after the others, with the present store as its base |
| Registry.InMemoryRegistry.FireCallbacks | registry/skills/in_memory_registry.go:136-147 | every callback gets the event once |
| Registry.ReplayableEventsAlternate | registry/skills/in_memory_registry.go:27-48 | events that replay alternate for each identifier, start by its presence before and end by its presence now |
| RegistryRuns.StepKeepsBalance | registry/skills/in_memory_registry.go:127-147 | every step of concurrent calls keeps: registrations minus unregistrations of an identifier, delivered or pending, are 1 if it is stored and 0 if not |
| RegistryRuns.RunKeepsBalance | registry/skills/in_memory_registry.go:27-48 | so does every run, for each subscriber present from the start |
| RegistryRuns.QuietRegistryIsDelivered | registry/skills/in_memory_registry.go:108-147 | when no call is in progress, the delivered events alone determine the store |
| RegistryRuns.LatecomerIsBalanced | registry/skills/in_memory_registry.go:120-147 | a callback that subscribes during a run is told, delivered or pending, of every change since, and of those stored but not yet announced when it joined |
| RegistryRuns.ReplayIffInOrder | registry/skills/in_memory_registry.go:27-48 | events replay iff for each identifier they alternate from a registration, and then to the identifiers they end by registering |
| RegistryRuns.SerializedEventsAlternate | registry/skills/in_memory_registry.go:41-46 | when an identifier is stored or removed only while no event about it is under way, its delivered events alternate from a registration and, with none under way, end by its presence |
| RegistryRuns.SerializedEventsReplay | registry/skills/in_memory_registry.go:108-115 | when that holds of every identifier, the delivered events replay, and with none under way to the store |
| RegistryRuns.OrderIsAtRiskIffTwoPending | registry/skills/in_memory_registry.go:127-147 | from a reachable state in order, what is already under way may bring the events about an identifier out of order iff two or more events about it are |
| RegistryRuns.EventsMayOvertake | registry/skills/in_memory_registry.go:45-46 | a run whose delivered events are in the wrong order and cannot be replayed |
| Chunking.BreakMarksAt | ai/retrieval/pipeline.go:172-176 | after the three replacements exactly the single spaces that follow a sentence mark are newlines |
| Chunking.SplitSentences | ai/retrieval/pipeline.go:166-191 | the loop returns the specified sentences |
| Chunking.TrimmedIsKept | ai/retrieval/pipeline.go:186-188 | a text that is not blank has a sentence, so the fallback is never taken |
| Chunking.NoSentenceIffBlank | ai/retrieval/pipeline.go:167-170 | a text has no sentence iff all its characters are white space, which are listed |
| Chunking.SplittingConserves | ai/retrieval/pipeline.go:166-191 | the characters that are not space are those of the input, in order |
| Chunking.SentencesPartitionText | ai/retrieval/pipeline.go:166-191 | the sentences are the trimmed stretches of the text between its breaks |
| Chunking.PartitionIsUnique | ai/retrieval/pipeline.go:166-191 | only one list of stretches partitions a text so |
| Retrieval.SplitIntoChunks | ai/retrieval/pipeline.go:151-163 | one chunk for each sentence, in order, with its identifier, the document's metadata and score 0 |
| Retrieval.ChunkIdsAreDistinct | ai/retrieval/pipeline.go:156 | the chunks of a document have distinct identifiers |
| Retrieval.CountOverlap | ai/retrieval/pipeline.go:206-217 | the share of query tokens found in the chunk, in any order of counting |
| Retrieval.ScoreIsAShare | ai/retrieval/pipeline.go:206-217 | a score lies between 0 and 1, and is 1 iff the chunk has every token of the query |
| Retrieval.ScoreCountsTokens | ai/retrieval/pipeline.go:206-217 | the score counts the query tokens found: more of them score higher; without query tokens it is 0 |
| Retrieval.SortByScore | ai/retrieval/pipeline.go:110-112 | a permutation by descending score |
| Retrieval.TakeBest | ai/retrieval/pipeline.go:110-120 | the best topK, or all if there are fewer, best first; with the others they are a permutation of the chunks |
| Retrieval.Pipeline.Index | ai/retrieval/pipeline.go:57-80 | the errors in order; otherwise this document is stored, replacing one of the same identifier, and the index remains that of the documents |
| Retrieval.Pipeline.Retrieve | ai/retrieval/pipeline.go:83-125 | the errors in order and cancellation; otherwise the best topK of exactly all scored chunks, or all of them, by descending score |
| Retrieval.RetrievedAreBest | ai/retrieval/pipeline.go:97-120 | what is retrieved and left are exactly the chunks of the index with their scores; topK of them or all, best first, and nothing left scores higher |
| Retrieval.Pipeline.CollectChunks | ai/retrieval/pipeline.go:97-103 | all chunks once in some order of the documents, unless the context is done |
| Retrieval.AssembleContext | ai/retrieval/pipeline.go:128-148 | over the bytes of the contents: a prefix of the chunks with at most the last one cut, joined by the separator |
| Retrieval.JoinSeparates | ai/retrieval/pipeline.go:147 | parts are joined with two line feeds, three dashes and two line feeds between them |
| Retrieval.ContextIsAPrefix | ai/retrieval/pipeline.go:135-145 | separators apart, a context is the first bytes of all contents, as many as the budget allows, cut into the same parts |
| Utf8.DecodeInvertsEncode | ai/retrieval/pipeline.go:136-141 | lengths are counted in UTF-8 bytes, from which decoding gives back the text |
| Retrieval.BudgetIsMet | ai/retrieval/pipeline.go:135-145 | with a budget, either every chunk is used whole within it or exactly the budget is used |
| Retrieval.ContextFitsIff | ai/retrieval/pipeline.go:136-147 | with a budget, the joined context stays within it iff there is at most one chunk, or the first chunk alone fills the budget, or all chunks and the separators fit |
| Retrieval.SeparatorsExceedBudget | ai/retrieval/pipeline.go:147 | a budget of two bytes and a context of nine |
| Retrieval.CutIsUnique | ai/retrieval/pipeline.go:135-145 | where the cut falls is determined by the lengths alone |

## Left out

- The HTTP layer of the providers (requests, retries, headers, status codes) and JSON decoding: the decoders start from classified lines and decoded events; a malformed data line is one kind of line.
- Error message texts: errors keep their kind and the data a caller can act on (field, step, key, position).
- Floating-point rounding: schema bounds, parsed floats, gauges and scores are reals. Numbers outside the int64 range are not integers in the model; what Go's conversion gives for them depends on the platform.
- Schemas that reach themselves through pointers: a schema is a finite tree, on which both validators are proved to terminate.
- `ValidateInput` and `ValidateInputStrict`: a JSON decoder in front of the two validators.
- `jsonEqual`, regular expressions, JSON and `%v` formatting, and `tokenize` with its lower-casing are arbitrary functions; nothing is claimed that depends on which ones.
- Strings are sequences of one-byte characters, except in `Chunking` and `Retrieval`, where they are sequences of code points, encoded as UTF-8 where a context is assembled; documents that are not valid UTF-8 are not captured.
- UUIDs are a supply of non-empty strings; that two of them differ is not stated.
- The sharing of nested values between a step and its clone, and of label maps between the meter and its snapshots: nested values are immutable here.
- Locks: `Policy.Enforcer`, `Metrics.MemoryMeter` and `MapStores.MapStore` hold their lock for a whole operation and are sequential classes; the registry, which does not, is also a step system in `RegistryRuns`.
- A registry callback that panics is recovered from and has no further effect; a callback that calls the registry again is another thread in `RegistryRuns`.
- LatecomerIsBalanced: of a callback that subscribes during a run, the balance of its events is stated, not their order.
- StrictImpliesLenient: the condition is sufficient, not necessary. Whether a particular schema has a value that strict mode alone accepts depends on whether its sub-schemas, patterns included, can be satisfied together, which the condition does not look into; the converse stays open.
- The wrap-around of `idx + 1` for the greatest possible OpenAI index, and the difference between a nil and an empty list of tool calls.
- The fragmentation theorems are about streams that open each block once; a second Anthropic start at one index is the subject of `OneEntryPerBlockIff` and `SecondStartDuplicates`.
- `ListRules`, `List`, `ListByPermission`, `InMemoryRegistry.Validate`, `ForEach`, and the `Put`, `Get`, `Delete` and `Len` of a map store, `ArgumentsJSON`, `ValidateLabelKey`, `Duration` and `Embedding`: short loops or fields that would only add easy members.
- The packages `control/profile`, `planner`, `audit`, `mcp`, `ai/router`, `ai/safety`, `ratelimit` and `memory`: finite tables, prompts and wrappers with little logic of their own.
