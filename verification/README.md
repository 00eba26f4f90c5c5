# Verified core of obs-unified

A Dafny model of the parts of obs-unified whose correctness is hardest to see by reading: the
hand-written pprof codec, the bounded export queues, the span tree and the agent action graph with
the dashboard view that rebuilds it, the sortable ids, the propagation of contexts across queues and
MCP requests, and the browser's session and replay machine.

`dafny verify dfyconfig.toml` checks everything.

## How the model is laid out

| files | what they model |
|---|---|
| `Bytes.dfy`, `Options.dfy` | types shared by all |
| `Wire.dfy`, `Pprof.dfy` | the protobuf wire format, and what bytes decode to and profiles encode to |
| `PprofReader.dfy`, `PprofWriter.dfy` | the decoder's cursor and the encoder's growing buffer, as they run |
| `PprofRoundTrip.dfy`, `PprofMerge.dfy`, `PprofLaws.dfy`, `PprofMessages.dfy` | the codec's laws, and its bytes |
| `ExportQueue.dfy` | the queue of spans, logs and AI calls |
| `SpanTree.dfy`, `SpanAttributes.dfy` | `withChildSpan` under every schedule; the attributes of a span |
| `ActionContext.dfy`, `AgentGraph.dfy`, `AgentSpans.dfy` | action contexts, the graph they form, what their spans say |
| `ActionTree.dfy`, `ActionWalk.dfy` | the dashboard's tree; the walk that builds it, on any list |
| `ActionId.dfy` | server and browser ids |
| `Text.dfy`, `Traceparent.dfy`, `McpBaggage.dfy`, `Mcp.dfy` | traceparent, baggage and MCP `_meta` |
| `StableJson.dfy`, `StableJsonLaws.dfy` | canonical JSON text |
| `UsageSession.dfy`, `UsageTracker.dfy` | session rotation and the replay recorder |

Choices that hold throughout:

- JavaScript exceptions are error values (`Failure`, `Rejected`, `Threw`, `None`).
- Numbers are unbounded; where JavaScript's exact range or 32-bit truncation matters it is written
  out (`MAX_SAFE`, `FieldNum`).  A length is a number too, so the round trip asks that the encoded
  profile is shorter than 2^53 bytes.
- A JavaScript `Map` is a list of entries in insertion order, so that equality includes iteration order.
- The decoders are specified on the bytes that remain after the cursor.  One loop, `Wire.Fields`,
  specifies all of them; the distance it moves may exceed the buffer, because `skipField` never checks.
- `number[]` and `ByteBuilder` are both sinks to which bytes are pushed; one class stands for both.
- Concurrency is a machine over events, with a scheduler that may pick any enabled one.
  AsyncLocalStorage gives each body a store of its own, which is part of the state.
- Random bytes, created ids, clock readings and the events a recorder emits while it starts are parameters.
- The source sorts with `Array.prototype.sort`, which is modelled by a stable insertion sort.

Where the code departs from what its comments promise, the model follows the code, shows an input and
states the exact condition.  The encoder's "symmetric to the decoder"
(`packages/pprof-decoder/src/index.ts:336`) holds for exactly the well-formed profiles.  Two decodings
combine like their buffers for exactly the buffers that the decoder leaves on the last byte.  A baggage
entry that is the bare interaction key makes the client drop the id.  A nested run without an actor keeps
the enclosing action's.  The dashboard's walk does not end on some lists with a repeated id.  Stopping a
replay after "flush remaining events" (`packages/analytics-sdk/src/usage-tracker.ts:421`) can lose what a
recorder restarted by that very flush has just emitted.

## Model

| member | source | states |
|---|---|---|
| Wire.VarintInverts | packages/pprof-decoder/src/index.ts:45-61 | for every value below 2^53, reading what was written returns the value and stops right after it, whatever follows |
| Wire.VarintMinimal | packages/pprof-decoder/src/index.ts:368-374 | the writer emits one to eight bytes, and no byte string that reads as the value is shorter |
| Wire.ReadVarintExactly | packages/pprof-decoder/src/index.ts:45-61 | whatever the bytes: the number spelled up to the first byte below 128 if that is among the first ten, otherwise too long, or the end of the buffer |
| Wire.LongTag | packages/pprof-decoder/src/index.ts:156-158 | a tag above 32 bits names the field that its low 32 bits name |
| Wire.FieldsSplit | packages/pprof-decoder/src/index.ts:280-304 | where a run of the decoding loop stops, a longer run of the same loop passes through |
| Wire.FieldsSwallow | packages/pprof-decoder/src/index.ts:77-96 | a run that overshot its end is the run of a longer buffer, whose extra bytes are never read |
| Wire.FieldsInvert | packages/pprof-decoder/src/index.ts:155-165 | a list of fields, each of which its reader inverts, is read back whole and to its last byte |
| PprofRoundTrip.SampleFieldInverts | packages/pprof-decoder/src/index.ts:168-201 | each field of an encoded sample is read back and ends exactly at its length |
| PprofRoundTrip.LocationFieldInverts | packages/pprof-decoder/src/index.ts:218-234 | the same for the fields of a location |
| PprofRoundTrip.ProfileFieldInverts | packages/pprof-decoder/src/index.ts:280-304 | every top-level field, nested messages included, is read back and ends exactly at its length |
| PprofLaws.RoundTrip | packages/pprof-decoder/src/index.ts:486-504 | decoding an encoded well-formed profile with numbers below 2^53 returns the profile, and the cursor ends on the last byte |
| PprofLaws.RoundTripExactly | packages/pprof-decoder/src/index.ts:270-307 | the round trip holds if and only if the profile is well-formed |
| PprofMessages.EncodedBytes | packages/pprof-decoder/src/index.ts:405-504 | what the encoder writes, to the byte: the five lists in order, each entry in a block under the tag of `profile.proto`, ids and values packed, zeros left out |
| PprofLaws.UnlistedFunctionIsLost | packages/pprof-decoder/src/index.ts:451-466 | a location naming a function that none of its lines is in decodes without it: the round trip's failing input |
| PprofLaws.DecodedWellFormed | packages/pprof-decoder/src/index.ts:270-307 | whatever the bytes, a decoded profile has each key equal to its entry's id and function ids equal to those of the lines |
| PprofLaws.DecodeEncodeDecode | packages/pprof-decoder/src/index.ts:334-336 | re-encoding a decoded buffer and decoding again gives the same profile |
| PprofLaws.Homomorphism | packages/pprof-decoder/src/index.ts:270-307 | if decoding `a` stops on its last byte, decoding `a + b` merges both results, lists appended and later map entries winning, and fails exactly as `b` does |
| PprofLaws.HomomorphismExactly | packages/pprof-decoder/src/index.ts:77-96 | among the buffers that decode, this holds for all continuations if and only if the decoder stops on the last byte |
| PprofLaws.CutFieldSwallows | packages/pprof-decoder/src/index.ts:82-84 | the lone tag of an eight-byte field decodes and swallows the next eight bytes, which alone do not decode: the failing input of the merge law |
| PprofLaws.CutField | packages/pprof-decoder/src/index.ts:77-96 | a buffer that ends inside an unknown field decodes and overshoots, whatever is left of the field |
| PprofLaws.RefusedField | packages/pprof-decoder/src/index.ts:63-96 | a string longer than what is left throws, and so do the four unsupported wire types |
| PprofLaws.UnknownFieldIgnored | packages/pprof-decoder/src/index.ts:301-303 | a well-formed unknown field inserted between top-level fields changes nothing |
| PprofMessages.UnknownInLocation | packages/pprof-decoder/src/index.ts:218-234 | a field other than varint 1 and length-delimited 4, an address say, inserted anywhere between a location's fields, leaves the location unchanged |
| PprofMessages.UnknownInSample | packages/pprof-decoder/src/index.ts:168-201 | the same for a sample, which knows fields 1 and 2, packed or not, and 3 |
| PprofMessages.UnknownInLabel | packages/pprof-decoder/src/index.ts:145-166 | the same for a label, which knows varints 1, 2 and 3 |
| PprofMessages.UnknownInLineOrValueType | packages/pprof-decoder/src/index.ts:203-216 | the same for a line and a value type, which know varints 1 and 2 |
| PprofMessages.UnknownInFunction | packages/pprof-decoder/src/index.ts:236-251 | the same for a function, which knows varints 1, 2 and 4 |
| PprofMessages.MessagesMerge | packages/pprof-decoder/src/index.ts:168-234 | two halves of a sample or a location decode together: lists are appended, and a later id wins |
| PprofLaws.SkipPayloads | packages/pprof-decoder/src/index.ts:77-96 | what each wire type lets `skipField` step over, and that other wire types are refused |
| PprofLaws.UnpackedIsPacked | packages/pprof-decoder/src/index.ts:179-194 | ids and values written one by one decode to the sample they decode to when packed |
| PprofLaws.PackedDecodes | packages/pprof-decoder/src/index.ts:394-403 | the packed encoding of ids and values decodes to that sample |
| PprofLaws.LastOneWins | packages/pprof-decoder/src/index.ts:159-163 | a later occurrence of a scalar field overrides all earlier ones |
| PprofMerge.ProfileOfAppend | packages/pprof-decoder/src/index.ts:284-300 | building from two runs of fields merges the profiles built from each |
| PprofMerge.ProfileOfFields | packages/pprof-decoder/src/index.ts:486-502 | a well-formed profile is what its own fields, in the order they are written, build |
| PprofMerge.SetFacts | packages/pprof-decoder/src/index.ts:290-297 | setting a map entry keeps a known key in its place, puts a new one last, and leaves every other entry alone |
| PprofReader.Reader.ReadVarint | packages/pprof-decoder/src/index.ts:45-61 | agrees with the specification in value, position and error, and counts one varint exactly if it returns |
| PprofReader.Reader.ReadBytes | packages/pprof-decoder/src/index.ts:63-70 | returns the bytes asked for and moves past them, or throws and does not move |
| PprofReader.Reader.SkipField | packages/pprof-decoder/src/index.ts:77-96 | moves by what the wire type says, possibly past the end |
| PprofReader.DecodePackedVarints | packages/pprof-decoder/src/index.ts:145-150 | reads varints until the end is reached or passed |
| PprofReader.DecodeLabel | packages/pprof-decoder/src/index.ts:152-166 | agrees with the specification in value, position and error |
| PprofReader.DecodeSample | packages/pprof-decoder/src/index.ts:168-201 | the same for samples |
| PprofReader.DecodeLine | packages/pprof-decoder/src/index.ts:203-216 | the same for lines |
| PprofReader.DecodeLocation | packages/pprof-decoder/src/index.ts:218-234 | the same for locations |
| PprofReader.DecodeFunction | packages/pprof-decoder/src/index.ts:236-251 | the same for functions |
| PprofReader.DecodeValueType | packages/pprof-decoder/src/index.ts:253-266 | the same for value types |
| PprofReader.DecodeProfile | packages/pprof-decoder/src/index.ts:270-307 | the loop stops on every input, returns the specified profile at the specified position or throws the specified error, and on either outcome its reader has read at most as many varints as there are bytes |
| PprofReader.DecodePprof | packages/pprof-decoder/src/index.ts:270-307 | returns the specified profile or throws the specified error |
| PprofWriter.ByteBuilder.Push | packages/pprof-decoder/src/index.ts:350-357 | appends one byte, whether or not the buffer has to double first |
| PprofWriter.WriteVarint | packages/pprof-decoder/src/index.ts:368-374 | appends the varint of the value |
| PprofWriter.WriteLengthDelimited | packages/pprof-decoder/src/index.ts:379-387 | appends tag, length and payload |
| PprofWriter.WritePackedVarints | packages/pprof-decoder/src/index.ts:394-403 | appends a packed field, or nothing for no values |
| PprofWriter.EncodeLabel | packages/pprof-decoder/src/index.ts:405-420 | writes the fields that are not zero |
| PprofWriter.EncodeSampleBytes | packages/pprof-decoder/src/index.ts:422-430 | writes ids, values and labels as specified |
| PprofWriter.Completed | packages/pprof-decoder/src/index.ts:451-453 | missing lines are made up from the function ids, and the location is then consistent |
| PprofWriter.EncodeLocationBytes | packages/pprof-decoder/src/index.ts:445-467 | writes the id and the lines, given or made up, as specified |
| PprofWriter.EncodePprof | packages/pprof-decoder/src/index.ts:486-504 | writes the specified bytes through the growing buffer |
| PprofWriter.EncodeThenDecode | packages/pprof-decoder/src/index.ts:334-336 | the encoder's output, run through the decoder, gives the profile back |
| ExportQueue.RunHolds | packages/telemetry-sdk/src/span.ts:63-109 | over every run the queue holds the newest MAX items of an unbounded backlog in which failed flushes leave no trace |
| ExportQueue.BufferIsRecentHistory | packages/telemetry-sdk/src/span.ts:63-109 | over every run of every queue, an idle buffer is the newest MAX of the items accepted since the batch last acknowledged was taken; in flight, batch and buffer are the newest of those accepted before and after it was taken |
| ExportQueue.FailedFlushUnobservable | packages/telemetry-sdk/src/span.ts:87-92 | for every queue, a flush that fails, with anything enqueued meanwhile, leaves the queue that would have been left had it not been asked for; where enqueuing never flushes, the queue that enqueuing alone would have left |
| ExportQueue.Bounded | packages/telemetry-sdk/src/logger.ts:286-289 | in every run neither buffer nor batch exceeds MAX and no batch is empty |
| ExportQueue.RunSubsequence | packages/telemetry-sdk/src/logger.ts:85-121 | acknowledged, then in flight, then buffered is an order-preserving subsequence of what was accepted, in every run |
| ExportQueue.NoDuplicates | packages/telemetry-sdk/src/ai.ts:95-131 | nothing is acknowledged twice |
| ExportQueue.LosslessExactly | packages/telemetry-sdk/src/ai.ts:85-131 | the three together are the whole enqueue history if and only if no enqueue met a full buffer and no failed batch came back to too full a one |
| ExportQueue.FittingBacklogLosesNothing | packages/telemetry-sdk/src/span.ts:95-109 | if unacknowledged items never exceed MAX, nothing is lost |
| ExportQueue.AcceptedExactly | packages/telemetry-sdk/src/span.ts:95-101 | what is accepted, told from the events alone: everything, or for a refusing queue what comes while the exporter is configured |
| ExportQueue.FlushDelivers | packages/telemetry-sdk/src/span.ts:63-92 | a configured idle queue that is flushed and then fetched has acknowledged its whole buffer; otherwise the request changes nothing |
| ExportQueue.Thresholds | packages/telemetry-sdk/src/logger.ts:286-293 | logs start a batch at the 20th item, AI calls at the 10th, spans never by themselves |
| ExportQueue.ThreeQueues | packages/telemetry-sdk/src/ai.ts:85-131 | an idle buffer is the newest 200 spans, 500 log records or 200 AI calls admitted since the batch last acknowledged was taken |
| ExportQueue.Exporter.BeginFlush | packages/telemetry-sdk/src/span.ts:63-70 | takes the whole buffer as the one batch in flight, unless empty, unconfigured or already flushing |
| ExportQueue.Exporter.Push | packages/telemetry-sdk/src/logger.ts:286-293 | drops the oldest at the cap, appends, and flushes at the threshold |
| ExportQueue.Exporter.Requeue | packages/telemetry-sdk/src/span.ts:103-109 | puts a failed batch in front and keeps the newest MAX |
| ExportQueue.Exporter.EndFlush | packages/telemetry-sdk/src/ai.ts:111-122 | ends the flush, requeuing the batch when the fetch failed |
| SpanTree.EveryRunIsGood | packages/telemetry-sdk/src/span.ts:577-609 | in every interleaving, parents are the lexically enclosing calls' spans, awaited spans end inside the span that awaited them, the request span included, and an untouched status is 2 exactly where the body rejected |
| SpanTree.ExportIsTree | packages/telemetry-sdk/src/span.ts:519-573 | in every interleaving `end()` exports once, and what it exports is a tree rooted at the request span with its recorded end and status: distinct ids, every row under the row of the enclosing call, inside its interval if awaited, telling how its call settled |
| SpanTree.ExportIsTold | packages/telemetry-sdk/src/span.ts:519-573 | what is exported, told from the events before the first `end()` alone: for the request span and every call its id, its parent, when it began and ended, and the status set last, be it by anyone or by its rejection |
| SpanTree.AwaitedInsideRequest | packages/telemetry-sdk/src/span.ts:519-524 | a call awaited all the way out has ended inside the interval of the request span |
| SpanTree.RequestSpan.CreateChildSpan | packages/telemetry-sdk/src/span.ts:455-470 | pushes a record whose parent is the stored id, or the request span's |
| SpanTree.RequestSpan.WithChildSpanOpen | packages/telemetry-sdk/src/span.ts:577-596 | opens the span and gives the body a store holding its id |
| SpanTree.RequestSpan.WithChildSpanSettle | packages/telemetry-sdk/src/span.ts:596-607 | ends the span, with status 2 when the body rejected |
| SpanTree.RequestSpan.EndRequestSpan | packages/telemetry-sdk/src/span.ts:519-524 | records the end and enqueues the snapshot, the first time only |
| SpanTree.RequestSpan.SetStatus | packages/telemetry-sdk/src/span.ts:451-454 | sets the request span's status |
| SpanTree.RequestSpan.SetStatusOf | packages/telemetry-sdk/src/span.ts:510-513 | sets a child span's status |
| SpanTree.RequestSpan.ToExportRequest | packages/telemetry-sdk/src/span.ts:525-573 | the request span's row, then the records in the order they were pushed |
| SpanAttributes.NamesDistinct | packages/obs-types/src/constants.ts:78-99 | the attribute keys stamped on spans are pairwise distinct |
| SpanAttributes.SetKvFacts | packages/telemetry-sdk/src/span.ts:130-142 | setting a key keeps keys unique, is read back, and leaves every other key alone |
| SpanAttributes.SetAllFacts | packages/telemetry-sdk/src/agent.ts:281-308 | after many settings, with keys set however often, the last writer of each key wins and all other keys are left alone |
| SpanAttributes.RunDescribesItselfExactly | packages/telemetry-sdk/src/agent.ts:320-342 | a nested run's span describes the run with no stale key of the enclosing action if and only if the run has an actor id or the enclosing action has none |
| SpanAttributes.NamelessRunIsStale | packages/telemetry-sdk/src/agent.ts:331-339 | a nested run with an empty agent id keeps the enclosing action's actor on its span: the failing input |
| SpanAttributes.NestedRunDescribesItself | packages/telemetry-sdk/src/agent.ts:331-339 | with a non-empty agent id the span is never stale |
| SpanAttributes.StepDescribesItself | packages/telemetry-sdk/src/agent.ts:484-486 | every other action's span describes that action |
| AgentSpans.SpansTellGraph | packages/telemetry-sdk/src/agent.ts:281-308 | the span of every call, however nested, carries under their names its own id, the id of the call it was made in, the root, its kind and the interaction |
| AgentSpans.SpansTellRun | packages/telemetry-sdk/src/agent.ts:281-308 | it carries, under name and alias, the id and the actor of the innermost run around it |
| SpanAttributes.ChildSpanRecord.constructor | packages/telemetry-sdk/src/span.ts:461-500 | stamps the context the span is created under |
| SpanAttributes.ChildSpanRecord.SetAttribute | packages/telemetry-sdk/src/span.ts:130-142 | replaces the value of an existing key, or appends |
| SpanAttributes.ChildSpanRecord.SetActionAttrs | packages/telemetry-sdk/src/agent.ts:281-308 | applies the updates of a context in the order of the source |
| ActionContext.HandOffExactly | packages/telemetry-sdk/src/agent.ts:196-236 | a context survives serialising and restoring unchanged, whatever context the consumer has, if and only if its ids are valid and no string is empty |
| ActionContext.WithActionExactly | packages/telemetry-sdk/src/agent.ts:412-449 | `withAction` throws exactly if an id given to it is malformed, and otherwise its context can be handed on exactly if no empty text was given |
| ActionContext.WithActionFields | packages/telemetry-sdk/src/agent.ts:412-449 | given nothing, `withAction` runs under the context of a step, caused by the enclosing action; each field given replaces that field and no other |
| ActionContext.BuiltContextsAreCanonical | packages/telemetry-sdk/src/agent.ts:310-315 | however contexts are started, stepped, acted under, received and handed on, `requireActionId` throws exactly where a caller of `withAction` gave a malformed id; every context that comes about survives a hand-off, and a delivered one is the one sent |
| AgentGraph.LinksFollowNesting | packages/telemetry-sdk/src/agent.ts:463-482 | every cause is the enclosing call and began earlier, so links form a forest |
| AgentGraph.InheritsFromRun | packages/telemetry-sdk/src/agent.ts:320-339 | every action carries the run id and actor of the innermost run around it, and the ambient interaction |
| AgentGraph.RootsInherited | packages/telemetry-sdk/src/agent.ts:324-339 | exactly runs, and outermost calls with nothing ambient, open a new root; all others inherit |
| AgentGraph.InboundLinks | packages/telemetry-sdk/src/span.ts:354-404 | under an inbound request, outermost calls are caused by the action its headers name, else the root, else the interaction, and inherit the root, else the action, else the interaction |
| AgentGraph.CreatedIdsAreFresh | packages/telemetry-sdk/src/agent.ts:247-269 | created ids are fresh as long as no two calls of one millisecond draw the same random bytes |
| AgentGraph.ReachesTop | packages/telemetry-sdk/src/agent.ts:506-525 | from every action, staying among those with its root id, one reaches the action whose id that is, or, under an inbound root, an outermost call that the inbound action caused |
| AgentGraph.EveryActionShown | packages/dashboard/src/dashboards/AgentRunDashboard.tsx:575-625 | whatever the nesting, the schedule and the order of records, the dashboard shows every action exactly once at its nesting depth |
| AgentGraph.RunShownAlone | packages/dashboard/src/dashboards/AgentRunDashboard.tsx:596-622 | given only the actions of one run's root, exactly these are shown, each once, at its distance from the run |
| AgentGraph.AmbientShownAlone | packages/dashboard/src/dashboards/AgentRunDashboard.tsx:596-622 | given only the actions under an inbound root, exactly these are shown, each once, at its nesting depth |
| ActionTree.ChainBound | packages/dashboard/src/dashboards/AgentRunDashboard.tsx:612-618 | a chain of causes that reaches a root is shorter than the list, whatever cycles the list contains |
| ActionTree.RootsAndParents | packages/dashboard/src/dashboards/AgentRunDashboard.tsx:595-601 | a root names no cause, or the empty one, or one that no listed action has for its id; any other action's parent has that id |
| ActionTree.TreeRows | packages/dashboard/src/dashboards/AgentRunDashboard.tsx:575-625 | exactly the actions whose chain reaches a root are shown, at the chain's length, each once, below its parent as the indentation shows it, and siblings by start time, then by the order of the list |
| ActionTree.ShowsAllExactly | packages/dashboard/src/dashboards/AgentRunDashboard.tsx:595-601 | the whole list is shown if and only if every chain reaches a root |
| ActionWalk.EndsExactly | packages/dashboard/src/dashboards/AgentRunDashboard.tsx:612-622 | whatever the list, the walk ends if and only if no id that a root leads to leads back to itself, and its calls then nest no deeper than there are ids |
| ActionWalk.RepeatedIdNeverEnds | packages/dashboard/src/dashboards/AgentRunDashboard.tsx:612-618 | two actions of one id, the second caused by it: a list on which the walk never ends |
| ActionWalk.ShowsWhatDescends | packages/dashboard/src/dashboards/AgentRunDashboard.tsx:612-622 | if the walk ends it shows exactly the actions that hang below a root, at every depth at which they do |
| ActionWalk.DistinctShowsTree | packages/dashboard/src/dashboards/AgentRunDashboard.tsx:575-625 | with distinct ids the walk always ends, with the rows of the tree |
| ActionWalk.GroupByCause | packages/dashboard/src/dashboards/AgentRunDashboard.tsx:576-584 | the map holds, for each cause, the actions naming it in list order |
| ActionWalk.SortLists | packages/dashboard/src/dashboards/AgentRunDashboard.tsx:586-593 | every list is sorted by start time |
| ActionWalk.FindRoots | packages/dashboard/src/dashboards/AgentRunDashboard.tsx:595-606 | the roots are the actions without a listed cause, by start time |
| ActionWalk.WalkInto | packages/dashboard/src/dashboards/AgentRunDashboard.tsx:612-618 | the recursion appends the subtree in depth-first order, on every list on which it ends |
| ActionWalk.BuildActionTree | packages/dashboard/src/dashboards/AgentRunDashboard.tsx:575-625 | on every list on which it ends, repeated ids or not, the rows are exactly the actions below a root at each depth they hang at; with distinct ids they are the specified tree |
| ActionId.FormatsAgree | packages/obs-types/src/constants.ts:142 | both id patterns accept exactly 26 characters of the alphabet |
| ActionId.TimePrefix | packages/telemetry-sdk/src/agent.ts:247-269 | the first ten characters are the clamped time in base 32, whatever the random bytes |
| ActionId.PrefixesAgreeExactly | packages/analytics-sdk/src/interaction.ts:43-51 | server and browser time digits agree if and only if the time fits in 48 bits or wraps to the clamped value |
| ActionId.SortsByTime | packages/telemetry-sdk/src/agent.ts:240-246 | ids of different milliseconds sort by time, the server's, the browser's and each among the other's, whatever the random bytes |
| ActionId.RandomSuffix | packages/telemetry-sdk/src/agent.ts:253-263 | the last sixteen characters spell the random bytes |
| ActionId.ActionIdsDiffer | packages/telemetry-sdk/src/agent.ts:247-269 | two ids are the same if and only if their times, clamped to 48 bits, and all random bytes are |
| ActionId.InteractionIdsDiffer | packages/analytics-sdk/src/interaction.ts:53-69 | two browser ids are the same if and only if their times agree in the last 50 bits and their random bytes in the last five |
| ActionId.ActionIdValid | packages/telemetry-sdk/src/agent.ts:265-267 | the result always has the required format |
| ActionId.EncodeTime | packages/analytics-sdk/src/interaction.ts:43-51 | the browser's loop computes the base-32 digits |
| ActionId.GenerateInteractionId | packages/analytics-sdk/src/interaction.ts:53-69 | the id is valid: the time digits, then a digit for each random byte |
| ActionId.ActionIdValue | packages/telemetry-sdk/src/agent.ts:248-256 | the bytes spell time times 2^80 plus the random part |
| ActionId.EncodeValue | packages/telemetry-sdk/src/agent.ts:258-263 | shifting and masking computes the base-32 digits |
| ActionId.CreateActionId | packages/telemetry-sdk/src/agent.ts:247-269 | returns the specified id; the exception is unreachable |
| Text.SplitJoin | packages/telemetry-sdk/src/mcp.ts:252-258 | splitting undoes joining when no part contains the separator |
| Traceparent.ParsedIsValid | packages/telemetry-sdk/src/span.ts:215-225 | whatever the header, parsed ids are hexadecimal, of the right length and not all zero |
| Traceparent.RoundTripExactly | packages/telemetry-sdk/src/span.ts:207-225 | a printed header parses back to its ids if and only if both are valid |
| Traceparent.ShapedHeaderParses | packages/telemetry-sdk/src/span.ts:207-225 | every header of the W3C shape is understood, whatever its version, flags, case and surrounding space, unless an id is all zeros |
| Traceparent.ParsedHeaderIsShaped | packages/telemetry-sdk/src/span.ts:207-225 | and no other header is |
| McpBaggage.AppendExactly | packages/telemetry-sdk/src/mcp.ts:245-273 | the id is read back if and only if the baggage was decodable and silent about the interaction, or carried the same id; other entries keep their order |
| McpBaggage.EntryReads | packages/telemetry-sdk/src/mcp.ts:265-271 | what any tidy entry says: nothing under another key, and under the interaction's the id its value is, if it is one |
| McpBaggage.FirstKeyDecides | packages/telemetry-sdk/src/mcp.ts:261-273 | in anyone's baggage, entries before the first with the key are passed over and those after it are not looked at |
| McpBaggage.BareKeyLosesTheId | packages/telemetry-sdk/src/mcp.ts:256-257 | a bare key without a value is the baggage that loses the id |
| McpBaggage.ParseBaggageInteractionId | packages/telemetry-sdk/src/mcp.ts:261-273 | the first entry with the key decides, and malformed entries before it throw |
| Mcp.Params.Inject | packages/telemetry-sdk/src/mcp.ts:50-84 | writes the specified properties and leaves the others |
| Mcp.RoundTripExactly | packages/telemetry-sdk/src/mcp.ts:101-160 | for valid ids, whatever `_meta` held and whatever baggage or tracestate the caller passes, extraction throws exactly on undecodable baggage and otherwise recovers trace, span, root and action; the interaction, or that there is none, if and only if the baggage is compatible |
| Mcp.InjectedParts | packages/telemetry-sdk/src/mcp.ts:50-84 | with a span, an action, both or neither active, what is active replaces what was there and what is not leaves it |
| Mcp.ExtractsExactly | packages/telemetry-sdk/src/mcp.ts:101-160 | from anyone's `_meta`: when it throws, when an action is found, and when nothing is |
| Mcp.NestedIsFallback | packages/telemetry-sdk/src/mcp.ts:122-137 | the nested ids are read only where the flat ones are not texts; a flat text that is no id hides them |
| Mcp.ExtractedContextIsAccepted | packages/telemetry-sdk/src/mcp.ts:138-148 | an extracted action context is always accepted by `withAction` and names the client's action as its cause |
| StableJsonLaws.PrintPrefix | packages/telemetry-sdk/src/mcp.ts:332-338 | printed values delimit themselves: one text followed by one continuation is one value |
| StableJsonLaws.StringifyIsPrint | packages/telemetry-sdk/src/mcp.ts:339-343 | stringifying is printing the normal form, in which keys are sorted at every depth |
| StableJsonLaws.NormalUnique | packages/telemetry-sdk/src/mcp.ts:339-343 | two normal forms that mean the same are the same |
| StableJsonLaws.Canonical | packages/telemetry-sdk/src/mcp.ts:332-344 | two values get the same text if and only if they are equal up to key order, at any depth |
| StableJsonLaws.TwoFields | packages/telemetry-sdk/src/mcp.ts:339-343 | whichever way an object holds its fields, that of the smaller key is written first, as quoted key, colon and text |
| StableJsonLaws.TextsAsJson | packages/telemetry-sdk/src/mcp.ts:332-338 | scalars are written by name and array items in order |
| StableJsonLaws.EscapesAsJson | packages/telemetry-sdk/src/mcp.ts:332-335 | every character of a string is escaped as JSON prescribes |
| UsageSession.EnsuredTwice | packages/analytics-sdk/src/usage-tracker.ts:227-232 | a second check at the same instant changes nothing, and the session is then not expired |
| UsageSession.SessionBounds | packages/analytics-sdk/src/usage-tracker.ts:175-218 | over all runs of all trackers on one storage, events of one session lie within 60 minutes and consecutive ones within 30 |
| UsageSession.SameSessionExactly | packages/analytics-sdk/src/usage-tracker.ts:175-248 | over every run, two events carry the same session id if and only if no check between them came more than 60 minutes after the session's first or more than 30 after its last event |
| UsageTracker.Tracker.CheckAndRotateSession | packages/analytics-sdk/src/usage-tracker.ts:175-208 | rotates exactly an expired session and always leaves a start time |
| UsageTracker.Tracker.SessionId | packages/analytics-sdk/src/usage-tracker.ts:220-225 | creates an id only if there is none, without checking for expiry |
| UsageTracker.Tracker.EnsureSessionCurrent | packages/analytics-sdk/src/usage-tracker.ts:227-248 | leaves a current session; touches the recorder only when it rotated |
| UsageTracker.Tracker.StartReplay | packages/analytics-sdk/src/usage-tracker.ts:348-418 | ends with one live recorder and agreeing flags, whatever the recorder emits while starting, and buffers exactly what of it fills no whole upload |
| UsageTracker.Tracker.StopReplay | packages/analytics-sdk/src/usage-tracker.ts:420-434 | ends with no live recorder and an empty buffer, having lost exactly the events named by `LostByStop` |
| UsageTracker.StopLosesNothingExactly | packages/analytics-sdk/src/usage-tracker.ts:421-422 | stopping loses no event if and only if nothing is buffered, or uploads are possible and the flush restarts no recorder whose first events are left over |
| UsageTracker.Tracker.FlushReplays | packages/analytics-sdk/src/usage-tracker.ts:436-472 | uploads exactly the buffered events under the current session and the next number, after all earlier uploads; without a restart it uploads nothing else; the recursion through rotation terminates |
| UsageTracker.Tracker.Emit | packages/analytics-sdk/src/usage-tracker.ts:364-388 | buffers the event and uploads at the 50th; fewer than 50 are buffered on return, so the 500 cap never drops any |
| UsageTracker.Tracker.Track | packages/analytics-sdk/src/usage-tracker.ts:257-260 | sends under the current session and records the activity, or neither |
| UsageTracker.AnySequence | packages/analytics-sdk/src/usage-tracker.ts:348-472 | after any sequence of calls at most one recorder is live, the flags agree, the cap never dropped an event, and every event emitted was uploaded once, waits, or was thrown away by a stop or while uploads are disabled |
| UsageTracker.Perform | packages/analytics-sdk/src/usage-tracker.ts:227-260 | every call of a tracker is a step of the session machine, or leaves the storage alone |
| UsageTracker.SharedSequence | packages/analytics-sdk/src/usage-tracker.ts:175-260 | calls of any trackers on one storage are a run of the session machine, so the bounds, and exactly when two events share a session, hold of the usage events they send |

## Left out

- Gzip streams, `fetch`, timers, process signals, the console, rrweb and SHA-256: foreign calls, present only as outcomes.
- `TextEncoder` and `TextDecoder`: strings of the string table are byte sequences.
- Varints of 2^53 and above: the source adds them up in floating point and loses digits; the model adds exactly.
- Negative sample values: they arrive as ten-byte varints, outside the range above.
- `encodeURIComponent`: the interaction key and every valid interaction id are unchanged by it, and only those are appended in the model.
- McpBaggage.AppendExactly: percent-decoding is a parameter of which only its effect on text without a percent sign is known.
- Start times of actions are integers, so unparsable dates are not modelled.
- `runWithSpan` for another request inside a body of `withChildSpan`, where the stored parent id is not reset: the span tree is about one request.
- `withChildSpan` without an active span, which records nothing; a body that ends its own span by hand; span events.
- `withAction` with ids supplied by the caller, and contexts from MCP, inside the graph theorems: the first can name any cause, the second names itself.
- Failing session storage, and a clock that goes back or is read twice within one synchronous call.
- Replay sequence numbers across restarts, page-view and once-only deduplication: rotation resets them.
- StableJsonLaws.Canonical: keys are ordered by code point where JavaScript orders by UTF-16 unit; any total order gives the same result.  Numbers are their printed texts, so -0 is 0.
- Payload assembly for OTLP, the redaction and audit envelope of MCP, the collector, the CLI, React rendering, the browser's fetch and click wrappers and the other SDKs: plumbing around what is modelled.
