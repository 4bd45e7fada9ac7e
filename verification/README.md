# LogQuill: verified models of its stateful algorithms

LogQuill is a Python logging library for agent programs. Most of it wraps sinks and SDKs; this project models the
part that carries state over unbounded runs and proves what that part promises. Each module follows one component:

- `Sequences.dfy`: facts about sequences.
- `OrderedDict.dfy`: Python's insertion-ordered dictionary, shared by five components.
- `TraceRecords.dfy`, `TraceSpec.dfy`, `Forests.dfy`, `TraceForest.dfy`, `TraceBuilder.dfy`, `TraceSpans.dfy`,
  `TraceContexts.dfy`: the one-pass span-tree builder. `TraceSpec` compares it with an account of where each record
  belongs that looks at the whole stream at once; `TraceForest` proves conservation of records and totals;
  `TraceBuilder` is the builder on the heap; `TraceSpans` is the producer and the round trip; `TraceContexts` is the
  round trip for several execution contexts that share a logger.
- `Worker.dfy`: the background queue as atomic steps, over every interleaving.
- `Logfmt.dfy`, `LogfmtRoundTrip.dfy`, `LogfmtLeaves.dfy`, `LogfmtTokens.dfy`: the logfmt printer and parser over code
  points, why the parser undoes the printer, which pairs a record is printed as, and what the parser makes of lines the
  printer did not write.
- `TamperEvident.dfy`: the hash-chained log, its verifiers, and tamper evidence as a reduction to the digest.
- `Batching.dfy`: the batching transport with its two separately locked sections.
- `TailBuffer.dfy`, `FlightRecorder.dfy`, `Sampling.dfy`: the bounded buffer of runs and the two plugins built on it.
- `Retry.dfy`: the bounded retry counter against the unbounded one.
- `Intervals.dfy`, `RateLimit.dfy`, `AdaptiveSampling.dfy`: the windowed limiters and their bounds over any interval.
- `Rotation.dfy`: file rotation against the partition of the write history.
- `Redact.dfy`: the sweep over overlapping matches and the rebuilt text.
- `Alerting.dfy`: alert windows and their timers, `close` and its late cancellations included.

Where the original updates an object, the model is a class whose methods are proved to move it as a function of the
old state does; what the component promises is proved about that function, over all histories or all interleavings.

Constructors that raise `ValueError` for bad settings state those settings as a precondition. Time is an input; the
interval bounds assume that it does not go back. Costs, rates and times are real numbers.

Where code and documentation disagree, the code is modelled:

- `logquill/plugins/rate_limit_plugin.py:18-25` speaks of a rolling window and then of a fixed one per key. The code
  keeps a fixed one, so up to `2 * max_records - 1` records can pass in the documented span (`TwoWindowBound`,
  `TwoWindowsReached`), and the documented limit holds only for `max_records` 1 (`RollingLimitIff`).
- `logquill/plugins/adaptive_sampling_plugin.py:57-60` promises a rate within `[min_rate, max_rate]`, but the
  constructor accepts a `base_rate` outside it, and the rate then need not enter the range even after a window has
  ended (`RateStaysIff`, `RateEntersIff`).
- `logquill/cli/trace_tree.py:158-162` says that no node is dropped. A record on a cycle of parent ids is counted but
  hangs below no root; `TraceConservation` says exactly which records are met.
- `logquill/plugins/alerting_plugin.py:132-138` cancels timers after releasing the lock, so a timer that is already
  running can flush a younger window (`LateTimerFlushesYounger`); `OneTimerIff` says on which runs that cannot happen.

## Model

| member | source | states |
|---|---|---|
| `TraceSpec.PlaceByIds` | logquill/cli/trace_tree.py:51-61 | Where a record belongs, from the ids in `meta` alone: at the roots if it names no parent by a non-empty string; under the last record up to itself that closes the parent it names, or else under the next one that does; nowhere yet if none does |
| `TraceSpec.PlaceGrows` | logquill/cli/trace_tree.py:142-155 | A later record moves an earlier one only by closing the span that one waits for; then the earlier record goes under the new one |
| `TraceSpec.PlacedHandedOver` | logquill/cli/trace_tree.py:143-145 | A span that closes takes over, in order, exactly the records that were waiting for its id, and none is left waiting |
| `TraceSpec.KeepFaithful` | logquill/cli/trace_tree.py:141-156 | One-pass building agrees with the whole-stream account of where each record belongs: after every record each list holds exactly the records that belong there, in stream order, the span table names the latest closing record of each id, and waiting lists stand in order of first arrival |
| `TraceSpec.FeedAllFaithful` | logquill/cli/trace_tree.py:133-156 | The same over any stream, malformed ones included |
| `TraceForest.FinalLists` | logquill/cli/trace_tree.py:151-153 | The child lists are the parent links read backwards: no duplicates, nothing missing |
| `TraceForest.FinalRoots` | logquill/cli/trace_tree.py:158-166 | The finished roots are the records without a parent and those whose parent never closed, each once |
| `TraceForest.FinalOrder` | logquill/cli/trace_tree.py:158-166 | The order of the finished roots: records that name no parent as they came, then those whose parent never closed, gathered by the awaited span in the order in which the first of each began to wait |
| `TraceForest.TraceConservation` | logquill/cli/trace_tree.py:133-166 | For any stream: walking down from the roots meets a record exactly once if its parent links lead to a root and never otherwise, and meets `record_count` records if and only if no record is its own ancestor |
| `TraceForest.RollupIsWalkTotal` | logquill/cli/trace_tree.py:89-94 | A recursive rollup equals the plain sum over everything at or below the node |
| `TraceForest.RootTotalsOfRooted` | logquill/cli/trace_tree.py:89-94 | For any stream the rollups of the roots add up to the totals of exactly the records whose links lead to a root |
| `TraceForest.TotalIsTally` | logquill/cli/trace_tree.py:76-87 | All records together count for the sums of the integer `tokens_in`, of the integer `tokens_out` and of the numeric `cost_usd` of their `llm` blocks, a Boolean counting nothing |
| `TraceForest.RootTotalsConserved` | logquill/cli/trace_tree.py:89-94 | Without cycles the root rollups add up to those sums over all kept records |
| `TraceForest.OtherRunsIgnored` | logquill/cli/trace_tree.py:136-139 | Records whose `meta.run_id` is missing or another change nothing, wherever they stand in the stream |
| `TraceForest.ForeignInserted` | logquill/cli/trace_tree.py:136-139 | Putting one such record anywhere into a stream leaves the finished trace as it was |
| `TraceForest.KeptIsOfRun` | logquill/cli/trace_tree.py:136-142 | What is kept of a stream are the records whose `meta.run_id` is the run, in order, and all the others are not |
| `TraceForest.FinishedTrace` | logquill/cli/trace_tree.py:133-175 | The finished trace of any stream in full: which records are kept, what hangs below each in stream order, and the roots in their order |
| `TraceForest.SelfParentLost` | logquill/cli/trace_tree.py:143-155 | In any stream, a kept span that names itself as its parent hangs below no root |
| `Forests.RootedIffAcyclic` | logquill/cli/trace_tree.py:147-166 | Every node leads to a root if and only if no node is its own ancestor |
| `Forests.WalkMeetsRooted` | logquill/cli/trace_tree.py:89-94 | A walk over child lists that invert the parent links meets each rooted node once and no other node |
| `Forests.SizeIffAcyclic` | logquill/cli/trace_tree.py:158-166 | The walk has as many nodes as there are records if and only if the links have no cycle, and is then a reordering of all of them |
| `Forests.ForwardAcyclic` | logquill/cli/trace_tree.py:114-121 | If every record stands before the record of its parent there is no cycle |
| `TraceBuilders.TraceNode.Rollup` | logquill/cli/trace_tree.py:89-94 | The loop over child objects returns the total of the tree that hangs at the node |
| `TraceBuilders.TraceBuilder.constructor` | logquill/cli/trace_tree.py:124-131 | A new builder holds the empty trace |
| `TraceBuilders.TraceBuilder.Feed` | logquill/cli/trace_tree.py:133-156 | Feeding changes the objects as the specified builder does, and returns whether `meta.run_id` is the run |
| `TraceBuilders.TraceBuilder.Arrive` | logquill/cli/trace_tree.py:142-145 | A new node takes over the waiting list of its span id and enters the span table |
| `TraceBuilders.TraceBuilder.TakeWaiting` | logquill/cli/trace_tree.py:143-145 | A span takes over its waiting list; every other table and child list stays |
| `TraceBuilders.TraceBuilder.Attach` | logquill/cli/trace_tree.py:147-155 | The node goes to the roots, to its parent's child list or to the list waiting for its parent |
| `TraceBuilders.TraceBuilder.Adopt` | logquill/cli/trace_tree.py:151-153 | Only the parent's child list changes |
| `TraceBuilders.TraceBuilder.LetWait` | logquill/cli/trace_tree.py:154-155 | Only the list that waits for the parent grows |
| `TraceBuilders.TraceBuilder.Finalize` | logquill/cli/trace_tree.py:158-166 | The waiting lists are appended to the roots in order and cleared; no node is made or lost |
| `TraceBuilders.NodeHangs` | logquill/cli/trace_tree.py:89-94 | The objects below a node that leads to a root form the tree of the builder's state, so `Rollup` can be called on it and returns its total |
| `TraceBuilders.Build` | logquill/cli/trace_tree.py:169-175 | Feeding every record and finalizing yields the finished trace of the stream |
| `TraceSpans.Logger.Log` | logquill/core/logger.py:279-351 | A record below the logger's level is not written; any other is stamped with the enclosing span unless the caller named a parent |
| `TraceSpans.SpanContext.Enter` | logquill/tracing/span.py:118-125 | The span becomes current and remembers which one was |
| `TraceSpans.SpanContext.Exit` | logquill/tracing/span.py:127-159 | The enclosing span is current again and parents the closing record unless a parent was given; ERROR with an error text if the block raised, INFO otherwise; caller fields win over the duration and the kind |
| `TraceSpans.LevelNames` | logquill/core/levels.py:9-14 | The names of the six levels |
| `TraceSpans.CallerFieldsWin` | logquill/tracing/span.py:141-156 | In a closing record the caller's fields win over duration, kind and state diff but not over the error, and nothing else is added |
| `TraceSpans.Run` | logquill/tracing/span.py:118-159 | Nested span blocks under a logger of any level write contents first and then the closing record, each if its level suffices, and leave the current span as they found it |
| `TraceSpans.RunItem` | logquill/tracing/span.py:118-159 | The same for one event or one block |
| `TraceSpans.EmitAtVisible` | logquill/core/logger.py:289-290 | A logger at INFO or below writes what the program without its hidden events writes |
| `TraceSpans.VisibleWellNamed` | logquill/core/logger.py:289-290 | Hiding events changes no span |
| `TraceSpans.SpanCloses` | logquill/cli/trace_tree.py:142-155 | The closing record of a span collects exactly the nodes of the span's contents, in order |
| `TraceSpans.Rebuild` | logquill/cli/trace_tree.py:133-156 | Feeding what a sequence of items wrote hangs exactly those items, in order, below the enclosing span |
| `TraceSpans.RoundTrip` | logquill/cli/trace_tree.py:133-175 | For every ordered forest of spans and events with distinct non-empty ids, mixed in any way with records of other runs, the builder gives back exactly that forest with child order preserved |
| `TraceSpans.TwoRunsApart` | logquill/cli/trace_tree.py:136-175 | Of any interleaving of the streams of two runs with different ids, building for either gives back its program and nothing of the other |
| `TraceSpans.Trace` | logquill/cli/trace_tree.py:169-175 | Running a program and building the trace of the log gives the program without its hidden events, whatever other runs had written before |
| `TraceSpans.EmitClosesLater` | logquill/cli/trace_tree.py:114-121 | In a well-nested stream a span closes after everything inside it |
| `TraceSpans.TruncatedRunConserved` | logquill/cli/trace_tree.py:158-166 | For any prefix of what a logger of any level wrote, every record is met exactly once below the roots, and the root totals are the sums of the tokens and costs in that prefix |
| `TraceContexts.ProgramWrites` | logquill/tracing/span.py:118-159 | A context alone writes what its nested blocks say, each record stamped with the innermost open span or the inherited one, and leaves its context variable as it was |
| `TraceContexts.NoInterference` | logquill/tracing/span.py:80-82 | Whatever the interleaving of contexts on one logger, each writes exactly what it would have written alone |
| `TraceContexts.ChildrenAreStamped` | logquill/cli/trace_tree.py:141-156 | In any stream without a repeated span id the children of a span are the records stamped with it, in stream order, whether they come before or after it closes |
| `TraceContexts.ContextsRoundTrip` | logquill/cli/trace_tree.py:133-175 | However the records of several programs are interleaved with each other and with other runs, the builder nests each program's records as the program did, in order, and hangs its top-level records in order below the span its context was started in, or at the roots if that never closes |
| `TraceContexts.ForeignChildren` | logquill/cli/trace_tree.py:141-156 | The other records below a span, all in stream order, are those of contexts started inside it |
| `TraceContexts.SharedRun` | logquill/tracing/span.py:80-82 | Every interleaving of contexts running programs of nested blocks on one logger writes an interleaving of the visible programs' streams |
| `TraceContexts.SharedRoundTrip` | logquill/tracing/span.py:80-82 | And so the builder gives every context's visible program back from what they wrote together |
| `Worker.SubmitInv` | logquill/runtime/worker.py:80-103 | Submitting keeps the invariant under all three policies |
| `Worker.ResumeInv` | logquill/runtime/worker.py:90-93 | A blocked submitter that wakes, in any order among several, keeps the invariant |
| `Worker.WorkerInv` | logquill/runtime/worker.py:121-137 | Taking an item, finishing one and exiting keep the invariant |
| `Worker.RunInv` | logquill/runtime/worker.py:80-176 | The invariant holds over every interleaving of submitters, worker, drains and close |
| `Worker.AcceptedAccounted` | logquill/runtime/worker.py:80-137 | The queue stays within its bound, `_pending` counts queued items plus the one in hand, each accepted item is exactly one of executed, in hand, queued or evicted, and items start in the order of acceptance |
| `Worker.NothingEvicted` | logquill/runtime/worker.py:88-96 | Without drop_oldest, executed, in-hand and queued items together are the accepted sequence; under block every submitted item is accepted or still waiting |
| `Worker.OpenSettles` | logquill/runtime/worker.py:90-137 | However worker and blocked submitters take turns, an open worker comes one step closer to the end with every turn that changes anything and is stuck only there: nothing queued, in hand or blocked, drains returning True, and under block everything submitted executed once |
| `Worker.OpenCanFinish` | logquill/runtime/worker.py:90-154 | From every reachable open state some turns lead to that end, so no blocked submitter is stranded and no drain must hang |
| `Worker.QueueIsNewest` | logquill/runtime/worker.py:97-102 | Under drop_oldest the queue is always a suffix of the submission history |
| `Worker.BurstExact` | logquill/runtime/worker.py:88-102 | A burst against a stalled worker leaves exactly the newest items that fit (drop_oldest) or the oldest (drop_newest) |
| `Worker.DrainedMeansDone` | logquill/runtime/worker.py:139-154 | When a drain returns True, everything accepted before it began has been executed or evicted |
| `Worker.DrainReturnsIffDone` | logquill/runtime/worker.py:146-154 | One check of a drain call returns True if and only if nothing is queued or in hand, False if and only if something is and its deadline has passed, and otherwise leaves it waiting |
| `Worker.DrainsEnd` | logquill/runtime/worker.py:144-154 | Over every run each drain call that has returned gave True exactly if nothing was left at that moment; one without a deadline never gives False, one with a deadline only after it |
| `Worker.ClosedAcceptsNothing` | logquill/runtime/worker.py:86-93 | After close nothing is accepted, not even from a submitter already blocked |
| `Worker.ClosedFinishes` | logquill/runtime/worker.py:121-137 | After close, even a timed-out one, nothing is evicted, the queue is executed in order, and the worker has exited once it has had one step more than its remaining work |
| `Worker.ClosedSettles` | logquill/runtime/worker.py:90-137 | After close, however worker and blocked submitters take turns, they are stuck only when every blocked submitter has been released and the worker has exited with all that was left executed |
| `Worker.AsyncWorker.constructor` | logquill/runtime/worker.py:60-69 | Starts with nothing submitted |
| `Worker.AsyncWorker.Submit` | logquill/runtime/worker.py:80-103 | Moves the fields as the submit step does and says whether the submitter is now blocked |
| `Worker.AsyncWorker.SubmitToFull` | logquill/runtime/worker.py:88-102 | The three policies on a full queue |
| `Worker.AsyncWorker.Resume` | logquill/runtime/worker.py:90-103 | Moves the fields as the wake-up step does and says whether the submitter waits again |
| `Worker.AsyncWorker.Take` | logquill/runtime/worker.py:123-129 | The worker gets the oldest queued item, or learns that it should exit, or neither |
| `Worker.AsyncWorker.Finish` | logquill/runtime/worker.py:130-137 | Finishing an item uncounts it, whether or not it raised |
| `Worker.AsyncWorker.CheckDrained` | logquill/runtime/worker.py:146-154 | One pass of a drain loop: True exactly when nothing is queued or in hand, False exactly when something is after the deadline, and else the call goes on waiting |
| `Worker.AsyncWorker.MarkClosed` | logquill/runtime/worker.py:172-174 | The worker is closed and nothing else changes |
| `Logfmt.FlattenInto` | logquill/formatters/logfmt_formatter.py:69-74 | Appending to the shared list adds exactly the printed pairs of the flattened value |
| `Logfmt.FlattenEntriesInto` | logquill/formatters/logfmt_formatter.py:71-72 | The same for the entries of a mapping, in order |
| `Logfmt.FormatRecord` | logquill/formatters/logfmt_formatter.py:97-113 | The loops build the line whose round trip `ParseFormat` proves |
| `Logfmt.ParseLogfmt` | logquill/parsing.py:116-128 | The loop builds the dictionary in which a repeated key keeps its last value |
| `LogfmtRoundTrip.KeyUnchanged` | logquill/formatters/logfmt_formatter.py:37-38 | A key is printed unchanged if and only if it is non-empty and has no special character |
| `LogfmtRoundTrip.UnescapeOne` | logquill/parsing.py:109-113 | The escape of any one character is undone, whatever follows it |
| `LogfmtRoundTrip.UnescapeEscape` | logquill/parsing.py:109-113 | Unescaping undoes escaping on every text, including text that looks like an escape |
| `LogfmtRoundTrip.QuotedLenEscapeAll` | logquill/parsing.py:104 | The scanner finds the closing quote of an escaped value exactly where the printer put it |
| `LogfmtRoundTrip.DecodeScalar` | logquill/parsing.py:125-127 | Any printed value, quoted or bare, is read back as the text it stands for |
| `LogfmtRoundTrip.ScanPair` | logquill/parsing.py:104 | The scanner splits one printed pair off a line exactly and goes on behind it |
| `LogfmtRoundTrip.ScanJoin` | logquill/parsing.py:104-124 | The scanner finds the printed pairs of a line, all of them and nothing else |
| `LogfmtRoundTrip.ParseFormat` | logquill/formatters/logfmt_formatter.py:97-113 | Parsing a formatted record gives exactly the texts of its flattened fields, a repeated key keeping the last |
| `LogfmtRoundTrip.FieldsSurvive` | logquill/formatters/logfmt_formatter.py:69-74 | A field whose final key no later field shares comes back character for character |
| `LogfmtLeaves.FieldsAreLeaves` | logquill/formatters/logfmt_formatter.py:69-113 | The printed pairs of any record: the four core fields, and then exactly one for each leaf of `llm` and `meta` (a value that is no mapping, an empty one, or one below five keys), in order, with its value under the sanitised keys that lead there, dotted |
| `LogfmtLeaves.LeavesSurvive` | logquill/formatters/logfmt_formatter.py:97-113 | Every leaf comes back from the line character for character under its printed key, unless a later leaf is printed under the same key |
| `LogfmtLeaves.NothingElseParsed` | logquill/formatters/logfmt_formatter.py:97-113 | Every key of the parsed line is a core field or the printed key of a leaf |
| `LogfmtLeaves.KeyCharacters` | logquill/formatters/logfmt_formatter.py:37-38 | A printed key is the raw one with each special character replaced by an underscore, or an underscore if it is empty |
| `LogfmtLeaves.QuotedIff` | logquill/formatters/logfmt_formatter.py:27-34 | A text is printed bare if and only if it is not empty and has no special character; otherwise it stands escaped between quotes |
| `LogfmtLeaves.NamedEscapes` | logquill/formatters/logfmt_formatter.py:24 | The five named escapes |
| `LogfmtLeaves.OtherEscapes` | logquill/formatters/logfmt_formatter.py:30-33 | Any other control character becomes a backslash, a `u` and four lower-case hex digits that read back as it, and every other character stays |
| `LogfmtLeaves.SpecialCharacters` | logquill/formatters/logfmt_formatter.py:20-23 | Of the printable ASCII characters only the quote, the equals sign and the backslash are special; spaces, control characters and line breaks all are |
| `LogfmtTokens.ParseTokens` | logquill/parsing.py:104-128 | Any line of flags, bare values and quoted values with arbitrary escapes parses to the value of the last token of each key, a flag to the empty text |
| `LogfmtTokens.UnescapeUnit` | logquill/parsing.py:105-113 | In a quoted body a plain character is itself, `u` and four hex digits are that code point, a named escape is its character, and an unknown escape is kept |
| `LogfmtTokens.Skipped` | logquill/parsing.py:104 | A space, quote or equals sign where a key should start is passed over |
| `LogfmtTokens.Unclosed` | logquill/parsing.py:104 | A quoted value that never closes leaves its key empty |
| `LogfmtRoundTrip.MetaNotReserved` | logquill/formatters/logfmt_formatter.py:108-112 | No `meta` key, at any depth, can take the name of a core field |
| `LogfmtRoundTrip.CoreFieldExact` | logquill/formatters/logfmt_formatter.py:99-112 | A core field is never overwritten by `llm` or `meta` and comes back exactly |
| `LogfmtRoundTrip.CoreFieldsExact` | logquill/formatters/logfmt_formatter.py:99-112 | Timestamp, level, logger and message of every record come back exactly |
| `LogfmtRoundTrip.OneLine` | logquill/formatters/logfmt_formatter.py:88-91 | The line contains no character at which a reader would break it |
| `TamperEvident.WhatIsCovered` | logquill/plugins/tamper_evident_plugin.py:200-218 | Which edits the hash covers: two records have the same hashed content if and only if they agree on everything but the two hash keys, an absent field counting as null and a restated legacy schema version as none |
| `TamperEvident.TamperEvidentPlugin.constructor` | logquill/plugins/tamper_evident_plugin.py:159-164 | The head is the genesis |
| `TamperEvident.TamperEvidentPlugin.BeforeLog` | logquill/plugins/tamper_evident_plugin.py:166-173 | The records returned so far are the stamped chain of the records seen; the record gains the two hash keys and nothing else changes in it |
| `TamperEvident.VerifyChainDetailed` | logquill/plugins/tamper_evident_plugin.py:33-76 | Accepts exactly the chains; on failure `broken_at` is one more than the longest accepted prefix, the reason is the first fault of that record, and the reported head is that prefix's |
| `TamperEvident.FaultsAre` | logquill/plugins/tamper_evident_plugin.py:47-74 | When each fault is found: the stored hash is looked for first, then the link to the previous hash, then the content |
| `TamperEvident.BreakIsUnique` | logquill/plugins/tamper_evident_plugin.py:42-75 | A sequence has at most one first break with one reason, and an accepted one has none |
| `TamperEvident.AcceptsConcat` | logquill/plugins/tamper_evident_plugin.py:42-76 | `a ++ b` verifies from g if and only if `a` verifies from g and `b` from the head of `a` |
| `TamperEvident.ExtendChain` | logquill/plugins/tamper_evident_plugin.py:44-75 | One more record keeps a chain if and only if it has no fault, and a broken prefix never recovers |
| `TamperEvident.StampedAccepted` | logquill/plugins/tamper_evident_plugin.py:166-181 | Everything one instance stamps verifies, with the head the instance reports |
| `TamperEvident.Compare` | logquill/plugins/tamper_evident_plugin.py:200-218 | Walking two chains back from a common head finds equal contents all the way or names where the digest was broken |
| `TamperEvident.TamperEvidence` | logquill/plugins/tamper_evident_plugin.py:33-76 | Two sequences with the same head from a 64-character genesis have equal hashed contents record by record, or there are two different inputs, hashed by these chains, with the same digest, or an input whose digest is the genesis |
| `TamperEvident.VerifySignedChain` | logquill/plugins/tamper_evident_plugin.py:104-129 | Accepts exactly the chains whose head carries the given signature; a broken chain is reported as the plain verifier reports it, and a signature mismatch exactly for an accepted chain |
| `TamperEvident.SignedHeadRulesOutReplacement` | logquill/plugins/tamper_evident_plugin.py:104-129 | A signed head lets another sequence pass only if its contents are the same, the digest is broken, or a different head has the same signature |
| `TamperEvident.TruncationDetected` | logquill/plugins/tamper_evident_plugin.py:151-156 | A proper prefix of a chain has a different head, or the digest is broken |
| `TamperEvident.EditBreaksThere` | logquill/plugins/tamper_evident_plugin.py:67-74 | Editing one record of an accepted chain, its stored hashes left alone, breaks the chain at that record with a hash mismatch, or the two contents collide |
| `TamperEvident.ResealedEditBreaksNext` | logquill/plugins/tamper_evident_plugin.py:59-74 | Editing one record and forging its stored hashes breaks the chain there or, with a mismatch of the previous hash, at the next record, unless it was the last record or the contents collide |
| `TamperEvident.DeletionBreaksThere` | logquill/plugins/tamper_evident_plugin.py:59-66 | Deleting records with any record after them breaks the chain at the record after the gap, with a mismatch of the previous hash, or the digest is broken |
| `TamperEvident.OnlySamePastFits` | logquill/plugins/tamper_evident_plugin.py:136-139 | Whatever replaces the records before a remaining part of an accepted chain (edited, dropped, inserted or reordered ones) is accepted only with the same contents, or the digest is broken |
| `Batching.StepInv` | logquill/transports/batching_transport.py:63-94 | Each locked section keeps the invariant |
| `Batching.RunInv` | logquill/transports/batching_transport.py:63-94 | The invariant holds over every interleaving of writers and flushes |
| `Batching.NothingLost` | logquill/transports/batching_transport.py:63-90 | Over every interleaving the batches in swap order followed by the buffer are the items in append order, `_buffer_bytes` is the sum of the buffered sizes, and no batch is empty |
| `Batching.TotalAdds` | logquill/transports/batching_transport.py:70 | The bytes of a buffer are those of its items together |
| `Batching.BufferBound` | logquill/transports/batching_transport.py:68-86 | The buffer exceeds `max_records - 1` by at most the number of writers that decided to flush and have not swapped yet, and its bytes exceed `max_bytes - 1` by at most the size of that many last records |
| `Batching.OvershootReached` | logquill/transports/batching_transport.py:68-75 | The record bound is met for every number of writers under all limits of at least 1, with any item small enough for `max_records - 1` of them to fit |
| `Batching.ByteOvershootReached` | logquill/transports/batching_transport.py:68-75 | The byte bound is met as well, for every number of writers, if `max_records` is at least 2 |
| `Batching.BatchesCutAtLimit` | logquill/transports/batching_transport.py:63-90 | What one thread writes is cut into batches exactly where a limit is first reached, and the rest stays in the buffer |
| `Batching.BatchingTransport.constructor` | logquill/transports/batching_transport.py:50-55 | An empty buffer |
| `Batching.BatchingTransport.AppendSection` | logquill/transports/batching_transport.py:68-73 | The first section buffers the item and decides to flush exactly when a limit is reached |
| `Batching.BatchingTransport.SwapSection` | logquill/transports/batching_transport.py:82-86 | The second section empties the buffer and hands out what was in it, or nothing |
| `Batching.BatchingTransport.Write` | logquill/transports/batching_transport.py:63-75 | On one thread a write sends the whole buffer as one batch exactly if it reaches a limit, and else leaves it strictly within both; nothing is lost |
| `Batching.BatchingTransport.Close` | logquill/transports/batching_transport.py:92-94 | Nothing stays buffered: the batches together are everything ever written |
| `TailBuffer.StoreInv` | logquill/plugins/flight_recorder_plugin.py:91-115 | Buffering a record, with the evictions it causes, keeps the invariant: the count is the total buffered, each run holds its unshipped tail, an evicted run was the least recently buffered one and a cap would have been exceeded, and no shipped run is buffered again |
| `TailBuffer.FlushInv` | logquill/plugins/flight_recorder_plugin.py:91-98 | Flushing ships exactly the run's tail and keeps the invariant |
| `TailBuffer.OldestFirst` | logquill/plugins/flight_recorder_plugin.py:112-115 | The first key of the table is the least recently buffered run |
| `TailBuffer.StoreArrived` | logquill/plugins/flight_recorder_plugin.py:100-110 | Buffering accounts for exactly one more record that came in |
| `TailBuffer.StoreTail` | logquill/plugins/flight_recorder_plugin.py:100-110 | Buffering extends the tail of its own run and no other, evictions aside |
| `TailBuffer.RunBuffer.constructor` | logquill/plugins/flight_recorder_plugin.py:64-66 | Nothing is buffered |
| `TailBuffer.RunBuffer.FlushRun` | logquill/plugins/flight_recorder_plugin.py:91-97 | What the run holds is written to the transports in order of arrival; the run is marked and its records are no longer counted |
| `TailBuffer.RunBuffer.BufferRecord` | logquill/plugins/flight_recorder_plugin.py:100-110 | The table, the count and the history move together |
| `TailBuffer.RunBuffer.ClaimSlot` | logquill/plugins/flight_recorder_plugin.py:101-106 | A known run becomes the most recent one; a new run may push the oldest out |
| `TailBuffer.RunBuffer.TrimToCap` | logquill/plugins/flight_recorder_plugin.py:109-110 | Oldest runs are evicted until the count is within the cap |
| `TailBuffer.RunBuffer.EvictOldestRun` | logquill/plugins/flight_recorder_plugin.py:112-115 | The first run of the table is lost and uncounted |
| `FlightRecorder.Conservation` | logquill/plugins/flight_recorder_plugin.py:68-115 | For every sequence of records each one is exactly one of passed, shipped, evicted or still buffered, none is dropped, and the caps hold on return |
| `FlightRecorder.ShippedIffFailed` | logquill/plugins/flight_recorder_plugin.py:80-97 | For every sequence of records and all settings, what is held of a run is shipped if and only if one of its records reached `flush_at`: a passing run ships nothing |
| `FlightRecorder.PassesIffNotHeld` | logquill/plugins/flight_recorder_plugin.py:68-89 | On every run a record passes as it comes in if and only if it has no run, it reaches `flush_at` or `ship_at`, or an earlier record of its run reached `flush_at` |
| `FlightRecorder.ShipLevelAlwaysPasses` | logquill/plugins/flight_recorder_plugin.py:85-86 | A record at or above `ship_at` passes exactly as often as it comes in |
| `FlightRecorder.NoRoomNothingHeld` | logquill/plugins/flight_recorder_plugin.py:104-113 | With `max_runs` below 1 nothing is ever buffered, so that eviction finds nothing to evict |
| `FlightRecorder.UnevictedTail` | logquill/plugins/flight_recorder_plugin.py:68-110 | Of a run none of whose records reached `flush_at` or was evicted, exactly the records below `ship_at` are kept, in order of arrival |
| `FlightRecorder.FailingRunShipsItsTrail` | logquill/plugins/flight_recorder_plugin.py:68-98 | The first record of a run at or above `flush_at`, if none of the run's records was evicted, ships exactly those below `ship_at` in order of arrival, and then passes |
| `FlightRecorder.TrailShippedOnce` | logquill/plugins/flight_recorder_plugin.py:80-97 | Looking back on any run: that shipment stands right before the first failing record, and nothing of the run was ever shipped again |
| `FlightRecorder.FittingTrailShips` | logquill/plugins/flight_recorder_plugin.py:99-115 | From the records alone: as long as the records to hold back and their runs fit the caps, nothing is evicted and every failing run ships its complete trail |
| `FlightRecorder.FlightRecorderPlugin.constructor` | logquill/plugins/flight_recorder_plugin.py:44-66 | A recorder that has seen nothing |
| `FlightRecorder.FlightRecorderPlugin.BeforeLog` | logquill/plugins/flight_recorder_plugin.py:68-97 | The buffer moves as the model does; the record is returned exactly if it is not one to hold back, the run's held records are written exactly at its first failing record, and holding back ends in KeyError exactly when `max_runs` is below 1 |
| `Sampling.Conservation` | logquill/plugins/sampling_plugin.py:75-126 | The same conservation for sampled traces, the dropped records being exactly those of `OnlyUntracedDropped` |
| `Sampling.OnlyUntracedDropped` | logquill/plugins/sampling_plugin.py:81-100 | Over every run, dropped are exactly the records without a trace to hold them that the draw does not keep |
| `Sampling.ShippedIffElevated` | logquill/plugins/sampling_plugin.py:84-108 | For every run and all settings, what is held of a trace is shipped if and only if one of its records reached `elevate_at` |
| `Sampling.PassesIffNotTakenOut` | logquill/plugins/sampling_plugin.py:75-100 | On every run a record passes as it comes in if and only if the draw keeps it, it has a trace and reaches `elevate_at`, or an earlier record of its trace did |
| `Sampling.NoRoomNothingHeld` | logquill/plugins/sampling_plugin.py:114-125 | With `max_traces` below 1 nothing is ever buffered |
| `Sampling.UnevictedTail` | logquill/plugins/sampling_plugin.py:75-122 | Of a trace none of whose records reached `elevate_at` or was evicted, exactly the sampled-out records are kept, in order of arrival |
| `Sampling.ElevatedTraceIsComplete` | logquill/plugins/sampling_plugin.py:87-108 | The first record of a trace at or above `elevate_at`, if none of the trace's records was evicted, ships exactly the sampled-out ones in order of arrival, and then passes |
| `Sampling.TraceShippedOnce` | logquill/plugins/sampling_plugin.py:84-108 | Looking back on any run: that shipment stands right before the first elevating record, and nothing of the trace was ever shipped again |
| `Sampling.FittingTraceIsComplete` | logquill/plugins/sampling_plugin.py:110-126 | From the records alone: as long as the records to hold and their traces fit the caps, nothing is evicted and every elevated trace is complete |
| `Sampling.SamplingPlugin.constructor` | logquill/plugins/sampling_plugin.py:44-73 | A sampler that has seen nothing |
| `Sampling.SamplingPlugin.BeforeLog` | logquill/plugins/sampling_plugin.py:75-108 | The buffer moves as the model does; the record is returned exactly if it is not taken out, the trace's held records are written exactly at its first elevating record, and holding back ends in KeyError exactly when `max_traces` is below 1 |
| `Retry.OpenInv` | logquill/tracing/retry.py:36-42 | Opening keeps the invariant: behind each call stand exactly the calls outstanding since it was last opened, the table holds exactly the running calls that `max_entries` others have not overtaken, and its counts are below the true ones, or equal to them exactly for undisturbed calls |
| `Retry.SucceedInv` | logquill/tracing/retry.py:44-47 | Success keeps the invariant |
| `Retry.AfterInv` | logquill/tracing/retry.py:32-47 | The invariant holds after every history of calls |
| `Retry.OpenedRefinesChain` | logquill/tracing/retry.py:32-42 | The count returned never exceeds the number of earlier openings since the last success, and equals it if and only if, between consecutive openings of the call, there were never `max_entries` others opened since and still outstanding; the table never exceeds `max_entries` |
| `Retry.FirstAttemptIff` | logquill/tracing/retry.py:37 | A call is reported as a first attempt if and only if no chain of it is running, or `max_entries` others were outstanding at some point since it was last opened |
| `Retry.KeyIdentifies` | logquill/tracing/retry.py:35 | Two calls are counted together exactly when span, tool and call id agree, an absent id being as good as an empty one |
| `Retry.RetryTracker.constructor` | logquill/tracing/retry.py:24-30 | An empty table |
| `Retry.RetryTracker.Open` | logquill/tracing/retry.py:32-42 | Returns the bounded count, with the bounds of `OpenedRefinesChain` |
| `Retry.RetryTracker.Succeed` | logquill/tracing/retry.py:44-47 | The call is forgotten and no other |
| `Rotation.RotateFiles` | logquill/transports/file_transport.py:95-109 | Renaming in place, on any directory even with gaps: the live file becomes number 1, each file below the last moves up by one, the last one survives only if nothing replaces it, higher numbers stay |
| `Rotation.SplitIsCut` | logquill/transports/file_transport.py:92-93 | The reference cuts the history into chunks that reach `max_bytes` with their last line and not before |
| `Rotation.CutIsUnique` | logquill/transports/file_transport.py:92-93 | There is only one such way to cut a history |
| `Rotation.FilesHoldNewestChunks` | logquill/transports/file_transport.py:80-109 | From an empty directory, for all settings: the backups are exactly the newest `backup_count` chunks, the newest as number 1, and the live file is the rest |
| `Rotation.FilesKeepSuffix` | logquill/transports/file_transport.py:95-109 | The backups are numbered 1 to k without a gap, k at most `backup_count`; read from k to 1 and then the live file they are a contiguous suffix of the lines written, and anything is missing only if k is `backup_count` |
| `Rotation.BackupsHoldBytes` | logquill/transports/file_transport.py:92-107 | The k backups together hold at least `k * max_bytes` bytes |
| `Rotation.FileSizes` | logquill/transports/file_transport.py:92-93 | Each backup holds at least `max_bytes` and less than `max_bytes` plus its last line; the live file stays below |
| `Rotation.SizeAdds` | logquill/transports/file_transport.py:92 | The size of a file is that of its lines together |
| `Rotation.WithoutRotation` | logquill/transports/file_transport.py:92-93 | With `max_bytes` at 0 one file holds everything |
| `Rotation.Reopened` | logquill/transports/file_transport.py:75-78 | Opening the same directory again continues where the writing had stopped |
| `Rotation.FileTransport.constructor` | logquill/transports/file_transport.py:51-78 | Opens any directory for appending, existing files included |
| `Rotation.FileTransport.Write` | logquill/transports/file_transport.py:80-93 | The files are those that writing the lines so far makes of what was there; from an empty directory, those of `FilesHoldNewestChunks` |
| `Rotation.FileTransport.RotateInPlace` | logquill/transports/file_transport.py:95-109 | The descending loop of unlinks and renames does what `RotateFiles` describes |
| `RateLimit.AfterInv` | logquill/plugins/rate_limit_plugin.py:61-82 | Every stored count lies between 1 and `max_records` and the table never exceeds `max_keys` |
| `RateLimit.StepInv` | logquill/plugins/rate_limit_plugin.py:66-82 | A record starts, continues or meets the full window of its own key and leaves the windows of the others alone |
| `RateLimit.TwoWindowBound` | logquill/plugins/rate_limit_plugin.py:61-82 | With a non-decreasing clock at most `2 * max_records - 1` records of a key pass in any half-open interval of length `per_seconds` in which its window is not evicted |
| `RateLimit.ForgetsOldest` | logquill/plugins/rate_limit_plugin.py:69-76 | The table lists its keys from the least to the most recently seen, and a key once seen is missing only if `max_keys` distinct others were seen after it |
| `RateLimit.RecentKeyBound` | logquill/plugins/rate_limit_plugin.py:61-82 | The same bound from the records alone: it holds if fewer than `max_keys` other keys are seen between records of the key |
| `RateLimit.TwoWindowsReached` | logquill/plugins/rate_limit_plugin.py:61-82 | For all settings and every key some run reaches the bound of `TwoWindowBound` |
| `RateLimit.KeysIndependent` | logquill/plugins/rate_limit_plugin.py:61-82 | Records of other keys make no difference: as long as the window of a key is kept, it is the fixed window of its own records alone, and its next record passes exactly if that window lets it |
| `RateLimit.RollingLimitIff` | logquill/plugins/rate_limit_plugin.py:18-25 | The documented rolling limit (no interval of length `per_seconds` passes more than `max_records` of a key whose window is kept) holds over all runs if and only if `max_records` is 1, or `max_keys` is 0 and no window is ever kept |
| `RateLimit.RateLimitPlugin.constructor` | logquill/plugins/rate_limit_plugin.py:49-59 | An empty table |
| `RateLimit.RateLimitPlugin.BeforeLog` | logquill/plugins/rate_limit_plugin.py:61-82 | The table moves as the model does, and the record passes exactly when the model passes it |
| `AdaptiveSampling.AlwaysPass` | logquill/plugins/adaptive_sampling_plugin.py:127-135 | A record at `keep_at` or above, and a span of `slow_ms` or longer, passes in every state; unless a window is over, the state after it is the state before it |
| `AdaptiveSampling.WindowAccounting` | logquill/plugins/adaptive_sampling_plugin.py:127-146 | Within a window the bytes that pass never exceed the budget or the bytes wanted, and equal the bytes wanted as long as those are within the budget |
| `AdaptiveSampling.TwoBudgetBound` | logquill/plugins/adaptive_sampling_plugin.py:104-146 | With a non-decreasing clock at most twice the budget is sampled in any half-open interval of length `window_seconds` |
| `AdaptiveSampling.TwoBudgetsReached` | logquill/plugins/adaptive_sampling_plugin.py:117-122 | The factor of two is met for all settings that sample at all |
| `AdaptiveSampling.NextRateInRange` | logquill/plugins/adaptive_sampling_plugin.py:110-118 | A rate in range stays in range; it rises exactly after a slack window unless it is zero or at its maximum, and falls exactly after a crowded one unless it is at its minimum |
| `AdaptiveSampling.StateFromHistory` | logquill/plugins/adaptive_sampling_plugin.py:104-146 | After every record of every run rate, window start and counters are what the history says: the rate follows the demands of the ended windows, a demand being the sizes of a window's ordinary records drawn below the rate then in force |
| `AdaptiveSampling.PassesIff` | logquill/plugins/adaptive_sampling_plugin.py:127-146 | On every run an ordinary record passes if and only if its draw is below the rate that follows from the demands of the windows ended by then and it fits what its window has left of the budget; any other record passes |
| `AdaptiveSampling.SlackWindowsRaise` | logquill/plugins/adaptive_sampling_plugin.py:115-116 | On a run whose windows all end slack the rate has grown by a fifth for each, up to the maximum |
| `AdaptiveSampling.CrowdedWindowsHalve` | logquill/plugins/adaptive_sampling_plugin.py:117-118 | On a run whose windows all end crowded the rate has halved for each, down to the minimum |
| `AdaptiveSampling.RateIsProbability` | logquill/plugins/adaptive_sampling_plugin.py:61-71 | The rate is between 0 and 1 on every run of settings the constructor accepts |
| `AdaptiveSampling.RateStaysIff` | logquill/plugins/adaptive_sampling_plugin.py:57-60 | The documented range of the rate is kept on every run if and only if `base_rate` starts inside it |
| `AdaptiveSampling.RateEntersIff` | logquill/plugins/adaptive_sampling_plugin.py:57-73 | Whether the rate is in range once a window has ended, over all runs whose clock does not go back, is decided by the settings: with a window length and a budget of at least two bytes it takes a `base_rate` in range |
| `AdaptiveSampling.AdaptiveSamplingPlugin.constructor` | logquill/plugins/adaptive_sampling_plugin.py:61-83 | The first window opens with the base rate |
| `AdaptiveSampling.AdaptiveSamplingPlugin.RollWindowIfDue` | logquill/plugins/adaptive_sampling_plugin.py:104-125 | A window that is over is closed once, whatever the gap, with the adjusted rate |
| `AdaptiveSampling.AdaptiveSamplingPlugin.BeforeLog` | logquill/plugins/adaptive_sampling_plugin.py:127-146 | Errors and slow spans always pass; another record passes exactly if its draw is below the adapted rate and it fits the budget left |
| `Redact.SortSorts` | logquill/plugins/pii_redact_plugin.py:154-159 | Sorted leftmost first and longest first on a tie, with the same spans |
| `Redact.SortedIsUnique` | logquill/plugins/pii_redact_plugin.py:159 | There is only one such order |
| `Redact.ChosenCovers` | logquill/plugins/pii_redact_plugin.py:160-164 | The chosen spans are sorted, pairwise disjoint and taken from the list; every other span starts inside a chosen one that starts earlier or is at least as long |
| `Redact.RebuiltIsWalk` | logquill/plugins/pii_redact_plugin.py:166-173 | The joined pieces are the text taken position by position: one replacement where a chosen span starts and every character that none covers, in order |
| `Redact.OneMatch` | logquill/plugins/pii_redact_plugin.py:166-173 | With one match the result is the text before it, the replacement and the text behind it |
| `Redact.RedactedLength` | logquill/plugins/pii_redact_plugin.py:166-173 | Each chosen span is replaced once and nothing else is lost or added |
| `Redact.OrderIrrelevant` | logquill/plugins/pii_redact_plugin.py:146-150 | The order in which the patterns found their matches does not change the result |
| `Redact.FirstCharacterRedacted` | logquill/plugins/pii_redact_plugin.py:154-164 | The first character of every non-empty match is redacted, and no character outside all matches is |
| `Redact.FullyRedactedIff` | logquill/plugins/pii_redact_plugin.py:154-164 | Every character of every match is redacted if and only if, wherever a chosen span ends inside a match, another match starts right there |
| `Redact.NestedFullyRedacted` | logquill/plugins/pii_redact_plugin.py:154-164 | In particular where overlapping matches are nested |
| `Redact.CrossingTailSurvives` | logquill/plugins/pii_redact_plugin.py:160-164 | For any two matches that cross, given in either order, only the first is taken and every character of the tail of the second survives |
| `Redact.ChooseSpans` | logquill/plugins/pii_redact_plugin.py:160-164 | The sweep loop takes the spans that `ChosenCovers` describes |
| `Redact.Rebuild` | logquill/plugins/pii_redact_plugin.py:166-173 | The rebuild loop yields the position-by-position text |
| `Redact.RedactText` | logquill/plugins/pii_redact_plugin.py:136-173 | The whole redaction, including a text without matches |
| `Alerting.StepInv` | logquill/plugins/alerting_plugin.py:85-115 | Every locked step keeps the invariant |
| `Alerting.AfterInv` | logquill/plugins/alerting_plugin.py:85-138 | The invariant holds over every interleaving of records, timer firings, close and late cancellations |
| `Alerting.Accounting` | logquill/plugins/alerting_plugin.py:90-108 | Records at or above the threshold are the sum of all window counts plus those refused, which `FateOfNext` names |
| `Alerting.TableIsOpenWindows` | logquill/plugins/alerting_plugin.py:92-104 | The table holds one window for each key with an open one, never more than `max_tracked_keys`, and no other |
| `Alerting.FateOfNext` | logquill/plugins/alerting_plugin.py:90-108 | On every run the next matching record is counted in a window exactly if that is open and has its key, opens one exactly if no open window has its key and the cap allows another, and is refused exactly if no open window has its key and as many are open as the cap allows |
| `Alerting.StatusIff` | logquill/plugins/alerting_plugin.py:110-136 | On every run a window is flushed exactly if a timer of its key fired while it was open, and abandoned exactly if close came while it was open |
| `Alerting.QuietOpenIff` | logquill/plugins/alerting_plugin.py:102-112 | As long as no close finds a window open, a window is open exactly until its own timer fires |
| `Alerting.TimerIff` | logquill/plugins/alerting_plugin.py:103-138 | On every run the timer of a window is outstanding exactly until it fires, or the close that found the window open cancels it in time |
| `Alerting.FatesOfOffered` | logquill/plugins/alerting_plugin.py:90-104 | Each record at or above the threshold has exactly one fate, in the order of logging |
| `Alerting.WindowAlerts` | logquill/plugins/alerting_plugin.py:93-115 | Each window sends one immediate alert for its first record and, only if it was flushed with more than one match, one follow-up with exactly the number of records of its key that fell into it |
| `Alerting.TableBounded` | logquill/plugins/alerting_plugin.py:99-104 | Open windows never exceed `max_tracked_keys`, and each has a timer still to run, even after close |
| `Alerting.OneTimerIff` | logquill/plugins/alerting_plugin.py:102-138 | Outstanding timers and open windows correspond one to one throughout a run if and only if every close in it comes while no window is open, as in every run without close |
| `Alerting.OneTimerPerWindow` | logquill/plugins/alerting_plugin.py:102-112 | In such a run each open window has its own timer and each timer its own window |
| `Alerting.TimerFlushes` | logquill/plugins/alerting_plugin.py:110-115 | On every run a timer flushes its own window if that is still open, another one exactly when its own is over and a younger window of its key is open, and else nothing |
| `Alerting.LateTimerFlushesYounger` | logquill/plugins/alerting_plugin.py:132-138 | After close they need not: a timer already running when close came flushes a younger window of its key |
| `Alerting.Window.constructor` | logquill/plugins/alerting_plugin.py:18-24 | A window starts with one match |
| `Alerting.CountMatch` | logquill/plugins/alerting_plugin.py:94-97 | Counting in place changes the one window of that key |
| `Alerting.OpenWindow` | logquill/plugins/alerting_plugin.py:102-104 | A new window object enters the table and its first record is alerted |
| `Alerting.AlertingPlugin.constructor` | logquill/plugins/alerting_plugin.py:75-79 | No window is open |
| `Alerting.AlertingPlugin.AfterLog` | logquill/plugins/alerting_plugin.py:85-108 | The windows in memory move as the model does, and an alert goes out exactly when the model sends one |
| `Alerting.AlertingPlugin.Track` | logquill/plugins/alerting_plugin.py:92-104 | The same for the locked section |
| `Alerting.AlertingPlugin.Start` | logquill/plugins/alerting_plugin.py:99-104 | The same for a key without an open window |
| `Alerting.AlertingPlugin.Flush` | logquill/plugins/alerting_plugin.py:110-115 | The window leaves the table, and a follow-up goes out exactly when the model sends one |
| `Alerting.AlertingPlugin.CloseSection` | logquill/plugins/alerting_plugin.py:132-136 | All windows leave the table at once and none is flushed |
| `OrderedDicts.WithoutKeepsOrder` | logquill/tracing/retry.py:47 | Removing a key keeps the relative order of all others |
| `OrderedDicts.OrderedDict.MoveToEndValid` | logquill/tracing/retry.py:39 | Moving a key keeps the keys distinct and their number |
| `OrderedDicts.OrderedDict.TrimToKeys` | logquill/plugins/rate_limit_plugin.py:72-73 | Popping from the front until the table fits keeps exactly the newest keys |

## Left out

- TraceSpans.RoundTrip: does not cover spans with an explicitly given parent, because such a program need not be a forest of nested blocks; `TraceConservation` covers their streams.
- TraceContexts.SharedRoundTrip: takes the span that a context inherits as given, because copying the context variable belongs to the Python runtime, and allows an inherited span that nobody closes; steps of contexts are atomic, and the shared logger is the sequence of what was written.
- TraceSpans.SpanContext.Exit: takes what `capture_state` saw change as an input, because comparing two snapshots is a matter of the caller's objects.
- TraceSpans.Logger.Log: does not model lazy fields, caller and exception info, bound context, the content policy and the plugin chain, because none of them touches the span ids.
- LogfmtRoundTrip.ParseFormat: assumes that the text of a number has no special character, as `str()` of an int or float has none; the JSON text of lists and deep mappings is arbitrary.
- Batching.ByteOvershootReached: does not cover `max_records` of 1, because then the first record already decides.
- LogfmtRoundTrip.FieldsSurvive: says nothing about a field whose final key a later field shares, because the last one wins.
- TamperEvident.TamperEvidence: treats SHA-256 and the JSON text as arbitrary functions and compares the serialised contents; that serialisation is injective is not claimed, and neither is stability across a file round trip of non-string keys.
- TamperEvident.SignedHeadRulesOutReplacement: treats the HMAC of section 2 of RFC 2104 as an arbitrary function, so a forged signature is one of its outcomes.
- FlightRecorder.Conservation: is about `max_runs` of at least 1; below that nothing is buffered and a record to hold back ends in KeyError, which `FlightRecorderPlugin.BeforeLog` and `NoRoomNothingHeld` state. The same holds for `max_traces` in `Sampling.Conservation`.
- RateLimit.TwoWindowBound: requires what the constructor checks, and `max_keys` is not negative in the model; with a negative one the original fails with KeyError on the first record.
- Redact.FirstCharacterRedacted: takes the matches as an arbitrary list of spans; the patterns and the Presidio path are not modelled.
- Alerting.WindowAlerts: orders alerts by the lock; the threads that deliver them may finish in another order, and a failing `send_alert` is not modelled.
- Worker.AsyncWorker.Submit: the wait loops of `submit`, `drain` and the worker thread are steps that may be taken again and again; threads, condition variables and the once-a-minute drop warning are not modelled.
- A batch send that raises: the original catches and logs it after the swap, and the batch is not sent again.
- Recursion of the redactor through nested values, with its depth limit and cycle check.
- Network, database, queue and cloud transports, framework adapters and OpenTelemetry; `http_transport.py` repeats the batching protocol.
- The command line, file tailing, the web view, tree rendering and colours.
- `TextFormatter` and its pattern, which are no inverse of each other in general.
- Encryption of log lines: a line is whatever bytes one write appends.
- Rounding of floating-point numbers.
- Configuration, level parsing, exception formatting, enable and disable rules and shutdown registration, which would add only easy members.
