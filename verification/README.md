# Verification of the Attractor core

A Dafny model of the parts of Attractor whose correctness spans several
functions or processes, with proofs of what they promise. The sources are
five components; each has a functional model or a state machine, the
imperative form of the code proved against it, and theorems about all inputs
or all runs.

* **DOT printer and parser** (`Dot*.dfy`, `Order.dfy`). `DotAst`, `DotMerge`
  and `DotEmit` are the statement layer, `DotRoundTrip` its round trip.
  `DotComments`, `DotLex`, `DotGrammar` and `DotPrint` are the character
  layer; `DotLexemes`, `DotReadBack`, `DotTextRoundTrip`, `DotSound` and
  `DotEncoding` lead to `DotTheorems`. `DotWriter` and `DotParser` are the
  code's own form, a buffer that is pushed into and a cursor that is advanced.
  `DotMeaning` says what a statement list means without merging anything,
  `DotCommentLaws` what a comment is without the scanner, and `DotForms` what a
  description in any layout means without the parser; `DotLayout` proves that it
  is read so and `DotLanguage` that nothing else is accepted. `DotIdempotence`
  is about stripping comments twice; `DotLimits` holds inputs for which the
  round trip fails.
* **Run Journal** (`Journal*.dfy`). `JournalFile` models the bytes of
  `events.jsonl` and the one writer as a state machine, `JournalTail` a tail
  reader beside it, one `read` at a time; `JournalHistory` tells the file by the
  operations alone. `JournalWriter` and `JournalReader` are the classes;
  `JournalCodec` shows that the encoding they assume exists.
* **Monitor** (`Monitor*.dfy`). `Monitor` is a state machine of replayers, the
  shared view, a bounded broadcast channel and clients; `MonitorServer` has
  the classes; `MonitorDelivery` counts what one client is sent, and
  `MonitorJournal` ties the machine to the journal.
* **Projection, status, findings** (`Projection.dfy`, `RunView.dfy`,
  `RunStatus.dfy`, `Findings.dfy`). Two derivations of a Run's status and of
  "crashed", and exactly when they agree. `ProjectionMeaning` and
  `StatusMeaning` read every field, both statuses and all findings off the
  events.
* **Proposal** (`Dependencies.dfy`, `Proposal.dfy`). The three-colour cycle
  search and the removal of a Task.
* **Pipeline engine** (`Engine*.dfy`). `EngineGraph` has plans, edge selection
  and goal gates. `Engine` is the execution loop as a state machine with a
  process that may die anywhere and one checkpoint. `EngineSafety` proves the
  invariant of all histories and `EngineMeaning` spells out every step;
  `EngineRuns` has the theorems, `EngineCrashes` what becomes of a Run whose
  process died in an attempt, and `EngineExecutor` the loop over mutable memory.

`Wrappers.dfy` holds the option type they share.

Handlers, conditions, stop requests, hash-map order, clocks, PID probes, JSON
encoding and the outcome of writes are parameters of the model. Hash maps are
Dafny maps; where their order can be seen (which failing gate is met first),
every choice is covered. The tail, the Monitor and the engine are modelled as
interleavings of steps, and the theorems hold for all of them.

## What the code does not do

The models follow the code where it and its documentation differ. These are
proved, each with the exact condition under which the code is right:

* Printing and parsing again does not give the graph back when a string is not
  ASCII (`strip_comments` turns each UTF-8 byte into a character), when a
  graph- or subgraph-level key has a dot, or when a duration is longer than
  64 bits of milliseconds.
* `strip_comments` is idempotent exactly on inputs whose characters outside
  comments are ASCII; the last character of a block comment that is never closed
  counts as outside.
* The folded status and `derive_status` differ when an Attempt ended twice with
  different meanings; the Crashed finding and `derive_status` differ when
  heartbeats carry another PID than `AttemptStarted`, or when there is neither.
* A crash in an attempt at a quality node makes the resumed process count the
  visit once more. When that goes beyond `max_fix_iterations` the Run is lost,
  whatever attempts are left: with the limit 1, by the first such crash.
* An unreadable journal makes `send_backlog` count it as empty; what a client
  missed by that is lost to it for good once a later event was sent.
* An append whose partial write survives glues onto the next line, so the
  journal's laws need every append to complete, write nothing or end the
  process.

## Model

| member | source | states |
|---|---|---|
| DotMerge.MergeStatements | crates/attractor-dot/src/parser.rs:294-389 | The merging loop, with nodes, edges, subgraphs and both default maps as loop variables, returns the merged scope, whose every value `DotMeaning.MergeMeans` reads off the statements |
| DotMerge.ExpandChain | crates/attractor-dot/src/parser.rs:332-357 | The loop over an edge chain `a -> b -> c` appends one edge per adjacent pair, all with the same attributes, in order, and mentions every node of the chain; a chain of one node adds neither |
| DotMerge.InsertMissing | crates/attractor-dot/src/parser.rs:342-355 | Endpoints that were not declared become nodes with the current defaults and no authored attributes; declared ones stay as they are |
| DotMerge.MergeConcat | crates/attractor-dot/src/parser.rs:294-389 | Merging a list is merging its first part and then the rest from the scope reached |
| DotMeaning.MergeMeans | crates/attractor-dot/src/parser.rs:294-389 | For every statement list and every opening defaults, key by key and by recursion on the statements alone: a graph attribute is the one written last; an edge's attribute is the one on its statement, else the edge default given last before it, else the opening one; a node's comes from its last declaration, own attributes before the defaults in force there, or, never declared, from the defaults at its first mention, and its authored attributes are those of that declaration; edges are the adjacent pairs in order; a subgraph is such a scope of its own that opens with the defaults in force where it stands, followed by those nested in it |
| DotMeaning.GraphMeans | crates/attractor-dot/src/parser.rs:294-446 | The same of the graph that `parse` returns, which opens with no defaults |
| DotRoundTrip.RoundTripExact | crates/attractor-dot/src/serializer.rs:41-196 | For every graph, hand-built ones included: merging the statements the writer prints gives the graph back if and only if, in every scope, ids and authored attributes agree, the nodes can be ordered, inherited keys are defaults, and edges stay inside the scope |
| DotRoundTrip.MergedGraphsRoundTrip | crates/attractor-dot/src/parser.rs:294-389 | Whatever statements a file holds, the merged graph satisfies that condition, so printing and merging again gives exactly the same graph |
| DotRoundTrip.FallbackNeverTaken | crates/attractor-dot/src/serializer.rs:105-148 | On the nodes of a parsed graph or of any of its subgraphs, whatever is left to print, the node the loop chooses is ready: its lexical fallback is dead code there |
| DotEmit.NextIdMeans | crates/attractor-dot/src/serializer.rs:109-125 | The node written next is the first in dictionary order among those ready, or among all when none is |
| DotRoundTrip.ReplayExact | crates/attractor-dot/src/serializer.rs:105-148 | Replaying the interleaved `node [...]` and node statements restores effective and authored attributes of every node exactly if each node was ready when it was printed |
| DotComments.StripComments | crates/attractor-dot/src/parser.rs:21-71 | The index loop with its inner loops for line comments, block comments and strings returns `Strip` of the input, working on bytes |
| DotComments.StripKeepsNewlines | crates/attractor-dot/src/parser.rs:21-71 | For every input, unterminated comments and strings included, the number of newlines is unchanged |
| DotComments.StripIdentity | crates/attractor-dot/src/parser.rs:21-71 | Stripping is the identity if and only if the text is ASCII and opens no comment outside a string |
| DotCommentLaws.CodeKeeps | crates/attractor-dot/src/parser.rs:21-71 | And so for every such row of pieces, however it is put together |
| DotCommentLaws.StripMeans | crates/attractor-dot/src/parser.rs:21-71 | Every input is a row of characters, string literals, line comments and block comments, the last perhaps unclosed; of it stripping keeps the characters, the literals as written and the newlines of block comments, and of one never closed its last byte too |
| DotCommentLaws.Utf8CharDecodes | crates/attractor-dot/src/parser.rs:22-24 | A character is worked on as the bytes that encode its number, in the length that section 3 of RFC 3629 sets |
| DotIdempotence.StripIdempotent | crates/attractor-dot/src/parser.rs:21-71 | Stripping twice equals stripping once if and only if every character outside comments is ASCII (the last one of a block comment never closed counts as outside), a condition read off the input by following the scanner |
| DotIdempotence.AsciiIdempotent | crates/attractor-dot/src/parser.rs:21-71 | So it does for every ASCII input, comments and strings left open included |
| DotIdempotence.StripTwiceDiffers | crates/attractor-dot/src/parser.rs:54-66 | A single accented letter is re-encoded again by each pass |
| DotLexemes.ValueAt | crates/attractor-dot/src/parser.rs:74-83 | A printed value of any kind, followed by anything that cannot extend it, is read back as the same kind and the same value (duration before float before integer, booleans, escapes). A float is a kept lexeme: a literal beyond the range of 64-bit floats is outside this statement |
| DotLexemes.EscapedAt | crates/attractor-dot/src/parser_primitives.rs:42-66 | Reading an escaped string literal gives the string that was escaped |
| DotLexemes.QualifiedAt | crates/attractor-dot/src/parser_primitives.rs:26-39 | A dotted key in front of a character that cannot continue it is read as one key |
| DotReadBack.BlockAt | crates/attractor-dot/src/parser.rs:100-124 | A printed attribute block is read back as the same attribute map if its values fit, whatever follows |
| DotReadBack.ReadNode | crates/attractor-dot/src/parser.rs:184-254 | A printed node statement is read back, also when its id is spelt like a keyword |
| DotReadBack.ReadEdge | crates/attractor-dot/src/parser.rs:184-254 | A printed edge statement is read back with its endpoints and attributes |
| DotReadBack.UnreadDefaults | crates/attractor-dot/src/parser.rs:148-165 | A defaults block holding a value that does not fit is read as a node named like the keyword, with the bracket left over |
| DotTextRoundTrip.ReadSubgraph | crates/attractor-dot/src/parser.rs:168-181 | A printed subgraph whose statements are all readable is read back, named or not |
| DotTextRoundTrip.ReadAll | crates/attractor-dot/src/parser.rs:270-281 | A printed statement list is read back whole if every statement is readable, and otherwise stops before its end, so that the file is refused |
| DotSound.GraphPrinted | crates/attractor-dot/src/serializer.rs:21-38 | Every statement printed for a lexically sound, serializable graph is a printed form the reader is proved on, and all are readable if and only if the graph is within the 64-bit and undotted-key domain |
| DotEncoding.CarryAll | crates/attractor-dot/src/parser.rs:54-66 | Re-encoding a printed text as bytes is printing the statements with re-encoded strings |
| DotEncoding.RecodeMerge | crates/attractor-dot/src/parser.rs:294-389 | Re-encoding strings commutes with merging |
| DotTheorems.ParsedGraphs | crates/attractor-dot/src/parser.rs:392-445 | Every graph any input parses to has identifiers, keys and values the lexer can produce, and survives the statement-level round trip |
| DotTheorems.PrintThenParse | crates/attractor-dot/src/serializer.rs:21-38 | For every such graph: its printed form parses to the graph with strings re-encoded if durations fit 64 bits of milliseconds and graph and subgraph keys have no dot, and is refused otherwise. A float is a kept lexeme: a literal beyond the range of 64-bit floats is outside this statement |
| DotTheorems.TextRoundTrip | crates/attractor-dot/src/parser.rs:462-486 | For every input that parses to `g`: `parse(to_dot_string(g)) == g` if and only if the strings of `g` are ASCII, its durations fit and its graph-level keys have no dot. A float is a kept lexeme: a literal beyond the range of 64-bit floats is outside this statement |
| DotTheorems.CanonicalText | crates/attractor-dot/src/serializer.rs:21-38 | Where the graph comes back, its printed text is a fixed point of printing, and comment stripping is the identity on it. A float is a kept lexeme: a literal beyond the range of 64-bit floats is outside this statement |
| DotTheorems.GraphFixed | crates/attractor-dot/src/parser.rs:54-66 | Re-encoding changes a graph if and only if one of its strings is not ASCII |
| DotLimits.DottedKeyIsRefused | crates/attractor-dot/src/serializer.rs:65-78 | `graph [a.b=true]` parses, is printed as a bare `a.b=true`, and that text is refused |
| DotLimits.LongDurationIsRefused | crates/attractor-dot/src/parser_primitives.rs:69-84 | A duration in seconds that fits 64 bits but whose milliseconds do not is accepted, and its printed form refused |
| DotLimits.NonAsciiDrifts | crates/attractor-dot/src/parser.rs:54-66 | A string that is not ASCII comes back as a longer one, and grows again on the next round |
| DotLayout.ValueRead | crates/attractor-dot/src/parser_primitives.rs:42-118 | Every value in every spelling is read as what it means: quoted strings with their escapes, numbers with or without a sign, and durations of 1, 1000, 60000, 3600000 and 86400000 milliseconds per `ms`, `s`, `m`, `h` and `d`, as long as the seconds fit 64 bits |
| DotLayout.BlockRead | crates/attractor-dot/src/parser.rs:100-124 | Every attribute block in every layout is read as its items, the last item with a key deciding |
| DotLayout.LinesRead | crates/attractor-dot/src/parser.rs:127-281 | Every list of statements in every layout is read as what it means, up to its closing brace |
| DotLayout.DocumentRead | crates/attractor-dot/src/parser.rs:392-486 | Every description, in whatever layout and with whatever comments, is parsed to the graph that its statements mean: blanks anywhere between parts, optional `;`, separators `,` and `;` or none, edge chains of any length, node statements with or without block, bare attributes, nested subgraphs with or without a name |
| DotLanguage.AcceptedExactly | crates/attractor-dot/src/parser.rs:392-486 | An input is accepted if and only if, its comments stripped, it is a description in some layout, by a grammar that knows nothing of the parser; and for every such layout the graph is that of the statements it means. Three quirks are part of the grammar: `graph`, `node` and `edge` name no node with a block, a bare `subgraph` before a name and a brace starts a subgraph of that name, and `a [] = 5` is a bare attribute |
| DotLanguage.LinesOf | crates/attractor-dot/src/parser.rs:127-281 | Every list of statements that is read is one in some layout, whatever is left over behind it |
| DotWriter.ToDotString | crates/attractor-dot/src/serializer.rs:21-38 | The writer, pushing into one buffer, produces exactly the printed form of the emitted statements |
| DotWriter.TextOut.WriteNodes | crates/attractor-dot/src/serializer.rs:105-148 | The loop that removes nodes from `remaining` and extends `current_defaults` appends exactly the statements `EmitNodes` gives |
| DotWriter.TextOut.FindNext | crates/attractor-dot/src/serializer.rs:110-125 | The search for the lexically first ready node, with its fallback, finds the node `NextId` names |
| DotWriter.TextOut.WriteEdges | crates/attractor-dot/src/serializer.rs:158-172 | Appends exactly the printed edge statements, in order |
| DotWriter.TextOut.WriteSubgraphs | crates/attractor-dot/src/serializer.rs:174-197 | Appends exactly the printed subgraphs at their depth, in order |
| DotWriter.TextOut.WriteBareAttrs | crates/attractor-dot/src/serializer.rs:65-79 | Appends the graph-level attributes in key order, one bare statement each |
| DotWriter.TextOut.WriteDefaultsBlock | crates/attractor-dot/src/serializer.rs:81-96 | Appends a defaults block, or nothing for an empty map |
| DotParser.ParseDot | crates/attractor-dot/src/parser.rs:462-486 | The cursor-advancing parser returns what `Parse` defines, for every input; what that is, `DotLanguage.AcceptedExactly` says |
| DotParser.Cursor.ParseStatements | crates/attractor-dot/src/parser.rs:270-281 | The statement loop stops where no statement can be read and leaves the cursor there |
| DotParser.Cursor.ParseNodeOrEdge | crates/attractor-dot/src/parser.rs:184-254 | Bare attribute, edge chain or node, in that order of preference; a failing parser puts the cursor back |
| DotParser.Cursor.ParseAttrBlock | crates/attractor-dot/src/parser.rs:100-124 | Later entries of a block replace earlier ones with the same key; comma and semicolon are optional |
| DotParser.Cursor.ParseQuotedString | crates/attractor-dot/src/parser_primitives.rs:42-66 | The character loop decodes escapes and backtracks on an unterminated string |
| DotParser.Cursor.ParseDuration | crates/attractor-dot/src/parser_primitives.rs:69-84 | Number, unit and 64-bit conversion to milliseconds, or backtracking |
| JournalFile.JournalNumbering | crates/attractor-journal/src/writer.rs:50-107 | After any history of opens, appends, failed appends, torn writes and deaths, the complete lines are exactly the events written whole, numbered 1 to n across Attempts, and a live writer continues with n + 1 |
| JournalCodec.GoodCodecExists | crates/attractor-journal/src/event.rs:23-31 | The condition on event encodings that these laws ask for can be met: an encoding of all modelled events without newline or blank line, with a decoder and a reader of `seq` |
| JournalFile.StepKeeps | crates/attractor-journal/src/writer.rs:50-107 | One step of the writing side keeps the lines equal to the events written whole and a live writer at the end of a complete line |
| JournalFile.RunStable | crates/attractor-journal/src/writer.rs:50-107 | No history of the writing side changes a line that was complete |
| JournalHistory.FileIsHistory | crates/attractor-journal/src/writer.rs:50-107 | For every history, read from its operations alone: the events in the file are, in order, exactly the appends of live writers, each with the time and data given to it, under the Attempt of the open that made its writer, numbered from 1 |
| JournalHistory.BytesAreHistory | crates/attractor-journal/src/writer.rs:50-107 | The file is those events, one line each, and behind them at most the part that the last writer to die while writing got out, which the next open cuts off |
| JournalWriter.JournalWriter.Open | crates/attractor-journal/src/writer.rs:50-82 | Opening cuts the torn tail and numbers on from the largest `seq` found: the `Open` step of the machine |
| JournalWriter.JournalWriter.Append | crates/attractor-journal/src/writer.rs:89-107 | The event written has the live writer's next number, the time and data given and the writer's Attempt; a completed append adds exactly its line, a failed one nothing, a death a proper part of it; the number advances exactly when the whole line was written, also when forcing it to disk then fails and the caller gets an error |
| JournalWriter.Split | crates/attractor-journal/src/writer.rs:65-70 | Splitting at newlines gives the complete lines and the rest |
| JournalWriter.ReadAllRaw | crates/attractor-journal/src/reader.rs:29-46 | Returns all events of the complete lines if and only if every line is blank or decodes, and otherwise the number of the first line that does not |
| JournalTail.TailExactlyOnce | crates/attractor-journal/src/reader.rs:60-135 | Under any interleaving of appends, torn writes, deaths, reopenings, chunked reads and I/O errors, the consumer has seen a prefix of the known events written whole, each once and in order, and the committed offset stays within the complete lines, so the branch for a shrunken file never fires |
| JournalTail.SplicedIsRejected | crates/attractor-journal/src/reader.rs:110-134 | A completed second read commits the buffer if and only if it equals the bytes in the file; every spliced buffer is rejected and emits nothing |
| JournalTail.PollCatchesUp | crates/attractor-journal/src/reader.rs:95-124 | A poll that nothing disturbs brings the consumer every known event written whole |
| JournalTail.ReadKeeps | crates/attractor-journal/src/reader.rs:105-113 | A newline read at any moment of a chunked read lies where the file can no longer change |
| JournalTail.CheckKeeps | crates/attractor-journal/src/reader.rs:127-135 | The second read sees stable bytes only, so an equal comparison proves the buffer genuine |
| JournalTail.SurvivingPartGlues | crates/attractor-journal/src/writer.rs:89-101 | If part of a line survived a failed append without reopening, the next line would be intact if and only if that part is empty |
| JournalReader.Tail.Poll | crates/attractor-journal/src/reader.rs:60-124 | One poll, with the writing side acting before every read, is a run of the tail machine that starts with `Poll` and has no I/O error; what was sent is what the machine received; undisturbed, it commits everything complete |
| JournalReader.Tail.ReadToEnd | crates/attractor-journal/src/reader.rs:105-113 | The chunked read until a read returns nothing ends in the machine state after cutting the buffer at its last newline |
| JournalReader.Tail.Unchanged | crates/attractor-journal/src/reader.rs:127-135 | The second read reports whether the range is the same, in the machine's terms |
| JournalReader.CompleteLines | crates/attractor-journal/src/reader.rs:119-123 | The lines of a buffer that have more than white space |
| Projection.FoldFaithful | crates/attractor-monitor/src/projection.rs:240-309 | However the events of different Attempts are mixed, the view's records are in order of Attempt number, there is one for exactly the Attempts seen, and each is made of its own Attempt's events alone |
| Projection.FoldKnown | crates/attractor-monitor/src/projection.rs:304-307 | Events of unknown type may as well not be there |
| Projection.NoteAttemptIs | crates/attractor-monitor/src/projection.rs:240-269 | Finding or inserting a record keeps the order and touches no other Attempt's record |
| RunView.RunView.Apply | crates/attractor-monitor/src/projection.rs:304-477 | Applying an event in place changes the view exactly as the fold step does; what the view then says, `ProjectionMeaning.FoldMeans`, `StatusMeaning.RecordIsSaid` and `RunView.CountsAlwaysAdd` read off the events |
| RunView.RunView.AttemptMut | crates/attractor-monitor/src/projection.rs:240-269 | The two position searches and the insertion give the list in which the Attempt has its record, and its index |
| RunView.FoldEvents | crates/attractor-monitor/src/projection.rs:198-204 | The loop over the events computes the fold |
| RunView.CountsAlwaysAdd | crates/attractor-monitor/src/projection.rs:271-287 | Each node's visit count is the number of stages that began there in the journal, and together they are the view's step count |
| ProjectionMeaning.FoldMeans | crates/attractor-monitor/src/projection.rs:304-477 | For every event list, each field by a reading of the events that knows nothing of the fold: the cost is the sum of all model invocations; failures, retries and answered questions are those events in order; the stop request and the pipeline error are the last ones; the current node is where a stage began that no event has left since; the gate is the last question, unless answered or its Attempt over; visited nodes come in the order first named, each with its last outcome; `last_seq` is the largest known |
| RunStatus.DeriveStatus | crates/attractor-journal/src/status.rs:61-96 | The scan with early return computes the status the last Attempt's own events define, its first `AttemptEnded` deciding |
| RunStatus.RecordMeans | crates/attractor-monitor/src/projection.rs:319-372 | A record's end is the last `AttemptEnded`, its heartbeat the last one, its PID and start those of the last `AttemptStarted`, and its two latest times those of all events and of all but the heartbeats behind the first event |
| StatusMeaning.RecordIsSaid | crates/attractor-monitor/src/projection.rs:240-372 | Every record, field by field, by places in the Attempt's own events: the last of a kind, and the largest time |
| RunStatus.StatusesAgree | crates/attractor-journal/src/status.rs:61-96 | For every non-empty list of known events the folded status equals the derived one if and only if the first and the last `AttemptEnded` of the last Attempt mean the same; so always when there is at most one |
| RunStatus.TwoEndsDisagree | crates/attractor-journal/src/status.rs:70-80 | Two ends that differ do make the two derivations disagree |
| StatusMeaning.DerivedMeans | crates/attractor-journal/src/status.rs:61-96 | The derived status is what the first `AttemptEnded` says; without one it is crashed if and only if the last heartbeat, else the last start, is more than 120000 ms old and its process gone, or neither exists and the Index entry is that old |
| StatusMeaning.ShownMeans | crates/attractor-monitor/src/projection.rs:289-301 | The view's status is running until the Attempt with the largest number has ended, then what its last `AttemptEnded` says: completed, stopped, or failed for every other reason |
| Findings.CrashesAgree | crates/attractor-monitor/src/findings.rs:155-184 | The Crashed finding appears exactly when the derived status is crashed, if and only if the last Attempt has ended or both rules see signs of life that make no difference now |
| Findings.ForeignBeatDisagrees | crates/attractor-monitor/src/findings.rs:177-184 | An Attempt that started as one process and beats as another, one of them alive, makes the two rules disagree two minutes later |
| Findings.BeatingProcessAgrees | crates/attractor-monitor/src/findings.rs:177-184 | They agree for every Attempt with an `AttemptStarted` whose PID its heartbeats repeat |
| Findings.Derive | crates/attractor-monitor/src/findings.rs:155-175 | The findings are exactly those due: a crash, else a stall, then failed stages, repeated retries and the waiting question |
| Findings.DueByRule | crates/attractor-monitor/src/findings.rs:155-175 | The findings come in rule order, and those of one rule are exactly its own |
| StatusMeaning.FindingsMean | crates/attractor-monitor/src/findings.rs:155-258 | In terms of the events, with every limit written out: the Run is reported as crashed if its last Attempt has not ended, gave no sign of life for more than 120000 ms and its started process is gone; else as stalled at the node where it stands if it beat within 120000 ms but did nothing else for longer than the node's time-out or 600000 ms; then every failed stage and every retry from the second on, in order, and the question still open |
| Monitor.SharedViewIsFold | crates/attractor-monitor/src/state.rs:127-138 | Under any interleaving of replayers that each walk the journal from its start, the shared view is the fold of the known events up to its `last_seq`, and the broadcast stream is that same sequence |
| Monitor.ServedExactly | crates/attractor-monitor/src/sse.rs:73-133 | At every moment, across the handover from backlog to live and any number of `Lagged` reports, a client has been sent exactly the journal's events above its cursor up to the last one sent, in order; once it has drained a channel that caught up, all of them |
| Monitor.ReconnectContinues | crates/attractor-monitor/src/sse.rs:47-51 | A client that reconnects with the last id it was sent carries on exactly there: both streams together have no gap and no repeat |
| MonitorDelivery.BacklogDelivers | crates/attractor-monitor/src/sse.rs:110-133 | Reading the backlog to its end takes one step for each event and one more, sends exactly its events above the last one sent, and leaves the place in the channel as it was |
| MonitorDelivery.ChannelDelivers | crates/attractor-monitor/src/sse.rs:84-97 | A live client at most `capacity` behind is sent exactly the waiting events above the last one sent, without reading the backlog again |
| MonitorDelivery.LagIsExact | crates/attractor-monitor/src/sse.rs:98-102 | A receive reports a lag if and only if the event it waits for is no longer among the last `capacity` broadcast; then nothing is sent, and the oldest one kept is next |
| Monitor.UnreadableBacklog | crates/attractor-monitor/src/sse.rs:117-122 | A journal that cannot be read counts as empty; at the next event the client is then served correctly if and only if nothing lay above what it had |
| Monitor.UnreadableLosesForGood | crates/attractor-monitor/src/sse.rs:117-130 | A client that found the journal unreadable and then receives a later event is never sent the one it missed, in any continuation |
| Monitor.LossCanHappen | crates/attractor-monitor/src/sse.rs:117-130 | A history after which a client that finds the journal unreadable does lose an event |
| Monitor.SkippedForGood | crates/attractor-monitor/src/sse.rs:84-130 | An event at or below the last one sent that was not sent is never sent in any continuation |
| Monitor.PublishKeeps | crates/attractor-monitor/src/state.rs:127-138 | A replayed event is dropped or is the next of the journal |
| MonitorServer.AppState.Apply | crates/attractor-monitor/src/state.rs:127-138 | Drops events at or below `last_seq` and unknown Runs; otherwise folds and broadcasts under one lock, other Runs untouched |
| MonitorServer.AppState.UpsertEntry | crates/attractor-monitor/src/state.rs:97-115 | A new Run gets an empty slot; a known one keeps its view and broadcast stream |
| MonitorServer.AppState.SetMissing | crates/attractor-monitor/src/state.rs:117-121 | Notes for a known Run whether its folder is gone, and changes nothing else |
| MonitorServer.Attach | crates/attractor-monitor/src/watcher.rs:86-104 | Replaying a journal read leaves the longer of what was applied and what was read, and says whether to follow on |
| MonitorServer.Follow | crates/attractor-monitor/src/watcher.rs:105-118 | Following a tail applies each event once; after every event but the last it applied the Run was still running, and it stops early only when the Run has ended; other Runs are untouched |
| MonitorServer.Pump.SendBacklog | crates/attractor-monitor/src/sse.rs:110-133 | Reading the file and sending what it holds above the last event sent, while everyone else takes turns in between, is a run of the machine in which this client goes from opening to live and the others do just what they do |
| MonitorServer.Pump.Receive | crates/attractor-monitor/src/sse.rs:84-106 | One event from the channel, or a lag report with its new backlog, is a run of the machine that moves the receiver on |
| MonitorServer.Pump.Serve | crates/attractor-monitor/src/sse.rs:73-106 | While everyone else takes the given turns, the pump's code and the machine's record of this client stay equal; the machine's run is those turns, in order, with this client's own steps among them; at the end the channel is drained and what was sent lies between cursor and last, everything above the cursor once the channel has caught up |
| MonitorJournal.TailFeedsMonitor | crates/attractor-monitor/src/watcher.rs:105-118 | The known events of a live journal are well formed for the Monitor at any moment, a tail has handed on a prefix of them, and the journal only adds to them |
| MonitorJournal.BacklogEvents | crates/attractor-monitor/src/sse.rs:117-122 | The backlog of a file is its known events if every complete line is blank or decodes, and empty otherwise |
| MonitorJournal.WithFileIs | crates/attractor-monitor/src/sse.rs:117-122 | Reading a readable file that holds the journal is the machine's step; a file with an undecodable line is the journal found unreadable |
| Dependencies.CycleFinder.Dfs | crates/attractor-monitor/src/proposal.rs:151-176 | From a valid search state a Task is either finished, with everything reached before unchanged, or a closed walk along "blocked by" edges through distinct Tasks is returned; the recursion uses up unvisited Tasks |
| Dependencies.OrderedIsAcyclic | crates/attractor-monitor/src/proposal.rs:128-149 | If every Task stands behind all that block it, no closed walk exists |
| Proposal.FindCycle | crates/attractor-monitor/src/proposal.rs:128-149 | Succeeds if and only if the dependency relation is acyclic; otherwise names a closed walk |
| Proposal.Proposal.Validate | crates/attractor-monitor/src/proposal.rs:100-125 | Accepts if and only if version, titles, index ranges, self-dependencies and acyclicity are in order; the checks come in that order and each error names the first offender |
| Proposal.Proposal.RemoveTask | crates/attractor-monitor/src/proposal.rs:82-97 | Editing in place drops the Task and its dependencies and counts down the numbers behind it; an index out of range changes nothing |
| Proposal.RenumberedConcat | crates/attractor-monitor/src/proposal.rs:82-97 | Removal drops or renumbers each dependency on its own, so order and repeats stay |
| Proposal.RemovalKeepsGraph | crates/attractor-monitor/src/proposal.rs:79-97 | Every other number still names its Task, an edge is there if and only if it was, and an accepted Proposal stays accepted while a Task remains |
| EngineGraph.SelectEdgeMeans | crates/attractor-pipeline/src/edge_selection.rs:14-76 | No edge only where the node has none; among its outgoing edges, in the plan's order: those whose condition holds, the heaviest and then the smallest target; else the first with the preferred label; else the first to the earliest suggestion; else the unconditional ones, again the heaviest and then the smallest target; else the first |
| EngineGraph.OutgoingIs | crates/attractor-pipeline/src/edge_selection.rs:14-24 | A node's outgoing edges are all edges from it, in the plan's order |
| EngineGraph.BestIsBest | crates/attractor-pipeline/src/edge_selection.rs:91-103 | The edge picked is at least as good as every other |
| EngineGraph.RetryTargetIs | crates/attractor-pipeline/src/goal_gate.rs:51-84 | The target of a failed gate, in the order node, node's fallback, graph, graph's fallback |
| EngineSafety.AtExitMeans | crates/attractor-pipeline/src/goal_gate.rs:18-84 | While a goal gate stands failed, one of them decides, the one met first if it has: the loop goes to the gate's own `retry_target`, else its fallback, else the graph's `retry_target`, else the graph's fallback, and fails for that gate exactly when all four are missing, or because the target is no node; only when none has failed does the exit's attempt get ready or fail for attempts used up |
| EngineSafety.RestoreSave | crates/attractor-pipeline/src/engine.rs:80-108 | A checkpoint restores exactly the memory it was saved from, and is accepted by this build and pipeline |
| EngineSafety.StepKeeps | crates/attractor-pipeline/src/engine.rs:842-1151 | Every step, start and crash keeps the whole invariant of memory, checkpoint and history |
| EngineSafety.SentBackKeeps | crates/attractor-pipeline/src/engine.rs:914-922 | Going back from an exit keeps the invariant: no attempt had begun there, and the gate is one that failed on this walk |
| EngineSafety.RecordKeeps | crates/attractor-pipeline/src/engine.rs:1052-1151 | Recording a node and following an edge, with or without `loop_restart` and `reset_quality_loop_state`, keeps the invariant |
| EngineSafety.BeginKeeps | crates/attractor-pipeline/src/engine.rs:525-545 | Beginning an attempt keeps the invariant whether or not the saved counter includes it |
| EngineRuns.AttemptBoundsSurviveCrashes | crates/attractor-pipeline/src/engine.rs:511-545 | Over any history of crashes, stops, failures and resumes: attempts begun never exceed `max_steps` and the checkpoint knows their number; those since an edge was taken are at one node and within its `max_attempts`, unless its handler resumes; quality visits per upstream node, the one whose edge the log shows was taken last, stay within `max_fix_iterations` until a saved reset, and the saved counters are exactly these visits |
| EngineRuns.StateComesFromEdges | crates/attractor-pipeline/src/engine.rs:1036-1151 | In every state and checkpoint, read from the log alone: the previous node is the one whose edge was taken last; a context key holds what the last outcome followed by an edge that set it wrote, else what the Run began with; a quality node's footprint is that of its last failure since a reset |
| EngineRuns.QualityExhaustedExactly | crates/attractor-pipeline/src/engine.rs:965-983 | A process gives up on a quality node if and only if the log shows `max_fix_iterations` visits under the key of this node and the node left last |
| EngineRuns.WalkAndGateSafety | crates/attractor-pipeline/src/engine.rs:888-957 | In every state and checkpoint the completed nodes are a walk from the start node or the target of the last `loop_restart` edge: each follows along an edge, or along an edge into an exit and back to the retry target of a goal gate that had failed when it was last left; outcomes are kept for exactly these nodes; an exit's handler runs only with every goal gate on the walk satisfied |
| EngineRuns.OvershootIsOneAttempt | crates/attractor-pipeline/src/engine.rs:851-857 | No attempt runs above budget, so a total exceeds it by at most the cost reported last |
| EngineRuns.CostIsConserved | crates/attractor-pipeline/src/engine.rs:562-600 | Without interruption the total is the sum of what every returned attempt reported, also one that is asked again, the exit's final one aside |
| EngineRuns.CostIsReported | crates/attractor-pipeline/src/engine.rs:1056-1071 | Whatever the history, with no negative costs, memory and checkpoint never book more than was reported |
| EngineRuns.EveryRunHalts | crates/attractor-pipeline/src/engine.rs:850-1167 | Whatever the handlers reply, a process ends within 4 * max_steps + 5 steps of the loop from any reachable state |
| EngineRuns.TickDecreases | crates/attractor-pipeline/src/engine.rs:850-1167 | Every step lowers the measure of remaining attempts and place in the visit: a failed gate leaves the exit, anything else stops, fails or begins an attempt |
| EngineRuns.StopIsTransparent | crates/attractor-pipeline/src/engine.rs:861-885 | Stopping between stages and resuming gives back exactly the loop head |
| EngineRuns.CrashIsTransparent | crates/attractor-pipeline/src/engine.rs:795-838 | Crashing where the checkpoint is that of the loop head gives it back too |
| EngineRuns.CrashReturns | crates/attractor-pipeline/src/engine.rs:795-838 | Crashing at any other loop head, before the first checkpoint or where a failed gate sent the Run back, leads back to that head, beginning afresh or passing the exit once more |
| EngineRuns.EdgesAreSaved | crates/attractor-pipeline/src/engine.rs:1135-1151 | Every edge taken leaves the checkpoint of the new loop head |
| EngineRuns.CrashMidAttempt | crates/attractor-pipeline/src/engine.rs:534-545 | After a crash in the middle of an attempt the new process stands at the loop head of that visit with memory as before the attempt; the attempt stays counted unless its handler resumes what was interrupted |
| EngineCrashes.ResumedVisit | crates/attractor-pipeline/src/engine.rs:965-983 | The resumed process gets ready for the same visit if and only if attempts are left and a quality node may be entered once more, the visit then being counted once more than without the crash; otherwise it fails with the limit that was reached |
| EngineCrashes.CrashedRunGoesOn | crates/attractor-pipeline/src/engine.rs:511-545 | After such a crash some continuation begins another attempt if and only if attempts are left, `max_steps` is not reached and, at a quality node, one more entry is allowed |
| EngineCrashes.OneCrashMayEndRun | crates/attractor-pipeline/src/engine.rs:965-983 | With `max_fix_iterations` 1, one crash in the first of three attempts at a quality node ends the Run: each resumed process counts the visit again and fails, and no continuation begins another attempt |
| EngineRuns.StageBoundariesAreTransparent | crates/attractor-pipeline/src/engine.rs:779-885 | For handlers and gate orders that are functions of the state, from any started process on: a Run cut at any set of its loop heads, by stop requests or by crashes, and resumed each time goes through the same states as the uncut Run, with the same completed nodes, outcomes, context, cost and attempts |
| EngineMeaning.SaveMeans | crates/attractor-pipeline/src/engine.rs:80-108 | A checkpoint says of the memory it was saved from, field by field, with schema version 3 and this pipeline's fingerprint |
| EngineMeaning.StartMeans | crates/attractor-pipeline/src/engine.rs:779-838 | When a start refuses, and what it begins with: each context key from the checkpoint unless it is a run control, else the graph's default, else the input |
| EngineMeaning.TopMeans | crates/attractor-pipeline/src/engine.rs:850-983 | The loop head, in order: budget, exit gates, stop, the count of quality entries, attempts left |
| EngineMeaning.ReadyMeans | crates/attractor-pipeline/src/engine.rs:525-545 | An attempt begins within `max_steps` and budget, saved with its own count first |
| EngineMeaning.RetryMeans | crates/attractor-pipeline/src/engine.rs:591-611 | A retry outcome with an attempt left books its cost and asks again |
| EngineMeaning.ErredMeans | crates/attractor-pipeline/src/engine.rs:612-644 | A retryable error asks again while attempts are left, any other fails the Run |
| EngineMeaning.ExitMeans | crates/attractor-pipeline/src/engine.rs:919-956 | The exit's final outcome is recorded without its cost and ends the Run |
| EngineMeaning.NodeMeans | crates/attractor-pipeline/src/engine.rs:1036-1167 | A final outcome is recorded field by field; then the Run ends, fails, or follows the selected edge, whose flags clear the walk or the loop state, and the node left becomes the previous one |
| EngineExecutor.Executor.RunInner | crates/attractor-pipeline/src/engine.rs:765-1171 | The loop over mutable memory and one checkpoint file ends for all replies; it has used the inputs in the order in which they came, and its end is the state the machine reaches on exactly these |
| EngineExecutor.Executor.InvokeNode | crates/attractor-pipeline/src/engine.rs:494-606 | The attempt loop follows the machine, one incoming input per step, to the final reply that came or the failure it reports |
| EngineExecutor.Executor.Begin | crates/attractor-pipeline/src/engine.rs:526-545 | Limits are checked, then the attempt is counted and saved, then it begins |
| EngineExecutor.Executor.Prepare | crates/attractor-pipeline/src/engine.rs:779-838 | Starting takes over a compatible checkpoint field by field, run controls aside, or begins afresh |
| EngineExecutor.Executor.SaveCheckpoint | crates/attractor-pipeline/src/engine.rs:80-108 | What is written is the machine's checkpoint of the current memory |
| EngineExecutor.Executor.ExitStage | crates/attractor-pipeline/src/engine.rs:888-957 | Gates are enforced before the exit's handler runs |
| EngineExecutor.Executor.Advance | crates/attractor-pipeline/src/engine.rs:1036-1167 | The outcome is recorded, its updates checked and applied, an edge followed and saved |

## Left out

- DotLex.FloatValue: a float is kept as the characters it is written with, so
  that a literal beyond the range of 64-bit floats, which the code reads as
  infinity and prints as `inf.0`, is not modelled as such.
- DotLexemes.ValueAt: says nothing of such literals, nor of how the code writes
  a float anew.
- DotLayout.ValueRead: such a literal means the characters it is written with.
- DotTheorems.PrintThenParse: the same; the code refuses the printed form of a
  graph with an infinite float.
- DotTheorems.TextRoundTrip: the same; with such a literal the graph does not
  come back.
- DotTheorems.CanonicalText: the same.
- DotLex.DurationValue: a number of minutes or hours is multiplied modulo 2^64,
  as release builds do; debug builds panic there.
- DotParser.ParseDot: says that a file is refused, not where; error positions
  and messages are left out.
- MonitorServer.Pump.SendBacklog: reads the machine's journal; an unreadable file
  is `MonitorJournal.WithFileIs`, and a client that has gone is left out.
- JournalReader.Tail.Poll: has no I/O errors; the state machine it is tied to
  allows one at any step.
- JournalWriter.ReadAllRaw: reads the file in one piece, as the Monitor's
  backlog and replays do here; a reopening in the middle of such a read is not
  modelled.
- Monitor.ServedExactly: takes the journal to be readable;
  `Monitor.UnreadableLosesForGood` is the other case. The projection deltas sent
  between events are left out.
- MonitorServer.Pump.Serve: a client that goes away, a closed channel and an
  unreadable file are left out; the first two only end the pump early.
- MonitorServer.Attach: which Runs are attached again, by file length and ended
  tails, is left out; the state machine lets replayers start at any time.
- Projection.Told: the view's fields for tasks, epics, commits, model
  invocations and the Run's own settings are left out: the merging of an Epic
  snapshot into the tasks, the current task and the visits counted for it, and
  otherwise copies of payload fields.
- RunView.RunView.Apply: leaves out the same fields.
- Findings.Derive: the rules for loops, budget, blocked selection, model
  mismatch, unsafe commits and shared work directories are left out, as they
  read those fields.
- RunView.CountsAlwaysAdd: does not relate the view's step count to the engine's
  own; a crash between the engine's save and its `StageStarted` event leaves the
  engine's higher.
- Costs in the journal are whole numbers of a smallest unit.
- Proposal.Proposal.Validate: error texts are reduced to their kind and the
  offender they name; form parsing and files are left out.
- EngineRuns.AttemptBoundsSurviveCrashes: handlers that resume an interrupted
  attempt are bounded by `max_steps` only, as in the code.
- Costs in the engine are reals, so rounding of 64-bit floats is left out.
- Runs without a checkpoint folder, events sent to observers, commit
  attribution, time-outs and retry delays of the engine.
- The key `node::upstream` of a quality loop counter is a string as in the code;
  the budget is proved per pair, whatever strings coincide.
- JSON: an event line is an encoding without newline that decodes to the event.
- Condition syntax, label normalisation, plan compilation and validation: their
  results are parameters and the conditions of `EngineGraph.Valid`.
- LLM adapters, agents, CLI, HTTP routes, pages, process control, the Beads
  adapter, answer files and skills.
