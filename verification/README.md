# LangBot: protocols and state, proved

LangBot connects chat platforms to language models. Most of it is adapters; this project models the
parts that hold real state or follow a protocol, and proves what they promise over every input, every
run and every interleaving. `dafny verify dfyconfig.toml` checks the whole project.

| file | models |
|---|---|
| `BindingState.dfy`, `BindingStore.dfy`, `BindingService.dfy`, `BindingOutcomes.dfy`, `BindingPlugin.dfy` | the IDC query plugin's group bindings: validation and snapshot format, crash-safe files, concurrent bind and unbind commands and what each comes to, and all of it over all lives of the process |
| `MessageDedup.dfy`, `RateLimit.dfy` | the plugin's message de-duplicator and sliding-window limiter, against their unpruned histories |
| `PayloadComplexity.dfy`, `ResponseFormatting.dfy`, `ResponseContent.dfy`, `ResponseText.dfy`, `ResponseTelling.dfy`, `AuditRotation.dfy` | the limits on gateway payloads, their rendering for the operator, what it shows and what its text tells, and the rotating audit log |
| `WebhookAdmission.dfy`, `GatewayLoop.dfy` | the QQ Official client: admission of webhook events and the reconnecting gateway loop |
| `ReplyQueues.dfy`, `ReplyResults.dfy`, `StreamSessions.dfy`, `MessageCodec.dfy` | the WeCom AI bot: serial reply queues with acknowledgements, stream sessions and their indices, and the message codec |
| `SetupCycles.dfy` | the cycle detector of the skills command line |
| `SseStream.dfy`, `SseEvents.dfy`, `SseBlocks.dfy` | the DeerFlow event stream: its splitter, its block parser, and which texts give the same events however they are cut |
| `Json.dfy`, `PyText.dfy`, `Wrappers.dfy` | JSON values, the part of Python's text handling that matters here, options and results |

## How the source is modelled

- Objects that update their fields are classes whose methods are proved against specifications; ghost
  fields hold the unpruned history where the source prunes. Loops stay loops.
- Concurrency. Code between two awaits runs atomically. The binding service, the binding store under
  crashes and the reply queues are step machines on values, one step per such stretch or per file
  replacement, and their theorems are about every sequence of steps. The critical sections of the
  limiter and of the de-duplicator contain no await, so their locks are never waited for and one call
  is one step. A timeout that races with the event it waits for can strike as long as the waiting task
  has not resumed. A task that has been cancelled only leaves.
- The environment. Clocks are non-decreasing numbers given to each call (stream sessions accept any).
  Times and windows are exact reals. A file replacement happens, raises or is cut short by a crash. The
  gateway loop and the stream splitter receive a script of everything that arrives.
- Library behaviour is a parameter with only the laws needed: Unicode categories and blanks, parsing of
  time stamps, AES with Base64, SHA-1, XML, `str` of a JSON value, the normalisation behind the test for
  sensitive keys, where `splitlines` cuts, the decoding of the data lines of an event. `LawfulAlphabetExists`,
  `LawfulTablesExist`, `PlainTablesExist`, `PlainListsExist` and `LawfulCryptoExists` show that the laws required of them can be met.
- The padding is that of section 6.3 of RFC 5652 with blocks of 32 bytes; blank-line splitting is that of
  section 9.2.6 of the WHATWG HTML Standard.

## Findings

Places where the code does less than its reader may expect, with the member that states it.

- Binding store: a persist that got past its backup only leaves an uncommitted map behind. If the primary is
  damaged afterwards, that map comes back exactly when the backup is not newer than the primary
  (`UncommittedBackupRevivedExactly`); a clock that advances from write to write rules it out.
- Reply queues: an idle exit that races with a new reply loses that reply (`RacingIdleExitLosesReply`). A worker
  cancelled before its first step leaves its entry in the tables for good, and every later reply of that id
  waits for ever (`CancelledBeforeStartIsDead`, `DeadEntryStays`). `CompletableExactly` and `StrandedIsOneOf` say
  which replies can still complete. An acknowledgement is matched by request id only, so a late one answers the
  next frame of that id (`LateAckAnswersNextFrame`, `AckAnswersExactly`).
- Gateway loop: when the last of the failed attempts ended without a session, or with code 4008, the loop
  gives up without calling the error callback (`OutcomeFollows` in the contract of `ConnectGateway`).
- Gateway loop: a close code is looked at only when the message iterator ends. When it raises instead, as the
  iterator of the websockets library does for abnormal closes, an invalidated session is resumed
  (`RaisedCloseIsResumed`, `InvalidatingCodeIdentifiesExactly`) and a refused token is not refreshed
  (`RaisedCodeRefreshesNothing`).
- Stream sessions: every redelivery leaves a superseded feedback id behind, and the entry stays for good
  (`SupersededIdStays`). A chunk that is not final, published after a final one, becomes what a drained queue
  repeats. A consumer that times out while chunks wait gets the last one of a finished session, ahead of its
  turn (`StreamSession.Take`).
- Message codec: with an empty receive id a length field larger than the message is accepted, since the
  slices clip (`AcceptsExactlyFramings`).
- Event stream: for some texts the events depend on where the chunks were cut. Without a cut inside a CR LF it
  takes a block of two characters more than the buffer limit, or one of exactly the limit or one more followed by
  such a text with one line feed before it; a block of exactly the limit by itself is harmless
  (`ChunkingIndependenceExactly`, `LimitBlockFits`). A cut inside a CR LF splits the block around it in two, unless
  this end of line is at an end of the text, next to another one, or in a blank block (`CutInsideCrLfExactly`).
- Formatting: a dict or list given as the label of a `fields` item is printed whole, including entries under
  a sensitive key that `str` escapes, such as a key with a line feed inside the word
  (`ContainerLabelChangesText`). The early exit of the list loop is never taken (`ListLinesAreFew`).

## Model

| member | source | states |
|---|---|---|
| PyText.Alphabet.CollapseFixesSingleSpaced | bundled_plugins/idc_query/idc_query_core/state.py:39-40 | text of words separated by single blanks comes out of sanitising and re-joining unchanged, so the name normal form is stable |
| PyText.Alphabet.CollapseIsSingleSpaced | bundled_plugins/idc_query/idc_query_core/state.py:39-40 | re-joining the words of any text gives such a normal form: no other blank than a single space, none at the ends |
| PyText.Alphabet.CollapseKeepsWords | bundled_plugins/idc_query/idc_query_core/state.py:39-40 | re-joining keeps the words of any text, in order |
| PyText.Alphabet.StripExactly | bundled_plugins/idc_query/idc_query_core/state.py:21-31 | stripping removes the blanks at both ends and nothing else: exactly which text it gives |
| BindingState.IdentifierFixedPoints | bundled_plugins/idc_query/idc_query_core/state.py:21-31 | an identifier that was accepted is trimmed, non-empty, at most 160 characters long and free of unsafe characters; exactly such texts are accepted unchanged |
| BindingState.MemberNameFixedPoints | bundled_plugins/idc_query/idc_query_core/state.py:34-40 | the same for member names, through blank-collapsing, the cut at 200 characters and the strip after the cut |
| BindingState.IdentifierReadExactly | bundled_plugins/idc_query/idc_query_core/state.py:21-31 | which values are read as an identifier, and as which: exactly the texts that are that identifier but for blanks around it |
| BindingState.NameKeepsWords | bundled_plugins/idc_query/idc_query_core/state.py:34-40 | a member name that fits keeps its words in order |
| BindingState.DictReadExactly | bundled_plugins/idc_query/idc_query_core/state.py:43-69 | which dictionaries are read as which binding: four identifiers that read, a time stamp with a timezone, and a name that reads or is absent; nothing else in them matters |
| BindingState.BindingRoundTrip | bundled_plugins/idc_query/idc_query_core/state.py:43-69 | a binding survives `asdict` followed by `from_dict` if and only if it is normalised, and `from_dict` only makes normalised bindings |
| BindingState.LeqIsTotalOrder | bundled_plugins/idc_query/idc_query_core/state.py:163-169 | the key order of a snapshot is a total order, so the order of the entries is determined by the set of groups |
| BindingState.SortedKeysAreKeys | bundled_plugins/idc_query/idc_query_core/state.py:163-169 | sorting lists every group exactly once, in strictly increasing order |
| BindingState.SnapshotRoundTrip | bundled_plugins/idc_query/idc_query_core/state.py:145-169 | reading a snapshot returns the serialised map if and only if every binding in it is normalised and keyed by its own group |
| BindingState.ReadIsWellFormed | bundled_plugins/idc_query/idc_query_core/state.py:145-161 | whatever the file holds, a map that is read is normalised and keyed by group |
| BindingState.ReadSnapshot | bundled_plugins/idc_query/idc_query_core/state.py:145-161 | the reading loop with its early failures computes the specified map or error |
| BindingStore.JsonBindingStore.PersistSnapshot | bundled_plugins/idc_query/idc_query_core/state.py:171-192 | backup first, then primary, then the two kinds of rollback: the files and the answer for every combination of writes that complete, raise or are cut short by a crash |
| BindingStore.JsonBindingStore.LoadWithRecovery | bundled_plugins/idc_query/idc_query_core/state.py:122-143 | which file is read, when the backup is refused, and when the primary is rewritten from it |
| BindingStore.JsonBindingStore.Load | bundled_plugins/idc_query/idc_query_core/state.py:79-81 | the dictionary is replaced by what was loaded, and kept when the load fails; the call is a step of the runs below and keeps their invariant |
| BindingStore.JsonBindingStore.Put | bundled_plugins/idc_query/idc_query_core/state.py:87-109 | rejected exactly if the texts are no binding, done exactly if they are one and both files are written; then memory is the old map with exactly that binding under its group, and every load returns it; otherwise memory and primary stay; the call is a step of the runs below |
| BindingStore.JsonBindingStore.Remove | bundled_plugins/idc_query/idc_query_core/state.py:111-120 | done exactly if the group is free or both files are written; a bound group is then gone from memory, the reply carries its binding, and every load returns the rest; otherwise nothing changes in memory or primary; the call is a step of the runs below |
| BindingStore.PersistIsDoneExactly | bundled_plugins/idc_query/idc_query_core/state.py:171-192 | a persist is done exactly if both files are written; then every load returns the new map, and else the primary is what it was |
| BindingStore.PersistKeepsConsistent | bundled_plugins/idc_query/idc_query_core/state.py:171-192 | one persist keeps the inductive invariant, wherever it fails: a backup that is not newer than the primary holds the committed map |
| BindingStore.StepKeepsConsistent | bundled_plugins/idc_query/idc_query_core/state.py:79-192 | so does every load, put, remove, crash and corruption of a file that leaves its time alone |
| BindingStore.RunKeepsConsistent | bundled_plugins/idc_query/idc_query_core/state.py:79-192 | so it holds after every run of such steps in which the file clock advances from write to write |
| BindingStore.LoadReturnsCommitted | bundled_plugins/idc_query/idc_query_core/state.py:122-143 | after every such run a load returns the map last moved into the primary or refuses, never an uncommitted backup; and it says exactly when the load succeeds |
| BindingStore.StepKeepsSteady | bundled_plugins/idc_query/idc_query_core/state.py:79-192 | whatever the file times are: while the primary is not damaged, every step keeps the committed map in the primary and in memory |
| BindingStore.UndamagedStoreAgreesWithMemory | bundled_plugins/idc_query/idc_query_core/state.py:79-143 | after every run of loads, puts, removes, failed writes and crashes that does not damage the primary, with any file times, a fresh load succeeds, changes no file and yields the map in memory |
| BindingStore.FreshLoadAgreesWithMemory | bundled_plugins/idc_query/idc_query_core/state.py:79-143 | the same after runs that damage the primary and repair it, with an advancing clock, whenever the primary is readable |
| BindingStore.RolledBackPersistRefusesRecovery | bundled_plugins/idc_query/idc_query_core/state.py:184-192 | after a persist that did not complete, a damaged primary is not recovered from the newer backup |
| BindingStore.UncommittedBackupRevivedExactly | bundled_plugins/idc_query/idc_query_core/state.py:131-137 | a persist that wrote its backup and never the primary: when the primary then becomes unreadable, the next load returns the uncommitted map if and only if the backup is not newer than the primary, and else refuses |
| BindingStore.RolledBackBackupRevivedExactly | bundled_plugins/idc_query/idc_query_core/state.py:184-192 | after a completed rollback it is the previous map that comes back, under the same condition |
| BindingStore.EqualTimesReviveUncommittedBackup | bundled_plugins/idc_query/idc_query_core/state.py:131-137 | an instance: with equal file times a load returns a map that was never committed |
| BindingService.VerdictKeepsIdentities | bundled_plugins/idc_query/idc_query_core/service.py:229-251 | a binding stored for a bind call has exactly the group, the user and the requested member of that call |
| BindingService.StepKeepsConsistent | bundled_plugins/idc_query/idc_query_core/service.py:109-110 | every step of any call keeps the invariant that ties locks, places of calls, the map and the history together |
| BindingService.RunKeepsConsistent | bundled_plugins/idc_query/idc_query_core/service.py:163-171 | so it holds after every interleaving of any number of calls, although one stripe serves many groups |
| BindingService.OneCallPerGroup | bundled_plugins/idc_query/idc_query_core/service.py:163-171 | two calls of one group are never inside the critical section together, although the gateway call yields in it |
| BindingService.LocksAreReleased | bundled_plugins/idc_query/idc_query_core/service.py:163-171 | no lock leaks: over every interleaving, with calls that fail or are abandoned anywhere, a call that has answered holds no lock, and when all have, every lock is free |
| BindingService.HistoryIsLegal | bundled_plugins/idc_query/idc_query_core/service.py:205-291 | the committed history replays to the current map: a bind finds its group free, an unbind removes a binding its own user made |
| BindingService.SuccessMeansCommitted | bundled_plugins/idc_query/idc_query_core/service.py:205-291 | a call answers with success if and only if a change of its own is in the history |
| BindingService.BindAndUnbindAlternate | bundled_plugins/idc_query/idc_query_core/service.py:205-291 | per group bind and unbind strictly alternate, and an unbind is made by the user recorded in the bind before it |
| BindingOutcomes.BindAnswersExactly | bundled_plugins/idc_query/idc_query_core/service.py:205-260 | a bind from arrival to answer, with any steps of other calls in between: it succeeds if and only if the group was free when it read, the identities are acceptable, the gateway verified the very member asked for and the files were written; then exactly the binding of that group, user and member with the normalised name is added, and else the call changes nothing |
| BindingOutcomes.UnbindAnswersExactly | bundled_plugins/idc_query/idc_query_core/service.py:262-291 | the same for an unbind: it succeeds if and only if the group was bound by this very user when it read, its id is acceptable, the gateway released it and the files were written; then exactly that group is freed |
| BindingOutcomes.VerdictExactly | bundled_plugins/idc_query/idc_query_core/service.py:229-251 | which gateway replies give which binding |
| BindingOutcomes.VisitExists | bundled_plugins/idc_query/idc_query_core/service.py:163-171 | from every state of a run in which its two locks are free a new call can go all the way |
| BindingOutcomes.FirstBindSucceeds | bundled_plugins/idc_query/idc_query_core/service.py:205-260 | so a service with an empty map binds any group to any member that the gateway verifies |
| BindingPlugin.ActionKeepsLinked | bundled_plugins/idc_query/idc_query_core/service.py:205-291 | service and store together, with starts, crashes and exits: every action keeps the replay of all changes ever committed equal to the committed map, and to the map in memory while the process runs |
| BindingPlugin.StartServesCommitted | bundled_plugins/idc_query/idc_query_core/state.py:79-81 | a start whose load succeeds serves the committed map |
| BindingPlugin.WrittenChangeIsLoaded | bundled_plugins/idc_query/idc_query_core/state.py:87-120 | a persist whose files are written makes its call succeed, adds its change to the log, and every load then returns the map it leaves |
| BindingPlugin.CommittedChangesSurvive | bundled_plugins/idc_query/idc_query_core/state.py:79-192 | over any number of lives of the process, any interleaving of calls, write errors, crashes and file times, while the primary is not damaged: a load succeeds and returns the replay of all changes ever committed, each legal when it was made |
| BindingPlugin.LoadReplaysChangesOrRefuses | bundled_plugins/idc_query/idc_query_core/state.py:122-143 | with damage to either file and an advancing file clock a load returns that replay or nothing, and exactly when it returns |
| BindingPlugin.ToldChangesStay | bundled_plugins/idc_query/idc_query_core/service.py:205-291 | the change of a call that answered with success is among those committed, and so it is in every later state |
| MessageDedup.Unexpired | bundled_plugins/idc_query/idc_query_core/service.py:346-348 | with ordered expiry times, dropping what has expired keeps exactly a tail of the dictionary |
| MessageDedup.DroppingKeepsLongest | bundled_plugins/idc_query/idc_query_core/service.py:344-348 | as time passes the dictionary stays the longest unexpired suffix of the accepted ids within the capacity |
| MessageDedup.AcceptingKeepsLongest | bundled_plugins/idc_query/idc_query_core/service.py:351-354 | so it does when an id is accepted and the oldest one makes room |
| MessageDedup.MessageDeduplicator.Accept | bundled_plugins/idc_query/idc_query_core/service.py:351-354 | eviction from the head and insertion keep the dictionary equal to that suffix |
| MessageDedup.MessageDeduplicator.IsDuplicate | bundled_plugins/idc_query/idc_query_core/service.py:341-354 | an id is called a duplicate if and only if it is among the unexpired newest accepted ids; the empty id never is, and changes nothing |
| RateLimit.TailDecides | bundled_plugins/idc_query/idc_query_core/rate_limit.py:40-47 | pruned events decide like the full history, now and at every later cutoff |
| RateLimit.StoredDecide | bundled_plugins/idc_query/idc_query_core/rate_limit.py:36-47 | the same for the stored events of a key that the occasional cleanup may have left stale |
| RateLimit.SlidingWindowRateLimiter.Acquire | bundled_plugins/idc_query/idc_query_core/rate_limit.py:32-48 | allowed if and only if fewer than `limit` admissions of the key lie in the window; a denial's delay is the least whole number of seconds after which an attempt would be allowed, between 1 and the window rounded up; no stored event is older than two windows |
| RateLimit.SlidingWindowRateLimiter.Cleanup | bundled_plugins/idc_query/idc_query_core/rate_limit.py:50-58 | prunes every key and forgets exactly those left without events |
| RateLimit.NoWindowOverflows | bundled_plugins/idc_query/idc_query_core/rate_limit.py:32-48 | admissions that are spaced this way never exceed the limit in any window, wherever it ends |
| RateLimit.SlidingWindowRateLimiter.WindowsNeverOverflow | bundled_plugins/idc_query/idc_query_core/rate_limit.py:32-58 | at any time of a limiter's life no window of the past holds more than `limit` admissions of a key |
| AuditRotation.NoFilesAreSound | bundled_plugins/idc_query/idc_query_core/audit.py:16-27 | a log that starts without files satisfies the invariant of its methods |
| AuditRotation.MovingReadsSame | bundled_plugins/idc_query/idc_query_core/audit.py:84-89 | renaming a file into the free slot above changes nothing in what the files read in order hold |
| AuditRotation.DroppingOldestKeepsSuffix | bundled_plugins/idc_query/idc_query_core/audit.py:82-83 | removing the oldest backup removes a prefix of it |
| AuditRotation.JsonlAuditLog.Rotate | bundled_plugins/idc_query/idc_query_core/audit.py:77-89 | wherever a rotation stops, the files hold what they held or that without the oldest backup; a finished one leaves no current file |
| AuditRotation.JsonlAuditLog.WriteLine | bundled_plugins/idc_query/idc_query_core/audit.py:55-64 | a record goes to the end of the current file if it fits and else to a new file; after every step the files in order form a suffix of all records ever written, and each is within `max_bytes` or holds one record |
| PayloadComplexity.ChildrenDecide | bundled_plugins/idc_query/idc_query_core/gateway.py:340-350 | the recursive limits of a value are those of its children and its own |
| PayloadComplexity.PopKeepsAccounts | bundled_plugins/idc_query/idc_query_core/gateway.py:339-350 | replacing a popped node by its children keeps the count of entries, the depth and the finiteness of what is on the stack |
| PayloadComplexity.ValidatePayloadComplexity | bundled_plugins/idc_query/idc_query_core/gateway.py:335-352 | the stack loop ends and accepts exactly the values with every node at depth at most 16, at most 4096 container entries and only finite floats; a refusal names a cause that is there |
| ResponseFormatting.GetOfRedacted | bundled_plugins/idc_query/idc_query_core/formatting.py:147 | looking up a key that is not sensitive commutes with dropping the sensitive entries |
| ResponseFormatting.RedactingKeepsDict | bundled_plugins/idc_query/idc_query_core/formatting.py:98-118 | the lines of a dict do not change when sensitive entries are removed at every depth |
| ResponseFormatting.RedactingKeepsList | bundled_plugins/idc_query/idc_query_core/formatting.py:121-143 | nor do the lines of a list |
| ResponseFormatting.FieldKeptExactly | bundled_plugins/idc_query/idc_query_core/formatting.py:152-161 | the line of a `fields` item is that of the item without its sensitive data if and only if its caption survives; redaction never adds a line |
| ResponseFormatting.CleanNamesKeepCaption | bundled_plugins/idc_query/idc_query_core/formatting.py:152-161 | a caption survives if the names of the item are scalars or containers without sensitive keys |
| ResponseFormatting.RedactedItemIsDict | bundled_plugins/idc_query/idc_query_core/formatting.py:152-161 | the redacted item has distinct keys if the item has, and holds no value but the empty text when its name is sensitive |
| ResponseFormatting.FieldsKeptExactly | bundled_plugins/idc_query/idc_query_core/formatting.py:152-161 | the lines of the items are those of the redacted items if and only if every caption shown survives the redaction of the item |
| ResponseFormatting.LinesKeptExactly | bundled_plugins/idc_query/idc_query_core/formatting.py:146-172 | the lines of any payload are those of the payload without its sensitive data if and only if every caption shown survives |
| ResponseFormatting.FormattingIgnoresSensitiveData | bundled_plugins/idc_query/idc_query_core/formatting.py:146-181 | then the text is that of the payload without its sensitive data |
| ResponseText.TextKeptExactly | bundled_plugins/idc_query/idc_query_core/formatting.py:146-181 | the converse: when neither the 32 lines nor the 1800 characters cut anything, the two texts are equal if and only if every caption shown survives |
| ResponseText.TextTellsLines | bundled_plugins/idc_query/idc_query_core/formatting.py:173-181 | the lines can be read off such a text, but for blanks at its end |
| ResponseText.UncutText | bundled_plugins/idc_query/idc_query_core/formatting.py:173-181 | a text that nothing is cut from consists of the line parts of the title and the lines of the data |
| ResponseContent.ScalarsAreShown | bundled_plugins/idc_query/idc_query_core/formatting.py:88-95 | nothing is shown as a dash, truth values in words, clean texts and numbers as they are |
| ResponseContent.CaptionIsShown | bundled_plugins/idc_query/idc_query_core/formatting.py:83-85 | the caption of a key is its label from the table or the key itself, if that is clean |
| ResponseContent.DictIsShown | bundled_plugins/idc_query/idc_query_core/formatting.py:98-118 | what is shown of a dict: for exactly the paths of at most four non-sensitive keys to a value that is no dict, in the order of the document, a scalar under the captions of its path joined by slashes, or a list under them; and no other line |
| ResponseContent.PlacesAreExact | bundled_plugins/idc_query/idc_query_core/formatting.py:98-118 | the places enumerated are exactly these paths |
| ResponseContent.ListIsShown | bundled_plugins/idc_query/idc_query_core/formatting.py:120-143 | what is shown of a list: a heading, and of each of its first ten items, numbered, the scalar or the non-sensitive, non-empty scalar entries of the dict |
| ResponseContent.ItemsOfFieldsAreShown | bundled_plugins/idc_query/idc_query_core/formatting.py:151-161 | what is shown of `fields`: of each of its first 32 items without a sensitive name the first of its label, name and key that is there, and its value |
| ResponseContent.TopListIsShown | bundled_plugins/idc_query/idc_query_core/formatting.py:165-167 | what is shown of data that are a list: the same without a heading |
| ResponseContent.TextIsShown | bundled_plugins/idc_query/idc_query_core/formatting.py:74-80 | a text of at most 32 clean lines is shown as it is |
| ResponseContent.ScalarDataAreShown | bundled_plugins/idc_query/idc_query_core/formatting.py:162-172 | data that are a scalar, or nothing |
| ResponseTelling.ValueIsShown | bundled_plugins/idc_query/idc_query_core/formatting.py:98-172 | a value at the end of a path of non-sensitive keys, in an item of a list or of `fields`, or by itself, stands in one line after its captions, and everything around it is the same whatever the value is |
| ResponseTelling.DifferentValuesDifferentTexts | bundled_plugins/idc_query/idc_query_core/formatting.py:146-181 | two payloads whose data differ in one such clean text give different texts if nothing is cut |
| ResponseFormatting.SensitiveDataCannotBeTold | bundled_plugins/idc_query/idc_query_core/formatting.py:146-181 | two payloads that differ only in sensitive data give the same text |
| ResponseFormatting.SecretValuesLeaveNoTrace | bundled_plugins/idc_query/idc_query_core/formatting.py:146-157 | payloads that differ only in the values of `fields` items with sensitive names have the same redaction, with or without an envelope around the data |
| ResponseFormatting.SecretValuesCannotBeTold | bundled_plugins/idc_query/idc_query_core/formatting.py:146-181 | and give the same text |
| ResponseFormatting.ContainerLabelChangesText | bundled_plugins/idc_query/idc_query_core/formatting.py:156-158 | a payload and lawful tables for which the text differs from that of the redacted payload: the label is a dict with a sensitive key |
| ResponseFormatting.ContainerLabelIsPrintedWhole | bundled_plugins/idc_query/idc_query_core/formatting.py:156-158 | the line of an item whose label is a dict with a sensitive key that `str` spells differently changes under redaction, for all such tables |
| ResponseFormatting.CutGivesSameText | bundled_plugins/idc_query/idc_query_core/formatting.py:116-118 | leaving a loop early with at least 32 lines gives the text that all lines would give |
| ResponseFormatting.RenderPairs | bundled_plugins/idc_query/idc_query_core/formatting.py:127-134 | the inner loop over a dict in a list renders exactly its non-sensitive, non-empty values |
| ResponseFormatting.RenderList | bundled_plugins/idc_query/idc_query_core/formatting.py:121-143 | the list loop gives all lines, or at least 32 of them from the front |
| ResponseFormatting.ListLinesAreFew | bundled_plugins/idc_query/idc_query_core/formatting.py:121-143 | a list gives at most 11 lines, so the early exit of its loop is never taken |
| ResponseFormatting.RenderDict | bundled_plugins/idc_query/idc_query_core/formatting.py:98-118 | so does the recursive dict loop |
| ResponseFormatting.RenderFields | bundled_plugins/idc_query/idc_query_core/formatting.py:151-161 | the loop over `fields` items with its skips gives the specified lines |
| ResponseFormatting.ResultLines | bundled_plugins/idc_query/idc_query_core/formatting.py:173-177 | the loop over line parts may stop early: the 32 parts kept are the first 32 of all |
| ResponseFormatting.FormattedIsBounded | bundled_plugins/idc_query/idc_query_core/formatting.py:177-181 | the text never exceeds 1800 characters or 32 lines, whatever the title and the payload |
| ResponseFormatting.FormatGatewayResponse | bundled_plugins/idc_query/idc_query_core/formatting.py:146-181 | the loops with all their early exits compute the specified text, within these bounds |
| ReplyQueues.StepKeepsOneWorker | src/langbot/libs/wecom_ai_bot_api/ws_client.py:622-652 | every step keeps at most one live worker per request id, the one in the tables on the queue in the tables, and is a step of the line as that worker sees it |
| ReplyQueues.StepKeepsOk | src/langbot/libs/wecom_ai_bot_api/ws_client.py:602-683 | every step of a sender, a worker, an acknowledgement, a lost connection or a shutdown keeps the order of frames, the routing of acknowledgements and the account of replies |
| ReplyQueues.RunKeepsOk | src/langbot/libs/wecom_ai_bot_api/ws_client.py:602-683 | so in every state reachable from a sound one, under every request id: frames were handed over in queueing order, each after the wait for the one before had ended; an ACK future that is waited for is the one in the table; every reply is handed over, queued or lost |
| ReplyQueues.EveryRunIsOk | src/langbot/libs/wecom_ai_bot_api/ws_client.py:602-683 | and in every state reachable from a new client |
| ReplyQueues.StepGrows | src/langbot/libs/wecom_ai_bot_api/ws_client.py:642-647 | no step of a line changes how a completed reply was completed, or takes back what was handed over, settled or lost |
| ReplyQueues.RunGrows | src/langbot/libs/wecom_ai_bot_api/ws_client.py:642-647 | so each reply future completes at most once over whole runs, with lost connections and shutdowns |
| ReplyQueues.RepliesAreLostExactly | src/langbot/libs/wecom_ai_bot_api/ws_client.py:636-652 | replies are lost exactly when a worker takes its entry out of the tables while they are in its queue: an idle exit, a cancellation after its start, or the loop ending because the client has stopped |
| ReplyQueues.LostStaysUndelivered | src/langbot/libs/wecom_ai_bot_api/ws_client.py:649-652 | in every later run a lost reply is never handed over, and completes only if its sender cancels it |
| ReplyQueues.RunKeepsStranded | src/langbot/libs/wecom_ai_bot_api/ws_client.py:622-652 | a reply that no worker has in hand stays so in every later run, and completes only if its sender cancels it |
| ReplyQueues.InHandCanComplete | src/langbot/libs/wecom_ai_bot_api/ws_client.py:630-671 | a reply that a worker which has neither ended nor been cancelled has in its queue, in flight or to report is completed by some run |
| ReplyQueues.CompletableExactly | src/langbot/libs/wecom_ai_bot_api/ws_client.py:602-671 | so an unfinished reply can complete in some later run, other than by its sender, if and only if such a worker has it in hand |
| ReplyQueues.StrandedIsOneOf | src/langbot/libs/wecom_ai_bot_api/ws_client.py:622-652 | the others are exactly the lost ones, those given up in flight or unreported when their worker left, and those whose worker has ended or is cancelled, before its first step or later |
| ReplyQueues.ShutdownStrandsReplies | src/langbot/libs/wecom_ai_bot_api/ws_client.py:142-148 | after a shutdown no unfinished reply can still complete, other than by its sender, also after reconnects |
| ReplyQueues.DeadEntryStays | src/langbot/libs/wecom_ai_bot_api/ws_client.py:622-624 | an entry whose worker has ended stays in every later run, also after reconnects, and nothing more is handed over under that id |
| ReplyQueues.CancelledBeforeStartIsDead | src/langbot/libs/wecom_ai_bot_api/ws_client.py:146-148 | a run that reaches such an entry: a reply is queued and the client disconnects before the new worker's first step |
| ReplyQueues.RacingIdleExitLosesReply | src/langbot/libs/wecom_ai_bot_api/ws_client.py:637-639 | a run from the new client: a worker finishes one reply and waits for its empty queue; the next reply comes just as that wait times out, and is lost |
| ReplyQueues.AckAnswersExactly | src/langbot/libs/wecom_ai_bot_api/ws_client.py:455-459 | an acknowledgement answers the open future in the table, whichever frame it is for: its own frame if and only if that one is in the table, and else another frame or none |
| ReplyQueues.AwaitedFrameIsAnswered | src/langbot/libs/wecom_ai_bot_api/ws_client.py:455-459 | a frame that is waited for is answered by its own acknowledgement, and by that of any other frame of the id |
| ReplyQueues.LateAckAnswersNextFrame | src/langbot/libs/wecom_ai_bot_api/ws_client.py:455-459 | a run from the new client after which the acknowledgement of a frame that has timed out is taken for that of the next frame |
| ReplyQueues.ViewStepKeepsOrderly | src/langbot/libs/wecom_ai_bot_api/ws_client.py:630-652 | without shutdown, and with idle exits only from empty queues, the replies queued are exactly those handed over followed by those in the queue, in order, and an ACK future in the table is open |
| ReplyQueues.WorkerCanMove | src/langbot/libs/wecom_ai_bot_api/ws_client.py:630-671 | then the worker of an unfinished reply always has a step to take |
| ReplyQueues.StepBringsCloser | src/langbot/libs/wecom_ai_bot_api/ws_client.py:630-671 | and each of its steps brings every unfinished reply closer to completion, while no other step takes one further away |
| ReplyQueues.EveryReplyCompletes | src/langbot/libs/wecom_ai_bot_api/ws_client.py:602-671 | so every reply completes once its worker has taken the steps it needs, whatever other steps are interleaved |
| ReplyQueues.ConnectedClientIsOrderly | src/langbot/libs/wecom_ai_bot_api/ws_client.py:602-629 | a client that has just connected satisfies the assumption of these results |
| ReplyResults.ResultsAreExact | src/langbot/libs/wecom_ai_bot_api/ws_client.py:640-671 | what each reply completes with, over every run: acknowledged exactly after an answer, timed out exactly without one in time, failed exactly when the sending raised, the connection was lost or the report raised; and not at all only if its worker was cancelled or its handling has not ended |
| ReplyResults.RejectedExactly | src/langbot/libs/wecom_ai_bot_api/ws_client.py:678-683 | an ACK future is rejected exactly by a lost connection, while it is open and in the table |
| WebhookAdmission.TableIsDistinct | src/langbot/libs/qq_official_api/api.py:800-821 | the table never holds an id twice |
| WebhookAdmission.TableIsOrdered | src/langbot/libs/qq_official_api/api.py:800-821 | the table is ordered by last sighting |
| WebhookAdmission.PurgingAccounts | src/langbot/libs/qq_official_api/api.py:805-811 | purging from the head drops only expired ids |
| WebhookAdmission.EvictingAccounts | src/langbot/libs/qq_official_api/api.py:818-820 | the head of an overfull table has been displaced by 4096 ids sighted after it |
| WebhookAdmission.AbsentHasNoLiveSighting | src/langbot/libs/qq_official_api/api.py:813-816 | an id that is not in the table has no sighting that still counts: each is expired, displaced or was not remembered |
| WebhookAdmission.ForgettingAccounts | src/langbot/libs/qq_official_api/api.py:823-826 | forgetting a refused event leaves the account of all other ids as it was |
| WebhookAdmission.WebhookIntake.Purge | src/langbot/libs/qq_official_api/api.py:805-811 | purging only from the head removes every expired entry |
| WebhookAdmission.WebhookIntake.IsDuplicateWebhookEvent | src/langbot/libs/qq_official_api/api.py:800-821 | an event is a duplicate if and only if its id is in the table and at most 600 seconds old; a new one has no live sighting |
| WebhookAdmission.WebhookIntake.ForgetWebhookEvent | src/langbot/libs/qq_official_api/api.py:823-826 | the id just recorded is taken out again |
| WebhookAdmission.WebhookIntake.HandleMessageEvent | src/langbot/libs/qq_official_api/api.py:226-246 | duplicate, refused, failed or dispatched, with the exact condition of each; a refused or failed event is not remembered; at most 256 tasks are pending and 4096 ids remembered |
| GatewayLoop.FewAttemptsBetweenResets | src/langbot/libs/qq_official_api/api.py:928-961 | no stretch without READY or RESUMED starts more than 101 attempts, and none after the first such event more than 100 |
| GatewayLoop.ResumeCarriesLatest | src/langbot/libs/qq_official_api/api.py:985-996 | a Resume frame carries the session of the latest READY not invalidated since, and the last sequence number received since any invalidation |
| GatewayLoop.StandingSessionIsResumed | src/langbot/libs/qq_official_api/api.py:985-996 | with such a session and a positive number, a Hello is answered by Resume and not by Identify |
| GatewayLoop.LostSessionIsIdentified | src/langbot/libs/qq_official_api/api.py:1068-1107 | after a non-resumable op 9, or an iterator that ends with close code 4006, 4007, 4009 or 4900 to 4913, every Hello before the next READY is answered by Identify |
| GatewayLoop.InvalidatingCodeIdentifiesExactly | src/langbot/libs/qq_official_api/api.py:1086-1115 | after a connection closed with an invalidating code, a Hello before the next READY gets Identify if and only if the message iterator ended normally or the session was invalidated since, or no session with a positive number stood |
| GatewayLoop.NextHelloAfterInvalidatingCode | src/langbot/libs/qq_official_api/api.py:984-1005 | the answer to the very next Hello: Identify if the iterator ended or no session with a positive number stood, and else Resume of that session |
| GatewayLoop.RaisedCodeRefreshesNothing | src/langbot/libs/qq_official_api/api.py:1086-1115 | a close that raises demands no new token, whatever its code: none is fetched until something else demands it |
| GatewayLoop.LiveIsHeard | src/langbot/libs/qq_official_api/api.py:979-1075 | the live session and number depend only on what was received |
| GatewayLoop.RaisedCloseIsResumed | src/langbot/libs/qq_official_api/api.py:1112-1115 | the failing input: after READY with an id and a number, a close with code 4006 or any other that raises, and a new Hello, the loop sends Resume |
| GatewayLoop.RefreshPrecedesConnection | src/langbot/libs/qq_official_api/api.py:933-936 | between an event that demands a new token and the next connection the token is refreshed |
| GatewayLoop.ReadFrames | src/langbot/libs/qq_official_api/api.py:963-1075 | the message loop reads all frames up to the first directive to leave, answers each Hello at once unless the sending raises, and keeps the loop variables equal to what the history says |
| GatewayLoop.RunSession | src/langbot/libs/qq_official_api/api.py:963-1111 | one connection adds no failure of its own; the loop leaves exactly after a ban, a normal close or a cancellation, slows down exactly after code 4008, and else backs off, read off the history |
| GatewayLoop.ConnectGateway | src/langbot/libs/qq_official_api/api.py:896-1138 | for every script of attempts: the loop hears exactly the script as far as it goes, and each failing attempt counts once. It is banned if and only if the last event is a close with 4914 or 4915, stopped if and only if it is one with 1000, and no such close is followed by anything; it gives up if and only if neither has happened, the task is not cancelled and the bound is reached, telling the error callback exactly when the last attempt had a connection that did not close with 4008; after any other attempt the next one starts |
| StreamSessions.OneSessionPerMessage | src/langbot/libs/wecom_ai_bot_api/api.py:121-152 | two live sessions never share a message id |
| StreamSessions.ExpiringMessagesAgree | src/langbot/libs/wecom_ai_bot_api/api.py:236-240 | the message index stays inverse to the live sessions when one expires, and the guard on the index is always met |
| StreamSessions.LastFeedbackIsLast | src/langbot/libs/wecom_ai_bot_api/api.py:854-858 | the feedback id of a session is the last one handed out for it |
| StreamSessions.RegisteringAgrees | src/langbot/libs/wecom_ai_bot_api/api.py:111-119 | registering a fresh id keeps the feedback index exact: all ids of live sessions, and of expired ones all but the last |
| StreamSessions.ExpiringAgrees | src/langbot/libs/wecom_ai_bot_api/api.py:241-244 | so does expiry, which removes the last id of the session and leaves the superseded ones |
| StreamSessions.LookupFindsLive | src/langbot/libs/wecom_ai_bot_api/api.py:95-109 | a lookup finds a live session by any id ever handed out for it, and by no other |
| StreamSessions.SupersededIdStays | src/langbot/libs/wecom_ai_bot_api/api.py:854-858 | a feedback id that a redelivery has superseded is in every index that agrees with any extension of the registrations, its session live or not |
| StreamSessions.StreamSessionManager.SupersededFeedbackStays | src/langbot/libs/wecom_ai_bot_api/api.py:221-244 | so it is in the index of every later state of the manager |
| StreamSessions.StreamSession.Put | src/langbot/libs/wecom_ai_bot_api/api.py:175-188 | a published chunk goes to the end of the queue and becomes the last chunk; `finished` is set by a final one and never reset |
| StreamSessions.StreamSession.Take | src/langbot/libs/wecom_ai_bot_api/api.py:205-213 | a consumer gets the next chunk in publication order, or on a timeout the last chunk of a finished session |
| StreamSessions.StreamSessionManager.CreateOrGet | src/langbot/libs/wecom_ai_bot_api/api.py:121-152 | a session is new if and only if no live session has the message id; a redelivery returns the live one, with its chunks untouched |
| StreamSessions.StreamSessionManager.RegisterFeedbackId | src/langbot/libs/wecom_ai_bot_api/api.py:854-858 | the session carries the new id, every id handed out for it before is superseded, and the three maps still agree |
| StreamSessions.StreamSessionManager.GetSessionByFeedbackId | src/langbot/libs/wecom_ai_bot_api/api.py:95-109 | the session found is live and was given this id; nothing is found only if there is no such session |
| StreamSessions.StreamSessionManager.Publish | src/langbot/libs/wecom_ai_bot_api/api.py:154-190 | a chunk reaches exactly the live session of that id |
| StreamSessions.StreamSessionManager.BeginConsume | src/langbot/libs/wecom_ai_bot_api/api.py:198-204 | a consumer gets hold of the live session of that id, which stays accessible to it, and nothing else changes |
| StreamSessions.StreamSessionManager.EndConsume | src/langbot/libs/wecom_ai_bot_api/api.py:204-213 | what was consumed is a prefix of what was published; once the last chunk published is final and the queue is drained, every later consume returns that chunk, also on a session that expired meanwhile |
| StreamSessions.StreamSessionManager.MarkFinished | src/langbot/libs/wecom_ai_bot_api/api.py:215-219 | marks the session finished and changes no chunk |
| StreamSessions.StreamSessionManager.Cleanup | src/langbot/libs/wecom_ai_bot_api/api.py:221-244 | exactly the sessions not accessed within their time to live go, 600 seconds with a feedback id and the configured time without, and the three maps still agree |
| MessageCodec.PaddingFillsBlocks | src/langbot/libs/wecom_ai_bot_api/WXBizMsgCrypt3.py:108-120 | the padded length is a positive multiple of 32, the last byte counts the padding, and the text is kept |
| MessageCodec.FromBigEndianInverts | src/langbot/libs/wecom_ai_bot_api/WXBizMsgCrypt3.py:149 | the four length bytes read back as the length |
| MessageCodec.AcceptsExactlyFramings | src/langbot/libs/wecom_ai_bot_api/WXBizMsgCrypt3.py:178-195 | which plaintexts are accepted for a receive id, and with which text: exactly those framed with a 16-byte prefix, a length, the text, the id and a tail as long as its last byte says |
| MessageCodec.DecryptInvertsEncrypt | src/langbot/libs/wecom_ai_bot_api/WXBizMsgCrypt3.py:142-195 | decrypting what was encrypted returns the text to its own receiver and the receive-id error to every other, for every text shorter than 2^32 bytes |
| MessageCodec.PackingRaisesExactly | src/langbot/libs/wecom_ai_bot_api/WXBizMsgCrypt3.py:235-255 | with working cryptography packing raises exactly for a text of 2^32 bytes or more, and for others returns a message exactly if the sealed text can be signed |
| MessageCodec.LawfulCryptoExists | src/langbot/libs/wecom_ai_bot_api/WXBizMsgCrypt3.py:142-195 | the laws assumed of AES, Base64, UTF-8 and the envelope can be met |
| MessageCodec.DecryptMsgInvertsEncryptMsg | src/langbot/libs/wecom_ai_bot_api/WXBizMsgCrypt3.py:235-278 | a packed message unpacks to its text under the signature of its sealed text and under no other |
| MessageCodec.PackedMessageUnpacks | src/langbot/libs/wecom_ai_bot_api/WXBizMsgCrypt3.py:235-278 | a receiver reads the caller's time stamp and nonce out of the message, and a signature under which it unpacks to the text |
| MessageCodec.AcceptsExactlySigned | src/langbot/libs/wecom_ai_bot_api/WXBizMsgCrypt3.py:257-278 | which messages are accepted, and with which text: exactly those with a sealed text signed with the token, time stamp and nonce given, that opens to a framing of the text for this receiver |
| MessageCodec.StripFilePadding | src/langbot/libs/wecom_ai_bot_api/api.py:285-298 | the check accepts exactly data that ends in 1 to 32 bytes of their own count, and returns what precedes them |
| MessageCodec.PaddedDataIsWellPadded | src/langbot/libs/wecom_ai_bot_api/api.py:285-298 | what the message codec's padding adds passes this check |
| SseStream.NormalizeAppends | src/langbot/libs/deerflow_api/client.py:21-23 | normalising two pieces gives the normalised whole if and only if the cut is not between CR and LF, and else one newline too many |
| SseStream.CleanCutsNormalize | src/langbot/libs/deerflow_api/client.py:178-179 | the same for any number of pieces |
| SseStream.SplitAppends | src/langbot/libs/deerflow_api/client.py:181-185 | blocks taken off the buffer early are those that would be taken off later |
| SseStream.SplitIsExact | src/langbot/libs/deerflow_api/client.py:181-185 | what splitting gives: the text again when the blank lines are put back, each block up to the first blank line, and no blank line in the rest |
| SseStream.LineEndsBecomeFeeds | src/langbot/libs/deerflow_api/client.py:21-23 | what normalising does: each CR LF and each lone CR becomes one line feed, whatever is around it, and a text without CR stays |
| SseStream.TakeBlocks | src/langbot/libs/deerflow_api/client.py:181-185 | the inner loop ends and yields the events of exactly the complete blocks |
| SseStream.FeedChunk | src/langbot/libs/deerflow_api/client.py:179-192 | one chunk: the complete blocks, and the flush of a buffer beyond the limit |
| SseStream.StreamRun | src/langbot/libs/deerflow_api/client.py:178-204 | the whole loop, with the flush of what remains, yields the events of the specified blocks |
| SseStream.ConsumeIsSplit | src/langbot/libs/deerflow_api/client.py:178-192 | while no block reaches the limit, the blocks after any chunks are those of the text so far |
| SseStream.ChunkingIndependence | src/langbot/libs/deerflow_api/client.py:175-204 | however a text is cut, any parser is handed the blocks of the whole text split on blank lines, if no cut is inside a CR LF and every block is shorter than the buffer limit |
| SseStream.CutAt | src/langbot/libs/deerflow_api/client.py:178-179 | every position of the normalised text is that of a clean cut in the text |
| SseStream.CutInsideCrLfSplitsBlock | src/langbot/libs/deerflow_api/client.py:179 | an instance in which such a cut turns one block into two |
| SseEvents.ParseSseBlock | src/langbot/libs/deerflow_api/client.py:49-63 | the loop over the lines of a block computes the name and the data lines of its event, or none |
| SseBlocks.WrittenBlockParses | src/langbot/libs/deerflow_api/client.py:49-63 | the round trip of a block: written from any names, data lines and other lines, with any blanks after the colons, it is read as an event exactly if it has data lines, with the last name or `message` and these lines in order, all others ignored |
| SseEvents.BlockParserIsLawful | src/langbot/libs/deerflow_api/client.py:49-63 | the laws the results below need: a blank block gives no event, and a line feed more at either end of a block changes nothing |
| SseEvents.LeadingFeed | src/langbot/libs/deerflow_api/client.py:181-204 | a line feed before a text changes none of its events |
| SseEvents.DeliveredYields | src/langbot/libs/deerflow_api/client.py:175-204 | the events of the whole loop, over all chunks and what remains, are those of its steps from the front |
| SseEvents.FlushKeeps | src/langbot/libs/deerflow_api/client.py:187-192 | an overflow of the buffer in a text that fits loses, adds and changes no event |
| SseEvents.FittingTextIsIndependent | src/langbot/libs/deerflow_api/client.py:175-204 | a text that fits gives every lawful parser the events of the whole text, however it is cut outside of a CR LF |
| SseEvents.TornTextIsDependent | src/langbot/libs/deerflow_api/client.py:187-192 | for a text that does not fit, a lawful parser and such a cutting for which the events differ |
| SseEvents.ChunkingIndependenceExactly | src/langbot/libs/deerflow_api/client.py:175-204 | so all these cuttings give all lawful parsers the events of the whole text if and only if it fits: no block that is not blank is longer than the limit and one character, nor the rest after the last one but for a line feed at its end, and after a block that reaches the limit the text also fits with one line feed before it |
| SseEvents.LimitBlockFits | src/langbot/libs/deerflow_api/client.py:187-192 | a block of exactly the limit is harmless |
| SseEvents.ShortBlocksFit | src/langbot/libs/deerflow_api/client.py:175-204 | a text whose blocks are all shorter fits |
| SseEvents.CutInsideCrLfExactly | src/langbot/libs/deerflow_api/client.py:179 | with one cut inside a CR LF, in a text that otherwise fits: every lawful parser gives the events of the whole text if and only if this end of line is at an end of the text, next to another end of line, or in a blank block |
| SetupCycles.WalkDescends | skills/src/commands/validate.ts:270-275 | in finishing order every walk through known cases leads to an earlier case |
| SetupCycles.OrderedCasesHaveNoCycle | skills/src/commands/validate.ts:253-280 | if every case could finish in such an order there is no cycle |
| SetupCycles.LastItemWins | skills/src/commands/validate.ts:253-254 | of several items with one id the last decides what it points to, and there are no other cases |
| SetupCycles.RevisitIsGenuine | skills/src/commands/validate.ts:261-264 | the part of the path from the first visit of its last id on is a closed walk, and the report is that walk with the id written once more |
| SetupCycles.FinishingKeepsOrder | skills/src/commands/validate.ts:274-275 | a case finished after all its successors extends the order |
| SetupCycles.CycleValidator.Visit | skills/src/commands/validate.ts:259-276 | the search ends; the visiting set is exactly the path; without an error the case is finished |
| SetupCycles.ValidateSetupAutomationCycles | skills/src/commands/validate.ts:253-280 | an error is reported if and only if the `case:` edges among known ids have a cycle, and every report is a genuine one |

## Left out

- ResponseFormatting.FormattingIgnoresSensitiveData: states one direction for the text; `LinesKeptExactly` is the equivalence for the lines and `TextKeptExactly` that for texts that nothing is cut from. For other texts the converse fails, because the cuts at 32 lines and 1800 characters can hide a line that differs.
- MessageCodec.DecryptMsgInvertsEncryptMsg: time stamps and nonces that the XML template does not carry unchanged (markup in them) are excluded; for them no library reads the sealed text back, so the law without this condition was wrong.
- ResponseTelling.DifferentValuesDifferentTexts: states it for texts that need no cleaning; values that cleaning makes equal do give the same text.
- BindingOutcomes.BindAnswersExactly: assumes that the store's own time stamp is an identifier with a timezone, as `isoformat` of a UTC time is.
- BindingStore.LoadReturnsCommitted: cancellation of the thread behind `asyncio.to_thread` is excluded; the thread would outlive the call that holds the store's lock.
- ReplyQueues.EveryReplyCompletes: counts the steps of the worker; that the event loop eventually runs a worker that can move is assumed, not modelled.
- SetupCycles.ValidateSetupAutomationCycles: entries come parsed into a case target or something else; the text syntax of a setup entry is not modelled.
- SseStream.ChunkingIndependence: chunks are decoded text; the incremental UTF-8 decoder is not modelled, nor the JSON decoding of the data lines.
- SseEvents.CutInsideCrLfExactly: one cut inside a CR LF among any number of others; texts with several such cuts are covered by `DeliveredYields`, not by an exact condition.
- ReplyQueues.CompletableExactly: `asyncio.wait_for` as of Python 3.12, where a cancellation is never swallowed; in 3.11 a worker cancelled just as the awaited future completes could go on.
- ReplyQueues.RunKeepsOk: tables, futures and tasks are values numbered in the state of a step machine, and replies are numbered by queueing; what the frames contain is not modelled.
- BindingService.RunKeepsConsistent: the service's locks and calls are values of a step machine; a persist is one step that succeeds or raises, and `BindingPlugin` puts the store's persist in its place.
- GatewayLoop.ConnectGateway: a script of attempts is finite, and its end stands for the cancellation of the task between attempts.
- The gateway client's `_request`, a semaphore released in a `finally`; its HTTP errors and its message tables.
- The rest of `IDCQueryService.handle`: queries, help, the audit record and its texts; command parsing and the canonical form of addresses.
- Replacing a limiter when its configuration changes: limiter properties are per limiter.
- The validation of webhook signatures and payloads, the webhook counters, and the shutdown of webhook tasks.
- Heartbeats, delays between attempts and the callbacks' own exceptions in the gateway loop; sequence numbers are integers.
- The dispatch of incoming WebSocket frames other than acknowledgements, authentication, and the chunk cache that skips unchanged content.
- The fallback of a stream refresh to generated content outside the session, and the session's chat and user ids.
- `PKCS7Encoder.decode`, which decryption does not use; the second copy of the codec under `wecom_api`; `VerifyURL`, which is `DecryptMsg` on another field.
- File permissions, flushing to disk and temporary files.
- The other platform adapters, the web interface, the Box connector, plugins and pipelines.
