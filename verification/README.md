# A verified model of the OpenSearch Python client's core

This project models, in Dafny, the parts of the client that hold state, run a protocol or
transform a tree, and proves what they are for. `dafny verify dfyconfig.toml` checks it.

- **Connection pool.** `ConnectionPool.dfy` gives the pool as a value: the live list, the
  bounded queue of dead connections ordered by due time, and the failure counters.
  `PoolHistory.dfy` reasons about whole sequential runs, `PoolClasses.dfy` holds the pool and
  the round-robin selector as objects proved against that value, and `PoolThreads.dfy` cuts
  every method into its atomic list, dictionary and queue operations, for any number of
  threads. `PoolBalance.dfy` proves what every interleaving keeps, and `PoolGets.dfy` follows
  one call of a method among the threads.
- **Transport.** `Transport.dfy` is the recursive meaning of `set_connections`, sniffing and
  the retry loop, for an arbitrary stream of answers, clock readings and choices;
  `TransportClass.dfy` is the object with its loops, proved against it; `TransportRules.dfy` says
  what each kind of answer and sniff leads to, and `RetryNodes.dfy` which nodes the retries use.
- **Asynchronous transport.** `AsyncTransport.dfy` is a step machine over the awaits of
  `_async_init`, `_async_call`, `create_sniff_task` and `perform_request`; `AsyncSniff.dfy` is
  the wait loop of the parallel sniff.
- **gRPC transport.** `Grpc.dfy` holds the routing by URL, the error classes, the retry loop
  with reconnection and the fall back to the REST transport object.
- **URL paths and bulk bodies.** `Paths.dfy` (UTF-8, percent encoding, joining) and `Bulk.dfy`
  (the newline-delimited printer, the pairing parser, the message builder), on top of
  `Text.dfy`.
- **OpenAPI overlays.** `Json.dfy` is the document tree; `OverlayTargets.dfy`,
  `OverlayMerge.dfy`, `MergeHeap.dfy` (the in-place merge on heap objects), `OverlayFilter.dfy`,
  `OverlayPointers.dfy`, `Overlay.dfy`, `OverlayHeap.dfy` (the whole of `apply_overlay` on heap
  objects) and `OverlayBuild.dfy` follow the functions of the overlay engine up to the two
  documents that it builds.
- **API generator.** `SortGroup.dfy` (stable sort, grouping of neighbours), `ApiGen.dfy` and
  `ApiPartition.dfy` turn path/method entries into APIs and modules; `AliasNames.dfy` and
  `AliasParser.dfy` are the renaming around the parser that drops one namespace.

Exceptions are `Result` or `Option` values, or a constructor of the reply. Network answers,
clocks, shuffles, random picks, the JSON codec and thread or coroutine schedules are
parameters, so every statement holds for all of them.

## What was found

Where a natural statement is false of the code, the code is kept and the exact condition is
proved.

- With several threads, a connection handed out need not be live. A thread that runs its
  `get_connection` alone does what the sequential operation does, and its connection is live
  exactly when the live list or the queue had one at the start (`PoolGets.SoloGet`). In the
  other case any original connection can come out (`HandsOutDead`, reached in `AllInFlight`);
  and another thread can mark the chosen one dead before it is handed out (`MarkedBetween`).
- Retries end with the first decisive answer as long as every sniff that is due finds hosts and
  no sniff after a failure breaks off (`TransportSpec.DecidedBy`); otherwise the first sniff in
  the way decides (`StoppedBySniff`).
- A sniff of the asynchronous transport that is cancelled does not restore `last_sniff`,
  because `CancelledError` is not an `Exception`: cancelling its first wait is such an input,
  and without any cancellation every failure restores it (`AsyncSniff.Sniffer.GetSniffData`).
  A synchronous sniff whose answer lacks the node list, or leaves no viable host, is noticed
  only after `last_sniff` was reset (`TransportSpec.LastSniffKept`, with inputs in
  `SniffTooLate`).
- The bulk pattern ends in `$`, which also matches before a final newline; for such a URL the
  index is lost (`GrpcTransport.RoutedIndex`, both directions).
- The index extracted from a bulk URL is the percent-encoded one; it is the index itself
  exactly when quoting leaves all its characters alone (`Paths.BulkIndex`).
- A path with no part and a path with one part of zero bytes are the same
  (`Paths.PathInjective`, with an input in `NoPartLooksEmpty`); lists of non-empty strings are
  never confused.
- A bulk list reads back exactly when every delete has no source and every other operation
  has one, the last perhaps excepted (`Bulk.ReadsBack`).
- Merging two updates one after the other is not always merging their merge: it is exactly
  when the second update absorbs each mapping of the target that the first one replaced and the
  second brings back (`OverlayMerge.MergeAssoc`, with a failing input in `MergesDiffer`).
- Generated operation names are the specification's exactly when no group has a second dot
  after `ism.`, uses the alias as its namespace, or writes `__init__` before a dot
  (`AliasNames.AliasExact`, with three lost groups in `SomeAreLost`).
- One gRPC status, FAILED_PRECONDITION, is 400 when it fails a call and 412 when it fails an
  item of a bulk response (`GrpcTransport.ErrorClasses`).

Where the documentation and the code differ, the model follows the code: the pool's class
comment gives the timeout as `default_timeout * 2 ** (fail_count - 1)`, but the exponent is
capped by `timeout_cutoff` (opensearchpy/connection_pool.py:116, 196); `get_connection` is said
to return the fail count too, and does not (opensearchpy/connection_pool.py:269); a time of
`0.0` passed to `mark_dead` is replaced by the clock (opensearchpy/connection_pool.py:183).

## Model

| member | source | states |
|---|---|---|
| PoolSpec.EnqueueOrdered | opensearchpy/connection_pool.py:161 | the queue stays ordered by due time, ties by connection |
| PoolSpec.BackoffDoubles | opensearchpy/connection_pool.py:196 | the first rest is the timeout, each further failure doubles it, up to the cutoff |
| PoolSpec.AccountedRetire | opensearchpy/connection_pool.py:185-197 | removing a live connection and queueing it keeps live + dead = original |
| PoolSpec.AccountedRevive | opensearchpy/connection_pool.py:242-256 | popping the head and appending it keeps live + dead = original |
| PoolSpec.MarkDeadKeeps | opensearchpy/connection_pool.py:183-203 | mark_dead keeps every original connection once, and finds room in the bounded queue |
| PoolSpec.ResurrectKeeps | opensearchpy/connection_pool.py:218-258 | resurrect, forced or not, keeps every original connection once |
| PoolSpec.GetConnectionKeeps | opensearchpy/connection_pool.py:260-283 | get_connection keeps every original connection once |
| PoolSpec.GetConnectionIsLive | opensearchpy/connection_pool.py:260-283 | with one thread the connection handed out is live and original |
| PoolSpec.ResurrectUnforced | opensearchpy/connection_pool.py:230-258 | an unforced resurrect revives exactly when some due time has passed, and then the earliest entry; otherwise nothing changes |
| PoolSpec.ResurrectForced | opensearchpy/connection_pool.py:230-258 | a forced resurrect takes the earliest entry; on an empty queue it returns an original connection and changes nothing |
| PoolHistory.RunConserves | opensearchpy/connection_pool.py:175-283 | over every run each original connection is live or dead, once |
| PoolHistory.CountIsStreak | opensearchpy/connection_pool.py:194-216 | the counter is the number of effective mark_dead calls since the last mark_live |
| PoolHistory.NewEntry | opensearchpy/connection_pool.py:194-197 | only an effective mark_dead adds an entry, and with which due time |
| PoolHistory.DueTimes | opensearchpy/connection_pool.py:194-197 | every dead entry is due at its marking time plus timeout * 2^min(k-1, cutoff), k the streak at its last marking |
| PoolHistory.DeadIsNotLive | opensearchpy/connection_pool.py:175-203 | with distinct connections none is both live and dead |
| PoolHistory.Recovery | opensearchpy/connection_pool.py:260-283 | once all timeouts are over, n calls of get_connection bring back the n earliest dead connections |
| PoolClasses.RoundRobinSelector.Select | opensearchpy/connection_pool.py:93-96 | the thread's index moves to the next position, in range whatever the length is |
| PoolClasses.IndexWraps | opensearchpy/connection_pool.py:94-95 | an index beyond a list that has become shorter wraps around it |
| PoolClasses.OneTurn | opensearchpy/connection_pool.py:93-96 | m selections in a row go through the positions once, cyclically |
| PoolClasses.Fair | opensearchpy/connection_pool.py:93-96 | k turns over a list of length m pick every position exactly k times |
| PoolClasses.TurnsIsProduct | opensearchpy/connection_pool.py:93-96 | k turns are k * m selections |
| PoolClasses.SelectInTurn | opensearchpy/connection_pool.py:93-96 | threads sharing the selector, in any order: each gets the connections at the positions of its own turns |
| PoolClasses.ConnectionPool.constructor | opensearchpy/connection_pool.py:156-173 | all connections live, queue and counters empty |
| PoolClasses.ConnectionPool.Make | opensearchpy/connection_pool.py:152-155 | an empty list is refused, and only that |
| PoolClasses.ConnectionPool.MarkDead | opensearchpy/connection_pool.py:175-203 | the object's new fields are the value's mark_dead |
| PoolClasses.ConnectionPool.Retire | opensearchpy/connection_pool.py:193-203 | the part after the removal, with room in the queue |
| PoolClasses.ConnectionPool.MarkLive | opensearchpy/connection_pool.py:205-216 | the counter is forgotten, nothing else changes |
| PoolClasses.ConnectionPool.Resurrect | opensearchpy/connection_pool.py:218-258 | the object's new fields and result are the value's resurrect; a forced call returns a connection |
| PoolClasses.ConnectionPool.GetConnection | opensearchpy/connection_pool.py:260-283 | the object's new fields and result are the value's get_connection with the round-robin choice, and the thread's turn moves on exactly when there was a choice; live and original |
| PoolClasses.UseInTurn | opensearchpy/connection_pool.py:260-283 | with nothing dead, k requests for each of m live connections use every one exactly k times |
| PoolBalance.StepDoes | opensearchpy/connection_pool.py:183-203 | an atomic step moves at most one connection between the live list, the queue and its thread |
| PoolBalance.AdvanceKeeps | opensearchpy/connection_pool.py:175-283 | every step of every thread keeps the balance, the order of the queue and the facts each thread relies on |
| PoolBalance.Conservation | opensearchpy/connection_pool.py:157-162 | in every interleaving live + dead + in flight is the multiset of original connections, and what is handed out is original |
| PoolBalance.NeverBlocked | opensearchpy/connection_pool.py:161-202 | no put ever finds the bounded queue full |
| PoolGets.GetDelivers | opensearchpy/connection_pool.py:260-283 | a thread inside get_connection hands out a connection after at most nine of its own steps (three in the forced resurrect), whatever other threads do in between |
| PoolGets.SoloResurrect | opensearchpy/connection_pool.py:218-258 | resurrect run alone is the sequential operation, in at most four steps |
| PoolGets.SoloGet | opensearchpy/connection_pool.py:260-283 | get_connection run alone is the sequential operation, in at most ten steps; its connection is live exactly when the live list or the queue had one |
| PoolGets.SoloMarkDead | opensearchpy/connection_pool.py:183-203 | mark_dead run alone is the sequential operation, with its count and due time, in four steps, or one when the connection is not live |
| PoolGets.SoloMarkLive | opensearchpy/connection_pool.py:205-216 | mark_live is the sequential operation in one step |
| PoolGets.HandsOutDead | opensearchpy/connection_pool.py:230-283 | with everything in other threads' hands, get_connection can hand out any original connection |
| PoolGets.AllInFlight | opensearchpy/connection_pool.py:184-185 | one step of mark_dead reaches such a state |
| PoolGets.MarkedBetween | opensearchpy/connection_pool.py:272-283 | a schedule in which another thread marks the chosen connection dead before it is handed out |
| TransportSpec.ResponderIsAnswer | opensearchpy/transport.py:293-314 | sniffing takes the first connection, in live-then-seed order, that is not silent, and fails exactly when all are |
| TransportSpec.GoesOnTurn | opensearchpy/transport.py:414-457 | one turn of the loop is the next step of the recursive meaning |
| TransportSpec.LastSniffKept | opensearchpy/transport.py:286-364 | when a failed sniff keeps last_sniff |
| TransportSpec.SniffTooLate | opensearchpy/transport.py:288-364 | inputs for which it does not |
| TransportSpec.TurnDecided | opensearchpy/transport.py:414-470 | how one attempt ends, for every answer and every sniff before and after it |
| TransportSpec.SomeEnding | opensearchpy/transport.py:414-470 | some attempt ends the request |
| TransportSpec.EndsFirst | opensearchpy/transport.py:414-470 | the request ends as its first attempt that ends it, with so many tries |
| TransportSpec.DecidedBy | opensearchpy/transport.py:414-470 | with any sniffing that does not get in the way, the caller gets the first success or non-retryable failure, else the failure of the last attempt |
| TransportSpec.StoppedBySniff | opensearchpy/transport.py:269-271 | otherwise the first sniff in the way decides: its error when it was due, its exception when it followed a failure |
| TransportSpec.NeverFallsOff | opensearchpy/transport.py:414 | the loop ends without a reply only when it makes no attempt at all |
| TransportSpec.TurnUsable | opensearchpy/transport.py:264-272 | a pool stays a pool through sniffing and failures |
| TransportRules.Raises | opensearchpy/transport.py:433-457 | statuses outside retry_on_status, missing ones, and timeouts not retried are raised after one try |
| TransportRules.Retries | opensearchpy/transport.py:437-457 | statuses in retry_on_status, retried timeouts and other connection errors lead to the next attempt, or on the last one to the caller |
| TransportRules.Returns | opensearchpy/transport.py:434-470 | what HEAD and other requests return, for each status and payload |
| TransportRules.LeavesPool | opensearchpy/transport.py:433-461 | a success forgets the connection's failures, a retried failure marks it dead, anything else leaves the pool |
| TransportRules.LeavesPoolSniffing | opensearchpy/transport.py:366-376 | the same when a failure starts a sniff: marked dead first, and a new pool only from hosts found |
| TransportRules.SniffInstalls | opensearchpy/transport.py:343-364 | a sniff makes the pool from all hosts of the first answer, in order, known ones keeping their connection, with the configured timeouts; any other sniff changes no connection |
| TransportRules.SniffsWhenDue | opensearchpy/transport.py:264-272 | a sniff comes before an attempt exactly when the timeout is set and over |
| RetryNodes.AttemptRests | opensearchpy/transport.py:414-457 | a tried connection is chosen again only by force, and after failing it rests with the others |
| RetryNodes.ShortestIsTimeout | opensearchpy/connection_pool.py:196 | the shortest rest is the timeout |
| RetryNodes.RetriesElsewhere | opensearchpy/transport.py:414-457 | within a request a connection already tried is tried again only when the live list is empty after the unforced resurrect |
| RetryNodes.UnforcedWhileLive | opensearchpy/connection_pool.py:271-283 | while live connections remain no attempt is forced |
| RetryNodes.FirstTriesDistinct | opensearchpy/transport.py:414-457 | with all n live at the start, the first min(n, max_retries + 1) attempts use distinct connections |
| RetryNodes.ConnectReuses | opensearchpy/transport.py:239-255 | a known host keeps its connection, any other gets a new one |
| RetryNodes.ConnectDistinct | opensearchpy/transport.py:239-255 | distinct hosts get distinct connections |
| RetryNodes.NewPoolSound | opensearchpy/transport.py:229-262 | the pool that replaces the old one has the given hosts' connections, all live and distinct |
| TransportClass.Transport.constructor | opensearchpy/transport.py:194-212 | the first pool is sound and its connections are the seeds; no hosts, no pool |
| TransportClass.Transport.Create | opensearchpy/transport.py:98-218 | with sniff_on_start the construction succeeds exactly when the first sniff finds hosts, and then there is a pool |
| TransportClass.Transport.GetSniffData | opensearchpy/transport.py:286-320 | the loop returns the first responder; last_sniff is kept when none answers or an error escapes |
| TransportClass.Transport.SetConnections | opensearchpy/transport.py:229-262 | the object's pool, options and identities after replacing the hosts |
| TransportClass.Transport.SniffHosts | opensearchpy/transport.py:343-364 | the object's state and reply are the value's sniff_hosts |
| TransportClass.Transport.GetConnection | opensearchpy/transport.py:264-272 | a due sniff comes first, and its error reaches the caller |
| TransportClass.Transport.MarkDead | opensearchpy/transport.py:366-376 | the failure is recorded before the sniff, whatever the sniff does |
| TransportClass.Transport.Attempt | opensearchpy/transport.py:415-470 | one turn of the loop on the object |
| TransportClass.Transport.PerformRequest | opensearchpy/transport.py:378-470 | the loop refines the recursive meaning: state, reply and tries |
| AsyncTransport.StepKeeps | opensearchpy/_async/transport.py:153-214 | the start-up invariant is kept by every step of every coroutine and task |
| AsyncTransport.StartUp | opensearchpy/_async/transport.py:153-214 | _async_init is entered at most once, no connection is taken before the real pool is set and the first sniff is over, at most one sniff is unfinished |
| AsyncTransport.GateOpens | opensearchpy/_async/transport.py:186-193 | a closed gate with no sniff running is opened by the next step of some coroutine |
| AsyncTransport.CreateKeeps | opensearchpy/_async/transport.py:319-333 | create_sniff_task makes a new one only when none is unfinished |
| AsyncTransport.CreateMakes | opensearchpy/_async/transport.py:319-333 | when create_sniff_task makes a new one, and which finished one it raises and forgets |
| AsyncTransport.FirstCall | opensearchpy/_async/transport.py:153-214 | the first call sets the pool up and closes the gate, or sends at once |
| AsyncTransport.PastTheGate | opensearchpy/_async/transport.py:186-214 | which calls go on after the first sniff, and which end with a sniff's error |
| AsyncTransport.AnswerEnds | opensearchpy/_async/transport.py:387-429 | how a call goes on or ends after each answer |
| AsyncTransport.AfterAnswerKeeps | opensearchpy/_async/transport.py:387-429 | a retry after a failed answer keeps the start-up invariant |
| AsyncSniff.AskedOnce | opensearchpy/_async/transport.py:245-252 | each live or seed connection is asked exactly once |
| AsyncSniff.Requests | opensearchpy/_async/transport.py:245-252 | the loops that make the requests |
| AsyncSniff.Collect | opensearchpy/_async/transport.py:263-278 | looking through the finished requests in any order finds one that is not silent, if there is one |
| AsyncSniff.Sniffer.GetSniffData | opensearchpy/_async/transport.py:229-289 | data only from a request that answered; unable to sniff only if all were silent; when last_sniff is restored; every request finished or cancelled |
| GrpcTransport.ErrorClasses | opensearch_grpc/grpc_transport.py:251-314 | an error with an HTTP status has the class that the REST client raises for it; where the two status tables differ |
| GrpcTransport.ErrorKinds | opensearch_grpc/grpc_transport.py:251-314 | exactly which codes give which class and status |
| GrpcTransport.ItemStatuses | opensearch_grpc/translation.py:478-497 | exactly which codes of bulk items give which status |
| GrpcTransport.TakesExactly | opensearch_grpc/grpc_transport.py:156-171 | exactly the POST and PUT requests to the two bulk URLs go to gRPC |
| GrpcTransport.ExtractsIndex | opensearch_grpc/grpc_transport.py:316-321 | an index in front of the endpoint is extracted |
| GrpcTransport.RoutedIndex | opensearch_grpc/grpc_transport.py:156-171 | for every URL taken by gRPC, when the extracted index is the matched one |
| GrpcTransport.GrpcTransport.ReconnectChannel | opensearch_grpc/grpc_transport.py:337-351 | the channel in use is a new open one, and every channel used before is closed |
| GrpcTransport.GrpcTransport.EnsureChannelConnected | opensearch_grpc/grpc_transport.py:323-335 | afterwards the channel is open; it is replaced only if it had been shut down |
| GrpcTransport.GrpcTransport.TryGrpc | opensearch_grpc/grpc_transport.py:117-141 | one turn of the loop: how it ends, and at most one new channel |
| GrpcTransport.GrpcTransport.CallGrpc | opensearch_grpc/grpc_transport.py:111-143 | the loop refines the recursive gRPC phase; all calls go over open channels, and only the last channel stays open |
| GrpcTransport.GrpcTransport.PerformRequest | opensearch_grpc/grpc_transport.py:95-153 | REST is reached exactly when gRPC does not take the request or falls back; otherwise the REST transport is untouched |
| GrpcTransport.PhaseDecided | opensearch_grpc/grpc_transport.py:117-141 | the phase ends with the first answer that is not retried |
| GrpcTransport.CodeDecides | opensearch_grpc/grpc_transport.py:117-141 | what one call does, code by code: again, to REST, or raised |
| GrpcTransport.FallsBackExactly | opensearch_grpc/grpc_transport.py:117-141 | the phase falls back exactly when its last call timed out or found the server unreachable; any other error is raised |
| GrpcTransport.TriesBounded | opensearchpy/transport.py:414 | a request makes at most max_retries + 1 tries |
| GrpcTransport.SendsBounded | opensearch_grpc/grpc_transport.py:111-153 | one bulk request is sent at most 2 * (max_retries + 1) times over both protocols |
| Paths.Utf8Injective | opensearchpy/client/utils.py:106-114 | different strings have different encodings |
| Paths.UnquoteQuote | opensearchpy/client/utils.py:126-128 | percent decoding undoes quoting, and no slash is left |
| Paths.PathDecodes | opensearchpy/client/utils.py:117-128 | splitting a path and decoding it gives back the kept parts in order |
| Paths.PartsKept | opensearchpy/client/utils.py:117-128 | which parts are dropped, and what a list becomes |
| Paths.FlagShown | opensearchpy/client/utils.py:96-103 | truth values are written in lower case |
| Paths.PlainExactly | opensearchpy/client/utils.py:126-128 | the characters that stay as they are |
| Paths.PathInjective | opensearchpy/client/utils.py:117-128 | when two part lists give the same path |
| Paths.NoPartLooksEmpty | opensearchpy/client/utils.py:117-128 | two lists with the same path |
| Paths.WordsInjective | opensearchpy/client/utils.py:117-128 | lists of non-empty strings have different paths |
| Paths.QuoteIdentity | opensearchpy/client/utils.py:126-128 | quoting changes a text exactly when some character is not plain |
| Paths.BulkIndex | opensearch_grpc/grpc_transport.py:156-181 | the bulk URL of an index goes to gRPC; the extracted index is the quoted one, the index itself exactly when all characters are plain |
| Paths.BulkNoIndex | opensearch_grpc/grpc_transport.py:156-181 | without an index the bulk URL goes to gRPC with none |
| Bulk.ReadsBack | opensearch_grpc/translation.py:310-322 | reading a flattened list gives the operations back exactly for well-formed ones (the last may lack its source) |
| Bulk.WritesBack | opensearch_grpc/translation.py:310-322 | flattening what was read gives the list back |
| Bulk.BulkBodySplits | opensearchpy/client/utils.py:183-195 | the printed text splits into its lines and one empty one |
| Bulk.TextIsList | opensearch_grpc/translation.py:306-324 | reading the printed text of any list of objects is reading the list |
| Bulk.TextMeans | opensearch_grpc/translation.py:306-308 | white space around lines and blank lines anywhere make no difference |
| Bulk.RoundTrip | opensearch_grpc/translation.py:306-324 | parsing the printed operations yields exactly those operations in order |
| Bulk.BodySays | opensearch_grpc/translation.py:523-629 | which operations have a body, for dictionary, text, list and other metadata and whatever the message classes take; and that it says their kind, document and known metadata |
| Bulk.FieldsPick | opensearch_grpc/translation.py:523-629 | the membership tests and look-ups succeed exactly when the value passes, and give its known keys |
| Bulk.KnownNames | opensearch_grpc/translation.py:523-662 | the operation names, and which kinds know which keys |
| Bulk.FieldTaken | opensearch_grpc/translation.py:514-638 | which single values are taken |
| Bulk.BulkRequestProtoBuilder.ReadItems | opensearch_grpc/translation.py:310-322 | the index loop appends what the recursive reading gives |
| Bulk.BulkRequestProtoBuilder.Build | opensearch_grpc/translation.py:258-271 | one body per operation, in order; the first failing one stops it |
| Bulk.HandleBulk | opensearch_grpc/grpc_transport.py:175-201 | from operations through the text to the message: it fails only for operations no builder takes, and body i says what operation i says |
| Json.AtSplit | aws_client_codegen/api_spec/overlay.py:62-69 | following two chains of keys one after the other |
| Json.AtPut | aws_client_codegen/api_spec/overlay.py:62-69 | what replacing a node does to every key path |
| OverlayTargets.SegmentEnd | aws_client_codegen/api_spec/overlay.py:37-40 | the inner loop finds the end of a dotted segment |
| OverlayTargets.NextKey | aws_client_codegen/api_spec/overlay.py:36-57 | one turn yields the next key and moves strictly on |
| OverlayTargets.ParseTarget | aws_client_codegen/api_spec/overlay.py:29-59 | the cursor loop computes the recursive meaning, errors included |
| OverlayTargets.ShowsParsed | aws_client_codegen/api_spec/overlay.py:29-59 | every accepted text is a printed form of its keys |
| OverlayTargets.PrintThenParse | aws_client_codegen/api_spec/overlay.py:29-59 | parsing undoes printing in any mix of the two forms |
| OverlayTargets.ParseThenPrint | aws_client_codegen/api_spec/overlay.py:29-59 | the accepted targets are exactly the printed ones |
| OverlayTargets.NoDollarExactly | aws_client_codegen/api_spec/overlay.py:31-32 | a missing dollar sign is refused, and nothing else as that |
| OverlayTargets.TargetErrors | aws_client_codegen/api_spec/overlay.py:41-57 | after good segments, the first thing that goes wrong is the error |
| OverlayMerge.MergePaths | aws_client_codegen/api_spec/overlay.py:72-78 | what a merge leaves at every key path |
| OverlayMerge.PathLost | aws_client_codegen/api_spec/overlay.py:72-78 | a key path of the target is lost exactly when the update puts a non-mapping at a non-empty proper prefix of it |
| OverlayMerge.UpdateArrives | aws_client_codegen/api_spec/overlay.py:72-78 | every non-mapping value of the update is found at its path |
| OverlayMerge.MergeIdempotent | aws_client_codegen/api_spec/overlay.py:72-78 | merging the same update twice changes nothing more |
| OverlayMerge.MergeAbsorbed | aws_client_codegen/api_spec/overlay.py:72-78 | a merge gives the update itself exactly when the update absorbs the target |
| OverlayMerge.MergeAssoc | aws_client_codegen/api_spec/overlay.py:72-78 | two updates in a row are their merge exactly when they agree |
| OverlayMerge.MergesDiffer | aws_client_codegen/api_spec/overlay.py:72-78 | an input for which they differ |
| MergeHeap.DeepCopy | aws_client_codegen/api_spec/overlay.py:78 | a copy is made of new objects only and stands for the same document |
| MergeHeap.MergeKey | aws_client_codegen/api_spec/overlay.py:74-78 | one turn of the loop changes the one key and keeps the target a tree |
| MergeHeap.MergeEntries | aws_client_codegen/api_spec/overlay.py:72-78 | the loop computes the recursive merge in place |
| MergeHeap.MergeInto | aws_client_codegen/api_spec/overlay.py:72-78 | the target becomes the merge, made of its own and of new objects |
| MergeHeap.DeepMerge | aws_client_codegen/api_spec/overlay.py:72-78 | on disjoint trees the target becomes the merge, the update is unchanged, and no object is shared |
| MergeHeap.MergeOneMore | aws_client_codegen/api_spec/overlay.py:74-78 | the recursive merge taken one key at a time, in any order |
| OverlayFilter.FilterPaths | aws_client_codegen/api_spec/overlay.py:136-161 | a key chain resolves after filtering exactly when it resolved and no mapping on it, root included, excludes the distribution |
| OverlayFilter.KeptFor | aws_client_codegen/api_spec/overlay.py:138-144 | a mapping is kept exactly when its two lists admit the distribution |
| OverlayFilter.ListOrder | aws_client_codegen/api_spec/overlay.py:153-159 | kept list elements stay in order and none is invented |
| OverlayFilter.FilterIsClean | aws_client_codegen/api_spec/overlay.py:136-161 | no excluding mapping remains anywhere |
| OverlayFilter.FilterSettles | aws_client_codegen/api_spec/overlay.py:136-161 | filtering again changes nothing, and a document is unchanged exactly when nothing in it excludes |
| OverlayPointers.UnescapeEscape | aws_client_codegen/api_spec/overlay.py:177-178 | unescaping undoes escaping, and an escaped key has no slash |
| OverlayPointers.PointerResolves | aws_client_codegen/api_spec/overlay.py:174-181 | the pointer of a key chain resolves exactly when the chain does, and names no other chain |
| OverlayPointers.ResolvePointer | aws_client_codegen/api_spec/overlay.py:174-181 | the loop over the split reference |
| OverlayPointers.ReferencesMeans | aws_client_codegen/api_spec/overlay.py:188-199 | the references collected are exactly those that some mapping holds at any depth |
| OverlayPointers.OwnReferences | aws_client_codegen/api_spec/overlay.py:190-192 | exactly the texts that start with #/ count |
| OverlayPointers.ReferenceCollector.Visit | aws_client_codegen/api_spec/overlay.py:188-197 | the recursive visit adds exactly the value's references to the set |
| OverlayPointers.ValidateLocalReferences | aws_client_codegen/api_spec/overlay.py:184-202 | succeeds exactly when every reference resolves, with their number; else names the first in sorted order that dangles |
| Overlay.ActionPaths | aws_client_codegen/api_spec/overlay.py:90-110 | what one action does to every key path |
| Overlay.OverlayPaths | aws_client_codegen/api_spec/overlay.py:90-112 | over a whole overlay a key path resolves as the last action that concerns it says |
| Overlay.AdditiveKeeps | aws_client_codegen/api_spec/overlay.py:115-133 | an additive overlay loses a path exactly when an update cuts it and no later one has it |
| Overlay.AdditiveWithoutRemovals | aws_client_codegen/api_spec/overlay.py:115-133 | without removals the additive and the plain reading agree |
| Overlay.WithoutRemovalsMerge | aws_client_codegen/api_spec/overlay.py:125-131 | what is left to apply is updates with mappings only |
| Overlay.AdditiveAccepts | aws_client_codegen/api_spec/overlay.py:124-131 | exactly which actions are accepted |
| Overlay.AdditiveActions | aws_client_codegen/api_spec/overlay.py:124-132 | what is kept, one action at a time and in order |
| Overlay.Refusals | aws_client_codegen/api_spec/overlay.py:83-110 | when an action is neither an update nor a removal, and when the version is refused |
| Overlay.ActionErrors | aws_client_codegen/api_spec/overlay.py:62-108 | exactly when an update or a removal is refused, and with which error |
| Overlay.GetNode | aws_client_codegen/api_spec/overlay.py:62-69 | the loop follows the keys through mappings |
| Overlay.KeepUpdates | aws_client_codegen/api_spec/overlay.py:124-131 | the loop keeps all actions but the removals, or names the first refused |
| Overlay.Document.Act | aws_client_codegen/api_spec/overlay.py:91-110 | one action on the document; a refused one leaves it alone |
| Overlay.Document.Update | aws_client_codegen/api_spec/overlay.py:96-101 | an update action on the document as a value, with its errors |
| Overlay.Document.Remove | aws_client_codegen/api_spec/overlay.py:102-108 | a removal, with its errors |
| Overlay.Document.ApplyOverlay | aws_client_codegen/api_spec/overlay.py:81-112 | the document ends as far as the actions went, also when one is refused |
| Overlay.Document.ApplyAdditiveOverlay | aws_client_codegen/api_spec/overlay.py:115-133 | the same actions with the removals deleted |
| OverlayHeap.UpdateAt | aws_client_codegen/api_spec/overlay.py:96-101 | an update action in place on heap objects is the one on values |
| OverlayHeap.RemoveAt | aws_client_codegen/api_spec/overlay.py:102-108 | a removal in place on heap objects is the one on values |
| OverlayHeap.Act | aws_client_codegen/api_spec/overlay.py:91-110 | one action read from the overlay's objects |
| OverlayHeap.ApplyActions | aws_client_codegen/api_spec/overlay.py:90-110 | the loop: the document ends as far as the actions went, made of its own and of new objects only |
| OverlayHeap.ApplyOverlay | aws_client_codegen/api_spec/overlay.py:81-112 | in place on heap objects it is the overlay on values; document and overlay share nothing afterwards, and the overlay is unchanged |
| OverlayBuild.RemoveEmptyPaths | aws_client_codegen/api_spec/overlay.py:164-171 | keeps exactly the path items with an HTTP method, and where it raises |
| OverlayBuild.OperationMeans | aws_client_codegen/api_spec/overlay.py:16-25 | the eight methods that make an operation |
| OverlayBuild.OperationInList | aws_client_codegen/api_spec/overlay.py:167-171 | a path item that is a list, a text or a number |
| OverlayBuild.BuildRefusals | aws_client_codegen/api_spec/overlay.py:205-221 | when the build stops before any overlay |
| OverlayBuild.DistributionPaths | aws_client_codegen/api_spec/overlay.py:214-230 | which key paths a distribution's document has |
| OverlayBuild.DistributionIsClean | aws_client_codegen/api_spec/overlay.py:214-230 | nothing in it excludes the distribution and every path item has an operation |
| OverlayBuild.BuildDistribution | aws_client_codegen/api_spec/overlay.py:214-230 | the document is returned exactly when all its references resolve, with every other error |
| OverlayBuild.UnionKeeps | aws_client_codegen/api_spec/overlay.py:233-244 | the union loses a path of the base exactly when an update of either overlay cuts it and no later one has it |
| OverlayBuild.BuildUnified | aws_client_codegen/api_spec/overlay.py:233-244 | the union is returned exactly when all its references resolve |
| StringOrder.First | aws_client_codegen/api_spec/overlay.py:200 | the first string of a sorted set |
| StringOrder.LeMeans | aws_client_codegen/api_spec/overlay.py:200 | the order of strings is that of the code points at the first difference |
| SortGroup.SortByStable | utils/generate_api.py:788 | sorting leaves elements with equal keys in their order |
| SortGroup.OneStableSort | utils/generate_api.py:788 | there is only one stable sort |
| SortGroup.GroupByExact | utils/generate_api.py:791 | grouping neighbours gathers everything once equal keys stand together |
| SortGroup.GroupsAscend | utils/generate_api.py:788-791 | groups of a sorted list have strictly ascending keys |
| ApiGen.CollectEndpoints | utils/generate_api.py:662-672 | the nested loops collect the endpoints not skipped, in file order |
| ApiGen.GroupPaths | utils/generate_api.py:806-894 | the inner grouping lists each path with its methods |
| ApiGen.AddApi | utils/generate_api.py:908-911 | the API goes to its namespace's module, a new one if there is none |
| ApiGen.ReadModules | utils/generate_api.py:647-913 | the whole loop computes the modules of the sorted groups |
| ApiPartition.EndpointBlocks | utils/generate_api.py:664-672 | in file order the endpoints of one path stand together |
| ApiPartition.EndpointsMeans | utils/generate_api.py:664-672 | exactly the endpoints of the spec, but the deprecated hot_threads ones, are collected |
| ApiPartition.GroupsInFileOrder | utils/generate_api.py:788-791 | a group has all its endpoints, in file order |
| ApiPartition.MethodsMeans | utils/generate_api.py:811-814 | the methods of a path are those of its endpoints, one by one, in capitals |
| ApiPartition.ApiListsExactly | utils/generate_api.py:809-894 | an API has each path once, with the methods of all its endpoints in file order, so that each is found by path and method |
| ApiPartition.ApisPartition | utils/generate_api.py:788-911 | one API per operation group outside the dropped namespace, listing exactly its endpoints |
| ApiPartition.ModulesHouse | utils/generate_api.py:908-911 | one module per namespace, holding that namespace's APIs in order |
| ApiPartition.ReadModulesPartitions | utils/generate_api.py:647-913 | every endpoint not skipped lands in exactly one API, and every API in one module |
| ApiPartition.EndpointLands | utils/generate_api.py:647-913 | every endpoint of the spec outside the dropped namespace is listed by the one API of its group |
| AliasNames.OutBack | aws_client_codegen/generate_aos_api.py:161-181 | a surviving group comes back under its own name |
| AliasNames.OutNever | aws_client_codegen/generate_aos_api.py:161-181 | a group that does not survive is printed for no group at all |
| AliasNames.SomeAreLost | aws_client_codegen/generate_aos_api.py:69-207 | three groups that are lost |
| AliasNames.UnaliasNames | aws_client_codegen/generate_aos_api.py:173-181 | renaming the module back renames its operations and no others |
| AliasNames.ParsedNames | aws_client_codegen/generate_aos_api.py:201-207 | the printed names are those of the parsed groups, once each |
| AliasNames.AliasExact | aws_client_codegen/generate_aos_api.py:145-223 | operation_names equals spec_operation_names, as lists and as sets, exactly when every group survives |
| AliasParser.AliasGroups | aws_client_codegen/generate_aos_api.py:153-166 | the nested loops rewrite the groups of the parser's copy |
| AliasParser.ParseModules | aws_client_codegen/generate_aos_api.py:145-183 | alias, parse, rename back |
| AliasParser.CollectGroups | aws_client_codegen/generate_aos_api.py:212-222 | the nested loops that fill the set of groups, and where they raise |
| AliasParser.SpecOperationNames | aws_client_codegen/generate_aos_api.py:210-223 | the sorted list of the set of groups |

## Left out

- Sharing between the pool object and the transport object: the transport holds the pool as a
  value, and `PoolClasses` ties the pool object to that value.
- The internals of the priority queue, of JSON, YAML and Protobuf, of `sorted` and `groupby`:
  an ordered list, a lawful codec, a stable sort. Ties in the queue are broken by identity.
- Connection identities are never reused; `list.remove` is one atomic step.
- Failure counters under threads: any count may be read or stored, so nothing is said about them
  in `PoolThreads` (a reset can fall between the read and the write).
- RetryNodes.FirstTriesDistinct: is for one thread, without sniffing, while less than the shortest
  rest passes; a longer request can meet a connection again because its rest is over.
- `_resolve_request_args`, header lower-casing, metrics, logging and `close`; a gRPC channel is
  taken to close when asked to, and to know its state.
- AsyncTransport.StartUp: holds before `close`, and when connections can be created; cancelling a
  coroutine that awaits the first sniff cancels that sniff at once.
- The closing of replaced connections in the asynchronous `sniff_hosts`.
- Bulk.BulkRequestProtoBuilder.Build: does not fill the request's own fields (index, refresh,
  timeout, pipeline, routing and the like), which are copied when given; which values the
  message classes take is a parameter.
- The mapping of `version_type` and `op_type` to enumerations, bulk bodies given as bytes, actions
  that are lists, the builder's fluent methods, and the conversion of responses: field copying.
- Streaming over gRPC, the generated clients, sockets, TLS and channels.
- Bulk.HandleBulk: takes well-formed operations as its input; other lists are covered by `ReadsBack`
  and `WritesBack`.
- Dates and lone surrogates as path parts; any other value is its text.
- Overlay documents are trees with string keys: YAML aliases that share nodes, other key types
  and the order of keys are not modelled.
- Overlay.Document.Update: replaces the node in a document held as a value; the in-place form is
  `OverlayHeap.UpdateAt`, which descends by recursion where the source has a loop.
- MergeHeap.DeepMerge: takes trees without common objects, as loading two YAML files without
  aliases gives.
- ApiGen.ReadModules: does not model parameters, descriptions, bodies, deprecation messages,
  override files and the plugin flag; operation groups that are neither text nor missing;
  methods outside ASCII.
- `extract_enum_options`, the properties of `API` that only format, `validate_parser_input`, and
  the required and forbidden operations that `validate_modules` looks up in a configuration.
- AliasNames.AliasExact: is for specifications whose path items hold only operations with a group;
  other entries make the parser or the comparison raise, or are read by only one of the two.
- Modules and APIs are values, so a module renamed in place is a new value.
- Rendering, formatting, writing files and directory comparison.
