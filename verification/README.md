# JSON-RPC 3.0: a verified model

The library lets two programs call each other's objects over one connection, in
several languages. This project models the parts of its Go and TypeScript
implementations in which calls, references and sessions are kept apart, and
proves what they promise each other. `dafny verify dfyconfig.toml` checks it.

- **Batch pipelining** (`GoHandler`, `TsHandler`, `Alignment`, `Pipeline`, `TsBatch`). A
  batch (section 6 of the JSON-RPC 2.0 Specification) may address a call to the
  result of an earlier one by writing `\k`. One message then replaces "call,
  wait, use the reference that came back, call again". The main theorem says
  that the replacement preserves results and state for every builder program.
  Go indexes a list from which silent notifications (section 4.1 of the same
  specification) are missing; TypeScript indexes by request position; the two
  are related exactly.
- **References** (`Values`, `Sessions`, `ResultWalk`, `GoRefWalk`, `Agreement`,
  `Protocol`). Every object in a result is registered under a fresh id and
  replaced by `{"$ref": id}`. The walk is invertible, the Go form over slices and
  maps that are copied only on change refines the plain one, both ends agree on
  which ids exist, and every registration is disposed exactly once.
- **Two peers, one stream** (`PeerProtocol`, `PeerRuns`, `GoPeer`, `PeerClose`,
  `ReadLoop`, `TsReadLoop`). Both ends number their calls from one, handlers
  finish in any order and may call back. A step relation with queues, links and
  handlers carries the safety, conservation and progress theorems; the Go
  object's methods and loops are tied to its steps. Closing is modelled on the
  TypeScript peer, whose synchronous stretches are atomic.
- **Around them** (`Text`, `Framing`, `Http2Registry`, `Expiry`, `Tokenizer`).
  Number texts and 64-bit limits, newline framing under any chunking, one
  connection per HTTP/2 session, expiry of idle sessions, the shell's tokenizer.

Method bodies of the application are an arbitrary deterministic transformer of
its own state and of the session. Codecs are left opaque: a value tree stands for
its JSON text, `Absent` for Go's nil result and JavaScript's undefined.

## Where the code does less than its documentation suggests

Each of these is proved of the code as it is, with the exact condition under
which the expected property does hold.

- `parseBatchLocalRef` wraps around: the text of k + 2^64 names request k
  (`Text.OverflowAliases`); printing and parsing are inverse exactly below 2^63.
- Go's `\k` names request k exactly as long as no request up to k is a notification
  that succeeds (`GoHandler.ShiftedReferences`, `GoHandler.SilentExactly`);
  `GoHandler.ShiftHappens` is a batch where it does not.
- A malformed reference is reported under the wrong error code exactly when its own
  text contains "is not a reference" (`GoHandler.FormatErrorMisfiled`).
- A nil result is left out of its message, which is then no response; in a batch
  it costs the client the whole reply (`Pipeline.LostIffNil`,
  `ReadLoop.RoundTrips`).
- A call without a method name is no request on the wire, and spoils the batch it
  is part of (`Pipeline.NamelessCallSpoils`).
- The Go HTTP client prints the numbers it draws as integers and those it decodes
  from JSON as floating point: from its millionth request on, the responses of a
  batch are received and never handed on, and below that always
  (`Alignment.HttpAlignment`, `Pipeline.PipeliningOverHttp`;
  `Alignment.MillionthIsLost` is the first case).
- `executeBatch` over a TypeScript peer aligns results where it expects responses:
  a call has an entry exactly when some result is a record that itself carries the
  call's id, and one failed or null result makes the whole batch throw
  (`TsBatch.PeerBatchLosesResults`, `TsBatch.PipeliningOverPeer`).
- A TypeScript peer's connection ends by a reply with an undefined result, and by a
  Go reply with a nil id, such as the one to a notification that fails
  (`TsReadLoop.ReplyEndsConnection`, `TsReadLoop.FailedNotificationEnds`).
- A result that names the empty reference is resolved differently by the two
  servers, with the exact condition in `TsHandler.EmptyReferenceDiverges`.
- The TypeScript server registers the objects in a notification's result, though
  nobody is told their ids; the servers' states then differ exactly when there is
  an object (`TsHandler.NotificationsRegister`).
- A message set in which every message is a response and some, but not all, are
  requests as well leaves those requests unanswered (`ReadLoop.AnsweredOnce`);
  the TypeScript peer drops every mixture of requests and responses
  (`TsReadLoop.AnsweredOnce`), and answers single notifications
  (`TsReadLoop.NotificationsAnswered`).
- A promise of the TypeScript peer stays open for ever exactly when its id is put
  to use again while it waits (`PeerClose.CloseSettlesAll`).
- A line that is not JSON swallows the messages completed by the same chunk
  (`Framing.BadLineSwallows`, `Framing.ChunkingMatters`).
- Finding an HTTP/2 session and attaching to it are separate steps: two
  connections can stay live on one session, and a connection can attach to a
  deleted session, which nothing but the connection's own end closes afterwards
  (`Http2Registry.TwoAttachBoth`, `Http2Registry.StrayForEver`).
- An HTTP/2 session expires by the time of its last connect, however busy its
  connection is (`Http2Registry.BusyConnectionExpires`).
- References written by hand into a result, or registered by hand under an id of
  the generated form, are exactly what can spoil the walk's inverse and the
  freshness of generated ids (`ResultWalk.WalkInvertible`,
  `Sessions.FreshnessKept`).

## Model

| member | source | states |
|---|---|---|
| Text.ParseBatchLocalRef | go/jsonrpc3/handler.go:186-201 | the digit loop, each sum wrapped to 64 bits, reads the decimal value modulo 2^64 into the signed range, and nothing on any other text |
| Text.LocalRefRoundTrip | go/jsonrpc3/batch.go:80 | parsing inverts printing an index if and only if it is below 2^63 |
| Text.NoOverflowAtAnyStep | go/jsonrpc3/handler.go:192-198 | on the text of an index below 2^63 no intermediate sum of the loop overflows |
| Text.OverflowAliases | go/jsonrpc3/handler.go:193-200 | the text of k + 2^64 is read as k |
| Text.ReadsExactly | go/jsonrpc3/handler.go:186-201 | read is exactly a backslash followed by digits only; none count as zero, zeros in front for nothing |
| Text.TrimIs | ts/src/stream-decoder.ts:27 | trimming takes all white space off both ends and nothing else |
| Text.MintInjective | go/jsonrpc3/session.go:73-76 | generated reference ids with different counter values differ |
| Text.SessionAndConnectionIdsDiffer | go/jsonrpc3/peer.go:229-236 | an id minted by a session never equals one minted by a connection, whatever four hex digits it drew |
| Text.CountedIdsDistinct | go/jsonrpc3/peer.go:141-143 | call numbers converted to 64-bit floating point stay pairwise distinct if and only if at most 2^53 are issued |
| Text.Float64Nearest | go/jsonrpc3/peer.go:141-143 | the conversion gives a representable number at most half a step away |
| Text.FloatTextParts | go/jsonrpc3/http_client.go:618-636 | from one million on the text is the first digit, the others without the zeros at the end, and the count of the others as exponent |
| Text.FloatTextMeets | go/jsonrpc3/http_client.go:618-636 | the `%v` text of the floating-point number decoded from m is the text of the integer n if and only if m is n and below one million |
| Values.GoReads | go/jsonrpc3/handler.go:236-240 | Go takes a record for a reference to s if and only if the text s stands under its key `$ref`, whatever else is in it |
| Values.TsReads | ts/src/types.ts:26-34 | TypeScript takes exactly the record with the one key `$ref` and the text s for one |
| Values.OnlyRecordsRefer | go/jsonrpc3/handler.go:228-240 | nothing but a record is a reference to either |
| Values.RefReadings | ts/src/types.ts:26-34 | the two tests differ on a record if and only if a text stands under `$ref` and there is another key |
| Values.RestoreFill | ts/src/handler.ts:185-219 | putting the bound objects back undoes replacing objects by references, if and only if no hand-written reference has a bound name |
| Values.FillRefs | ts/src/handler.ts:185-219 | replacing leaves no object behind and adds exactly the given references |
| Sessions.Session.constructor | go/jsonrpc3/session.go:53-60 | a new session has empty tables, and every id it can generate is free |
| Sessions.Session.GenerateRefID | go/jsonrpc3/session.go:73-76 | the counter goes up by one and the id is minted from it |
| Sessions.Session.AddLocalRef | go/jsonrpc3/session.go:80-89 | binds under the given id, or under a newly minted one when it is empty |
| Sessions.Session.RemoveLocalRef | go/jsonrpc3/session.go:107-117 | disposes the object once and unbinds it, and reports whether it was there |
| Sessions.Session.RemoveObject | go/jsonrpc3/session.go:120-132 | removes and disposes exactly one binding of the object if there is any |
| Sessions.Session.AddRemoteRef | go/jsonrpc3/session.go:154-171 | the remote table gains the id |
| Sessions.Session.RemoveRemoteRef | go/jsonrpc3/session.go:188-196 | the remote table loses the id, and whether it was there is reported |
| Sessions.Session.DisposeAll | go/jsonrpc3/session.go:220-236 | every local binding is disposed once, both tables end empty, and the counts are their exact former sizes |
| Sessions.RunConserves | go/jsonrpc3/session.go:80-132 | over every run of operations, registrations are live plus disposed plus overwritten bindings, as multisets |
| Sessions.EmptiedSettles | go/jsonrpc3/session.go:220-236 | after dispose-all everything ever registered was disposed or overwritten, once each |
| Sessions.FreshnessKept | go/jsonrpc3/session.go:80-88 | an operation keeps all future generated ids free if and only if it does not take one of them by hand |
| Sessions.ConnectionIdsAreHarmless | go/jsonrpc3/peer.go:229-236 | registering objects under a connection's own ids never endangers the session's generated ones |
| Sessions.GeneratedNeverOverwrites | go/jsonrpc3/session.go:80-88 | a generated registration displaces no binding while generated ids are free |
| Sessions.MintedIsSpent | go/jsonrpc3/session.go:73-76 | an id once generated and no longer bound is never generated again |
| Sessions.SpentForEver | go/jsonrpc3/session.go:80-117 | over every run of operations such an id stays unbound unless it is bound by hand |
| ResultWalk.ProcessResult | ts/src/handler.ts:185-219 | the recursion over the result, on a live session, computes the walk's value and leaves the walk's tables |
| ResultWalk.WalkIsFill | ts/src/handler.ts:185-219 | the walk replaces the objects, in order, by the next ids of the session and binds those ids to them |
| ResultWalk.WalkRegistersExactly | ts/src/session.ts:63-82 | each occurrence gets its own new id, nothing is overwritten, the counter rises by the number of occurrences, ids stay fresh |
| ResultWalk.WalkInvertible | ts/src/handler.ts:185-219 | no object is left, and the input comes back from the output if and only if its author named none of the new ids |
| ResultWalk.WalkIdempotent | ts/src/handler.ts:191-194 | a second pass changes neither the value nor the session |
| ResultWalk.WalkRefs | ts/src/handler.ts:196-201 | the references in the output are those of the input and the minted ones, as multisets |
| GoRefWalk.WalkValue | go/jsonrpc3/refwalk.go:21-74 | on any session, the heap walk returns the value with its objects replaced by newly minted ids bound to them, changes no other binding, leaves every container it was given as it was, and returns the value itself exactly when it holds no object |
| GoRefWalk.MintedKeeps | go/jsonrpc3/session.go:73-89 | while generated ids are free, a walk overwrites no binding and keeps them free |
| GoRefWalk.WalkElement | go/jsonrpc3/refwalk.go:94-103 | comparing an element with its walked form by deep equality finds a difference exactly when the element holds an object |
| GoRefWalk.WalkItems | go/jsonrpc3/refwalk.go:83-110 | the loop fills a new slice with the walked elements and sets the flag only if there was an object |
| GoRefWalk.WalkSlice | go/jsonrpc3/refwalk.go:77-116 | the copy is returned exactly when some element holds an object, otherwise the slice itself |
| GoRefWalk.WalkEntries | go/jsonrpc3/refwalk.go:124-146 | the loop over a map, in any order, fills a new map with every entry walked once |
| GoRefWalk.WalkMap | go/jsonrpc3/refwalk.go:119-152 | the copy is returned exactly when some entry holds an object, otherwise the map itself |
| GoRefWalk.DeepEqualSound | go/jsonrpc3/refwalk.go:98-103 | containers that compare deeply equal stand for the same value tree |
| GoRefWalk.CopyOnWriteRefinesWalk | go/jsonrpc3/refwalk.go:77-152 | whatever the map order, one renaming of the minted ids carries the heap walk's value and bindings to the plain walk's, and no other binding differs |
| GoHandler.Handler.HandleRequest | go/jsonrpc3/handler.go:42-93 | dispatches by reference, walks a result, and answers everything but a notification that succeeds |
| GoHandler.Handler.HandleMethod | go/jsonrpc3/handler.go:96-134 | a call on the root object, or method-not-found without one |
| GoHandler.Handler.HandleRefMethod | go/jsonrpc3/handler.go:137-177 | a call on a registered object, or reference-not-found |
| GoHandler.Handler.ResolveBatchLocalRef | go/jsonrpc3/handler.go:205-244 | the target of a batch-local reference in the compacted list, or the error code of the first check that fails |
| GoHandler.Handler.HandleBatch | go/jsonrpc3/handler.go:249-299 | the loop's responses and session are those of the batch run, with one error for an empty batch |
| GoHandler.CallsTheObject | go/jsonrpc3/handler.go:137-177 | a named request through a bound reference runs its method on the object bound to it; an error is the answer as it is, and a result goes out with its objects replaced by the next ids of the state that run left, which are then bound to them |
| GoHandler.CallsTheRoot | go/jsonrpc3/handler.go:96-134 | the same for a named request without a reference and the root object |
| GoHandler.CallsTheProtocol | go/jsonrpc3/handler.go:53-84 | the same for a named request to `$rpc` and the session's own methods |
| GoHandler.RefusedUnrun | go/jsonrpc3/handler.go:47-145 | a request without a method name, through an unbound reference, or to a missing root object is answered with -32600, -32002 or -32601, notification or not, and changes nothing |
| GoHandler.ReferencesRead | go/jsonrpc3/handler.go:212-243 | `\k` in request i is invalid if k is not below i or past the list or failed, of the wrong type if its result has no `$ref` text, and otherwise resolves to that text |
| GoHandler.EmptyBatchRefused | go/jsonrpc3/handler.go:251-255 | an empty batch is answered by one refusal without an id |
| GoHandler.PlainBatchIsSingly | go/jsonrpc3/handler.go:249-299 | a batch that refers to none of its own results gives the responses and state of its requests handled one by one |
| GoHandler.ChainReachesTheObject | go/jsonrpc3/handler.go:249-299 | a request addressed to the result of the one before it, which returned an object, runs its method on that very object in the state left by the first |
| GoHandler.OneTurn | go/jsonrpc3/handler.go:258-295 | a turn adds at most one response, under the request's id; only a notification can go unanswered, and it is answered only by an error |
| GoHandler.BatchAccounting | go/jsonrpc3/handler.go:249-299 | the response of request i sits at i minus the unanswered requests before it, and there are no other entries |
| GoHandler.EntryOwner | go/jsonrpc3/handler.go:291-294 | every entry of the list belongs to one answered request |
| GoHandler.SilentExactly | go/jsonrpc3/handler.go:42-93 | unanswered are exactly the notifications that name a method, whose reference resolves and whose call succeeds |
| GoHandler.NoneSilent | go/jsonrpc3/handler.go:291-294 | the count of unanswered requests is zero if and only if each one was answered |
| GoHandler.CompactionShiftsReferences | go/jsonrpc3/handler.go:291-294 | while request i is handled, position k of the list holds request k's own response if all requests up to k were answered, and otherwise a later request's response if any |
| GoHandler.ShiftedReferences | go/jsonrpc3/handler.go:205-244 | so `\k` resolves by request k's response in the first case, and by a later request's response, or as out of bounds, in the second |
| GoHandler.ShiftHappens | go/jsonrpc3/handler.go:249-299 | a batch of one notification and three calls in which `\1` is read as the result of request 2 |
| GoHandler.NoNotificationsNoShift | go/jsonrpc3/handler.go:249-299 | without notifications entry i answers request i, at every moment of the run |
| GoHandler.NothingRawIsSent | go/jsonrpc3/handler.go:249-299 | no response of a batch holds an object of the hosting process, whatever its methods return |
| GoHandler.MarkerInText | go/jsonrpc3/handler.go:195 | the quoted message contains the marker text if and only if the reference itself does |
| GoHandler.FormatErrorMisfiled | go/jsonrpc3/handler.go:268-279 | every malformed reference gets the code of an invalid reference, except that it gets that of a type error if and only if its own text contains the marker |
| GoHandler.FormatErrorWitness | go/jsonrpc3/handler.go:268-279 | a malformed reference that does contain it |
| TsHandler.Handler.HandleRequest | ts/src/handler.ts:37-85 | dispatches and walks as Go does, and always produces a response |
| TsHandler.Handler.HandleBatch | ts/src/handler.ts:90-142 | the loop's responses and session are those of the positional run |
| TsHandler.CallsTheObject | ts/src/handler.ts:37-85 | a request through a bound reference runs its method on the object bound to it; an error is the answer as it is, and any result goes out with its objects replaced by the next ids of the state that run left, which are then bound to them |
| TsHandler.CallsTheRoot | ts/src/handler.ts:37-85 | the same for a request without a reference and the root object |
| TsHandler.CallsTheProtocol | ts/src/handler.ts:37-85 | the same for a request to `$rpc` and the session's own methods |
| TsHandler.RefusedUnrun | ts/src/handler.ts:46-52 | a request through an unbound reference is answered with -32002 and changes nothing |
| TsHandler.ReferencesRead | ts/src/handler.ts:147-178 | `\k` in request i is invalid if k is not below i or result k undefined, of the wrong type if it is no reference, and otherwise resolves to it; text without a number is invalid |
| TsHandler.PlainBatchIsSingly | ts/src/handler.ts:90-142 | a batch that refers to none of its own results leaves the state its requests would one by one, and gives the responses of those with an id |
| TsHandler.ChainReachesTheObject | ts/src/handler.ts:90-142 | a request addressed to the result of the one before it, which returned an object, runs its method on that very object, notifications or not |
| TsHandler.BatchAccounting | ts/src/handler.ts:90-142 | one result per request, and the response ids are those of the non-notifications, in order |
| TsHandler.NothingRawIsSent | ts/src/handler.ts:90-142 | neither the responses of the batch loop nor the results it keeps for references hold an object |
| TsHandler.NotificationsRegister | ts/src/handler.ts:62-69 | a notification's result registers nothing in Go and each of its objects in TypeScript; the two states differ if and only if it succeeds with an object in its result |
| TsHandler.PositionsNeverShift | ts/src/handler.ts:113-114 | position k holds request k's result from then on, whether or not it was a notification |
| TsHandler.NoShiftHere | ts/src/handler.ts:90-142 | on the batch that Go shifts, `\1` is read as the result of request 1 |
| TsHandler.ParsersAgree | ts/src/handler.ts:147-150 | `parseInt` and Go's loop agree on every canonical index below 2^63 |
| TsHandler.ParsersAgreeExactly | ts/src/handler.ts:147-154 | of all texts they agree exactly on the non-empty decimal ones below 2^63 and on the others in which `parseInt` finds no number |
| TsHandler.ParsersDisagreeOnOverflow | ts/src/handler.ts:147-159 | the text of k + 2^64 is a forward reference to TypeScript and request k to Go |
| TsHandler.ResolutionAgrees | ts/src/handler.ts:147-178 | compacted and positional lookup pick the same target or error code if and only if the result is one both read alike; no out-of-bounds branch is reached |
| TsHandler.RunsAgree | ts/src/handler.ts:90-142 | without notifications the two servers give the same responses and leave the same session |
| TsHandler.EmptyReferenceDiverges | ts/src/handler.ts:100-108 | when the k-th result names the empty reference, the two steps agree if and only if Go's call on the root object happens to equal a call on the object registered under the text `\k`, or reference-not-found if there is none |
| TsHandler.EmptyReferenceWitness | ts/src/handler.ts:100-108 | a batch of two calls on which they differ |
| Alignment.AlignResponses | go/jsonrpc3/http_client.go:618-639 | the two loops put under each request the last response whose key is the request's, each side with a key of its own, and nothing under a notification |
| Alignment.OrderBlind | go/jsonrpc3/http_client.go:618-639 | the order of responses with distinct ids does not matter, nil-id errors among them or not |
| Alignment.AlignedEntries | ts/src/batch.ts:211-230 | as many entries as requests; each is a received response with its request's key, the only one when keys are distinct, and nothing if and only if the request is a notification or no received response has that key |
| Alignment.LastWins | go/jsonrpc3/http_client.go:620-625 | of several responses under one key the last one is handed on |
| Alignment.HttpAlignment | go/jsonrpc3/http_client.go:618-639 | with drawn integers printed on one side and decoded numbers on the other, the response of request number n is at its entry if n is below one million, and otherwise the entry is empty |
| Alignment.NamesMeet | go/jsonrpc3/http_client.go:623-637 | textual ids meet if and only if they are the same text, and one meets a drawn number if and only if it is that number's decimal text |
| Alignment.MillionthIsLost | go/jsonrpc3/http_client.go:623-637 | request 1000000 and its response are printed `1000000` and `1e+06`, and do not meet |
| Pipeline.BatchBuilder.constructor | go/jsonrpc3/batch.go:32-38 | an empty builder |
| Pipeline.BatchBuilder.Call | go/jsonrpc3/batch.go:47-65 | adds a call on the root object and returns the promise of its position |
| Pipeline.BatchBuilderPromise.Call | go/jsonrpc3/batch.go:76-98 | adds a call on the promise's result, written as a batch-local reference |
| Pipeline.BatchBuilder.ToBatchRequests | go/jsonrpc3/batch.go:249-258 | the conversion keeps every call, its reference and its raw parameters, in order |
| Pipeline.NumberRequests | go/jsonrpc3/peer.go:265-283 | requests are numbered consecutively from the counter, notifications not at all |
| Pipeline.NumberedIs | go/jsonrpc3/peer.go:265-283 | each request keeps its place and contents; the j-th that is no notification gets the j-th number after the counter, a notification none |
| Pipeline.PipeliningPreservesMeaning | go/jsonrpc3/batch.go:235-262 | for every builder program, building, numbering, sending one message set through the server's read loop and realigning the reply gives the results and state of one call at a time, each on the reference actually returned; the reply arrives if and only if no result is nil |
| Pipeline.NamelessCallSpoils | go/jsonrpc3/jsonrpc3.go:107-110 | one call without a method name turns the batch into a mixture: nothing is carried out and every answer is a refusal |
| Pipeline.BadChainNeverDispatched | go/jsonrpc3/handler.go:263-286 | a call chained on a failure or on anything but a reference is answered with its error code and changes no state |
| Pipeline.LostIffNil | go/jsonrpc3/jsonrpc3.go:113-115 | all messages of a reply are responses if and only if no result is nil |
| Pipeline.PipeliningOverHttp | go/jsonrpc3/http_client.go:520-642 | over HTTP and JSON the state is that of one call at a time, and each result reaches the caller exactly as long as its request's number is below one million, if none is nil |
| Pipeline.NamelessOverHttp | go/jsonrpc3/http_server.go:174-182 | one call without a method name makes the HTTP server refuse the body: nothing is carried out and no result arrives |
| Pipeline.EmptyProgram | go/jsonrpc3/peer.go:260-263 | an empty program does nothing: an empty list over a stream, an error over HTTP |
| Pipeline.PipeliningOnTypeScript | ts/src/handler.ts:90-178 | the same program gives the same responses and state on the TypeScript server when both read its results alike, and aligning its responses by id gives every call its own |
| TsBatch.AlignValues | ts/src/batch.ts:211-230 | the two loops on the results a peer hands back: they throw on null or undefined, and otherwise put under each request the last result that carries its id |
| TsBatch.PeerBatchResults | ts/src/peer.ts:185-188 | a peer's batch is rejected if and only if a call fails, and otherwise gives the results in order |
| TsBatch.PeerBatchLosesResults | ts/src/batch.ts:209-232 | the batch throws if and only if a call failed or returned null or undefined; otherwise an entry is there if and only if some result carries the request's id itself, and is that result |
| TsBatch.ReferenceIsLost | ts/src/batch.ts:209-232 | a call that returns a reference gets no entry |
| TsBatch.LastCarrierWins | ts/src/batch.ts:211-217 | of several results that carry one id the last one counts |
| TsBatch.CarrierWitness | ts/src/batch.ts:211-230 | a batch in which the second call's result is handed to the first, because it is a record that carries the first call's id |
| TsBatch.PipeliningOverPeer | ts/src/batch.ts:187-233 | between TypeScript peers the server does what one call at a time would, and results without ids of their own never reach the caller |
| PeerProtocol.Moves | go/jsonrpc3/peer.go:392-574 | what a step adds to the calls under way and what it takes away account for all of its traffic |
| PeerProtocol.NewCallsAre | go/jsonrpc3/peer.go:265-283 | the calls of a new message are numbered distinctly, just above the counter |
| PeerProtocol.NewCallNumbered | go/jsonrpc3/peer.go:265-283 | the j-th call of a message that is no notification takes the j-th number after the counter |
| PeerProtocol.AnswerFills | go/jsonrpc3/peer.go:521-537 | delivering responses fills only empty channels, each with a response of its own number |
| PeerProtocol.StepDirected | go/jsonrpc3/peer.go:540-574 | every queue and link carries only its sender's requests and responses to the other side's handled calls |
| PeerProtocol.StepCounted | go/jsonrpc3/peer.go:129-191 | every step keeps each waiting call in exactly one place |
| PeerProtocol.StepSettled | go/jsonrpc3/peer.go:172-183 | every step keeps completions unique, their calls handled and nowhere under way |
| PeerProtocol.InvThroughout | go/jsonrpc3/peer.go:129-191 | the invariant holds after every run |
| PeerRuns.NumbersAreFresh | go/jsonrpc3/peer.go:141-143 | over a run no peer hands out a number twice, nor one at or below the counter it started with |
| PeerRuns.ChannelBounded | go/jsonrpc3/peer.go:87 | over every run a write channel never holds more than a hundred messages |
| PeerRuns.LinksKeepOrder | go/jsonrpc3/peer.go:540-574 | over every run, what one side has read, what is under way to it and what waits in the other's write channel is together what that channel admitted, in that order |
| PeerRuns.Correlation | go/jsonrpc3/peer.go:521-537 | in every run each number is completed at most once, by the response to the only call its peer ever issued under it, after that call was handled |
| PeerRuns.Conservation | go/jsonrpc3/peer.go:129-191 | a waiting call is in exactly one of four queues, two links, two sets of handlers or its own channel |
| PeerRuns.MeasureDrops | go/jsonrpc3/peer.go:392-574 | every step other than a new call lowers a natural-number measure |
| PeerRuns.RunsAreShort | go/jsonrpc3/peer.go:392-574 | a run without new calls is at most as long as the measure |
| PeerRuns.SomeHandlerFinishes | go/jsonrpc3/peer.go:448-464 | when nothing else can move, the youngest running handler waits for nothing |
| PeerRuns.Progress | go/jsonrpc3/peer.go:392-574 | while anything is under way some step other than a timeout is possible: nested calls never deadlock |
| PeerRuns.EveryCallCompletes | go/jsonrpc3/peer.go:172-183 | from any reachable state, under any schedule without new calls and timeouts, the traffic ends within the measure and then every waiting call has been completed by its own response |
| GoPeer.Endpoint.constructor | go/jsonrpc3/peer.go:60-104 | one end of an idle connection |
| GoPeer.Endpoint.SendBatch | go/jsonrpc3/peer.go:265-319 | numbering, opening channels and queueing is the issuing step |
| GoPeer.Endpoint.OpenChannels | go/jsonrpc3/peer.go:285-293 | the loop opens an empty channel for each numbered request, and for no other |
| GoPeer.Endpoint.Send | go/jsonrpc3/peer.go:317-319 | a blocked sender enters the write channel |
| GoPeer.Endpoint.WriteOne | go/jsonrpc3/peer.go:540-574 | one item leaves the write channel and arrives at the other end, in order |
| GoPeer.Endpoint.ReadOne | go/jsonrpc3/peer.go:426-438 | requests start a handler, responses are offered to the waiting calls one by one |
| GoPeer.Endpoint.HandleIncomingResponse | go/jsonrpc3/peer.go:521-537 | a response fills the channel of its number if that is open and empty, and is ignored otherwise |
| GoPeer.Endpoint.FinishHandler | go/jsonrpc3/peer.go:493-512 | what a handler answers goes out as one message, and nothing does if it answers nothing |
| GoPeer.Endpoint.Receive | go/jsonrpc3/peer.go:172-183 | the waiting call takes its response and forgets its number |
| GoPeer.Endpoint.GiveUp | go/jsonrpc3/peer.go:185-186 | a timed-out call forgets its number |
| PeerClose.Peer.constructor | ts/src/peer.ts:66-84 | a new peer is open, counts from 1 and has nobody waiting |
| PeerClose.Peer.Call | ts/src/peer.ts:113-136 | a call on an open peer waits under the next number; on a closed or failed one it is refused |
| PeerClose.Peer.Batch | ts/src/peer.ts:160-189 | every request with an id, null included, waits under that id |
| PeerClose.Peer.Close | ts/src/peer.ts:221-241 | closing rejects everything that waits, once, disposes the session, and does nothing a second time |
| PeerClose.Peer.WriteMessage | ts/src/peer.ts:253-276 | a failed write marks the connection and closes it |
| PeerClose.Peer.HandleIncomingResponse | ts/src/peer.ts:365-382 | a response settles the promise waiting under its id, if there is one, and has the references of its result recorded |
| PeerClose.Peer.ReadLoopEnds | ts/src/peer.ts:320-326 | however the read loop ends, the peer is closed |
| PeerClose.StepValid | ts/src/peer.ts:59-81 | every event keeps: no promise settled twice, closed or failed means nobody waits |
| PeerClose.ClosedSessionStaysEmpty | ts/src/peer.ts:235-236 | over every run, from whichever event closes the peer its session stays empty, each reference it then held disposed once, unless a request is still being handled |
| PeerClose.NothingAfterClose | ts/src/peer.ts:365-369 | after a close nothing settles and nobody starts to wait, whatever happens, and the session stays as it is unless a request is still being handled |
| PeerClose.CloseSettlesAll | ts/src/peer.ts:229-233 | once closed, every promise was settled exactly once if and only if no id was ever put to use while still waiting |
| PeerClose.LostWitness | ts/src/peer.ts:173-183 | a batch that uses one id twice leaves its first promise open after the close |
| PeerClose.SingleCalls | ts/src/peer.ts:118-125 | with single calls ids are always fresh, and a promise is answered only by a response with its own number |
| PeerClose.ResponseSettles | ts/src/peer.ts:365-382 | a response gives the promise waiting under its id exactly its own outcome and touches no other; the references of a result are known afterwards; a response to no waiting id does nothing |
| PeerClose.CallWaits | ts/src/peer.ts:118-125 | a call on an open peer waits under the counter's number, with a promise of its own |
| PeerClose.BatchWaits | ts/src/peer.ts:173-183 | each new id of a batch waits with a promise of its own, in order, and those that waited before are left alone |
| PeerClose.ClosedExactly | ts/src/peer.ts:221-326 | a run leaves the peer closed if and only if it was so, or a write failed, reading ended or it was closed |
| PeerClose.FirstDecides | ts/src/peer.ts:221-382 | over every run in which ids are fresh: of the responses with a promise's id and the closes, the first decides; the promise receives exactly that response's outcome or the rejection, and nothing else ever |
| PeerClose.StillWaiting | ts/src/peer.ts:113-136 | until then it waits under its id and has received nothing |
| PeerClose.CallReceives | ts/src/peer.ts:113-136 | in every run of single calls the n-th receives the outcome of the first response numbered n, or the rejection if a close comes first |
| ReadLoop.RoundTrips | go/jsonrpc3/jsonrpc3.go:129-156 | converting to a message and back loses exactly requests without a method name and nil results |
| ReadLoop.ErrorWins | go/jsonrpc3/jsonrpc3.go:146-156 | a message with both an error and a result is read as the error |
| ReadLoop.ResponsesHandedOn | go/jsonrpc3/peer.go:433-438 | responses without a nil result, in a batch or alone, are handed to the waiting calls each and all, in order and unchanged; nothing runs and nothing is sent |
| ReadLoop.NilHandsNothingOn | go/jsonrpc3/peer.go:418-443 | a nil result among them keeps all of them from being handed on |
| ReadLoop.RequestsRun | go/jsonrpc3/peer.go:426-432 | requests that name a method are run as they were sent, a batch as a batch and a single one alone |
| ReadLoop.Classify | go/jsonrpc3/peer.go:414-424 | the loop decides whether all messages are requests and whether all are responses |
| ReadLoop.ToBatch | go/jsonrpc3/jsonrpc3.go:258-274 | the batch of requests in order, or nothing if one message is not a request |
| ReadLoop.SendErrorForBatch | go/jsonrpc3/peer.go:467-490 | one refusal for each request with an id |
| ReadLoop.ReadOne | go/jsonrpc3/peer.go:426-443 | the branch taken, its effect on the session, what is sent back and what is handed to waiting calls |
| ReadLoop.AnsweredOnce | go/jsonrpc3/peer.go:414-443 | each request with an id gets exactly one response under it, in order, if and only if the set is not one of responses some of which are also requests |
| ReadLoop.UnansweredWitness | go/jsonrpc3/peer.go:433-438 | two responses of which one is a request as well: that request gets no answer |
| ReadLoop.AnsweredOnceUnlessBoth | go/jsonrpc3/peer.go:414-443 | so whenever no message is both |
| ReadLoop.MixtureRefused | go/jsonrpc3/peer.go:467-518 | a mixture runs nothing, hands on no response and answers no notification |
| TsReadLoop.Validate | ts/src/encoding.ts:89-132 | all messages in order, or failure if one is neither a request nor a response with an id field |
| TsReadLoop.ReadOne | ts/src/peer.ts:294-326 | the branch taken by the TypeScript peer, its effect, and whether the read loop ends by it |
| TsReadLoop.ResponsesHandedOn | ts/src/peer.ts:312-317 | responses are handed on each and all, in order and unchanged, unless one of them ends the connection |
| TsReadLoop.NothingFromOthers | ts/src/peer.ts:296-317 | a mixture, or a set with a message that is neither, runs nothing, sends nothing and hands nothing on; it ends the connection if and only if a message is not accepted |
| TsReadLoop.RequestsRun | ts/src/peer.ts:302-311 | requests that name a method are run as they were sent |
| TsReadLoop.AnsweredOnce | ts/src/peer.ts:296-317 | each request with an id gets exactly one response if and only if the set is all requests or asks for nothing; an unacceptable message ends the connection |
| TsReadLoop.NotificationsAnswered | ts/src/peer.ts:332-345 | a single notification is always answered, by a response without an id; one in a batch never |
| TsReadLoop.ReplyEndsConnection | ts/src/encoding.ts:125-133 | a reply ends the connection if and only if a result in it is undefined or, when Go wrote it, a response has no id |
| TsReadLoop.FailedNotificationEnds | go/jsonrpc3/handler.go:55-61 | the reply of a Go peer to a failing notification is such a reply |
| Framing.JsonStreamDecoder.Decode | ts/src/stream-decoder.ts:13-42 | the messages of the complete lines, or a failure if one is not JSON; either way the buffer is the text after the last newline |
| Framing.ProcessLines | ts/src/stream-decoder.ts:26-39 | the loop trims, skips blank lines and fails on the first line that is not JSON |
| Framing.SplitParts | ts/src/stream-decoder.ts:20-24 | lines and rest make up the text and contain no newline |
| Framing.BufferIsTail | ts/src/stream-decoder.ts:20-24 | with or without a bad line the buffer is left with what follows the last newline |
| Framing.SplitContinues | ts/src/stream-decoder.ts:14-24 | more text leaves finished lines as they are and continues the rest |
| Framing.ChunkIndependence | ts/src/stream-decoder.ts:13-42 | for any chunking reading goes on if and only if all complete lines are JSON or blank, and then exactly their messages were handed on |
| Framing.StreamIsDelivered | ts/src/peer.ts:281-295 | of a peer's messages received in any chunks, the whole ones were handed on in order and the buffer holds the beginning of the next: nothing lost, nothing invented |
| Framing.BadLineSwallows | ts/src/stream-decoder.ts:33-38 | the messages before a bad line are handed on except those completed by its own chunk, exactly |
| Framing.ChunkingMatters | ts/src/stream-decoder.ts:33-38 | two chunkings of the same text that hand on different messages |
| Agreement.TrackRemoteReferences | ts/src/peer.ts:387-409 | the client's remote table gains exactly the references in the result |
| Agreement.PromoteFaithful | ts/src/peer.ts:29-54 | promotion is undone by sending the proxies back, and makes one proxy per tracked reference, in order |
| Agreement.AgreementThroughout | ts/src/peer.ts:365-409 | over every run a client's remote id was minted by the server and is still bound there unless disposed since, or was written by hand |
| Agreement.EverythingSentIsKnown | ts/src/peer.ts:365-409 | over every run in which the client drops none, what it knows and what is named on the way to it are together exactly what was so at first and the references of all replies sent |
| Agreement.ClientHoldsMinted | ts/src/peer.ts:365-409 | so without hand-written references the client holds only minted ids |
| Agreement.ReplyAddsExactly | ts/src/handler.ts:185-219 | a reply adds exactly the ids minted for it, all new to both ends |
| Protocol.ProtocolHandler.HandleDispose | go/jsonrpc3/protocol.go:85-106 | local table first, then the remote one, then reference-not-found; invalid parameters change nothing |
| Protocol.ProtocolHandler.HandleDisposeAll | go/jsonrpc3/protocol.go:160-166 | both tables are emptied and their former sizes reported |
| Protocol.BadParamsChangeNothing | go/jsonrpc3/protocol.go:86-93 | invalid parameters are reported as such and change nothing |
| Protocol.DisposeAllReports | go/jsonrpc3/protocol.go:160-166 | both tables end empty, every object is disposed once, and `local_count` and `remote_count` are the former sizes |
| Protocol.OnlyDisposalChanges | go/jsonrpc3/protocol.go:63-82 | no other method changes the session, and any unknown name is refused |
| Protocol.DisposeTakesOne | go/jsonrpc3/protocol.go:95-105 | a dispose succeeds exactly when the id is in a table, and takes exactly one entry away |
| Protocol.DisposeEachIsDisposeAll | go/jsonrpc3/protocol.go:85-166 | disposing every entry one by one, in any order, ends where dispose-all does, every object disposed once |
| Protocol.DisposeTwice | go/jsonrpc3/protocol.go:95-103 | one id can be disposed once for each table that has it |
| Protocol.DisposedIsUnreachable | go/jsonrpc3/handler.go:137-145 | a dispose call disposes the object, and the next call through the reference fails with reference-not-found |
| Protocol.DisposedForEver | go/jsonrpc3/handler.go:137-145 | after any further generated registrations, removals and disposals too, a disposed generated reference stays unreachable, unless its id is registered by hand |
| Http2Registry.HTTP2Server.GetOrCreateSession | go/jsonrpc3/http2_server.go:94-123 | an existing session is touched and its old connection sent to be closed; otherwise a new one is registered |
| Http2Registry.HTTP2Server.AttachConn | go/jsonrpc3/http2_server.go:316-319 | the connection takes the session's slot, whatever was in it |
| Http2Registry.HTTP2Server.CloseConnection | go/jsonrpc3/http2_server.go:824-850 | closed once; the slot is emptied only if it holds this connection |
| Http2Registry.HTTP2Server.HandleDeleteSession | go/jsonrpc3/http2_server.go:329-356 | the session is disposed and unregistered, its connection sent to be closed |
| Http2Registry.HTTP2Server.CleanupExpiredSessions | go/jsonrpc3/http2_server.go:374-413 | the loop removes exactly the expired sessions |
| Http2Registry.HTTP2Server.CloseServer | go/jsonrpc3/http2_server.go:205-239 | the loop removes every session |
| Http2Registry.OneConnectionPerSession | go/jsonrpc3/http2_server.go:94-123 | with finding and attaching as one step, in every run live connections belong to distinct, registered sessions |
| Http2Registry.AttachSafeWhen | go/jsonrpc3/http2_server.go:316-319 | attaching as a step of its own keeps the rule if and only if the slot is empty and the session registered |
| Http2Registry.CloseKeepsSessions | go/jsonrpc3/http2_server.go:824-850 | no close touches a session's tables, and a superseded connection's close touches nothing but itself |
| Http2Registry.CloseCloses | go/jsonrpc3/http2_server.go:824-850 | afterwards the connection is closed and out of its slot, and no other has changed |
| Http2Registry.ReconnectFinds | go/jsonrpc3/http2_server.go:94-113 | connecting under a registered id leads to that session with its tables as they were, restarts its idle time, sends its old connection to be closed and touches nothing else |
| Http2Registry.ConnectCreates | go/jsonrpc3/http2_server.go:115-123 | connecting under any other id registers a new session and touches no other |
| Http2Registry.RequestLeavesItsTable | go/jsonrpc3/http2_server.go:531-568 | a request changes the tables of its own session and nothing else |
| Http2Registry.DeletionAndShutdown | go/jsonrpc3/http2_server.go:205-356 | a deletion removes and disposes that session, sends its connection to be closed and keeps every other; a shutdown does so to all |
| Http2Registry.TwoAttachBoth | go/jsonrpc3/http2_server.go:280-319 | two requests that find a session before either attaches leave two live connections |
| Http2Registry.DeletedInBetween | go/jsonrpc3/http2_server.go:280-319 | a session deleted between the two steps leaves a live connection outside the registry |
| Http2Registry.StrayForEver | go/jsonrpc3/http2_server.go:205-413 | no connect, deletion, sweep or shutdown ever closes such a connection |
| Http2Registry.SweepIsExact | go/jsonrpc3/http2_server.go:374-413 | a sweep removes exactly the sessions idle for more than five minutes, or thirty seconds without local references, disposes all their references, and leaves the rest as they were |
| Http2Registry.BusyConnectionExpires | go/jsonrpc3/http2_server.go:393-405 | requests never postpone the expiry of a connected session |
| Expiry.SweepIsExact | go/jsonrpc3/http_server.go:392-427 | a sweep keeps exactly the sessions idle no longer than their limit, unchanged, and disposes all references of the others |
| Expiry.HTTPHandler.StoreSession | go/jsonrpc3/http_server.go:362-373 | the session is stored as just accessed |
| Expiry.HTTPHandler.DeleteSession | go/jsonrpc3/http_server.go:107-121 | an existing session is disposed and removed |
| Expiry.HTTPHandler.FindExpired | go/jsonrpc3/http_server.go:398-418 | the first loop lists every expired session once |
| Expiry.HTTPHandler.DeleteEach | go/jsonrpc3/http_server.go:420-426 | the second loop disposes and removes exactly the listed sessions |
| Expiry.ScanFindsReferences | go/jsonrpc3/http_server.go:446-468 | the scan for client references succeeds if and only if some reference in the tree names something |
| Expiry.HTTPHandler.ServeRequest | go/jsonrpc3/http_server.go:149-238 | a known session is touched, even by a body that does not decode; a new one is stored exactly when it was streamed to, a protocol method was called, or references remain and a batch reply could be encoded |
| Expiry.HTTPHandler.CleanupExpiredSessions | go/jsonrpc3/http_server.go:392-427 | the two loops together are the sweep |
| Expiry.NewSessionKept | go/jsonrpc3/http_server.go:149-238 | a request under an unknown id leaves a session, just accessed and with its own table, if and only if its body decodes and it names a reference in its parameters, calls the protocol object, or leaves references, the first two only outside a batch and the last in a batch only if the reply encodes; no other session changes |
| Expiry.KnownSessionTouched | go/jsonrpc3/http_server.go:332-354 | a request under a known id is an access even if its body does not decode, and otherwise leaves its table |
| Expiry.DeletionIsExact | go/jsonrpc3/http_server.go:107-121 | a deletion disposes each reference of that session once and touches no other |
| Expiry.SurvivesExactlyWhenSpared | go/jsonrpc3/http_server.go:332-427 | over every run a session is still there if and only if it was never deleted nor found idle beyond its limit, and is then what its own requests made of it |
| Expiry.LifeOfASession | go/jsonrpc3/http_server.go:149-427 | from the request that might have created it, over every run: a session is there at the end if and only if that request was worth keeping it for and nothing since deleted it or found it idle for too long |
| Expiry.TendedSessionsSurvive | go/jsonrpc3/http_server.go:405-417 | a session that keeps references and is used often enough survives every run of sweeps |
| Expiry.TendedFromTheStart | go/jsonrpc3/http_server.go:149-427 | so one that leaves references at its first request and is used often enough from then on is never lost |
| Tokenizer.Tokenize | go/jsonrpc3/pkg/shell/parser.go:10-44 | the loop over characters computes the scan of the line |
| Tokenizer.TokensAreMeanings | go/jsonrpc3/pkg/shell/parser.go:10-44 | the tokens of a line written as bare and quoted pieces are the words without their quotes, empty ones left out |
| Tokenizer.EveryLineIsWritten | go/jsonrpc3/pkg/shell/parser.go:10-44 | every line is written that way, perhaps with one quotation left open at its end |
| Tokenizer.QuotingRoundTrip | go/jsonrpc3/pkg/shell/parser.go:10-44 | any non-empty tokens survive quoting, joining and tokenizing |
| Tokenizer.NoEmptyToken | go/jsonrpc3/pkg/shell/parser.go:26-41 | no line yields an empty token |

## Left out

- Sockets, TLS, upgrades, content negotiation and certificates: input, output and foreign libraries.
- JSON and CBOR encodings, enhanced types, UTF-8 decoding of chunks: a JSON text is an opaque valid line, a chunk the text decoded from it.
- CBOR batches: looking up a batch-local reference decodes JSON only.
- Typed Go containers, arrays, structs and custom marshalers in the result walk: what is substituted there depends on Go's assignability; the model covers untyped slices and maps.
- A value that is an object and looks like a reference at once, and values that differ from themselves (NaN).
- Single results that fail to be marshalled, and handlers that never return.
- The reference counter as a 64-bit word: it is unbounded here.
- `parseInt` rounds beyond 2^53; the index is then a forward reference in any batch, rounded or not.
- Text.FloatText: beyond 2^53 the digits before the exponent are those of the integer, not the shortest ones Go would choose; that there is an exponent is all that is used.
- PeerProtocol.Apply: the entries of a batch leave the table of waiting calls one by one as they are read, the original removes them together at the end; the numbers of one batch are drawn in one step; error responses and results are not told apart, and nil results are excluded.
- Closing of the Go peer: its channel races are not modelled; PeerClose takes the TypeScript peer.
- TsHandler.Handle: a TypeScript handler always has a root object; the shared `Messages.Call` also covers servers without one, which only Go has.
- The order in which a close rejects its promises.
- ReadLoop.Classify: a method name that is present but empty counts as absent, as in Go; TypeScript looks for the key only.
- TsReadLoop.Validate: a missing `jsonrpc` field or a method that is no text, which end the connection as well, and requests with a null id are not modelled.
- Expiry and Http2Registry keep each session's tables as values and entries under numbers: sharing of one session object between requests in flight is not modelled, and a request is one step.
- Http2Registry.HTTP2Server.GetOrCreateSession and Expiry.HTTPHandler.ServeRequest: a new session's id differs from all earlier ones; the original draws it at random.
- What a session records about a reference besides its id (type, times, metadata), introspection results, capabilities, callbacks over event streams, the shell's number coercion and printing: easy members or output.
- The WebSocket and WebTransport variants and the Python and Ruby ports: they repeat the modelled logic.
