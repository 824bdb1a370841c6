# A verified model of the RTB engine

The engine is a multi-worker real-time bidding server. Each worker owns an epoll loop, a map of client connections, one
pseudo-random generator and a read-only campaign store. Clients send length-prefixed protobuf bid requests; the worker
answers each with one length-prefixed response, a bid or a no-bid, or closes the connection.

This project models that system in Dafny and proves what it guarantees over every run:

- **The streaming core.** `ReusableBuffer.dfy`, `ResponseFraming.dfy` and `WorkerRuntime.dfy` are the imperative code:
  classes with the buffer offsets, the pending-write flag, the connection map and the nested read, write and accept
  loops. The kernel's answers (a read of some bytes, would-block, interruption, end of stream, errors, short writes,
  success or failure of `epoll_ctl`, hang-ups) are lists of arbitrary answers. Those classes refine the step functions
  of `ConnectionModel.dfy` and `WorkerModel.dfy`, over which the whole-run theorems are proved: every byte received is
  answered or still buffered, every byte staged is sent or still buffered, nothing is stranded between events
  (`WorkerModel.RunStrandsNothing`), each connection's output is a prefix of "decode all its bytes, answer every frame in
  order, frame the answers" (`WorkerModel.RunServesEachConnection`), and the interleaved worker is equivalent to one
  sequential engine (`WorkerModel.RunIsSequential`).
- **Getting things done.** `ConnectionProgress.dfy` says what each event achieves: how many pending bytes are sent, that
  everything arriving is taken in and a request made whole is answered at once, and for which causes alone a connection
  is closed. `WorkerProgress.dfy` lifts that to the next wake-up of any run, from accepting a client to sending its reply
  (`WorkerProgress.RunAnswersNewClient`).
- **The other end.** `SspClient.dfy` and `Lockstep.dfy` add the simulator's blocking client and lossless channels that cut
  the bytes at will: the pair stays in lockstep on every schedule, and `LockstepProgress.dfy` shows that it can always go
  on to the last response.
- **The campaign store.** `CsvText.dfy`, `CampaignStore.dfy` and `StoreInvariants.dfy` load the file; `CampaignFile.dfy` says
  byte for byte what its lines mean; `Retrieve.dfy` proves indexed retrieval equal, order included, to a scan of all
  campaigns.
- **The decision pipeline.** `WorkerRng.dfy` (xorshift64, its explicit inverse, its period), `Normalize.dfy` (keys, FNV-1a,
  deadlines), `Decision.dfy` and `HandleRequest.dfy`.
- **Everything together.** `BidCorrectness.dfy` gives the auction in closed form, from the lines of the campaign file and
  the state of the generator to the printed ids and the price; `BidEngine.dfy` plugs that into the worker and the
  client and restates it of every logged request of every run and of every response a client decodes. `CommaCodec.dfy`
  shows that what is assumed of the protobuf codec can be met.

Where the code does less than its comments or its configuration suggest, the code is what is modelled:

- The configured frame limit is 64 KiB but the read buffer holds 16 KiB and never grows. In every run, however the bytes
  are cut, a request of legal length is served only if it and all before it fit into the buffer with their headers, and
  on a connection that owes nothing all such requests that have arrived are served
  (`WorkerModel.RunServesRequestIffItFits`); the first one that does not fit closes the connection once it has filled the
  buffer (`WorkerModel.RunClosesAtFirstOversizedRequest`).
- A hang-up closes a connection at once, even with a response waiting: that response is lost
  (`StreamRefinement.HangupLosesResponse`). Output is lost exactly when a write is pending as the hang-up comes
  (`StreamRefinement.HangupLosesOutputIffPending`).
- The null ad-slot key is an ordinary hash value: a non-empty slot such as "eSN.1" has it, and a request with that slot
  is never answered (`Normalize.NullSlotKeyReached`, `BidEngines.NullHashedSlotUnanswered`).
- The deadline is compared only with the time it is computed from, so it never depends on the clock unless the 64-bit
  sum wraps, and then the request counts as expired (`Normalize.ExpiredOnArrival`, `HandleRequests.ClockIndependent`).
- A campaign file with CRLF line ends loads like one with LF, unless it has an empty line, for which it is then refused
  (`CampaignFiles.CrlfFile`); and a comment may stand anywhere but above the header (`CampaignFiles.LineSaysNothing`).

Check it with `dafny verify dfyconfig.toml`.

## Model

| member | source | states |
|---|---|---|
| BidEngines.RunAnswersFromFile | src/worker_runtime.cc:110-176 | in every run, whatever the clients and the kernel do, a logged request is answered if and only if it parses, lacks no key and its response can be framed; each answer, decoded by the client, carries its own request's id, is a bid if and only if time is left and some line of the file is wanted, names one such line, and in an auction names the first wanted row with the highest price drawn from the generator the request met |
| BidEngines.RunDrawsTwicePerOffer | src/worker_runtime.cc:145-146 | in every run the shared generator is exactly two draws per offer ahead of its seed: refused, dropped and late requests, reads, writes and closes cost no draw |
| BidEngines.ResponsesAnswerTheirRequests | tools/ssp_sim.py:159-174 | on every schedule of client, engine and channels, the k-th response the client decodes is a true answer to the k-th request, from the campaign file and the generator that request met |
| BidEngines.ResponsesNameTheirRequests | tools/ssp_sim.py:159-174 | on every schedule, with no assumption on store or clock, the k-th decoded response carries the k-th request's id, and at most one request is outstanding |
| BidEngines.RunBidWorker | src/worker_runtime.cc:182-198 | a worker starts exactly when its campaign file loads, and then does what the value-level run does from the seeded state |
| BidEngines.RunWorker | src/worker_runtime.cc:289-442 | the loop objects, started with a seed, end as the value-level run |
| BidEngines.AnswerFrame | src/worker_runtime.cc:128-153 | parsing and handling a frame in place gives the reply and the generator of the handler the worker theorems are about |
| BidEngines.FrameAnsweredFromFile | src/worker_runtime.cc:131-153 | a frame gets a response if and only if it is a well-formed request, and the decoded response answers it truly from the campaign file and the generator |
| BidEngines.NullHashedSlotUnanswered | src/handle_request.cc:21-30 | a frame that decodes to a request with the slot "eSN.1" gets no reply and costs no draw, whatever else it says |
| BidEngines.ReplyNamesRequest | src/response_builder.cc:18 | whatever gets a reply gets one that decodes and carries its request's id |
| BidEngines.FrameDraws | src/worker_runtime.cc:131-153 | a frame moves the generator by two draws per offering row, by none if it is refused, dropped or late |
| BidEngines.LogDraws | src/worker_runtime.cc:145-146 | the draws of a chained log add up |
| BidCorrectness.AuctionOutcome | src/handle_request.cc:80-100 | the auction in closed form: the k-th wanted row picks its creative with draw 2k+1 and its price with draw 2k+2; the first of the highest prices wins; the response prints that row's id and creative; the price lies in [0.05, 5.00); the generator ends two draws per wanted row ahead |
| BidCorrectness.AuctionedResponse | src/handle_request.cc:80-100 | the response to an auctioned request names the winner, as a property of the response alone |
| BidCorrectness.BidIffWanted | src/handle_request.cc:61-100 | a request that is not dropped is bid on if and only if its limit is at least 2 ms and some active row has all three keys; the request id is echoed either way |
| BidCorrectness.BidComesFromTheFile | src/campaign_store.cc:123-206 | the same, read off the lines of the file; and the printed ids of a bid parse back to the campaign of one wanted line and one of that line's own creatives |
| BidCorrectness.CandidatesAreWantedRows | src/retrieve.cc:59-98 | for a loaded store the candidates of an eligible request are exactly the wanted rows in row order, each with its own non-empty creatives |
| BidCorrectness.DecisionAmongWantedRows | src/decision.cc:31-88 | among those, the decision is the first row with the highest drawn price, and without any there is no bid |
| BidCorrectness.FirstHighestDrawWins | src/decision.cc:59-87 | among candidates that can all offer, the k-th offer is drawn from state 2k and the first highest wins |
| BidCorrectness.RowIsLine | src/campaign_store.cc:186-203 | row i of the store is wanted if and only if data line i is, with that line's id and creatives |
| BidCorrectness.PrintedIdsNameLine | src/response_builder.cc:21-25 | ids printed in decimal read back, under the loader's own number rule, as the line's ids |
| HandleRequests.OutcomeClassified | src/handle_request.cc:20-78 | a request is dropped if and only if it lacks a key (or was marked by the parser and is not expired), drop taking priority over expiry; otherwise it is answered deadline-exceeded if and only if its limit is at most 1 ms or its deadline wraps; the generator is untouched in both cases |
| HandleRequests.ClockIndependent | src/normalize.cc:64-111 | unless a deadline wraps, when a request is received changes neither status, decision, response nor generator |
| HandleRequests.NullHashedSlotDropped | src/handle_request.cc:21-30 | a request with the non-empty slot "eSN.1" is dropped at any time and whatever else it says, and costs no draw |
| HandleRequests.HandleRequest | src/handle_request.cc:44-101 | the in-place pipeline gives the result and the generator of the pipeline function the theorems are about |
| HandleRequests.ValidateRequestContext | src/handle_request.cc:20-38 | the stepwise validation gives the validated context of the pipeline function |
| HandleRequests.MalformedLacksKey | src/normalize.cc:92-103 | the keys a context lacks are those missing in the request's text: a country that is not two bytes or is two NULs, an unknown device, a slot hashing to 0, no auction type |
| Decision.DecisionIsFirstHighestOffer | src/decision.cc:31-88 | for any candidates, also ones without campaign or creatives: a bid if and only if some candidate can offer, the first highest offer wins, its price lies in [0.05, 5.00), two draws per offer |
| Decision.MakeBidDecision | src/decision.cc:31-88 | the argmax loop, with its skips and its generator, computes the first best of all offers |
| Decision.FirstBestIsFirstMaximum | src/decision.cc:72-77 | replacing the best only by a strictly better one finds the first maximum: all before are lower, none after is higher |
| Decision.OffersAreOfCandidates | src/decision.cc:61-85 | an offer names an actual candidate and one of its own creatives, at a price in range |
| Decision.PriceInRange | src/decision.cc:21-25 | every drawn word gives a price in [0.05, 5.00), over exact reals |
| Decision.PriceScale | src/decision.cc:21-25 | the price is 0.05 plus 4.95 times the upper 53 bits of the drawn word over 2^53 |
| Decision.PriceOrder | src/decision.cc:21-25 | a word at least 2048 higher has a strictly higher price, and a higher price means a higher word |
| Decision.ChooseRandomCreative | src/decision.cc:10-19 | one draw picks a creative of the list; an empty list gives none and costs no draw |
| Decision.GenerateBidPrice | src/decision.cc:21-25 | one draw gives the price of the drawn word |
| Retrieve.IndexedRetrievalIsFullScan | src/retrieve.cc:30-98 | for exact indexes and an eligible request, retrieval returns exactly the active campaigns with the three keys, in row order, whichever bucket is filtered and also when a key is absent |
| Retrieve.ChooseSeedBucket | src/retrieve.cc:30-47 | a bucket if and only if both keys have one; then one of the two, as small as the smaller, and the country's when they are equally large |
| Retrieve.RetrieveCandidates | src/retrieve.cc:59-98 | the filtering loop over the chosen bucket, an out-of-table row being skipped |
| Retrieve.FilteredBucket | src/retrieve.cc:81-95 | filtering the rows of any weaker test gives the rows of the request's own test, in order |
| StoreInvariants.LoadedStore | src/campaign_store.cc:179-206 | loading succeeds if and only if every line that is not skipped is acceptable; then campaign i is what the i-th such line says, both indexes are exact and the creative ranges are non-empty, consecutive, disjoint and cover the array |
| StoreInvariants.BuildInvariant | src/campaign_store.cc:151-171 | every store built from rows has exact indexes and packed creatives that know their campaign's slot |
| StoreInvariants.RowsWhereExact | src/campaign_store.cc:157-171 | a bucket that equals a scan is strictly increasing and holds exactly the rows with its key |
| StoreInvariants.AppendKeepsIndex | src/campaign_store.cc:170-171 | pushing the new row to its key's bucket, and no other, keeps an index exact |
| StoreInvariants.AppendKeepsPacked | src/campaign_store.cc:86-115 | appending a row's creatives keeps every range and adds one behind the others |
| StoreInvariants.BuildRepresents | src/campaign_store.cc:157-168 | a row keeps saying what its line said, creatives included, when more rows follow |
| CampaignStores.LoadCampaignStoreSnapshot | src/campaign_store.cc:179-206 | the loader loop, skipping empty lines, comments and a header on line 1, loads what the line-wise definition says or refuses with it |
| CampaignStores.CampaignStoreSnapshot.AppendCampaignLine | src/campaign_store.cc:123-173 | a line is accepted exactly when its fields parse; then the store gains its row, else rows and indexes stay |
| CampaignStores.CampaignStoreSnapshot.ParseCreativeSpecs | src/campaign_store.cc:79-116 | accepts exactly a list with at least one id and only ids, empty tokens skipped, and appends those creatives in order |
| CampaignStores.CampaignStoreSnapshot.PushCreative | src/campaign_store.cc:102-106 | one creative is appended behind those already there |
| CampaignStores.CampaignStoreSnapshot.constructor | src/campaign_store.cc:186 | a new snapshot is empty |
| CampaignStores.RefusalIsFinal | src/campaign_store.cc:199-202 | once a line is refused, no later line can make the file load |
| CampaignFiles.LineRoundTrip | src/campaign_store.cc:123-173 | the line written for a campaign loads as exactly that campaign: each of the eight columns feeds its own field, "1", "true" and "TRUE" mean active and "0", "false" and "FALSE" not, and the ids between bars come in their order |
| CampaignFiles.LineAccepted | src/campaign_store.cc:123-155 | which lines are accepted, field by field on literal separators and flags, and what their rows hold; every other line refuses the file |
| CampaignFiles.IdsOfTokens | src/campaign_store.cc:89-115 | the ids are those of the non-empty tokens in order, if each of these is an id |
| CampaignFiles.CrlfFile | src/campaign_store.cc:18-31 | a file with CRLF line ends loads like the one with LF, except that an empty line then refuses it |
| CampaignFiles.LineSaysNothing | src/campaign_store.cc:189-197 | taking an empty line, a comment or the first-line header out changes nothing, except that anything put above the header makes the file refused |
| CsvText.CsvRoundTrip | src/campaign_store.cc:34-50 | comma-free fields joined by commas split into those fields, trimmed |
| CsvText.JoinOfSplit | src/campaign_store.cc:34-50 | splitting loses nothing: the fields joined again are the text |
| CsvText.SplitCount | src/campaign_store.cc:34-50 | there is always one field more than there are delimiters |
| CsvText.SplitOfJoin | src/campaign_store.cc:34-50 | splitting inverts joining when no field holds the delimiter |
| CsvText.SplitCsvLine | src/campaign_store.cc:34-50 | the scanning loop gives the trimmed fields between commas, the empty last one included |
| CsvText.TrimCopy | src/campaign_store.cc:18-31 | the two scanning loops give the trimmed text |
| CsvText.TrimRemovesBlanks | src/campaign_store.cc:18-31 | trimming removes exactly the spaces, tabs and carriage returns around a text, and an all-blank text entirely |
| CsvText.IdsAccepted | src/campaign_store.cc:53-58 | the accepted numbers are exactly the printed ones below 2^64 with any zeros in front |
| CsvText.NoLeadingZero | src/response_builder.cc:22-23 | a printed number has no leading zero unless it is "0" |
| CsvText.PrintedNumberParses | src/response_builder.cc:22-23 | a printed number reads back as itself if it fits into 64 bits and is refused otherwise |
| Normalize.CountryKeysAgree | src/normalize.cc:12-34 | two-byte codes have equal keys if and only if at each position the bytes are equal or are the upper-case (65 to 90) and lower-case form of one letter |
| Normalize.CountryKeyOfUpperCase | src/normalize.cc:24-33 | the key of an upper-case code is its two bytes, the first one high |
| Normalize.CountryKeyNull | src/normalize.cc:19-34 | the null key means: not two bytes, or two NULs |
| Normalize.DeviceKeys | src/normalize.cc:36-50 | each key belongs to exactly its text, connected TV to exactly "ctv" and "connected_tv", and every other text is unknown |
| Normalize.HashAdSlot | src/normalize.cc:52-62 | the hashing loop computes the fold of the step over the bytes |
| Normalize.FnvStepIsPermutation | src/normalize.cc:58-59 | for a fixed byte, stepping and the explicit unstep (multiply by 0x359C449B modulo 2^32, xor the byte) undo each other both ways on the 32-bit states, so the step permutes them |
| Normalize.OneByteChangesSlotKey | src/normalize.cc:52-62 | slots of equal length that differ in exactly one byte never share a key |
| Normalize.FnvFromInjective | src/normalize.cc:57-60 | a common suffix keeps different states different |
| Normalize.NullSlotKeyReached | src/normalize.cc:52-62 | a non-empty slot has the null key if and only if the state before its last byte is that byte |
| Normalize.NullSlotKeyExample | src/normalize.cc:52-62 | the text "eSN.1", which a client can send, hashes to the null key |
| Normalize.DeadlineValue | src/normalize.cc:64-70 | for limits of at least 2 ms and without wrap-around, deadline plus 1 ms is arrival plus limit; for shorter limits it is the arrival |
| Normalize.ExpiredOnArrival | src/normalize.cc:64-111 | a request is expired on arrival if and only if its limit is at most 1 ms or its deadline wraps around 64 bits |
| WorkerRngs.ScrambleIsBijective | include/rtb/runtime_types.h:65-71 | a xorshift round has an explicit two-sided inverse on all 64-bit words |
| WorkerRngs.ZeroFallbackUnreachable | include/rtb/runtime_types.h:70 | the fallback for 0 is dead code from any non-zero state |
| WorkerRngs.FallbackNeverTaken | include/rtb/runtime_types.h:61-72 | in every run from every seed, each state is the scrambled one before it and none is 0: the fallback is never taken |
| WorkerRngs.NextStateInjective | include/rtb/runtime_types.h:65-72 | different non-zero states have different successors |
| WorkerRngs.DistinctRunsNeverMeet | include/rtb/runtime_types.h:65-72 | runs from different non-zero seeds differ at every step |
| WorkerRngs.RunReturnsToSeed | include/rtb/runtime_types.h:65-72 | every run returns to its very seed within 2^64 draws |
| WorkerRngs.UpperBits | include/rtb/runtime_types.h:74-77 | the bits behind a unit double are the word's upper 53: the only number leaving less than 2048 below it |
| WorkerRngs.IndexIsRemainder | include/rtb/runtime_types.h:80-82 | a drawn index is the remainder of the word by the bound |
| WorkerRngs.FirstDraw | include/rtb/runtime_types.h:61-72 | the first draw of the generator seeded with 0 or 1 is 0x40822041 |
| WorkerRngs.WorkerRng.Seed | include/rtb/runtime_types.h:61-63 | a seed of 0 becomes 1, so the state is never 0 |
| WorkerRngs.WorkerRng.NextU64 | include/rtb/runtime_types.h:65-72 | the three shifts in place give the next state, which is also the drawn word |
| WorkerRngs.WorkerRng.NextUnitDouble | include/rtb/runtime_types.h:74-77 | one draw; its upper 53 bits scaled lie in [0, 1) |
| WorkerRngs.WorkerRng.UniformIndex | include/rtb/runtime_types.h:80-82 | one draw below the bound; the bound 0 draws nothing |
| Lockstep.ClientAndEngineInLockstep | tools/ssp_sim.py:159-174 | for every schedule and every cutting of the bytes: at most one request outstanding, the k-th decoded response is the engine's reply to the k-th request, and the client never meets an invalid length |
| LockstepProgress.ExchangeCompletes | tools/ssp_sim.py:159-174 | from any rest, at any times and generator states at which the remaining requests are answerable, there is a schedule on which the client gets a response to every one |
| LockstepProgress.RoundAnswersNext | tools/ssp_sim.py:168-172 | one round of send, handle, write and two reads takes the pair from rest to rest with the next request answered |
| LockstepProgress.ClientReceivesReply | tools/ssp_sim.py:63-72 | reading four bytes and then the announced length receives exactly one framed reply |
| LockstepProgress.StartsAtRest | tools/ssp_sim.py:156-157 | a new connection is at rest |
| Lockstep.NothingInFlightMeansNobodyWaits | tools/ssp_sim.py:159-174 | with both channels drained and nothing pending the client is not waiting, if its requests fit the engine's limits |
| Lockstep.RunKeepsInvariant | tools/ssp_sim.py:159-174 | every step of either side keeps the joint invariant of client, engine and channels |
| Lockstep.ChunkReceived | tools/ssp_sim.py:51-60 | reading no more than is missing never runs into the next response |
| SspClients.RecvExact | tools/ssp_sim.py:51-60 | gives exactly the next bytes of the stream however the reads are cut, and fails only if it ends before |
| SspClients.RecvFramedResponse | tools/ssp_sim.py:63-72 | reads one response exactly as the pure decoder does, leaving the stream right behind it |
| SspClients.Exchange | tools/ssp_sim.py:159-174 | the responses are the frames of the incoming stream in order, and what was sent is the framed requests up to one beyond the last response |
| WorkerProgress.RunAnswersNewClient | src/worker_runtime.cc:302-438 | in any run, a wake-up that accepts a client and brings it a whole fitting request logs that request, and if it is answered the next writable event sends the whole framed reply and leaves nothing pending |
| WorkerProgress.RunSendsPendingResponse | src/worker_runtime.cc:361-379 | in any run, the next writable event of a client with a response pending sends what the kernel takes of it, and once all is sent the next buffered request is logged in the same event |
| WorkerProgress.RunTakesInRequest | src/worker_runtime.cc:381-433 | in any run, the next event of a waiting client takes in everything the kernel brings of a request, however cut, and logs the request with its reply once it is whole |
| WorkerProgress.RunCarriesOutEvent | src/worker_runtime.cc:344-438 | in any run, an event has exactly the effect of its handling on log, generator and client, the client being gone afterwards if and only if the verdict is to close, a hang-up included; no other client changes |
| WorkerProgress.AcceptLoopOpens | src/worker_runtime.cc:308-343 | after any list of accepts a descriptor has a client if and only if the last accept for it, up to the first failing one, could be registered, or it had one before and there was none; new clients start afresh under new ids |
| WorkerProgress.RunStopsAtShutdown | src/worker_runtime.cc:303-305 | a run ends at the first shutdown: what is before it in its wake-up is handled, what follows is not |
| WorkerProgress.RunThenWakeUp | src/worker_runtime.cc:291-302 | without a shutdown every wake-up is handled after all before it |
| ConnectionProgress.EventSends | src/worker_runtime.cc:62-102 | an event sends exactly the pending bytes the kernel is willing to take before it blocks or fails, none if the socket is not writable; with bytes left over that is all it does, and it closes only for a failing write or update |
| ConnectionProgress.EventTakesIn | src/worker_runtime.cc:372-433 | on a waiting connection an event takes in everything that comes of a frame, however cut and interrupted; a frame made whole is answered in that event, an unfinished one is kept, and only a full buffer, end of stream or a failing read closes over it; each data read is counted |
| ConnectionProgress.NextBufferedRequestHandled | src/worker_runtime.cc:361-379 | an event that sends a pending response out completely handles the next buffered request in the same event |
| ConnectionProgress.EventGoesOnAfterSending | src/worker_runtime.cc:361-372 | and otherwise goes on exactly like one on a connection that had nothing pending |
| ConnectionProgress.BufferedRequestHandled | src/worker_runtime.cc:372-379 | a whole buffered request is answered before anything is read |
| ConnectionProgress.EventClosesForCause | src/worker_runtime.cc:352-436 | nothing but a hang-up, a write failing with bytes left over, a failed interest update, an end of stream or read error among the answers, a bad or unanswered head, or a full buffer closes a connection |
| ConnectionProgress.WriteLoopSends | src/worker_runtime.cc:63-88 | the write loop sends exactly what the kernel is willing to take before an answer that stops it, and fails if and only if that answer is a failure with bytes left over |
| ConnectionProgress.ReadLoopTakesIn | src/worker_runtime.cc:382-433 | the same of the read loop, for any cutting into chunks that fit the room offered |
| WorkerModel.RunIsSequential | src/worker_runtime.cc:289-442 | linearisation: handling the logged requests one at a time from the seed gives the logged replies and the worker's generator |
| WorkerModel.RunServesEachConnection | src/worker_runtime.cc:344-438 | in every run each connection's requests are its own frames in order and its output is a prefix of its own reference output, complete when it is open with nothing pending or closed at end of stream |
| WorkerModel.RunStrandsNothing | src/worker_runtime.cc:361-379 | between events, pending flag, non-empty write buffer and EPOLLOUT interest coincide, and with none pending the read buffer holds no complete or invalid frame |
| WorkerModel.RunServesRequestIffItFits | include/rtb/worker_runtime.h:25-26 | in every run, of framed requests of legal length cut at will, those served are the first ones, have arrived, and fit with all before them; on a connection that owes nothing that is also sufficient |
| WorkerModel.RunClosesAtFirstOversizedRequest | src/worker_runtime.cc:383-398 | in every run such a connection is closed for a full buffer only at its first request that does not fit and exactly when a whole buffer of it has come, never for a bad length; open with nothing pending it holds less than a whole buffer of it |
| WorkerModel.RunServesOnlyWhatFits | src/worker_runtime.cc:383-398 | no run ever handles a request that does not fit into the read buffer with its header, whatever the configured limit |
| WorkerModel.RunLogsKnownConnections | src/worker_runtime.cc:345-350 | only connections that are or were open are served, each by what the handler really gives |
| WorkerModel.RunKeepsInvariant | src/worker_runtime.cc:289-442 | every run keeps the worker invariant |
| WorkerModel.ClientStepKeepsInvariant | src/worker_runtime.cc:344-438 | an event on one client keeps the books of every other |
| WorkerModel.AcceptLoopKeepsInvariant | src/worker_runtime.cc:307-343 | accepted clients start settled under an id of their own, also when registration fails |
| WorkerModel.CloseKeepsInvariant | src/worker_runtime.cc:34-42 | a closed connection leaves the map with its account intact, nobody else being touched |
| WorkerRuntimes.ConnectionState.constructor | src/worker_runtime.cc:319-329 | a new client has two empty buffers of the configured capacity and nothing pending |
| WorkerRuntimes.ConnectionState.UpdateClientEvents | src/worker_runtime.cc:54-60 | the interest set changes if epoll_ctl succeeds and only then |
| WorkerRuntimes.ConnectionState.WriteAll | src/worker_runtime.cc:63-88 | the write loop refines its function; but for interruptions every turn leaves fewer bytes unsent |
| WorkerRuntimes.ConnectionState.FlushPendingWrite | src/worker_runtime.cc:62-102 | the flush refines its function: flag, interest set and failure |
| WorkerRuntimes.ConnectionState.StageReply | src/worker_runtime.cc:155-169 | a reply is staged and its frame consumed together or not at all |
| WorkerRuntimes.ConnectionState.ProcessReadyFrames | src/worker_runtime.cc:110-176 | handles at most one buffered frame, as the step function says |
| WorkerRuntimes.ConnectionState.MakeReadRoom | src/worker_runtime.cc:383-398 | compaction makes room and keeps every unread byte |
| WorkerRuntimes.ConnectionState.ReadOnce | src/worker_runtime.cc:383-432 | one turn of the read loop refines its function, and a turn that goes on after data leaves less room |
| WorkerRuntimes.ConnectionState.ReadAll | src/worker_runtime.cc:381-433 | the read loop refines its function and terminates, by the free room and the interruptions left |
| WorkerRuntimes.ConnectionState.HandleReadiness | src/worker_runtime.cc:352-438 | the whole client branch refines the event function |
| WorkerRuntimes.WorkerRuntime.constructor | src/worker_runtime.cc:182-219 | the loop starts seeded, without clients, with id 1 next |
| WorkerRuntimes.WorkerRuntime.AcceptClient | src/worker_runtime.cc:319-342 | one accepted client is emplaced and kept, or dropped when registering it fails |
| WorkerRuntimes.WorkerRuntime.AcceptClients | src/worker_runtime.cc:308-343 | the accept loop refines its function |
| WorkerRuntimes.WorkerRuntime.CloseClient | src/worker_runtime.cc:34-42 | exactly that client leaves the map |
| WorkerRuntimes.WorkerRuntime.CallClient | src/worker_runtime.cc:359-433 | an event changes the objects of its own client and the generator and nothing of any other client |
| WorkerRuntimes.WorkerRuntime.HandleClient | src/worker_runtime.cc:345-437 | an event for an unknown client is ignored, any other refines the worker's step |
| WorkerRuntimes.WorkerRuntime.HandleBatch | src/worker_runtime.cc:302-439 | the events of one wake-up in order, up to a shutdown |
| WorkerRuntimes.WorkerRuntime.RunLoop | src/worker_runtime.cc:289-442 | the worker loop over class objects refines the value-level run |
| StreamRefinement.OpenConnectionRefines | src/worker_runtime.cc:344-438 | an open connection's sent and staged bytes are exactly the reference output for all bytes read; everything is sent if and only if nothing is pending |
| StreamRefinement.ClosedConnectionRefines | src/worker_runtime.cc:352-437 | for every reason of closing, what was sent is a prefix of the reference output, all of it exactly when the write buffer was empty; at end of stream every frame received was answered |
| StreamRefinement.UnansweredConnectionRefines | src/worker_runtime.cc:135-159 | a connection closed over a request without reply had everything before it answered and sent |
| StreamRefinement.ServeMonotone | src/worker_runtime.cc:110-176 | the reference output only grows with the stream, so what was right to send stays right |
| StreamRefinement.HangupLosesResponse | src/worker_runtime.cc:352-357 | for every answerable request there is a run that stages its response, sees a hang-up and sends nothing of it |
| StreamRefinement.FullBufferMeansOversizedFrame | src/worker_runtime.cc:384-398 | a connection closed for a full buffer had a frame at its head that does not fit with its header |
| StreamRefinement.OversizedRequestCloses | src/worker_runtime.cc:384-398 | with framed requests of legal length coming in, a connection is never closed for a bad length, and for a full buffer only at the first request that does not fit and, of the closes on reading, exactly when a whole buffer of it has come |
| StreamRefinement.ServedIffFitsAndArrived | src/worker_runtime.cc:110-124 | with every frame received handled, a request is served if and only if it and all before it fit and it has arrived |
| StreamRefinement.RequestServedIffItFits | include/rtb/worker_runtime.h:25-26 | on any connection that waits with an empty buffer, a next request arriving in one piece is served if it fits and closes the connection for a full buffer if it does not |
| StreamRefinement.HangupLosesOutputIffPending | src/worker_runtime.cc:352-357 | a hang-up closes at once, and output is then missing if and only if a write was pending before it |
| ConnectionModel.EventKeepsBooks | src/worker_runtime.cc:344-438 | one event handles at most one request, does at most as many data reads as the buffer has free bytes, and leaves a settled connection or a closed one whose reason is true of its state |
| ConnectionModel.ReadLoopKeepsBooks | src/worker_runtime.cc:381-433 | the read loop keeps every received byte answered or buffered, whatever the kernel answers |
| ConnectionModel.FlushKeepsBooks | src/worker_runtime.cc:62-102 | a flush keeps every staged byte sent or buffered and brings flag, buffer and interest in line |
| ConnectionModel.ProcessKeepsBooks | src/worker_runtime.cc:110-176 | taking a frame moves its bytes from buffered to answered and logs exactly what the handler did with it |
| ConnectionModel.WriteLoopConserves | src/worker_runtime.cc:63-88 | short writes lose and repeat no byte |
| ConnectionModel.EventThreads | src/worker_runtime.cc:344-438 | an event logs only its own connection, chains the generator through what it logs and only extends both streams |
| ResponseFraming.StageResponseFrame | src/response_framing.cc:12-46 | stages the frame exactly if its size is allowed and nothing is pending; otherwise the buffer stays as it was |
| ResponseFraming.StagedFrameRoundTrip | src/response_framing.cc:12-46 | staging into any buffer and extracting gives the payload back, and consuming it leaves the buffer empty |
| ReusableBuffers.ReusableBuffer.constructor | include/rtb/runtime_types.h:19-22 | a new buffer is an empty queue |
| ReusableBuffers.ReusableBuffer.Reserve | src/frame.cc:9-13 | storage grows to the capacity, never shrinks, and unread bytes stay |
| ReusableBuffers.ReusableBuffer.FillWritableRegion | src/frame.cc:15-21 | bytes land in the writable region without touching the queue |
| ReusableBuffers.ReusableBuffer.CommitWrite | src/frame.cc:23-25 | commits append to the queue, clamped to the storage |
| ReusableBuffers.ReusableBuffer.TryExtractFrame | src/frame.cc:27-53 | classifies the head exactly as the pure decoder and changes nothing |
| ReusableBuffers.ReusableBuffer.ConsumeFrame | src/frame.cc:55-61 | drops a prefix of the queue; an emptied queue starts at the front again |
| ReusableBuffers.ReusableBuffer.Compact | src/frame.cc:63-77 | moving bytes in place leaves the queue unchanged |
| Frames.HeaderRoundTrip | src/response_framing.cc:33-34 | header writing and reading are inverse to each other on all 32-bit lengths and all headers |
| Frames.HeadClassified | src/frame.cc:30-52 | with n the big-endian number in the first four bytes, the length is invalid if and only if n is 0 or above the limit, and else the frame is ready if and only if n more bytes are there, and is those |
| Frames.HeaderIsBigEndian | src/frame.cc:36-38 | the length is read in network byte order, most significant byte first |
| Frames.ExtractFramed | src/frame.cc:27-53 | extraction undoes framing whatever follows the frame |
| Frames.ExtractSound | src/frame.cc:40-52 | a ready frame is acceptable and is exactly the head of the queue |
| Frames.ExtractStable | src/frame.cc:27-53 | a settled verdict on the head does not change when more bytes arrive |
| Frames.DecodeFramed | src/worker_runtime.cc:114-124 | a framed run followed by anything decodes to the run and what the rest decodes to |
| Frames.DecodeSound | src/worker_runtime.cc:114-124 | decoding a stream loses nothing: frames re-encoded, then the rest, are the stream |
| Frames.PrefixNeverMisframed | tools/ssp_sim.py:63-72 | decoding any prefix of framed payloads yields a prefix of them and never an invalid length |
| Frames.ArrivedPayloads | src/worker_runtime.cc:114-124 | of framed payloads, exactly those decode from a prefix whose last byte has arrived |
| Frames.DecodePrefix | src/worker_runtime.cc:114-124 | however a stream is cut, a prefix decodes to a prefix of its frames |

## Left out

- Sockets, epoll, eventfd and signal set-up, `run_server` threading and shutdown: kernel calls; what they answer is an arbitrary input to the steps.
- Unbounded runs of EINTR: the answers to one event's calls are a finite list, and a list that runs out answers "would block".
- Kernel fairness and eventual delivery: safety and quiescence are stated, not liveness that depends on wake-ups.
- Protobuf encoding: an abstract codec, assumed to carry responses to decoded requests up to the rounding of the price, and 32-bit limits; serialisation failures are not modelled.
- Floating-point rounding: prices are exact reals; rounding can create ties and touch the upper bound.
- `value_per_action`, `aggressiveness` and `model_score`: never read by a decision; which texts the loader accepts as doubles is an arbitrary predicate.
- BidCorrectness.BidComesFromTheFile: assumes that rows and creatives can be counted in 32 bits, as the loader's indexes and offsets do.
- BidEngines.RunBidWorker: a worker whose sockets, epoll instance or their registration fail does not start either; those calls are left out.
- BidEngines.RunAnswersFromFile: the printed ids are stated of what arrives, the price only of the response before encoding, because the wire format rounds it.
- Lockstep.NothingInFlightMeansNobodyWaits: a client that sends an oversized or refused request sees its connection closed instead.
- Connection ids do not wrap around at 2^64.
- Spans and string views are values: that a frame's span stays valid until its bytes are consumed, and that candidates point into the store, is not captured.
- Creative ranges beyond the array, which no loaded store has, read as empty instead of being undefined.
- Reading the file and cutting it into lines; a file that cannot be opened is not part of this model.
- Collisions of the slot hash in general: slots with equal keys match, as in the code.
- The benchmark recorder, its request limit and the shutdown it signals; a shutdown may come at any wake-up.
- Logging, command line, configuration parsing, scripts and build files.
