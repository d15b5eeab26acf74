# Block data in gcosmos: a Dafny model

gcosmos keeps the transactions of a block out of the consensus messages. A header carries a *data ID*,
`HEIGHT:ROUND:NUM_TXS:DATA_LEN:HASH`, and the transactions travel separately: the proposer encodes and provides
them, voters retrieve them, finalization saves them, and nodes that are behind fetch them together with the
committed header. This project models that pipeline and proves what it promises.

| file | component | form |
|---|---|---|
| `Basics.dfy`, `Numerals.dfy` | bytes, machine integers, hashes, transactions, headers; strconv, hex and string splitting | functions |
| `DataId.dfy` | printing and parsing data IDs, the hash over the transaction hashes | functions, a hashing loop |
| `Streams.dfy`, `Varint.dfy`, `Json.dfy` | readers whose reads are cut anywhere and may fail, the 16-byte buffer, zigzag varints, base64 (section 4 of RFC 4648) and JSON arrays of strings (sections 5 and 7 of RFC 8259) | classes and loops |
| `BlockData.dfy` | encoder, decoder, provider, one retrieval attempt | loops and readers against functions on bytes |
| `Retriever.dfy` | coordinator, workers and their two queues | state machine |
| `Cache.dfy` | the request cache; the coordinator's reactions and a worker's fetch in place | classes, proved against the state machine |
| `Strategy.dfy` | entering a round, choosing a block, precommitting | class with loops |
| `Handshake.dfy` | the strategy and the retriever over the cache, in every interleaving | state machine over `Retriever` |
| `CatchupLoop.dfy` | the catchup client's main loop and fetch worker | class, proved against the state machine |
| `CatchupFetch.dfy` | one fetch and a run of fetches | loops over the cache |
| `FullBlocks.dfy`, `JsonReply.dfy` | serving a full block and reading the reply; its JSON text | functions |
| `Validators.dfy` | the validators after a block | in-place algorithm on an array |
| `Store.dfy`, `Driver.dfy` | the block data store; finalization, and a node's whole history | class, state machine |
| `Agreement.dfy` | the protocols with the codec put in: what two nodes agree on, what a late node gets | lemmas |

An action of a state machine is one step of one goroutine, a blocked channel operation is an action that is not
enabled, and `select` is a choice among enabled actions; the main results hold in every reachable state. `int`
is 64 bits wide. blake2b, snappy, the JSON reader of the decoder, the transaction codec and the committed header
codec are function parameters. blake2b is never taken to be injective: where it matters the result is "or a
collision is at hand". Snappy and the codecs are relied on to invert their partners only on the value at hand
(`LibrariesInvert`, `BlockReadBack`), and parameters that do so are exhibited (`LibrariesExist`,
`BlocksAreReadBack`).

Where the code does not do what it or its comments say, the model follows the code:

- A zero-transaction ID parses to the ASCII text of the hash's first half, not to the hash
  (`DataIds.ParsedHashIffNonempty`), so that no data ever decodes under it.
- The strategy tests the count in an ID and the driver its suffix. They part on IDs such as `5:0:00:0:0e57...`,
  which can be accepted and then panic the driver (`Strategy.AcceptedNotFinalizable`).
- 3N+1 outstanding requests can deadlock a retriever with N workers (`Retriever.DeadlockReachable`).
- The strategy's handshake fails when a context is cancelled, when catchup brings the same data, or when a round
  is entered twice (`Handshake.CancellationBreaksIt`, `CatchupBreaksIt`, `ReentryBreaksIt`); exactly, when an ID
  is brought in twice (`Handshake.PanicsIffRepeated`).
- The bound of eight on retries of a bad peer holds between pauses only (`CatchupLoop.RetriesReachable`).
- Three resumes without a pause can block the catchup client for ever, and nothing less can
  (`CatchupLoop.CanBlockIffThreeBehind`).
- The catchup client does not compare the height of a header with the one it asked for
  (`CatchupFetch.HeadersConsecutiveIff`, `OtherHeightFinishes`).
- A block with data that the engine rejected panics the cache when it is fetched again
  (`CatchupFetch.RejectedThenRetried`).
- An honest host of a block whose reply exceeds 16 KiB is excluded (`Agreement.HonestFetch`), and data of the
  initial height is never served (`Driver.RefusedIffUnsaved`).
- A zero-power update of an unknown key adds a validator without power (`Validators.StaysWellFormed`).

## Model

| member | source | states |
|---|---|---|
| `DataIds.ComputeTxsHash` | gserver/internal/gsbd/dataid.go:22-38 | the hash written piece by piece is the hash of all transaction hashes in order |
| `DataIds.HashBytesAppend` | gserver/internal/gsbd/dataid.go:28-31 | the hashes are concatenated in the order of the transactions |
| `DataIds.PrintParse` | gserver/internal/gsbd/dataid.go:57-161 | for all heights, rounds, lengths and lists, parsing a printed ID recovers every field, and refuses a count of 2^31 or more |
| `DataIds.ParsePrint` | gserver/internal/gsbd/dataid.go:57-161 | conversely whatever is parsed, if written canonically and without a sign, is the text of what was parsed: decimal, but hexadecimal for length and hash |
| `DataIds.DataIDInjective` | gserver/internal/gsbd/dataid.go:57-72 | two printed IDs are equal if and only if height, round, length, count and hash are |
| `DataIds.ParsedHashIffNonempty` | gserver/internal/gsbd/dataid.go:81-110 | the parsed hash is the list's hash if and only if the list is nonempty |
| `DataIds.IsZeroIffEmpty` | gserver/internal/gsbd/dataid.go:163-165 | on printed IDs the suffix test holds exactly for the empty list |
| `DataIds.ZeroTestsAgree` | gserver/internal/gsi/consensusstrategy.go:287 | on any parseable ID the count test and the suffix test agree if and only if a zero count comes with the very zero fields |
| `DataIds.ZeroTestsDisagree` | gserver/internal/gsi/driver.go:407 | for every height and round some ID has count zero and fails the suffix test |
| `Streams.BufReader.ReadByte` | gserver/internal/gsbd/decoder.go:88-89 | a byte read through the buffer is the next one, however reads are cut; none only at the end or after a failure |
| `Streams.MultiReader.ReadFull` | gserver/internal/gsbd/decoder.go:116-120 | what is read across the glued readers is exactly the next bytes, and nothing is lost |
| `Varints.AppendVarint` | gserver/internal/gsbd/encoder.go:55-64 | the loop writes the zigzag varint |
| `Varints.VarintRoundTrip` | gserver/internal/gsbd/encoder.go:58-62 | a written size is read back exactly, whatever follows |
| `Varints.KnownVarints` | gserver/internal/gsbd/encoder.go:58-62 | zigzag order and low groups first, on known values |
| `Varints.ReadVarint` | gserver/internal/gsbd/decoder.go:88-92 | the loop over the buffered reader reads the varint at the front of the bytes, overflow included |
| `Json.MarshalRoundTrip` | gserver/internal/gsbd/encoder.go:42-45 | the array of base64 strings reads back to the same items |
| `Json.KnownTexts` | gserver/internal/gsbd/encoder.go:42-45 | the test vectors of base64, and the array around them |
| `BlockData.EncodeBlockData` | gserver/internal/gsbd/encoder.go:30-76 | exactly one frame is appended to the writer, and the raw size is returned |
| `BlockData.EncodedForm` | gserver/internal/gsbd/encoder.go:55-75 | a frame starts with 1 and is compressed exactly when that is shorter, and otherwise starts with 0; then the size, then the data |
| `BlockData.Decode` | gserver/internal/gsbd/decoder.go:56-84 | for every chunking of the stream the result is that of its bytes, at most 14 bytes beyond the frame are read, and failing means bytes that do not decode or a failed stream |
| `BlockData.ReadSizedBody` | gserver/internal/gsbd/decoder.go:86-169 | both size checks, and exactly the announced bytes from buffer and stream |
| `BlockData.DecodeRaw` | gserver/internal/gsbd/decoder.go:203-245 | the items become transactions in order, and the three checks decide |
| `BlockData.FrameMeans` | gserver/internal/gsbd/decoder.go:56-201 | which bytes are a frame, and of which data: header byte, both size checks, both length checks, for every input |
| `BlockData.TxsMean` | gserver/internal/gsbd/decoder.go:203-245 | which data is which list: the items in order, the count and the hash, for every input |
| `BlockData.DecodedLength` | gserver/internal/gsbd/decoder.go:101-106 | data that decodes is, decompressed, as long as its ID says |
| `BlockData.PrefixDeterminacy` | gserver/internal/gsbd/decoder.go:86-201 | a successful decode depends on the leading frame only |
| `BlockData.RoundTrip` | gserver/internal/gsbd/encoder.go:30-76 | encoded data decodes under the ID that DataID gives it to the very list, compressed or not, whatever follows it |
| `BlockData.TeeDecodesAgain` | gserver/internal/gsi/pbdretriever.go:280-326 | the bytes copied aside decode again to the same list |
| `BlockData.FetchOne` | gserver/internal/gsi/pbdretriever.go:287-332 | what one retrieval returns decodes under its ID, as do the bytes kept for serving, which overrun the frame by at most 14 |
| `BlockData.Provide` | gserver/internal/gsbd/libp2p.go:39-86 | the proposer's ID and data belong together: the data decodes under the ID to the pending list |
| `BlockData.ZeroIDNeverDecodes` | gserver/internal/gsbd/decoder.go:236-242 | nothing decodes under an ID with the zero suffix |
| `BlockData.LibrariesExist` | gserver/internal/gsbd/encoder.go:42-55 | libraries that meet what the round trip relies on exist |
| `Retriever.StepKeepsInv` | gserver/internal/gsi/pbdretriever.go:129-335 | every step of coordinator and workers keeps the queue bounds, conservation, bookkeeping and publish-once |
| `Retriever.ConservationAndPublishing` | gserver/internal/gsi/pbdretriever.go:129-181 | in every reachable state each accepted ID is in exactly one place, each result finds its entry, and a ready entry was closed once, after both fields were written with data that decodes to them |
| `Retriever.PanicsIffRepeated` | gserver/internal/gsi/pbdretriever.go:140-178 | a run with decodable IDs, at whose end no received request waits for its insertion, panics if and only if an ID was brought in twice |
| `Retriever.ReadyStays` | gserver/internal/gsi/pbdretriever.go:171-178 | over any run a ready entry stays in the cache and is never written again |
| `Retriever.BroughtStays` | gserver/internal/gsbd/cache.go:70-83 | what is inserted or deposited is in the cache for good |
| `Retriever.RequestsInOrder` | gserver/internal/gsi/pbdretriever.go:155-166 | in every run workers take requests up in the order they were handed out |
| `Retriever.ResultsInOrder` | gserver/internal/gsi/pbdretriever.go:171-178 | in every run results are published as they are, in the order they were sent back |
| `Retriever.GivenUpAfterAllFailed` | gserver/internal/gsi/pbdretriever.go:215-242 | a request is given up only after as many addresses have failed as it came with |
| `Retriever.UndecodableRequestPanics` | gserver/internal/gsi/pbdretriever.go:207-210 | taking a request up panics if and only if its ID cannot be parsed |
| `Retriever.DeadlockedShape` | gserver/internal/gsi/pbdretriever.go:101-104 | the protocol is stuck handing out if and only if both queues are full and every worker holds a result |
| `Retriever.DeadlockBound` | gserver/internal/gsi/pbdretriever.go:155-166 | stuck means exactly 3N+1 outstanding requests, and there are never more |
| `Retriever.Progress` | gserver/internal/gsi/pbdretriever.go:155-166 | with at most 3N outstanding, but some, the coordinator or a worker can step |
| `Retriever.InternalStepsEnd` | gserver/internal/gsi/pbdretriever.go:183-243 | every internal step leaves less work, so that runs without new requests end |
| `Retriever.Drains` | gserver/internal/gsi/pbdretriever.go:129-243 | left alone with at most 3N requests, every run is bounded and stops only when all are published or lost |
| `Retriever.DeadlockReachable` | gserver/internal/gsi/pbdretriever.go:101-104 | for every N a deadlock with 3N+1 requests for available data is reachable |
| `Cache.RequestCache.SetImmediatelyAvailable` | gserver/internal/gsbd/cache.go:89-101 | exactly one new entry, ready with this data |
| `Cache.Coordinator.OnFetchRequest` | gserver/internal/gsi/pbdretriever.go:140-154 | the code on the real maps does what the protocol's insertion says |
| `Cache.Coordinator.OnFetchResult` | gserver/internal/gsi/pbdretriever.go:171-178 | the code on the real objects does what the protocol's four publishing steps say |
| `Cache.FetchOneP2P` | gserver/internal/gsi/pbdretriever.go:245-335 | a result decodes under the ID and comes from what the address serves; without one the address is useless or its stream failed, which only an unsteady one does |
| `Cache.FetchP2P` | gserver/internal/gsi/pbdretriever.go:202-243 | in whatever order the addresses are shuffled: with steady streams there is a result if and only if some address serves data that decodes |
| `Cache.ProposerIsUseful` | gserver/internal/gsi/pbdretriever.go:215-242 | so with steady streams the data of a proposer among the addresses is always retrieved |
| `Strategy.ConsensusStrategy.EnterRound` | gserver/internal/gsi/consensusstrategy.go:142-227 | height and round are tracked, and a proposal with transactions is in the cache, ready with the data that was provided |
| `Strategy.ConsensusStrategy.Simulate` | gserver/internal/gsi/consensusstrategy.go:317-357 | accepts if and only if there is a chain of states through the whole list in order |
| `Strategy.StateIsThreaded` | gserver/internal/gsi/consensusstrategy.go:335-357 | of an application that counts transactions exactly so many execute as its limit says |
| `Strategy.ConsensusStrategy.Judge` | gserver/internal/gsi/consensusstrategy.go:236-383 | one header is chosen if and only if header and ID are for this height and round, its data if any is ready and executes, and its time is not in the future; and asked for if and only if it is so addressed and its data is unknown |
| `Strategy.ConsensusStrategy.ConsiderProposedBlocks` | gserver/internal/gsi/consensusstrategy.go:230-388 | the choice is the least acceptable header, if any, and exactly the missing data before it is asked for |
| `Strategy.RetrievedIsFirstSeen` | gserver/internal/gsi/consensusstrategy.go:287-302 | every ID asked for is that of a header for this height and round, with transactions, that the cache lacked |
| `Strategy.FirstSeenIsRetrieved` | gserver/internal/gsi/consensusstrategy.go:287-302 | and every such header before the choice has its ID asked for |
| `Strategy.AcceptedNotFinalizable` | gserver/internal/gsi/driver.go:407-418 | at every height but the initial one and every round some acceptable header panics finalization |
| `Strategy.DisagreementExposes` | gserver/internal/gsi/consensusstrategy.go:405-416 | different precommits expose double voters with at least 2m - n of the power n, for the majority m |
| `Strategy.QuorumIntersection` | gserver/internal/gsi/consensusstrategy.go:405-416 | with double voters below a third, any two precommits for a block are for the same block, whatever votes were seen |
| `Strategy.DoubleVoterSplits` | gserver/internal/gsi/consensusstrategy.go:405-416 | the bound 2m - n is exact |
| `Handshake.PanicsIffRepeated` | gserver/internal/gsbd/cache.go:70-83 | in every interleaving, whatever is cancelled or deposited, an insertion hits an entry if and only if an ID was proposed, asked for or caught up on twice |
| `Handshake.StepKeepsInStep` | gserver/internal/gsi/consensusstrategy.go:287-302 | every orderly step keeps strategy, coordinator and cache in step, and brings in only what is not there |
| `Handshake.OrderlyIdsAreNew` | gserver/internal/gsi/consensusstrategy.go:204-208 | so an orderly run brings in each ID once |
| `Handshake.NeverInFlightTwice` | gserver/internal/gsi/pbdretriever.go:140-169 | in every interleaving without cancellation, other depositors or repeated rounds, no ID is inserted twice |
| `Handshake.CancellationBreaksIt` | gserver/internal/gsi/pbdretriever.go:380-389 | a run with one cancellation ends in the cache's panic, for every ID and number of workers |
| `Handshake.CatchupBreaksIt` | gserver/internal/gp2papi/catchupclient.go:491-494 | so does a run in which catchup brings the data in between |
| `Handshake.ReentryBreaksIt` | gserver/internal/gsi/consensusstrategy.go:204-208 | so does proposing the same transactions twice in one round |
| `CatchupLoop.MainLoop.OnNextPeerRequest` | gserver/internal/gp2papi/catchupclient.go:203-215 | sends some peer, or remembers the request when there is none |
| `CatchupLoop.MainLoop.OnAddPeer` | gserver/internal/gp2papi/catchupclient.go:217-235 | adds a peer that is not excluded, and serves the blocked request with it |
| `CatchupLoop.LoopInvariants` | gserver/internal/gp2papi/catchupclient.go:161-248 | peers and excluded peers are disjoint, a blocked request means no peers, and each response channel is sent on at most once and only while empty |
| `CatchupLoop.NeverHandedOutAgain` | gserver/internal/gp2papi/catchupclient.go:217-248 | an excluded peer stays excluded and is never sent again, whatever is added or removed |
| `CatchupLoop.RemovedStaysAway` | gserver/internal/gp2papi/catchupclient.go:236-237 | once a removal is processed the peer is handed out only after it has been added again |
| `CatchupLoop.OnlyAddedAreSent` | gserver/internal/gp2papi/catchupclient.go:203-235 | no peer is handed out that was never added |
| `CatchupLoop.OnlySentAreExcluded` | gserver/internal/gp2papi/catchupclient.go:296-312 | no peer is excluded that was never handed out |
| `CatchupLoop.HeightsInTurn` | gserver/internal/gp2papi/catchupclient.go:277-325 | within one fetch the height goes up by one for each success and by nothing else |
| `CatchupLoop.BoundedRetries` | gserver/internal/gp2papi/catchupclient.go:296-312 | after a peer's exclusion is queued and before it is processed at most eight more fetches from it fail, plus one for each exclusion a pause abandons |
| `CatchupLoop.RetriesReachable` | gserver/internal/gp2papi/catchupclient.go:131 | that bound is met for every number of pauses |
| `CatchupLoop.ResumeProgress` | gserver/internal/gp2papi/catchupclient.go:185-196 | loop and worker block each other only with three unfinished resumes; with two the state gets sent or received |
| `CatchupLoop.BlockedForEver` | gserver/internal/gp2papi/catchupclient.go:261-282 | once they block each other no further step changes that |
| `CatchupLoop.FirstHeightAfterLag` | gserver/internal/gsi/driver.go:637-643 | told that it is behind, an idle client starts after the height being committed, up to the one needed |
| `CatchupLoop.CanBlockIffThreeBehind` | gserver/internal/gsi/driver.go:634-655 | for every sequence of lag updates: some schedule of it blocks the two if and only if three in a row say behind, the first with something to fetch |
| `CatchupLoop.BlockedReachable` | gserver/internal/gsi/driver.go:634-655 | three such updates alone bring it about |
| `CatchupLoop.PausesPreventBlocking` | gserver/internal/gp2papi/catchupclient.go:185-201 | in every run without three such resumes in a row the two never block each other |
| `FullBlocks.ProtocolRoundTrip` | gserver/internal/gp2papi/datahost.go:95-115 | the protocol a client asks for is matched and gives back its height |
| `FullBlocks.InvalidHeights` | gserver/internal/gp2papi/datahost.go:95-115 | of the requests that are matched exactly those of 2^64 and above are refused as invalid |
| `FullBlocks.ProtocolText` | gserver/internal/gp2papi/datahost.go:224-230 | the protocol is a fixed text and the height, and any other is refused as invalid |
| `FullBlocks.HostVerdict` | gserver/internal/gp2papi/datahost.go:232-313 | each of the host's answers, its corruption panic included, by what header store and block data store hold |
| `FullBlocks.ErrorReplies` | gserver/internal/gp2papi/catchupclient.go:363-406 | of a reply no more than 16 KiB count, and it reads as an error exactly when it carries one |
| `FullBlocks.BlockReplies` | gserver/internal/gp2papi/catchupclient.go:408-489 | it reads as a block exactly when all its parts can be read and belong together |
| `FullBlocks.ParsedIsSound` | gserver/internal/gp2papi/catchupclient.go:408-489 | a reply that passes the checks carries data that decodes under the header's ID, or none under a zero ID |
| `FullBlocks.ServedIsParsed` | gserver/internal/gp2papi/catchupclient.go:363-380 | a served block is understood as that block if and only if it fits the 16 KiB |
| `JsonReply.BlocksAreReadBack` | gserver/internal/gp2papi/datahost.go:295-341 | the texts of a full block read back to it, and a cut off reply reads as nothing, for every cut |
| `JsonReply.ErrorsAreReadBack` | gserver/internal/gp2papi/datahost.go:228-262 | so do the host's errors |
| `JsonReply.ReplyLengthIs` | gserver/internal/gp2papi/datahost.go:295-320 | the length of a reply in terms of the header's text and the data |
| `JsonReply.FullText` | gserver/internal/gp2papi/datahost.go:295-320 | the text of a block, member by member |
| `JsonReply.ResultText` | gserver/internal/gp2papi/datahost.go:315-323 | the text around a block, or around an error |
| `CatchupFetch.CheckReply` | gserver/internal/gp2papi/catchupclient.go:363-489 | the checks in order, up to decoding, decide as specified |
| `CatchupFetch.DoFetch` | gserver/internal/gp2papi/catchupclient.go:341-531 | result and cache for every reply and every answer of the engine |
| `CatchupFetch.FetchVerdict` | gserver/internal/gp2papi/catchupclient.go:358-530 | the peer is excluded if and only if there was no stream, its reply is malformed, or its block, no repeat, is rejected; an error it reports is always retried |
| `CatchupFetch.RunFollowsRounds` | gserver/internal/gp2papi/catchupclient.go:274-327 | the fetches of a run are its rounds' one after the other, each of the height come to, up to exactly what ends it |
| `CatchupFetch.DoFetches` | gserver/internal/gp2papi/catchupclient.go:274-327 | the loop makes the fetches of the specified run, each of the height it has come to; the headers taken by the engine were served for consecutive heights, all of the range when it finishes; and it panics if and only if data comes twice |
| `CatchupFetch.ContiguousCatchup` | gserver/internal/gp2papi/catchupclient.go:274-327 | in every run the k-th header that the engine takes was served for height start + k, whatever was retried, excluded or cancelled, and finishing means all of the range |
| `CatchupFetch.HeadersConsecutiveIff` | gserver/internal/gp2papi/catchupclient.go:421-530 | the headers taken are themselves of consecutive heights if and only if each was of the height asked for |
| `CatchupFetch.OtherHeightFinishes` | gserver/internal/gp2papi/catchupclient.go:421-530 | one header of another height that the engine takes makes a run finish without the height asked for |
| `CatchupFetch.PanicsIffRepeats` | gserver/internal/gp2papi/catchupclient.go:491-494 | a run panics if and only if its fetches get data twice under one ID, or data cached before |
| `CatchupFetch.RejectedThenRetried` | gserver/internal/gp2papi/catchupclient.go:491-526 | in particular when the engine rejected a block with data that is then fetched again |
| `Validators.SortKeys` | gserver/internal/gsi/driver.go:556 | any order of map iteration gives the one sorted list of keys |
| `Validators.Compact` | gserver/internal/gsi/driver.go:543-547 | in place, what is kept comes to the front in order and the rest is cleared |
| `Validators.AssignInPlace` | gserver/internal/gsi/driver.go:520-538 | in place with the early break: new powers, and the updates left over |
| `Validators.UpdatedValidators` | gserver/internal/gsi/driver.go:496-576 | the whole algorithm computes the specified list, and the header's slice is not written |
| `Validators.MeetsSpecification` | gserver/internal/gsi/driver.go:496-576 | it is the simple specification if and only if no zero-power update names an unknown key |
| `Validators.LastUpdateWins` | gserver/internal/gsi/driver.go:505-573 | what the last update of a key does to the result, for every power and key, old or new |
| `Validators.UnnamedStay` | gserver/internal/gsi/driver.go:520-531 | validators that no update names stay as they are |
| `Validators.OrderOfResult` | gserver/internal/gsi/driver.go:543-573 | old validators come first in their order, then new ones in the order of their keys |
| `Validators.LessIsLexicographic` | gserver/internal/gsi/driver.go:556 | that order is bytewise from the left |
| `Validators.StaysWellFormed` | gserver/internal/gsi/driver.go:543-573 | keys stay distinct, and powers positive if and only if no zero-power update names an unknown key |
| `Validators.OrderOfUpdates` | gserver/internal/gsi/driver.go:505-518 | permuting a block's updates with distinct keys changes nothing |
| `Validators.ChainDeterminism` | gserver/internal/gsi/driver.go:496-576 | nor does it over any sequence of blocks |
| `Store.BlockDataStore.SaveBlockData` | gcstore/gcmemstore/blockdatastore.go:34-57 | all three maps, or an error and no change |
| `Store.BlockDataStore.LoadBlockDataByHeight` | gcstore/gcmemstore/blockdatastore.go:59-85 | the saved ID and data, appended, exactly for saved heights; the panic is out of reach |
| `Store.BlockDataStore.LoadBlockDataByID` | gcstore/gcmemstore/blockdatastore.go:87-113 | the saved height and data, exactly for saved IDs; the panic is out of reach |
| `Store.SavesKeepConsistent` | gcstore/gcmemstore/blockdatastore.go:34-57 | over any history the indices stay inverse with data for exactly their pairs, and nothing saved changes |
| `Store.IndicesAgree` | gcstore/gcmemstore/blockdatastore.go:34-113 | after any history height and ID find each other |
| `Driver.HandleFinalizationData` | gserver/internal/gsi/driver.go:347-466 | outcome and store for every state of the cache entry: a panic if and only if data is needed and the ID is not in the cache, and waiting exactly while its entry is not ready |
| `Driver.FinalizeVerdict` | gserver/internal/gsi/driver.go:347-466 | each outcome by the header, the entry and the store, and what is saved |
| `Driver.EventKeepsInv` | gserver/internal/gsi/driver.go:347-466 | deciding, committing and finalizing keep store, headers and executed lists matching |
| `Driver.NeverCorrupt` | gserver/internal/gp2papi/datahost.go:284-290 | in every reachable history and for every request the corruption panic is out of reach |
| `Driver.ServeAndFetchCompose` | gserver/internal/gp2papi/datahost.go:206-313 | a delivered height past the initial one is served and understood as the same header, data and transactions, if and only if the reply fits |
| `Driver.RefusedIffUnsaved` | gserver/internal/gp2papi/datahost.go:270-282 | a committed block with data is refused if and only if nothing was saved, which at the initial height is for ever |
| `Agreement.ProposalIsDeposit` | gserver/internal/gsi/consensusstrategy.go:185-208 | a node's own proposal enters the cache with data that decodes under its ID |
| `Agreement.FetchIsStep` | gserver/internal/gsi/pbdretriever.go:287-332 | so does retrieved data |
| `Agreement.ReplyIsDeposit` | gserver/internal/gp2papi/catchupclient.go:464-494 | so does caught up data |
| `Agreement.DepositIsReady` | gserver/internal/gsbd/cache.go:89-101 | a deposit is ready at once, unless it panics over an entry that is there |
| `Agreement.ReadyIsGood` | gserver/internal/gsi/pbdretriever.go:171-178 | whoever wrote it, a ready entry's raw data decodes under its ID to its transactions, with the count, the hash and the decompressed length of the ID |
| `Agreement.ViewsAgree` | gserver/internal/gsbd/cache.go:118-127 | a real cache that is in a state of the protocol shows what the state says |
| `Agreement.ReadyViewStays` | gserver/internal/gsi/driver.go:407-418 | what a ready entry shows in one reachable state it shows after any further run |
| `Agreement.FinalizableIff` | gserver/internal/gsi/driver.go:407-438 | a header accepted in one state of the cache is finalized in any later one without missing data if and only if its ID announces transactions, is a zero ID to the letter, or is ready by then all the same |
| `Agreement.PrintedIsFinalizable` | gserver/internal/gsi/driver.go:407-438 | an accepted header whose ID was made by DataID finds ready data in any later state, or needs none |
| `Agreement.RequestedIsNeverMissing` | gserver/internal/gsi/driver.go:411-418 | once an ID has been inserted or deposited, finalization at any later time does not panic over a missing entry |
| `Agreement.AskedIffMissing` | gserver/internal/gsi/consensusstrategy.go:287-302 | the strategy goes on to ask for an ID if and only if the cache does not have it |
| `Agreement.NamedByIDs` | gserver/internal/gsbd/dataid.go:57-161 | the handshake's assumptions about IDs hold of data IDs |
| `Agreement.HashBytesInjective` | gserver/internal/gsbd/dataid.go:28-31 | equally many concatenated hashes determine the list of hashes |
| `Agreement.NodesAgree` | gserver/internal/gsi/driver.go:407-466 | two nodes finalizing one header execute the same transaction hashes in order, or a collision is at hand |
| `Agreement.LedgersAgree` | gserver/internal/gsi/driver.go:347-466 | so over whole histories with the same decisions |
| `Agreement.HonestReply` | gserver/internal/gp2papi/catchupclient.go:363-489 | what a late node makes of an honest host's reply in each case |
| `Agreement.HonestFetch` | gserver/internal/gp2papi/catchupclient.go:341-531 | with an engine that accepts it and data not cached, fetching from an honest host succeeds if and only if it has the block and the reply fits, excludes it if and only if it has the block and the reply does not fit, and is retried otherwise |
| `Agreement.DeadlockOnRealData` | gserver/internal/gsi/pbdretriever.go:101-104 | proposals of any one list of transactions at different heights and rounds deadlock any number of workers |
| `Agreement.HandshakeBreaksOnRealData` | gserver/internal/gsi/consensusstrategy.go:287-302 | the handshake's three failures with any proposal, at any height and round |
| `Agreement.RetryPanicsOnRealBlock` | gserver/internal/gp2papi/catchupclient.go:491-526 | the panic of a retry with any block whose reply fits |
| `Agreement.OtherHeightOnRealBlock` | gserver/internal/gp2papi/catchupclient.go:421-530 | a run that finishes with any block of another height |

## Left out

- Varints.ReadVarint: does not model a reader that returns neither data nor an error, so `io.ErrNoProgress` cannot occur.
- BlockData.Provide: does not model the stream handler and the address list; snappy's panic on more than about 3.7 GB is a precondition.
- Strategy.ConsensusStrategy.EnterRound: does not model the clock, the transaction buffer and the send to the engine; whether to propose is a parameter.
- Strategy.ConsensusStrategy.ConsiderProposedBlocks: the retrieval it starts is a request in the result; that it waits for the acceptance is modelled in Handshake.
- Strategy.QuorumIntersection: powers are not limited to 64 bits, and the majority function, which is not part of this repository, is taken to be the least power above two thirds.
- Handshake.NeverInFlightTwice: requests without usable addresses, which are dropped before they are sent, are not modelled.
- CatchupFetch.DoFetches: by what rule the engine takes or rejects a header is not modelled; its answers are arbitrary.
- CatchupLoop.BoundedRetries: weaker than a bound of eight, which the code does not meet when fetching is paused while an exclusion waits to be queued.
- JsonReply.BlocksAreReadBack: the reader accepts what the host prints, not every JSON text with the same meaning; any other reader can take its place in FullBlocks.
- JsonReply.ReplyLengthIs: the header's text is taken to be compact and escaped already, which it is when encoding/json has written it.
- Cancellation at shutdown: goroutines that return for good are not modelled, except in the catchup client's fetches.
- libp2p hosts, dialing, stream setup and address JSON: streams, refusals and bytes are arbitrary.
- The app manager, state commit, genesis, the transaction buffer, timers, logging and tracing.
- The Gordian engine, mirror and vote collection: its answers and vote summaries are parameters.
- `handleCommittedHeaderStream`: the same decisions as for full blocks, without data.
- `RequestCache.Purge` is modelled but never called, as in the repository; nothing else removes entries.
- Proposer selection, the transaction store, HTTP and gRPC servers and command line wiring, which hold no hard property.
