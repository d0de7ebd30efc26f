# Protocol engines and re-entrant state, verified

The repository holds a World of Warcraft server and the Discord library it
uses. This project models the parts of both that are engines rather than glue,
and proves what they promise, for every input and every run:

- **Request queue** (`QueueModel`, `QueueTheorems`, `QueueTimes`,
  `QueueProgress`, `QueueWorker`). Posters, a pool of worker threads and one
  callback thread, as interleaved steps over three queues. Every run keeps
  per-endpoint order, runs and calls back each request at most once, loses none,
  keeps an exhausted endpoint's wait as the response named it, and can always be
  carried on until everything posted has been called back.
- **External Term Format** (`EtfFormat`, `EtfTheorems`, `EtfTerms`, `EtfCodec`). The
  encoder over a growing buffer and the decoder over an offset; the exact sets
  of values that survive the round trip, in a stream and as a whole message; what
  the decoder makes of every term of the format, also those the encoder never
  writes; and a bound on what a decoder builds.
- **Stream parsers** (`HttpChunked`, `HttpTheorems`, `WebSocket`,
  `WsTheorems`). The chunked decoder and the WebSocket framing do not depend on
  how the byte stream was cut, and read what RFC 9112 and RFC 6455 describe.
- **Voice playout** (`Voice`). The comparator that orders 16-bit packet numbers
  across the wrap, and the loop that plays a batch and conceals its gaps.
- **Conditions** (`Conditions`, `ConditionTheorems`). The condition evaluator
  and the load that checks its table: when evaluation comes back, and what
  formula it computes.
- **Creature groups** (`CreatureGroups`, `CreatureGroupTheorems`, `Ordered`).
  Respawning and assisting under guards although creatures call back into the
  group, and who leads over a group's whole life.
- **Cameras** (`Cameras`, `CameraRuns`). The two-way link between cameras and
  viewpoints, and a list that is walked while its elements take themselves out.
- **Permissions, accounts, text** (`Permissions`, `Accounts`, `Utf8`,
  `Escaping`). Permission resolution bit by bit, two sliding-window caps over
  whole histories, UTF-8 lengths and substrings, URL and markdown escaping.

`Bytes` holds machine integers in network order. Objects whose methods update
fields are classes; their methods are tied to functions of the old state, and
the theorems are about those functions. Where a promise of the repository is
false, a lemma gives the input, and another says exactly when it holds.

## Findings

- A wait of nearly 2^64 seconds wraps, and the endpoint is open at once
  (`WaitIsKeptExactly`).
- Integers from 2^31 to 2^32 - 3, or below -2^31, come back changed. An empty
  array leaves bytes behind that are read as further values: in a stream nothing
  with an empty array in it comes back in step (`RoundTripExactly`), and as a
  message only some of it comes back. An array that ends in empty arrays does
  when they are even in number (`EmptyArraysComeBackInPairs`); the exact
  condition for any value is `Behind` (`MessageRoundTripExactly`).
- A body of known length depends on how it was cut if bytes follow it. Trailer
  fields after the last chunk are not skipped.
- A masked frame sends the WebSocket loop round for ever, wherever in the stream
  it stands (`MaskedFrameSpins`). `fill_header` needs 14 bytes for a long
  payload, and its callers give it 10. A last frame of one byte or none waits
  for more data.
- The packet comparator is right up to a distance of 5000. It is no order for
  the priority queue exactly when packets with one timestamp lie in all three of
  the first 5000 numbers, the last 5000 and those between (`StrictWeakExactly`).
  The comment in `discordvoiceclient.h` says the maximum number is raised by
  larger packets only; the code stores every packet's, so a late packet lowers
  it.
- `NOT` has its third and fourth value read but not checked: it can refer to
  itself.
- `AddMember` refuses the current leader, not the original one, and
  `RemoveMember` can take a temporary leader away. An original leader that is
  set alive where it lies, as `SpellEffects.cpp` line 709 does, is not reported
  to its group: a temporary leader goes on leading (`LeaderInvStepExactly`,
  `UntoldReturnIsLedPast`).
- `utf8substr` passes its end offset as a count, so only a prefix or a suffix
  comes out right. `utf8len` returns 0 for no invalid string but one that starts
  with a NUL, although `utility.h` says it does for all (`ZeroExactly`), and it
  reads past the terminator exactly when a first byte that is reached promises
  more than there is (`OverreadExactly`).

Two limits of single functions are out of reach in the repository: a camera
whose owner is out of the world would stay on an object that leaves, but no
camera gets there (`ForeignOwnersAreInTheWorld`); and an instance cap of 0 would
let one in, but the only cap passed is the constant 100.

## Model

| member | source | states |
|---|---|---|
| QueueTheorems.QueueIsSafe | dep/dpp/queues.cpp:242-414 | in every interleaving, at every moment: callbacks come in the order of runs and runs in the order of posts per endpoint, nothing runs or is called back twice, nothing posted is lost, no completed request is queued at a loop head, exhausted endpoints are left alone |
| QueueTheorems.InvStep | dep/dpp/queues.cpp:242-414 | every step of a poster, a worker or the callback thread keeps the invariant that links the three queues and the completed flags for an endpoint |
| QueueTheorems.QuiescentMeansDelivered | dep/dpp/queues.cpp:347-381 | when nothing waits and nothing is on its way, every handler has been called exactly once, in posting order |
| QueueTheorems.RateLimitIsKept | dep/dpp/queues.cpp:268-305 | over whole runs, after a response with nothing remaining the next run on the endpoint starts after its time plus its retry_after, or its reset_after if that is 0, if that sum is a 64-bit number |
| QueueTheorems.WaitIsKeptExactly | dep/dpp/queues.cpp:270-293 | the check on an exhausted bucket keeps the wait exactly when the sum does not wrap, and never keeps it longer |
| QueueTheorems.LongestWaitIsNoWait | dep/dpp/queues.cpp:270-293 | the input that shows the wrap: a wait of 2^64 - 1 is no wait |
| QueueTimes.RunsKeepTheLimit | dep/dpp/queues.cpp:268-305 | over whole interleavings, told from the steps alone: a request begins after an exhausting response only later than its time plus its retry_after, or plus its reset_after when there is no retry_after |
| QueueTimes.CheckDecidesExactly | dep/dpp/queues.cpp:268-293 | over whole interleavings, a check lets the request through exactly when the last response for the endpoint left something or its time is over, and otherwise gives the endpoint up for this pass |
| QueueTimes.FirstGoesThrough | dep/dpp/queues.cpp:290-293 | over whole interleavings, as long as an endpoint has had no response every check lets it through |
| QueueTimes.NoPassWhileLimited | dep/dpp/queues.cpp:249-343 | over whole interleavings, no worker starts a pass between a globally limiting response and a step that lifts the limit |
| QueueProgress.EverythingCanBeDelivered | dep/dpp/queues.cpp:242-414 | nothing gets stuck: at every moment of every interleaving there are steps, no post among them, after which every request posted has been run and called back in posting order |
| QueueWorker.HashOf | dep/dpp/queues.cpp:401-407 | the loop computes the 32-bit hash, signed characters and wrap-around included, up to the first NUL |
| QueueWorker.HashIs | dep/dpp/queues.cpp:401-413 | the hash in closed form: 17 and the signed characters before the first NUL, times powers of 31, modulo 2^32; its remainder is the worker |
| QueueWorker.PostGoesToItsWorker | dep/dpp/queues.cpp:383-414 | a post lands at the end of its endpoint's queue at the worker the hash picks and nowhere else |
| QueueWorker.InThread.PostRequest | dep/dpp/queues.cpp:383-390 | a post appends to its endpoint's queue and touches no other |
| QueueWorker.InThread.ServeEndpoint | dep/dpp/queues.cpp:264-316 | a pass runs a prefix of the endpoint's queue, each request only with an open bucket, pushes exactly those in order, stops at the first closed bucket, and does what the model's Check, Start, Finish, Push and Leave steps do from any state |
| QueueWorker.OpenAfter | dep/dpp/queues.cpp:270-305 | what a response makes of its endpoint: free when something remains or the clock is past its time plus retry_after, or reset_after if that is 0, in 64 bits |
| QueueWorker.InThread.EraseCompleted | dep/dpp/queues.cpp:318-334 | the erase loop ends and leaves exactly the unrun requests, in order, for every endpoint |
| EtfTheorems.RoundTripExactly | dep/dpp/etf.cpp:569-717 | in a stream: bytes of a value followed by anything decode to its image and leave just what followed, if and only if the value has no empty array, its integers are in [-2^31, 2^31) or at least 2^32 - 2, and its sizes fit their fields |
| EtfTheorems.EncReads | dep/dpp/etf.cpp:569-717 | for every encodable value, what reading its bytes yields: its image with exactly the tokens left behind that its shape says, or not its image |
| EtfTheorems.MessageRoundTripExactly | dep/dpp/etf.cpp:627-717 | as a message: build and then parse give the image if and only if the shape of the value, computed without any bytes, lets what its empty arrays leave behind be read where it is due |
| EtfTheorems.CarriedComesBack | dep/dpp/etf.cpp:627-717 | every value of the stream round trip comes back as a message |
| EtfTheorems.EmptyArraysComeBackInPairs | dep/dpp/etf.cpp:680-696 | an array of such values that ends in empty arrays comes back as a message exactly when these are even in number, the empty array itself included |
| EtfTheorems.InStepMeansCarried | dep/dpp/etf.cpp:680-696 | tokens once left behind never go away: a value leaves none exactly when it is one of the stream round trip |
| EtfTheorems.NestedEmptyArrayIsLost | dep/dpp/etf.cpp:680-696 | the input that breaks the round trip: a nested empty array comes back null with bytes left over |
| EtfTheorems.TwoToThe31ComesBackNegative | dep/dpp/etf.cpp:642-656 | the integer that breaks the round trip: 2^31 comes back negative |
| EtfTheorems.NodesWithinBytes | dep/dpp/etf.cpp:325-365 | whatever lengths the bytes claim, a decoded value has at most as many nodes as bytes were consumed |
| EtfTheorems.ReadBigInt | dep/dpp/etf.cpp:401-437 | the digits written for a large integer are read back as its decimal numeral |
| EtfTheorems.ItemsRead | dep/dpp/etf.cpp:325-343 | the items of a list read back one by one, with exactly the tokens their row leaves behind |
| EtfTheorems.PairsRead | dep/dpp/etf.cpp:353-365 | the pairs of a map read back in key order, with exactly the tokens the last of them leaves behind |
| EtfTerms.TermIsRead | dep/dpp/etf.cpp:275-625 | every term of the format, written by its documented layout, is read as what it stands for with just what followed it left, or refused: atoms, byte strings, tuples, lists with any tail, maps with any keys, big integers of either sign, references, ports, pids and exports |
| EtfTerms.MessageIsRead | dep/dpp/etf.cpp:627-638 | the same for a whole message, behind the version byte 131 |
| EtfTerms.OtherVersionsAreRefused | dep/dpp/etf.cpp:627-638 | a message with another version byte, or none, is refused |
| EtfTerms.OtherTagsAreRefused | dep/dpp/etf.cpp:569-625 | the tags that no term has are refused |
| EtfTerms.TextCutShort | dep/dpp/etf.cpp:260-312 | atoms and binaries that end early read as null, and their bytes are read again as further values |
| EtfTerms.CutShort | dep/dpp/etf.cpp:367-481 | so does a textual float, and a byte list that ends early is refused |
| EtfTerms.EmplaceExactly | dep/dpp/etf.cpp:353-365 | adding a pair keeps the keys sorted, and adds the field exactly when its key is new |
| EtfTerms.KeyLessExactly | dep/dpp/etf.cpp:353-365 | keys are ordered by the first place where they differ, a prefix before what it starts |
| EtfTerms.ValueIsWritten | dep/dpp/etf.cpp:627-710 | the encoder writes every carried value as one term of the format |
| EtfTerms.IntIsWritten | dep/dpp/etf.cpp:642-656 | every integer is written as a small integer, a 32-bit integer or a big one, by its size |
| EtfTerms.EmptyArrayIsWrittenTwice | dep/dpp/etf.cpp:680-696 | an empty array is written as two terms |
| Bytes.DecimalInverse | dep/dpp/etf.cpp:401-437 | a decimal string determines the integer it was written for |
| Bytes.DigitsShape | dep/dpp/etf.cpp:401-437 | a numeral is decimal digits alone, without leading zeros |
| EtfCodec.EtfBuffer.Write | dep/dpp/etf.cpp:46-55 | writing appends the bytes, grows the buffer when it must and keeps what was there |
| EtfCodec.EtfBuffer.InnerBuild | dep/dpp/etf.cpp:640-710 | the recursive encoder appends the specified bytes of a value, or fails where the specification does |
| EtfCodec.EtfParser.InnerParse | dep/dpp/etf.cpp:569-625 | the recursive decoder over the offset ends, stays within the buffer and yields what the specification reads |
| EtfCodec.EtfParser.DecodeArray | dep/dpp/etf.cpp:325-331 | the loop over a claimed length ends and yields the items the specification reads |
| EtfCodec.EtfParser.DecodePairs | dep/dpp/etf.cpp:353-365 | the loop over a claimed number of pairs ends and yields the fields the specification reads |
| EtfCodec.EtfParser.DecodeBigInt | dep/dpp/etf.cpp:401-437 | digits of any claimed length give the value, 64-bit wrap-around included, or the refusal past eight digits |
| EtfCodec.EtfParser.Parse | dep/dpp/etf.cpp:627-638 | a message is read as specified, its version checked |
| EtfCodec.Build | dep/dpp/etf.cpp:712-717 | a message is built as specified |
| HttpTheorems.SplitInvariance | dep/dpp/httpsclient.cpp:128-271 | in the chunk states, any list of deliveries ends as the whole stream does, buffer after the end aside |
| HttpTheorems.RunSplit | dep/dpp/httpsclient.cpp:128-271 | one cut: the bytes before it and then those after it, or all at once, on any bytes at all |
| HttpTheorems.RunSettles | dep/dpp/httpsclient.cpp:128-271 | a client that waits has nothing more to do with what it has |
| HttpTheorems.ChunksRun | dep/dpp/httpsclient.cpp:204-256 | every list of non-empty chunks closed by the last chunk is decoded to the chunks' concatenation |
| HttpTheorems.ChunkedBodyArrives | dep/dpp/httpsclient.cpp:204-256 | the same cut into deliveries anywhere, with sizes written in hexadecimal digits of either case, leading zeros and extensions: the client is done with exactly that body |
| HttpTheorems.SizeInHex | dep/dpp/httpsclient.cpp:234-252 | a numeral got by dividing by 16, with digits of either case, leading zeros and anything that is no digit behind it, is read as its number exactly when that is below 2^31 |
| HttpTheorems.NumberIsRead | dep/dpp/httpsclient.cpp:238-242 | the same as the library call reads it, after white space and with a sign or 0x |
| HttpTheorems.EveryNumeral | dep/dpp/httpsclient.cpp:238-242 | every string of hexadecimal digits is the numeral of exactly one number |
| HttpTheorems.NoNumberIsRefused | dep/dpp/httpsclient.cpp:238-247 | a line without a digit where the number should be is refused |
| HttpTheorems.BadSizeStops | dep/dpp/httpsclient.cpp:234-247 | behind any chunks and however cut, a line that names no size stops the client with the data it has, and the connection is not kept |
| HttpTheorems.TrailersAreNotSkipped | dep/dpp/httpsclient.cpp:220-232 | after the last chunk only a bare CRLF ends the body, both directions |
| HttpTheorems.ContentDependsOnTheCut | dep/dpp/httpsclient.cpp:255-262 | a body of known length is independent of a cut exactly when the first piece does not complete it or nothing follows |
| HttpChunked.HttpsClient.HandleBuffer | dep/dpp/httpsclient.cpp:128-271 | the do-while loop ends and does what the specified run of turns does |
| WsTheorems.HeaderReadsBack | dep/dpp/wsclient.cpp:72-105 | for every length an RFC 6455 section 5.2 reader gets back a final frame, the opcode, a zero mask and that length in its shortest form |
| WsTheorems.HeaderFitsExactly | dep/dpp/wsclient.cpp:29-35 | the header is 6, 8 or 14 bytes and within MAXHEADERSIZE exactly up to a length of 65535 |
| WsTheorems.ParseIsRfc | dep/dpp/wsclient.cpp:172-264 | a frame is taken if and only if RFC 6455 finds a whole unmasked one at the front, and it is that frame: opcode 9 is handed on as a ping, 10 as a pong, 0, 1 and 2 as data |
| WsTheorems.FailsExactly | dep/dpp/wsclient.cpp:245-262 | a close frame is reported with the code it carries, and an unknown opcode with 0, both directions |
| WsTheorems.GivesUpExactly | dep/dpp/wsclient.cpp:213-229 | the only lengths not followed are those that pass 2^64 with their header |
| WsTheorems.DrainSplit | dep/dpp/wsclient.cpp:159-161 | a stream cut in two gives what the whole gives, on any bytes at all |
| WsTheorems.SplitInvariance | dep/dpp/wsclient.cpp:159-161 | frames and residual buffer depend only on the concatenated bytes |
| WsTheorems.DrainSettles | dep/dpp/wsclient.cpp:159-161 | the residual buffer yields nothing more by itself |
| WsTheorems.FramesArrive | dep/dpp/wsclient.cpp:172-264 | every stream of unmasked data, ping and pong frames is handed on, a last frame of at most one byte excepted |
| WsTheorems.FramesArriveHoweverCut | dep/dpp/wsclient.cpp:159-264 | the same for any cut, with both directions of when nothing is held back |
| WsTheorems.CloseBehindFrames | dep/dpp/wsclient.cpp:159-253 | however a stream is cut, the frames before a close frame are handed on and its code is reported |
| WsTheorems.MaskedFrameSpins | dep/dpp/wsclient.cpp:159-195 | on any buffer the loop has no end exactly when a masked frame of a known kind is at the front of what it leaves, which is exactly when one stands behind whole unmasked frames |
| WsTheorems.MaskedBehindFramesSpins | dep/dpp/wsclient.cpp:159-195 | however a stream is cut, the frames before a masked one are handed on and then the loop has no end |
| WebSocket.FillHeader | dep/dpp/wsclient.cpp:72-105 | the header written into the array is the specified one and nothing behind it changes |
| WebSocket.WebSocketClient.ReadLength | dep/dpp/wsclient.cpp:197-224 | the length bytes are assembled to the big-endian number they hold, or found to be cut short |
| WebSocket.WebSocketClient.ParseHeader | dep/dpp/wsclient.cpp:172-264 | one frame is erased from the buffer and handed on, or nothing changes |
| WebSocket.WebSocketClient.HandleBuffer | dep/dpp/wsclient.cpp:122-165 | the loop hands on exactly the frames at the front of the buffer |
| Voice.ComparatorIsSerialExactly | dep/dpp/discordvoiceclient.cpp:77-114 | for a packet serially before another, the comparator plays it first exactly when its timestamp is smaller, or equal with no wrap between or a wrap inside the outer 5000 numbers |
| Voice.SerialWithinBoundary | dep/dpp/discordvoiceclient.cpp:82-114 | with equal timestamps and at most 5000 apart the comparator is serial order, across the wrap too |
| Voice.BoundaryIsTight | dep/dpp/discordvoiceclient.cpp:82-114 | one step further the order can turn round |
| Voice.ComparatorHasACycle | dep/dpp/discordvoiceclient.cpp:77-114 | three packets each played before the next in a circle: the comparator is no strict weak order |
| Voice.StrictWeakExactly | dep/dpp/discordvoiceclient.cpp:77-114 | the comparator is a strict weak order on a batch exactly when no timestamp has packets in all three of the first 5000 numbers, the last 5000 and those between |
| Voice.WindowIsSerial | dep/dpp/discordvoiceclient.cpp:77-114 | on distinct numbers in a window, with timestamps monotone in serial order, the comparator is the strict serial order |
| Voice.Playout | dep/dpp/discordvoiceclient.cpp:209-245 | for every batch the loop ends, plays each packet once, has one event for each number, stops at a packet and takes at most 65536 numbers per packet; a batch of distinct numbers in a window from the minimum, with monotone timestamps, is played in serial order with exactly its gaps concealed |
| Voice.OrderlyPlaysInOrder | dep/dpp/discordvoiceclient.cpp:209-245 | in a batch the comparator orders serially, each packet is played at its number and exactly the missing numbers before the last packet are concealed |
| Voice.WindowPlaysInOrder | dep/dpp/discordvoiceclient.cpp:209-245 | the same for every batch of distinct numbers in a window from the minimum with monotone timestamps |
| Voice.PlayoutIsDetermined | dep/dpp/discordvoiceclient.cpp:209-245 | however the priority queue arranges its elements, such a batch sounds the same |
| Voice.PriorityQueue.Pop | dep/dpp/dpp/discordvoiceclient.h:202-208 | one occurrence of the front goes, and the new front is best wherever the comparator is an order |
| Voice.ParkingLot.Park | dep/dpp/discordvoiceclient.cpp:718-748 | a packet is dropped exactly when it is behind the range in both number and time; otherwise it is queued and becomes the range's end |
| Voice.ParkingLot.Flush | dep/dpp/discordvoiceclient.cpp:158-191 | the range moves on; with no handler bound the batch is dropped, otherwise it is played, and the next batch starts where this one stopped exactly when the packet parked last was the latest |
| Conditions.ConditionEntry.IsValid | src/game/Conditions.cpp:784-862 | the answer and the new state of the entry are those of the check; a disabled entry is valid |
| Conditions.ConditionEntry.DisableCondition | src/game/Conditions.h:340 | the type becomes NONE and the reverse flag is toggled |
| Conditions.ConditionStorage.Load | src/game/ObjectMgr.cpp:9356-9373 | the table ends as the rows checked in order leave it, invalid ones erased |
| ConditionTheorems.LoadCloses | src/game/ObjectMgr.cpp:9361-9373 | after the load every checked reference leads to an earlier row that is still there, although rows were erased |
| ConditionTheorems.KeptExactly | src/game/Conditions.cpp:784-862 | a row survives the load exactly when it passes against the rows before it that did |
| ConditionTheorems.CheckByNumber | src/game/Conditions.cpp:784-862 | which rows pass the load check, in the numbers of the database, and what disabling makes of one |
| ConditionTheorems.LoadedIsSoundExactly | src/game/Conditions.cpp:784-862 | all references lead back exactly when the third and fourth values of the NOT rows do |
| ConditionTheorems.NotOfItselfDoesNotReturn | src/game/Conditions.cpp:152-162 | any NOT row whose third value is itself passes the check and its evaluation never comes back |
| ConditionTheorems.MeetsIsTheFormula | src/game/Conditions.cpp:124-184 | on a sound table Meets comes back within as many nested calls as the row's number and says what the unfolded formula says |
| ConditionTheorems.RequirementsByNumber | src/game/Conditions.cpp:50-121 | the table of what each condition asks of its params, number by number |
| ConditionTheorems.FitsExactly | src/game/Conditions.cpp:708-782 | which kinds of source, target and map each requirement accepts |
| ConditionTheorems.MeetsByNumber | src/game/Conditions.cpp:124-184 | one row of a sound table in the numbers of the database: conditions -3 to 0, flag bits 1 and 2, and the guard, from what the rows it names say |
| ConditionTheorems.AskedInOrder | src/game/Conditions.cpp:148-184 | on any table a junction asks its third, fourth, first and second value in this order as far as it must, and does not come back when the deciding one does not |
| ConditionTheorems.LoadedTableEvaluates | src/game/ObjectMgr.cpp:9356-9373 | for a table whose NOT rows leave their third and fourth value zero, every row the load keeps evaluates for all params and means its unfolded formula |
| ConditionTheorems.LeafSeesTheParity | src/game/Conditions.cpp:129-130 | a predicate sees source and target swapped exactly when an odd number of rows on its path swap them |
| ConditionTheorems.OnlyTheCallsCount | src/game/Conditions.cpp:148-184 | the result depends on the predicates only through those calls |
| ConditionTheorems.ReverseIsNotExactly | src/game/Conditions.cpp:132-144 | the reverse flag does what a NOT row around the condition does exactly when the parameter check passes |
| ConditionTheorems.DisabledIsNeverTrueExactly | src/game/Conditions.h:340 | a disabled condition does what a predicate that is never true would do exactly when the parameters fit or the flag is not set |
| CreatureGroups.CreatureGroup.RespawnAll | src/game/CreatureGroups.cpp:163-173 | although respawning calls back into the group, the call ends, restores both guards and respawns exactly the eligible members in guid order, then the original leader |
| CreatureGroups.CreatureGroup.Respawn | src/game/CreatureGroups.cpp:175-210 | under the guard nothing happens; otherwise an eligible creature is respawned once and nothing its callbacks do respawns another |
| CreatureGroups.CreatureGroup.OnMemberAttackStart | src/game/CreatureGroups.cpp:44-55 | the call ends, restores both guards and brings in exactly the able members in guid order, then the original leader |
| CreatureGroups.CreatureGroup.MemberAssist | src/game/CreatureGroups.cpp:212-236 | an able creature assists once; none does under the guard |
| CreatureGroups.CreatureGroup.OnRespawn | src/game/CreatureGroups.cpp:143-161 | an original leader that was not leading takes over and restarts the members before anything else; the others respawn if the option says so; the leader changes and orders are given in no other way than by callbacks that do the same |
| CreatureGroups.CreatureGroup.OnLeaveCombat | src/game/CreatureGroups.cpp:115-141 | the orders to evade come first and are exactly the specified ones, and all respawn as the options and the original leader's evading say |
| CreatureGroups.CreatureGroup.OnMemberDied | src/game/CreatureGroups.cpp:57-113 | the original leader and the members are told of the death as the options say, in order, and then the new leader and every movement order given are those of the succession rule |
| CreatureGroups.CreatureGroup.FindSuccessor | src/game/CreatureGroups.cpp:82-96 | the loop finds the first other member in guid order that lives in the world, or that there is none |
| CreatureGroups.CreatureGroup.AddMember | src/game/CreatureGroups.cpp:26-42 | anyone but the leader is let in; the original leader stays outside the members exactly when it is not added while another leads |
| CreatureGroups.CreatureGroup.RemoveTemporaryLeader | src/game/CreatureGroups.cpp:238-248 | the original leads again, the member is gone, and the others are told in order |
| CreatureGroups.CreatureGroup.Leave | src/game/Objects/Creature.cpp:3990-4009 | a leaving temporary leader hands back to the original |
| CreatureGroupTheorems.RespawnAllReachesEachOnce | src/game/CreatureGroups.cpp:163-185 | a respawned creature is never respawned twice in one call, and those reached are exactly the others in the world whose respawn time is to come and whose spawn is not forbidden |
| CreatureGroupTheorems.AttackStartReachesEachOnce | src/game/CreatureGroups.cpp:44-55 | the same for assisting: exactly the others in the world, alive, without a victim and with an AI |
| CreatureGroupTheorems.EvadersExactly | src/game/CreatureGroups.cpp:115-136 | with the option set exactly the other members in the world, in combat and with an AI are told to evade, in guid order, then the original leader on the same terms; and when it counts as evading |
| CreatureGroupTheorems.ReturnExactly | src/game/CreatureGroups.cpp:143-155 | on the return of a leader that was not leading exactly the living members in the world restart, in guid order; otherwise nothing |
| CreatureGroupTheorems.NoticesExactly | src/game/CreatureGroups.cpp:57-73 | exactly who is told of a death, and as whose |
| CreatureGroupTheorems.HandOverExactly | src/game/CreatureGroups.cpp:75-112 | exactly which movement orders a death brings: the new leader's first, then one for each other living member in the world |
| CreatureGroupTheorems.OptionBits | src/game/CreatureGroups.h:29-36 | each option by its bit |
| CreatureGroupTheorems.CallsKeepTheLeader | src/game/CreatureGroups.cpp:44-236 | a group call with all its callbacks keeps who may lead, and keeps the leader unless a callback reports the original one |
| CreatureGroupTheorems.Die | src/game/CreatureGroups.cpp:57-113 | the class does the state machine's step for a death |
| CreatureGroupTheorems.Leave | src/game/Objects/Creature.cpp:3990-4009 | and for a leaving |
| CreatureGroupTheorems.Join | src/game/CreatureGroups.cpp:26-42 | and for a joining |
| CreatureGroupTheorems.Return | src/game/CreatureGroups.cpp:143-161 | and for a return, whatever its callbacks do |
| CreatureGroupTheorems.LeaderIsSafe | src/game/CreatureGroups.cpp:57-161 | at every moment of every run in which the group is told of every return of the original leader, a leader other than the original means the original is dead |
| CreatureGroupTheorems.LeaderIsKnown | src/game/CreatureGroups.cpp:57-161 | at every moment of every run, whatever happens behind the group's back, the leader is the original or a member |
| CreatureGroupTheorems.UntoldReturnIsLedPast | src/game/Spells/SpellEffects.cpp:709 | the first return the group is not told of leaves the original leader alive and following |
| CreatureGroupTheorems.ReturnInPlace | src/game/Spells/SpellEffects.cpp:709 | a run in which that happens |
| CreatureGroupTheorems.LeaderInvStepExactly | src/game/CreatureGroups.cpp:57-161 | every death, return, leaving, joining and report keeps that, and a change behind the group's back does exactly when it does not leave the original leader alive while another leads |
| CreatureGroupTheorems.DeathHandsOver | src/game/CreatureGroups.cpp:75-112 | after a formation leader dies with a waypoint-walking original present, the first living member in the world leads, or the original if there is none |
| CreatureGroupTheorems.SuccessorIsFirst | src/game/CreatureGroups.cpp:75-112 | the succession rule picks the least able guid |
| CreatureGroupTheorems.RemoveMemberKeepsExactly | src/game/CreatureGroups.cpp:250-258 | removing a member keeps the leader known exactly when it is not the temporary leader |
| CreatureGroupTheorems.AddMemberKeepsExactly | src/game/CreatureGroups.cpp:26-42 | adding a member keeps the invariant exactly when it is not the original leader |
| Ordered.InOrderIsSorted | src/game/CreatureGroups.h:91 | the order a std::map is walked in lists each key once, increasing |
| Cameras.WorldObject.CameraCall | src/game/Camera.h:95-105 | each camera of the list is called once and in order, the iterator never stands on a node that is gone, and those that go leave the rest in order |
| Cameras.WorldObject.EventAddedToWorld | src/game/Camera.h:115-119 | every camera of the object is linked to the new grid, no other changes |
| Cameras.WorldObject.EventGridChanged | src/game/Camera.h:127-131 | every camera of the object is relinked to the new grid, no other changes |
| Cameras.WorldObject.EventRemovedFromWorld | src/game/Camera.h:121-125 | foreign cameras go home and are relinked there; only the object's own remain exactly when every foreign owner is in the world |
| Cameras.WorldObject.EventViewPointVisibilityChanged | src/game/Camera.h:133-136 | exactly the cameras whose owner no longer sees the object go home |
| Cameras.Camera.SetView | src/game/Camera.cpp:58-98 | the camera moves from one list to the end of the other and is relinked, or nothing changes; all lists stay right |
| Cameras.Camera.ResetView | src/game/Camera.cpp:106-109 | the camera comes home exactly when it is away and its owner is in the world |
| Cameras.Camera.Handle | src/game/Camera.cpp:100-135 | what each event handler does to source, lists and link |
| Cameras.RewiringKeepsWired | src/game/Camera.cpp:76-90 | moving a camera between lists keeps each camera once in its source's list and in no other |
| Cameras.CallStep | src/game/Camera.h:95-105 | one step of the walk: the element called stays or goes, and the iterator's node is the next to be called |
| CameraRuns.Leave | src/game/Objects/Unit.cpp:9133-9160 | after an object has left the world only its own camera is on it, and the invariant of the whole world holds |
| CameraRuns.ForeignOwnersAreInTheWorld | src/game/Camera.cpp:58-98 | in every world these steps lead to, a camera on another object has its owner in the world and on the same map |
| CameraRuns.Enter | src/game/Camera.h:115-119 | entering a map keeps the invariant |
| CameraRuns.SetView | src/game/Camera.cpp:58-98 | changing a view keeps the invariant: a camera looks away only at something in its owner's map |
| CameraRuns.ChangeVisibility | src/game/Camera.cpp:100-104 | losing sight of an object keeps the invariant and leaves only cameras that see it |
| CameraRuns.AttachCamera | src/game/Camera.cpp:29-32 | the constructor keeps the lists, and the grid links exactly when the player has no grid yet |
| Permissions.BaseBit | dep/dpp/guild.cpp:590-614 | a bit of the base permissions, by owner, administrator and roles |
| Permissions.FirstExactly | dep/dpp/guild.cpp:629-634 | an overwrite is found exactly when it is the earliest with that id and that kind |
| Permissions.OverwrittenBit | dep/dpp/guild.cpp:616-729 | a bit in a channel: the member's overwrite beats those of its roles, they beat everyone's, that beats the base, and allow beats deny at each level |
| Permissions.RoleOrderDoesNotMatter | dep/dpp/guild.cpp:600-712 | the order of roles and duplicates make no difference |
| Permissions.OverwritesCountWithoutEveryone | dep/dpp/guild.cpp:597-599 | without the everyone role the base is empty but overwrites still grant |
| Permissions.Guild.BasePermissionsOf | dep/dpp/guild.cpp:590-614 | the loop over roles computes the specified base |
| Permissions.Guild.PermissionOverwritesOf | dep/dpp/guild.cpp:676-729 | the nested loops compute the specified permissions |
| Permissions.Guild.PermissionOverwritesOfUser | dep/dpp/guild.cpp:616-674 | the same by user; none for a null user or channel or an unknown member |
| Permissions.Guild.BothOverloads | dep/dpp/guild.cpp:616-729 | for every member in the cache both overloads give the specified permissions; for anyone else none |
| Accounts.AccountMgr.CheckInstanceCount | src/game/AccountMgr.cpp:659-686 | the answer, and which one expired entry goes when there is no room |
| Accounts.AccountMgr.AddInstanceEnterTime | src/game/AccountMgr.cpp:688-700 | the entry is stored for that account alone |
| Accounts.InstancesPerHourAreCapped | src/game/AccountMgr.cpp:659-700 | over every history, at every later moment, no more distinct instances than the cap were entered in the last 3600 seconds, a cap of 0 counting as 1 |
| Accounts.CapIsKeptExactly | src/game/AccountMgr.cpp:659-700 | every history keeps the configured cap itself exactly when it is not 0 |
| Accounts.CheckIsExact | src/game/AccountMgr.cpp:659-700 | over every history the check refuses exactly who was not in that instance in the last 3600 seconds while the cap was used up in them, whatever expired entries are still stored |
| Accounts.ZeroCapLetsOneIn | src/game/AccountMgr.cpp:661-663 | the history that breaks a cap of 0 |
| Accounts.AccountPersistentData.CanMail | src/game/AccountMgr.cpp:778-792 | the loop counts the recipients within the expiry; a known one is always allowed |
| Accounts.FirstMailsAreCapped | src/game/AccountMgr.cpp:773-792 | over every history, any stretch as long as the expiry holds at most the allowed number of first mails |
| Accounts.MailCheckIsExact | src/game/AccountMgr.cpp:773-792 | over every history a mail is refused exactly to an account never written to while the allowed number were written to within the expiry |
| Utf8.Utf8Len | dep/dpp/utility.cpp:257-293 | the goto loop counts the steps up to the first NUL, or reads past the terminator |
| Utf8.LengthCountsCodePoints | dep/dpp/utility.cpp:257-293 | on every valid UTF-8 string the length is the number of code points before the first NUL |
| Utf8.ZeroExactly | dep/dpp/utility.cpp:257-293 | the length is 0 exactly for a string without a first character, so not for invalid text |
| Utf8.InvalidIsCounted | dep/dpp/utility.cpp:277-287 | invalid strings with a length of 1 and with a read past the terminator |
| Utf8.OverreadExactly | dep/dpp/utility.cpp:272-290 | the terminator is passed exactly when a first byte that the steps reach promises more bytes than there are |
| Utf8.AsciiEndIsSafe | dep/dpp/utility.cpp:272-290 | no string whose last three bytes are ASCII is read past its end |
| Utf8.FirstBytes | dep/dpp/utility.cpp:277-319 | what both loops make of each first byte, valid or not |
| Utf8.Utf8Substr | dep/dpp/utility.cpp:295-328 | the loop finds the two character offsets and cuts what they say |
| Utf8.SubstrIsRightExactly | dep/dpp/utility.cpp:295-328 | the code points asked for come out exactly when none are, or they reach the end, or they start at 0 and stop before any NUL |
| Utf8.InvalidGivesNothing | dep/dpp/utility.cpp:303-319 | behind any valid text, a byte that starts no character makes the result empty |
| Utf8.ValidateKeepsBounds | dep/dpp/utility.cpp:343-351 | validate throws exactly below the minimum and otherwise returns the prefix that keeps to the maximum; it keeps to the minimum too exactly when the bounds are in order |
| Utf8.Validate | dep/dpp/utility.cpp:343-351 | validate does what the specified check does |
| Escaping.UrlEncode | dep/dpp/utility.cpp:413-431 | the loop stays within the reserved buffer and the C string read back is the whole encoding |
| Escaping.OnlyUrlCharacters | dep/dpp/utility.cpp:413-431 | only unreserved characters and percent signs come out, within three for each byte, never a NUL |
| Escaping.UrlRoundTrip | dep/dpp/utility.cpp:413-431 | RFC 3986 percent-decoding gives every byte string back |
| Escaping.EncodedByByte | dep/dpp/utility.cpp:411-431 | wherever it stands, an unreserved character stays as it is and any other byte becomes a percent sign and its two upper-case digits |
| Escaping.MarkdownEscape | dep/dpp/utility.cpp:464-504 | the state machine writes the specified text |
| Escaping.EscapingMakesPlain | dep/dpp/utility.cpp:464-504 | with code blocks escaped a reader sees the text with exactly the acting characters made plain, from every position and state |
| Escaping.MarkdownRoundTrip | dep/dpp/utility.cpp:464-504 | taking the backslashes away gives every text back |
| Escaping.EscapingKeepsBlocks | dep/dpp/utility.cpp:464-504 | with code blocks left alone, as by default, a reader finds the same blocks, code unchanged inside them, and outside exactly the acting characters made plain |
| Escaping.BlocksRoundTrip | dep/dpp/utility.cpp:464-504 | and taking away the backslashes outside the blocks gives every text back |
| Escaping.BlocksMatterExactly | dep/dpp/utility.cpp:464-504 | the choice makes a difference exactly when there is a backtick |

## Left out

- Sockets, TLS, zlib, opus and sodium: byte deliveries, decoded audio and responses are inputs.
- Compressed terms of the External Term Format are reported and not followed. What a textual float scans to is a parameter, and doubles are 64-bit patterns.
- JSON integers above 2^63 - 1: the value type holds signed 64-bit integers.
- Which of several errors the map decoder reports first.
- The 60-second deletion timer of the queue, `add_request_threads`, and the sleep while the global limit is set; the limit itself stops new passes.
- The order in which a worker visits its endpoints: the model allows any.
- The header phases of HTTP and WebSocket, which stop before looking at bytes that came with the headers.
- Lengths of WebSocket frames within ten of 2^64, where adding the header size wraps, are reported and not followed further; so is the endless loop on a masked frame.
- HttpChunked.HttpsClient.HandleBuffer: sizes and the count of received bytes are unbounded once a size below 2^31 has been read.
- Decoder settings, and which of the decoder's calls yield samples.
- The single predicates of a condition, what makes their values valid, and the rewriting of a field number in one of them; references of the two predicates that hold one are not followed.
- The kind of caller passed to `Meets`, used for messages only.
- CreatureGroups.CreatureGroup.Respawn: where a formation member is put when it respawns.
- CreatureGroups.CreatureGroup.OnMemberDied: what AI scripts do when they are told of a death, and the last waypoint reached.
- CreatureGroups.CreatureGroup.CallBack: calls that add or remove members while a loop walks them, and calls that kill, move or engage other members: respawning changes only the creature's own respawn time, and being attacked only its own victim.
- Disbanding and loading of groups, distances and angles in a formation, and leash timers.
- The camera's destructor, the active-object set, packets and the computation of visibility.
- Permissions.Guild.BasePermissionsOf: the masks are sets of bit numbers, which says the same as 64-bit words.
- Entries by game masters, who are not checked, and checks and entries of one account that interleave between check and entry.
- Utf8.SubstrIsRightExactly: a start and a length whose sum passes 2^64 wrap; the method models it and the lemma leaves it out.
- Classes that fill themselves from JSON, script bridges and SQL tools: mapping and I/O.
