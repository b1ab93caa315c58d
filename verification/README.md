# Verified models of gnatsd's protocols

A Dafny model of the stateful core of this repository: the sliding-window transport between
peers (`swp/`), the server's subscription index with its two caches (`server/sublist.go`), the
zero-copy protocol parser (`server/parser.go`), the life of subscriptions and messages on one
server and in a cluster (`server/client.go`, `server/route.go`), leader election
(`health/`), the transport's connection handshake (`swp/tcp.go`), database compaction
(`peer/compact.go`) and the file-chunk codec (`peer/streambigfile/sbf.pb.go`).

Where the source updates objects in place the model has a class whose methods are proved equal
to a step of a value-level specification; the theorems are about that specification, over every
run. A module named `…State` holds the classes of a component.

## Main results

* **Sliding window.** Two endpoints and a network that loses, repeats, delays and reorders
  packets. In every run what the application reads on one side is an initial part of the payloads
  written on the other (`SwpStreams`), the frames delivered are exactly the first ones sent, the
  unacknowledged frames are exactly an interval below the last one sent and no wider than the
  window, an acknowledged frame other than frame 0 was consumed, and no panic of the send or
  receive loops can fire (`SwpSession`). The window makes headway: an arrival delivers exactly the
  frames that waited for it, what is consumed is acknowledged and released, and every run can be
  brought to the point where all that was sent has been read (`SwpProgress`).
* **Subscription index.** A match returns every live subscription whose tokens match, as often as
  it is live, and nothing else; this holds for the trie, for the server's cache and for any
  client's cache of the current generation, in every history of inserts, removals, matches,
  cache resets and evictions. Without refused subjects the trie has a node exactly where the path of a
  live subscription passes (`SublistModel`).
* **Parser.** Any sequence of well-formed protocol frames, cut into reads anywhere, yields
  exactly the operations of those frames, with the arguments and payloads as written, although
  arguments and payloads live in the read buffer, in a shared scratch array or on the heap
  (`WireChunks`). A word that is no keyword, or a line whose arguments do not fit, ends the
  connection at the byte that is wrong, however the stream is cut (`WireErrors`).
* **Lifecycle.** In every run nothing is sent beyond a subscription's limit or twice and the index
  and caches stay coherent; the index holds exactly the subscriptions of open clients in every run
  over given subjects if and only if the byte-level matcher misses no match of the trie
  (`LifecycleSound`, `Lifecycle`). A publish writes one message to every matching plain subscription
  and to one member of each matching queue group, and to nobody else, over given subjects and
  literals if and only if that matcher misjudges none of them (`LifecycleDelivers`).
* **Cluster.** One publish reaches every matching plain subscription of the cluster once and one
  member of every matching queue group (`Cluster`).
* **Election.** The leader that remains after any number of offers has the lowest rank of the
  candidates, and the first id, host, port and process among those of that rank, whatever the order
  of the offers; grants of leadership by one agent are at least a lease and the clock
  skew apart, and a round announces a change of the membership exactly if somebody was lost or
  gained (`Election`, `ElectionRounds`).
* **Handshake.** With any loss, repetition and reordering, an established side knows its peer's
  nonce, the listener is established only if the connector was, a closed side stays closed, and
  an event takes at most two passes of the event loop (`Handshake`). As long as neither side has
  stopped the session can be opened from every state, and a FIN closes it (`HandshakeProgress`).
* **Compaction.** The copy equals the source whatever the batch size, and what is committed at any
  time is the result of a prefix of the walk, in batches as large as the limit allows (`Compaction`).
* **Codec.** Decoding what was encoded gives the message back, the announced size is the number
  of bytes written, the bytes are those written out field by field (`Protobuf`), and fields of other
  versions are passed over (`ProtobufUnknown`).

## Where the code does not keep its promise

Each of these has an exact condition in the model; the inputs or runs that fail are stated on their
own or built in the proof.

* `swp/sender.go`: acknowledgement numbers start at 0 and frames are numbered from 0, so a
  keepalive sent before anything was consumed makes the peer forget frame 0
  (`SwpFrameZero.FrameZeroLost`). What is forgotten is never sent again, whatever happens later
  (`SwpFrameZero.RunForgets`). `SwpFrameZero.FrameZeroExactly` gives the condition under which an
  arriving packet has this effect; `SwpSession.RunAckSafety` holds for every later frame.
* `swp/sender.go`: the send gate trusts the capacity the peer announces. It keeps frames that may
  still have to be resent from being overwritten, in every state, exactly if that capacity is no
  larger than the sender's own window (`SwpSender.GateExactly`).
* `server/sublist.go`: `matchLiteral`, which keeps the cache up to date, and the trie disagree on
  some subjects with a wildcard character inside a token and on literals that are empty or end in a dot.
  `Subjects.SubjectExactly`, `Subjects.LiteralExactly` and `SublistModel.StaleExactly` state which.
  `Lifecycle.MissedBreaks` follows the consequence to a subscription that loses its map entry.
* `swp/recv.go`: `LastByteConsumed` is a count, and `UpdateControl` adds one to it as if it were an
  index, so the byte capacity advertised is right exactly as long as nothing was consumed and one
  byte too large from then on (`SwpReceiver.AdvertisedExactly`).
* `server/client.go`: with a cached result a publish goes by the byte-level matcher. It reaches
  exactly the matching subscriptions, in every run, if and only if that matcher judges them all as
  the trie does (`LifecycleDelivers.DeliveryExactly`); `LifecycleDelivers.MisjudgedFails` is the
  failing run.
* `server/sublist.go`: a refused `Insert` leaves nodes behind unless its path was there before
  (`Trie.RefusedInsert`).
* `server/route.go`: a subscription id with a form feed in it does not survive `routeSid` and
  `routeSidQueueSubscriber` (`RouteSids.RouteSidExactly`), so a queue copy misses its
  subscription exactly then (`Cluster.QueueRoutedExactly`), and may be lost (`Cluster.FormFeedLoses`).
* `health/btree.go`: `setsEqual` decides equality with every other set exactly if its first
  argument has no entry without id (`Election.SetsEqualExactly`, `Election.NobodyFools`). The
  heartbeat loop never reaches the bad case: on the sets it compares, `setsEqual` is right without
  condition (`ElectionRounds.RoundsCompared`).
* `health/health.go`: the comment on `setLeader` says that it answers with the rank comparison. The
  code also lets an agent that ranks behind take over once the leader's lease has expired
  (`Election.BehindExample`, `Election.BehindTakesOver`); `Election.RankDecidesExactly` states when
  comment and code agree. The model follows the code.

## Model

| member | source | states |
|---|---|---|
| Retree.InsertItems | swp/retree.go:23-26 | inserting a slot whose frame is not in the tree adds that slot and nothing else |
| Retree.InsertSorted | swp/retree.go:23-56 | insertion keeps the tree in order, by deadline or by sequence number |
| Retree.DeleteItems | swp/retree.go:27-30 | deleting a slot that is in an ordered tree removes that slot and nothing else, although the tree finds it by comparison |
| Retree.DeleteSorted | swp/retree.go:27-56 | deletion keeps the order |
| Retree.SortedUnique | swp/retree.go:44-56 | the items of a tree determine it: both comparisons are strict orders on slots |
| SwpSender.TrackedSlots | swp/sender.go:119-182 | a valid sender's sequence tree lists consecutive frames from the lowest unacknowledged one, and both trees hold the same slots |
| SwpSender.NextSlotFree | swp/sender.go:445-456 | the window slot of the next frame is not occupied by an unacknowledged frame, so nothing is overwritten |
| SwpSender.SlotFreeExactly | swp/sender.go:445-456 | the slot of the next frame is free exactly if fewer frames than slots are unacknowledged |
| SwpSender.GateExactly | swp/sender.go:232-240 | the send gate protects unacknowledged frames in every state if and only if the capacity the peer announced is at most the window |
| SwpSender.AcceptExactly | swp/sender.go:186-237 | the gate is open exactly while the unacknowledged frames are fewer than the messages, and their bytes fewer than the bytes, the peer last announced, measured on the send history and not on the trees |
| SwpSender.OrigDataSendValid | swp/sender.go:445-511 | sending a new frame while a window slot is free keeps the sender valid, uses a slot neither tree refers to, and leaves the lowest unacknowledged frame alone |
| SwpSender.AckDropsPrefix | swp/retree.go:76-93 | a cumulative acknowledgement removes an initial part of the tracked frames, of exactly the length the number covers |
| SwpSender.GotPackValid | swp/sender.go:332-380 | handling an arriving packet keeps the sender valid and drops exactly the covered frames from both trees; the panic on different sizes cannot fire |
| SwpSender.ExpiredExactly | swp/sender.go:278-290 | the frames sent again are exactly the unacknowledged ones whose deadline has passed |
| SwpSender.RetryResends | swp/sender.go:278-320 | a retry changes no frame, counts the retry of the expired ones only and touches no other slot |
| SwpSender.ReinsertSends | swp/sender.go:293-320 | one packet per expired slot goes out, in order, carrying that slot's frame and the current flow-control figures |
| SwpSender.RetryRefreshes | swp/sender.go:293-320 | the packet sent for an expired slot has the slot's frame, one more retry and the current flow figures, and stays in the slot under its new deadline |
| SwpSender.RetryTickValid | swp/sender.go:278-320 | a retry tick keeps the sender valid |
| SwpSenderState.SenderState.constructor | swp/sender.go:109-182 | a new sender is the initial state |
| SwpSenderState.SenderState.ComputeInflight | swp/sender.go:186-193 | counts the unacknowledged messages and the sum of their lengths |
| SwpSenderState.SenderState.DoOrigDataSend | swp/sender.go:445-511 | numbers the frame, fills its slot and inserts it into both trees; with a free slot the result is the specified send and the sender stays valid |
| SwpSenderState.SenderState.DeleteThroughSeqNum | swp/retree.go:76-93 | removes exactly the covered initial part from the sequence tree and the same slots from the deadline tree |
| SwpSenderState.SenderState.DeleteThroughDeadline | swp/retree.go:57-74 | returns the expired slots in order, leaves the others in order, and takes the same slots out of the sequence tree |
| SwpSenderState.SenderState.Retransmit | swp/sender.go:293-320 | one slot gets its new deadline, flow figures and retry count and goes back into both trees |
| SwpSenderState.SenderState.RetransmitAll | swp/sender.go:293-320 | the loop sends and reinserts as specified and the sequence tree is what it was before the expired slots were taken out |
| SwpSenderState.SenderState.RetryTick | swp/sender.go:278-320 | the whole wake-up, in place, equals the specified retry and keeps the sender valid |
| SwpSenderState.SenderState.GotPack | swp/sender.go:332-380 | the number of frames dropped is the number covered, the two trees keep equal size, and the sender stays valid |
| SwpReceiver.InitValid | swp/recv.go:112-164 | a new receiver is valid for the empty history |
| SwpReceiver.NoteArrivalValid | swp/recv.go:431-440 | for a frame of the peer's history neither cumulative-byte panic fires and the counters stay exact |
| SwpReceiver.UpdateControlValid | swp/recv.go:573-585 | recomputing the advertised capacities keeps the receiver valid |
| SwpReceiver.DrainValid | swp/recv.go:527-545 | the in-order loop ends after at most as many turns as slots are filled, and leaves no deliverable frame behind |
| SwpReceiver.AcceptDataValid | swp/recv.go:490-555 | a data frame, in or out of the window, keeps the receiver valid and moves the expected frame by at most the window |
| SwpReceiver.AcceptDataExactly | swp/recv.go:490-555 | what an arrival does, by fields: the expected frame is received and queued together with exactly the frames that waited in the slots of the following numbers up to the first empty one; a later frame of the window ends in its own slot; outside the window only the discard count changes |
| SwpReceiver.ExpectedArrives | swp/recv.go:522-545 | the expected frame and the frames that waited for it join history and queue in order, their slots are empty afterwards, and nothing else changes |
| SwpReceiver.AdvertisedExactly | swp/recv.go:573-580 | the message capacity is the window less the frames heard of and not consumed, the byte capacity the byte window less the bytes heard of and not handed out, one byte too many once anything was consumed |
| SwpReceiver.ConsumeValid | swp/recv.go:772-821 | consuming bytes of the first ready packet extends what went out by exactly that many bytes of the stream |
| SwpReceiver.FillValid | swp/recv.go:772-821 | a read hands out as many bytes as there is room for or everything that is ready |
| SwpReceiver.DeliverAllValid | swp/recv.go:335-352 | message delivery hands out everything ready and keeps the receiver valid |
| SwpReceiver.HistoryExtends | swp/sender.go:473-474 | the receiver stays valid when the peer sends more |
| SwpReceiver.OutIsPrefix | swp/recv.go:772-821 | the bytes handed out are an initial part of the peer's stream |
| SwpRecvState.RecvState.constructor | swp/recv.go:112-164 | a new receiver is the initial state |
| SwpRecvState.RecvState.NoteArrival | swp/recv.go:431-443 | the panics fire exactly when the specification has no successor; otherwise counters and capacities are the specified ones |
| SwpRecvState.RecvState.ReceiveData | swp/recv.go:490-555 | discards, keeps or drains as specified; stated by fields, the new state is the one `AcceptDataExactly` describes, and the loop takes as many turns as frames are received |
| SwpRecvState.RecvState.DrainTurn | swp/recv.go:532-545 | one turn moves one frame from its slot to the ready list and the history |
| SwpRecvState.RecvState.ConsumeFirst | swp/recv.go:772-821 | taking bytes of the first packet, whole or in part, is the specified consumption |
| SwpRecvState.RecvState.FillOne | swp/recv.go:772-821 | copies what fits of one packet behind what is in the buffer and leaves the rest of the read to do |
| SwpRecvState.RecvState.FillAsMuchAsPossible | swp/recv.go:772-821 | the caller's buffer holds exactly the next bytes of the stream; an acknowledgement goes out exactly if some packet was used up |
| SwpRecvState.RecvState.DeliverToConsumer | swp/recv.go:335-352 | delivers the ready list and leaves the specified state |
| SwpSession.MoveKeepsInv | swp/recv.go:360-556 | no step of either loop, with any packet that was ever sent, panics or leaves the session invariant |
| SwpSession.RunInv | swp/simnet.go:80-150 | the invariant holds after every run with loss, repetition and reordering |
| SwpSession.RunDelivers | swp/recv.go:527-545 | in every run the frames received in order are exactly the first frames the peer sent, and every buffered frame is one of the peer's in its own slot |
| SwpSession.RunPushed | swp/sender.go:445-511 | in every run the frames sent carry exactly the packets pushed, in order |
| SwpSession.RunStreams | swp/swp.go:533-556 | in every run what one application reads is an initial part of the packets the other pushed, all of them once the last frame is consumed, and the consumed-bytes counter is exact |
| SwpStreams.AllChunksBack | swp/swp.go:593-624 | the packets of a series of writes carry exactly the payloads |
| SwpStreams.RunWritten | swp/swp.go:533-636 | in every run in which one side pushes the packets of its writes, what the other has read is an initial part of the payloads written, and all of them once every packet is sent and the last is consumed |
| SwpSession.RunWindow | swp/sender.go:232-240 | in every run the tracked frames are exactly an interval ending at the last one sent, at most a window wide, and never a window ahead of the peer |
| SwpSession.RunAckSafety | swp/sender.go:352-372 | in every run a frame other than frame 0 that is no longer tracked was consumed by the peer's application |
| SwpSession.RunNeverPanics | swp/sender.go:374-380 | in every run no step panics and both trees hold the same slots |
| SwpSession.AlwaysSane | swp/sender.go:454-456 | in every run all slot indices and packet offsets are in range |
| SwpSession.TrackedIffInInterval | swp/sender.go:119-182 | a frame is tracked exactly if it lies between the lowest unacknowledged and the last sent one |
| SwpProgress.ExpectedMoves | swp/recv.go:522-545 | when the expected frame arrives, the side moves on past it |
| SwpProgress.RunCanFinish | swp/recv.go:490-545 | whatever a run lost, repeated or reordered, it can go on with arrivals and one read at the other side until that side has read exactly all that was pushed |
| SwpProgress.PushedIsRead | swp/sender.go:445-511 | after any run in which everything sent is consumed: a push, the arrival of its packet and a read of its length hand out exactly its bytes |
| SwpProgress.FirstExchange | swp/sender.go:445-511 | the same from the start, with the packet written out |
| SwpProgress.AckReports | swp/recv.go:591-625 | an acknowledgement carries the number of the last frame consumed and the capacities of `AdvertisedExactly` |
| SwpProgress.AckPublishes | swp/flow.go:87-98 | the sender half is given the same capacities, except negative ones |
| SwpProgress.ReadReports | swp/recv.go:772-821 | a read sends one acknowledgement if it ended a message, and none otherwise |
| SwpProgress.MessagesReport | swp/recv.go:335-352 | delivering messages sends one acknowledgement of the last one |
| SwpProgress.DiscardReports | swp/recv.go:505-520 | a frame outside the window is answered with an acknowledgement of what was consumed |
| SwpProgress.KeepAliveReports | swp/sender.go:513-560 | a keepalive sent after an expected frame came in acknowledges what was consumed by then |
| SwpProgress.ArrivalReleases | swp/sender.go:332-380 | after an arrival the frames still tracked are exactly those that were and lie beyond its acknowledgement |
| SwpProgress.ArrivalGates | swp/sender.go:232-346 | after an arrival the gate is open exactly as the capacities in that packet allow |
| SwpProgress.ConsumedIsReleased | swp/sender.go:352-372 | what the application takes is acknowledged by its number, and once the acknowledgement arrives exactly the frames after it are tracked |
| SwpProgress.RunHears | swp/recv.go:431-436 | the receiver knows the highest frame number that has arrived |
| SwpProgress.RunAdvertises | swp/recv.go:573-625 | after any run an acknowledgement states the last frame consumed and both capacities, in terms of what arrived, was consumed and was handed out |
| SwpProgress.TickResends | swp/sender.go:278-320 | a tick after a tracked frame's deadline puts the frame into the network once more and gives it one of the new deadlines |
| SwpFrameZero.FrameZeroExactly | swp/sender.go:352-372 | an arriving packet makes the sender forget an unconsumed frame if and only if it carries a number of at least 0 while frame 0 is tracked and nothing was consumed |
| SwpFrameZero.DropsOnlyZero | swp/sender.go:352-372 | the same for any pair of endpoints in the invariant |
| SwpFrameZero.FrameZeroLost | swp/sender.go:513-560 | a three-step run in which a keepalive makes the sender forget frame 0 before it arrived |
| SwpFrameZero.RunForgets | swp/sender.go:278-320 | after every run and every continuation, a frame that was sent and is no longer tracked is in no packet that side sends |
| SwpWrite.Write | swp/swp.go:579-636 | the pieces concatenate to the payload; each but the last is as long as the limit, and the last is not empty |
| SwpWrite.ChunkSize | swp/swp.go:593-604 | the smaller of the byte window and half a megabyte, which also replaces a negative window |
| SwpWrite.ChunksBack | swp/swp.go:606-624 | the pieces of a payload concatenate to it |
| Subjects.JoinSplit | server/sublist.go:86-96 | joining the tokens of a subject gives the subject back |
| Subjects.SplitJoin | server/sublist.go:86-96 | splitting joined tokens gives the tokens back |
| Subjects.Tokenize | server/sublist.go:86-96 | the scanning loop cuts at every dot |
| Subjects.MatchLiteral | server/sublist.go:610-640 | the index loop computes the recursive byte-level relation |
| Subjects.AgreeTokens | server/sublist.go:610-640 | for subjects with whole-token wildcards byte-level and token-level matching agree |
| Subjects.SubjectExactly | server/sublist.go:610-640 | a valid subject is matched alike by both on every proper literal if and only if its wildcards have the stated shape |
| Subjects.LiteralExactly | server/sublist.go:610-640 | a literal is matched alike by both against all such subjects if and only if it is not empty and does not end in a dot |
| Results.FindQSliceForSub | server/sublist.go:264-274 | finds the first group with the subscription's queue name, or none exists |
| Results.RemoveSubFromList | server/sublist.go:416-427 | finds the subscription exactly if it is in the list and swaps it out |
| Results.AddSubTotal | server/sublist.go:135-144 | adding a subscription raises its number by one and no other's |
| Results.MergeTotal | server/sublist.go:245-258 | merging a node's lists adds up the numbers |
| Results.MergeKeeps | server/sublist.go:245-258 | groups stay non-empty, one per queue name |
| Results.RemoveSubTotal | server/sublist.go:430-454 | removal lowers the subscription's number by one and no other's |
| Results.RemoveSubFinds | server/sublist.go:430-454 | removal succeeds exactly if the subscription is there |
| Trie.InsertOk | server/sublist.go:104-108 | an insert is refused exactly if a token is empty or something follows a full wildcard |
| Trie.InsertSubs | server/sublist.go:100-144 | an insert adds at the subscription's own path and changes nothing at any other; a refused one changes nothing |
| Trie.RemoveSubs | server/sublist.go:312-413 | a removal takes from that path only, pruning included |
| Trie.RemoveFinds | server/sublist.go:312-376 | a removal succeeds exactly if the subject is valid and the subscription is stored at its path |
| Trie.MatchLevel | server/sublist.go:277-302 | the loop with its recursion computes the recursive collection |
| Trie.MatchTotal | server/sublist.go:277-302 | a match collects a subscription stored at one path as often as it is stored if the path matches the tokens, else not |
| Trie.MatchGrouped | server/sublist.go:245-302 | collected queue subscriptions are grouped by name |
| Trie.InsertLive | server/sublist.go:100-144 | an accepted insert leaves no branch without subscriptions |
| Trie.RemoveLive | server/sublist.go:366-413 | pruning leaves no branch without subscriptions |
| Trie.NoDeadMeans | server/sublist.go:394-413 | in a trie without empty branches every node lies on the way to a subscription |
| Trie.RefusedInsert | server/sublist.go:104-134 | a refused insert leaves no empty branch if and only if all nodes it walks through were there before |
| SublistModel.AnswerExact | server/sublist.go:203-242 | the trie's answer holds every subscription as often as it is live and matches, grouped by queue |
| SublistModel.RemoveExactly | server/sublist.go:312-376 | a removal succeeds exactly if the subscription is live |
| SublistModel.InsertValid | server/sublist.go:84-154 | an insert keeps the trie, the cache and the count right |
| SublistModel.RemoveValid | server/sublist.go:312-376 | so does a removal |
| SublistModel.MatchValid | server/sublist.go:203-242 | so does a match with its eviction, and its result is right for the subject |
| SublistModel.RunCoherent | server/client.go:1072-1100 | in every history the index and every client cache of the current generation are right |
| SublistModel.RunAnswers | server/client.go:1072-1100 | in every history over subjects with whole-token wildcards, trie, server cache and client cache give the full answer |
| SublistModel.RunCounts | server/sublist.go:146-147 | in every history the count is the number of live subscriptions, and without refused inserts no branch is empty |
| SublistModel.RunNodes | server/sublist.go:366-413 | in every history without refused inserts the trie has a node at a path if and only if the path begins the path of a live subscription |
| SublistModel.CachedExactly | server/sublist.go:169-242 | which subjects an operation leaves cached: inserting drops none, removing drops those its subject matches byte for byte, a miss enters its own and over the bound drops the one picked |
| SublistModel.RunBounded | server/sublist.go:233-239 | the index never caches more results than its bound |
| SublistModel.FillKept | server/client.go:1083-1100 | a client's lookup is at hand the next time in the same generation, unless pruning dropped it |
| SublistModel.CachedThenInserted | server/sublist.go:169-186 | a subscription inserted after a cached match is found through the cache if and only if both matchers agree on it |
| SublistModel.StaleExactly | server/sublist.go:169-186 | this holds for every proper literal if and only if the subject's wildcards have the stated shape |
| SublistState.Sublist.constructor | server/sublist.go:79-81 | a new index is empty |
| SublistState.Sublist.Insert | server/sublist.go:84-154 | accepts exactly the valid subjects, adds one live subscription, and keeps the index valid |
| SublistState.Sublist.AddToCache | server/sublist.go:169-186 | the loop over the cache adds to exactly the entries the byte-level test selects |
| SublistState.Sublist.Remove | server/sublist.go:312-376 | succeeds exactly if the subscription was live, removes one copy, and keeps the index valid |
| SublistState.Sublist.RemoveFromCache | server/sublist.go:190-199 | the loop over the cache deletes exactly the entries the byte-level test selects |
| SublistState.Sublist.Match | server/sublist.go:203-242 | returns a right result from cache or trie and keeps the index valid, whatever entry is evicted |
| SublistState.ClientCache.Lookup | server/client.go:1072-1100 | a client's lookup returns a right result and keeps its cache right, through resets and pruning |
| SublistState.ClientCache.Prune | server/client.go:1089-1099 | pruning only drops entries |
| WireArgs.SplitArg | server/client.go:726-747 | the loop finds the argument ranges of the specification |
| WireArgs.SplitSpaced | server/client.go:726-747 | splitting words joined by blanks gives the words back |
| WireArgs.ParseSize | server/util.go:24-36 | the loop computes the decimal value, or -1 |
| WireArgs.SizeOfDecimal | server/util.go:24-36 | reading a decimal numeral gives the number back |
| WireFrames.RunFrame | server/parser.go:84-704 | the byte-at-a-time machine turns one written frame, in any letter case and spacing, into its operations |
| WireFrames.RunFrames | server/parser.go:84-704 | the same for any sequence of frames |
| WireParser.AppendIs | server/parser.go:650-689 | appending to a saved slice extends its text and changes scratch only behind it |
| WireChunks.AppendKeepsArgs | server/parser.go:189-213 | appending payload bytes never changes the saved arguments |
| WireChunks.SaveKeepsPub | server/parser.go:664-690 | saving a split payload behind the saved arguments keeps both |
| WireChunks.PubAccepted | server/client.go:623-724 | a PUB or MSG line is accepted with its slices exactly if the publication it spells is acceptable: argument count, size and payload limit |
| WireChunks.PubSlices | server/client.go:623-724 | the slices made from an accepted line read as its subject, reply, id and size, and lie where later reads leave them alone |
| WireChunks.AnyTurn | server/parser.go:98-643 | each turn of the loop does what the machine does on the bytes it covers, jumps included |
| WireChunks.LoopKeepsSim | server/parser.go:98-643 | so does the whole loop over one buffer |
| WireChunks.ParseSim | server/parser.go:84-704 | so does one call, saved state at its end included, after which nothing refers to the buffer |
| WireChunks.ChunksRefine | server/parser.go:84-704 | any series of calls refines the machine on the concatenated bytes |
| WireChunks.FramesParse | server/parser.go:84-704 | frames cut into reads anywhere yield exactly their operations and leave the parser at rest with nothing saved |
| WireChunks.CutsDoNotMatter | server/parser.go:84-704 | two ways to cut the same protocol bytes yield the same operations |
| WireErrors.RefusedTurn | server/parser.go:98-643 | the turn at a byte no keyword continues with, or at the line feed of a line whose arguments are refused, is an error |
| WireErrors.StreamRefused | server/parser.go:84-704 | after a stream that is fine so far such a byte ends the connection, however the stream is cut into reads |
| WireErrors.LineRefusedExactly | server/client.go:623-724 | a line is refused exactly if the number of its arguments is wrong for its keyword, a size is no numeral, or a published payload exceeds the limit |
| WireErrors.BadLineStops | server/parser.go:163-183 | after any well-formed frames such a line ends the connection, wherever the reads end |
| WireErrors.LetterSpells | server/parser.go:101-640 | a letter is taken only if it continues what the state spells; MSG only from routes |
| WireErrors.SpelledIs | server/parser.go:101-640 | the state that letters lead to from the start of a line spells exactly those letters |
| WireErrors.UnknownWordStops | server/parser.go:101-640 | after any well-formed frames letters that begin no keyword end the connection at the first wrong one |
| WireErrors.LongLineStops | server/parser.go:645-662 | a control line that a later read takes past the limit without ending it ends the connection |
| WireState.ParseState.constructor | server/parser.go:17-25 | a new parser is the initial state |
| WireState.ParseState.CopyIn | server/parser.go:197-203 | copying into the scratch array is the specified copy |
| WireState.ParseState.AppendTo | server/parser.go:650-689 | appends in place when it fits the scratch array, else moves to the heap, as specified |
| WireState.ParseState.PubLine | server/parser.go:163-183 | with the slices of a PUB or MSG line made, state, offsets and jump are the specified ones; without them the parser stops |
| WireState.ParseState.LineFeed | server/parser.go:163-183 | the end of an argument line, with its jump for payloads, is the specified turn |
| WireState.ParseState.ArgByte | server/parser.go:163-188 | any byte of an argument is the specified turn |
| WireState.ParseState.WordByte | server/parser.go:101-640 | any byte of a keyword is the specified turn |
| WireState.ParseState.CopyBytes | server/parser.go:190-210 | copying payload bytes in bulk is the specified turn |
| WireState.ParseState.PayloadByte | server/parser.go:189-213 | any payload byte is the specified turn |
| WireState.ParseState.EndByte | server/parser.go:214-234 | the end of a payload hands on the operation as specified |
| WireState.ParseState.TurnAt | server/parser.go:98-643 | the whole switch is the specified turn in every state |
| WireState.ParseState.ClonePub | server/parser.go:720-738 | moving the publish arguments out of the read buffer is the specified move |
| WireState.ParseState.SaveMessage | server/parser.go:664-690 | saving a split payload is the specified save |
| WireState.ParseState.SaveLine | server/parser.go:645-662 | saving a split argument, with its length limit, is the specified save |
| WireState.ParseState.EndOfRead | server/parser.go:645-692 | the end of a buffer is as specified in every state |
| WireState.ParseState.Read | server/parser.go:84-704 | one call fails exactly when the specification does and leaves the specified state |
| WireState.ParseState.Serve | server/client.go:258-300 | reads carrying well-formed frames yield exactly their operations |
| Lifecycle.SubscribeKeeps | server/client.go:749-818 | a SUB, accepted, refused or repeated, keeps the books |
| Lifecycle.UnsubscribeKeeps | server/client.go:820-834 | unsubscribing keeps the books if the sid still names this subscription |
| Lifecycle.ProcessUnsubKeeps | server/client.go:836-885 | an UNSUB, with a limit or without, keeps the books |
| Lifecycle.CloseKeeps | server/client.go:1297-1338 | closing a connection, also in the middle of a delivery, keeps the books |
| Lifecycle.DeliverKeeps | server/client.go:903-1002 | a delivery that is written, fails or times out keeps the books |
| Lifecycle.DeliverAllKeeps | server/client.go:1138-1191 | so does the whole fan-out |
| Lifecycle.PublishKeeps | server/client.go:1005-1192 | so does a publish whose subject the byte-level test misses for no subscription |
| Lifecycle.RunKeeps | server/client.go:749-1338 | so does every run over subjects without a missed match |
| Lifecycle.MissedBreaks | server/client.go:820-834 | for every missed match there is a six-step run after which the books are wrong |
| Lifecycle.LifecycleExactly | server/client.go:749-1338 | the index holds exactly the subscriptions of open clients and limits are respected in every run over given subjects if and only if no match is missed |
| Lifecycle.RunLifecycle | server/client.go:749-1338 | this is so for subjects with whole-token wildcards and proper literals |
| LifecycleDelivers.SubscribeExactly | server/client.go:749-818 | a SUB makes its subscription live exactly if the connection is open, the sid is new and the subject valid, and changes nobody else |
| LifecycleDelivers.UnsubExactly | server/client.go:836-885 | an UNSUB sets the limit and ends exactly this subscription, at once if no messages are left to it |
| LifecycleDelivers.CloseExactly | server/client.go:1297-1338 | closing ends exactly the subscriptions of that connection |
| LifecycleDelivers.DeliverWrites | server/client.go:903-972 | a message within the limit, the last one included, is counted and written if the connection is open and takes it; a timeout closes that connection alone |
| LifecycleDelivers.PublishWrites | server/client.go:1005-1192 | a publish counts one message for every matching plain subscription and one member of each matching queue group, and for nobody else |
| LifecycleDelivers.PublishReaches | server/client.go:1138-1191 | with successful writes the log grows by exactly one entry for each of these, numbered one above the old count |
| LifecycleDelivers.PublishMixed | server/client.go:936-1002 | with any outcome of the writes the entries are those whose own write succeeded on a connection still open, none of them twice |
| LifecycleDelivers.RunReaches | server/client.go:1005-1192 | after every run over subjects and literals the byte-level test judges right, a publish reaches exactly the right subscriptions |
| LifecycleDelivers.MisjudgedFails | server/sublist.go:169-186 | for a subject the test misjudges, publishing, subscribing and publishing again reaches the wrong ones |
| LifecycleDelivers.DeliveryExactly | server/client.go:1005-1192 | publishes reach exactly the right subscriptions after every run over given subjects and literals if and only if none of them is misjudged |
| LifecycleDelivers.RunDelivers | server/client.go:1005-1192 | whole-token wildcards and proper literals are delivered right in every run |
| LifecycleSound.DeliverSound | server/client.go:903-1002 | any delivery to any known subscription keeps maps, index, caches and the record of messages sound |
| LifecycleSound.TargetsKnown | server/client.go:1072-1100 | whatever a publish finds was subscribed once |
| LifecycleSound.RunSound | server/client.go:749-1338 | in every run, without condition, no message goes beyond a limit or out twice, and index and caches stay coherent |
| LifecycleState.ServerState.constructor | server/client.go:193-228 | a new server has no clients and nothing subscribed |
| LifecycleState.ServerState.ProcessSub | server/client.go:749-818 | forwards exactly the new subscriptions of open clients with a valid subject, and leaves the specified state |
| LifecycleState.ServerState.UnsubscribeSub | server/client.go:820-834 | removes from map and index unless the limit is still ahead |
| LifecycleState.ServerState.ProcessUnsubscribe | server/client.go:836-885 | leaves the specified state |
| LifecycleState.ServerState.RemoveSubs | server/client.go:1311-1337 | removes every subscription of the map, in the order the map yields |
| LifecycleState.ServerState.CloseConnection | server/client.go:1297-1338 | leaves the specified state |
| LifecycleState.ServerState.WriteMsg | server/client.go:936-1002 | writes to an open connection, does nothing on a failed one and closes one that times out, as specified; `DeliverWrites` states the entry it adds |
| LifecycleState.ServerState.HandMsg | server/client.go:911-1002 | once counted, a message beyond the limit unsubscribes and is dropped, the last one is written and unsubscribes, others are written |
| LifecycleState.ServerState.DeliverMsg | server/client.go:903-1002 | counts, enforces the limit and unsubscribes at the limit as specified |
| LifecycleState.ServerState.FanOut | server/client.go:1138-1191 | delivers to every plain subscription and one member of each group, in order |
| LifecycleState.ServerState.ProcessMsg | server/client.go:1005-1192 | finds the result through the caches and fans out as specified, from every sound state |
| RouteSids.RouteSidBack | server/route.go:458-492 | the receiving server reads client and subscription id back |
| RouteSids.RouteSidExactly | server/route.go:458-492 | it reads them back if and only if the id has no form feed |
| RouteSids.PlainSidIsPlain | server/route.go:458-492 | the id of a plain subscription is never taken for a queue subscription's |
| RouteSids.CutSid | server/route.go:456-492 | an id with a form feed is read up to there |
| Cluster.RouteMsg | server/client.go:1120-1191 | the two loops send as specified: plain subscriptions once per route, one member per group |
| Cluster.SyncedAnswers | server/route.go:284-307 | an index synchronised with the cluster answers with the cluster's matching subscriptions |
| Cluster.PlainExactlyOnce | server/client.go:1120-1191 | a plain subscription anywhere in the cluster receives exactly one copy if it matches, else none |
| Cluster.GroupExactlyOnce | server/client.go:1120-1191 | exactly one matching member of a queue group receives one copy, whatever is picked; without a match nobody does |
| Cluster.QueueRoutedExactly | server/client.go:1122-1133 | a copy sent over a route for a queue subscription is delivered to it and to nobody else if and only if its id has no form feed; otherwise it never is |
| Cluster.FormFeedLoses | server/route.go:458-484 | the message for a remote queue subscription whose id has a form feed reaches nobody |
| Election.LessTransitive | health/health.go:712-758 | the rank order is transitive |
| Election.TiedExactly | health/health.go:712-758 | two agents tie exactly if neither has an id or they agree in all that ranks them |
| Election.TiedTransitive | health/health.go:712-758 | ties are transitive |
| Election.NotLessTransitive | health/health.go:712-758 | the order is a weak order |
| Election.OrderExactly | health/health.go:712-758 | the order by fields: everybody with an id is before those without; then the lower rank, the earlier id, the earlier host with a missing one last, the lower port, the lower process id and the later lease |
| Common.StrLessExactly | health/health.go:748-758 | earlier means: the string ends where the other goes on, or its first different byte is smaller |
| Election.FoldLeast | health/health.go:186-263 | after any offers the leader is a least one of the candidates, or the old one if there is none |
| Election.FoldElects | health/health.go:186-263 | of all named unexpired candidates the fold leaves the one with the lowest rank, and among those the first by id, host, port and process, with its latest lease |
| Election.FoldOrderFree | health/health.go:186-263 | the order and number of the offers does not matter |
| Election.RankDecidesExactly | health/health.go:166-263 | setLeader answers with the rank comparison if and only if the candidate has no id, or is expired and not before the leader, or is before an expired leader, or both are live and it is no renewal |
| Election.BehindTakesOver | health/health.go:221-225 | whoever ranks behind an expired leader takes over with a live lease |
| Election.BehindExample | health/health.go:166-225 | a concrete candidate that wins although it does not rank before the leader |
| Election.InsertHas | health/btree.go:36-41 | inserting adds this agent and those tied with it, and no other |
| Election.InsertRanked | health/btree.go:36-41 | the tree stays ordered without ties |
| Election.DeleteHas | health/btree.go:58-62 | deleting removes exactly the agents tied with it |
| Election.DeleteRanked | health/btree.go:58-62 | the tree stays ordered without ties |
| Election.SetDiffHas | health/btree.go:119-134 | the difference holds exactly the named members of the first set that are not in the second |
| Election.SetsEqualUnless | health/btree.go:136-161 | setsEqual decides equality unless the first set alone has an entry without id |
| Election.SetsEqualExactly | health/btree.go:136-161 | setsEqual with a given first set decides equality with every other set if and only if the first has no entry without id |
| Election.NobodyFools | health/btree.go:136-161 | if the first set has an entry without id, a second set with anybody else in its place counts as equal |
| Election.ChangeIsAnnounced | health/health.go:482-505 | of sets without such an entry, setsEqual is true exactly if both differences are empty |
| ElectionRounds.CollectedHas | health/health.go:588-645 | the pong collector returns exactly the named agents entered since it was cleared, without their leases, and nobody without id |
| ElectionRounds.RoundsCompared | health/health.go:482-505 | between the sets of any two rounds setsEqual decides equality without condition, and finds a change exactly if somebody was lost or gained |
| ElectionRounds.GrantsApart | health/health.go:370-403 | two grants by one agent are at least the lease and the clock skew apart |
| ElectionRounds.GrantExactly | health/health.go:666-692 | a proposal after expiry is accepted if and only if it names somebody, leases are positive and the new one ends within the 64-bit range of nanoseconds |
| ElectionRounds.NeverRejected | health/health.go:370-403 | in every run an election after expiry is granted exactly under that condition, and then the proposed leader leads |
| ElectionRounds.BeatExactly | health/health.go:370-403 | every heartbeat leaves the leader alone until lease and skew are over; then the first member leads with a lease from now on, if it has an id, leases are positive and times in range |
| ElectionRounds.SameMembersSameLeader | health/health.go:666-692 | agents that collected the same members propose the same leader |
| ElectionRounds.ProposalIsBest | health/btree.go:50-56 | no member ranks before the proposed leader |
| ElectionRounds.ProposalElects | health/btree.go:50-56 | no named member has a lower rank than the proposed leader, or the same rank and an earlier id, and so on through host, port and process |
| ElectionRounds.HeardElects | health/health.go:588-692 | the proposed leader is at least as electable as everybody heard with an id |
| ElectionRounds.SamePongsSameLeader | health/health.go:588-645 | agents that heard the same agents collect the same set, in number and least member |
| ElectionState.LeadHolder.SetLead | health/health.go:186-263 | accepts exactly the winning candidates and records each in the history |
| ElectionState.LeadHolder.OfferAll | health/health.go:186-263 | any series of offers at one instant leaves a least candidate, which is at least as electable, by its fields, as everybody offered |
| ElectionState.RankTree.InsertLoc | health/btree.go:36-41 | inserts as specified and keeps the order |
| ElectionState.RankTree.DeleteLoc | health/btree.go:58-62 | deletes as specified and keeps the order |
| ElectionState.RankTree.CloneTree | health/btree.go:89-100 | a new tree with the same members, those without id left out |
| ElectionState.DiffOf | health/btree.go:119-134 | builds the difference in a new tree |
| ElectionState.EqualSets | health/btree.go:136-161 | the two loops compute the specified comparison |
| ElectionState.Rounds | health/health.go:307-403 | the main loop grants in exactly the rounds the specification grants in |
| Handshake.AtMostTwoPasses | swp/recv.go:455-489 | a packet takes at most two passes of the event loop, two only for a FIN that closes |
| Handshake.ConnectorReceives | swp/recv.go:360-489 | a connector that receives anything the listener may have sent does not panic, keeps its part of the invariant and sends only true claims |
| Handshake.ListenerReceives | swp/recv.go:360-489 | the same for the listener, which is established only if the connector was |
| Handshake.RunInv | swp/retry.go:18-108 | the invariant holds in every run, retries and keepalives included |
| Handshake.RunHandshake | swp/tcp.go:98-187 | in every run an established side knows its peer's nonce, the listener is established only if the connector was, and nothing panics |
| Handshake.ClosedForever | swp/tcp.go:98-187 | after every run, whatever happens next for however long, a closed side stays closed |
| HandshakeProgress.SessionOpens | swp/recv.go:247-307 | from the start, the SYN, the SYN ACK and the EstabAck written out: both ends are established, hold each other's nonce, and nothing else was sent |
| HandshakeProgress.OpensSendsSyn | swp/recv.go:247-307 | after any run a connect request of a connector that is not established puts a SYN into the network and leaves it in SynSent |
| HandshakeProgress.RetriesSendSynAck | swp/retry.go:30-75 | a waiting listener repeats its SYN ACK when its timer goes off, ten times; then it stops |
| HandshakeProgress.CanOpen | swp/tcp.go:98-187 | from every state any run reaches with both ends alive there is a way to both being established |
| HandshakeProgress.FirstSynLocks | swp/recv.go:363-392 | the first SYN locks a listener onto its sender and nonce, even one addressed to another session, which is not answered |
| HandshakeProgress.BothConnect | swp/tcp.go:140-158 | two ends that connect to each other at once are established after each other's SYN and acknowledgement |
| HandshakeProgress.FreshConnects | swp/tcp.go:98-117 | told to connect before it listens, an end sends a SYN and repeats it |
| HandshakeProgress.OthersIgnored | swp/recv.go:375-392 | an established end takes no notice of packets with another nonce or for another one |
| HandshakeProgress.StrangersIgnored | swp/recv.go:375-380 | an end locked onto its peer takes no notice of anybody else |
| HandshakeProgress.FinArrives | swp/tcp.go:118-187 | a FIN of the session closes any end that has not stopped, and is answered with a FIN ACK |
| HandshakeProgress.EitherCloses | swp/sender.go:563-590 | with both ends established, a FIN of either closes the other |
| HandshakeProgress.StartCloseEnds | swp/tcp.go:158-187 | an end that starts closing sends a FIN, repeats it, and is closed by the answer |
| HandshakeState.Peer.constructor | swp/recv.go:112-164 | a new peer listens |
| HandshakeState.Peer.Ack | swp/recv.go:591-637 | answers with the specified packet |
| HandshakeState.Peer.DoTcpAction | swp/recv.go:703-770 | panics exactly when the specification fails; otherwise does the specified action |
| HandshakeState.Peer.DoEvent | swp/recv.go:459-470 | one pass is the specified pass |
| HandshakeState.Peer.DoEvents | swp/recv.go:459-478 | the loop makes the specified passes and ends |
| HandshakeState.Peer.LockOnto | swp/recv.go:363-374 | locks onto the first peer that sends a SYN, as specified |
| HandshakeState.Peer.Admits | swp/recv.go:375-392 | the three filters admit exactly the packets of the session |
| HandshakeState.Peer.ReceivePacket | swp/recv.go:360-489 | lock-on, filters and event loop leave the specified state after at most two passes |
| HandshakeState.Peer.ConnectRequest | swp/recv.go:247-307 | locks onto the peer, sends a SYN and enters SynSent as specified |
| HandshakeState.Peer.CheckRetry | swp/retry.go:30-75 | repeats, disarms or gives up as specified |
| Compaction.BatchesAgree | peer/compact.go:116-183 | the batch size changes neither success nor result |
| Compaction.CallsUnder | peer/compact.go:199-219 | the walk below a bucket makes the same calls with a longer path |
| Compaction.WriteBelow | peer/compact.go:156-177 | writing calls below a bucket writes them to that bucket alone |
| Compaction.Built | peer/compact.go:191-219 | replaying the walk of ordered entries builds those entries |
| Compaction.CompactExact | peer/compact.go:116-219 | the copy of every valid database succeeds and has the same buckets, keys, values and sequence numbers |
| Compaction.CommittedIsPrefix | peer/compact.go:125-141 | what is committed at any time is the result of an initial part of the walk |
| Compaction.BatchesBounded | peer/compact.go:125-141 | at every point of the walk the open transaction has one entry or keeps to the limit, and the one before it had no room for the next entry; without a limit there is one transaction |
| CompactionState.Compactor.constructor | peer/compact.go:116-124 | the copy starts empty |
| CompactionState.Compactor.OnKey | peer/compact.go:125-178 | one callback writes, or commits and then writes, as specified |
| CompactionState.Compactor.WalkBucket | peer/compact.go:199-219 | visits the bucket and then everything below |
| CompactionState.Compactor.WalkKids | peer/compact.go:210-218 | the loop visits the entries in order |
| CompactionState.Compactor.CompactAll | peer/compact.go:116-197 | commits an exact copy |
| Protobuf.SizeExact | peer/streambigfile/sbf.pb.go:472-545 | the size announced is the number of bytes encoded |
| Protobuf.VarintBack | peer/streambigfile/sbf.pb.go:463-471 | a varint of 64 bits reads back, whatever follows |
| Protobuf.NegativeTakesTen | peer/streambigfile/sbf.pb.go:463-471 | a negative number takes ten bytes |
| Protobuf.Fixed64Back | peer/streambigfile/sbf.pb.go:445-455 | a fixed 64-bit number reads back |
| Protobuf.RoundTrip | peer/streambigfile/sbf.pb.go:549-832 | for every field table with distinct one-byte tags, decoding an encoding gives the values back |
| Protobuf.ChunkTags | peer/streambigfile/sbf.pb.go:327-397 | the tag bytes of a chunk are those of the generated code |
| Protobuf.ChunkRoundTrip | peer/streambigfile/sbf.pb.go:317-397 | every chunk is announced in its true size and decodes to itself |
| Protobuf.AckRoundTrip | peer/streambigfile/sbf.pb.go:399-443 | every acknowledgement is announced in its true size and decodes to itself |
| Protobuf.ChunkBack | peer/streambigfile/sbf.pb.go:327-832 | unmarshalling a marshalled chunk gives the chunk, field by field |
| Protobuf.AckBack | peer/streambigfile/sbf.pb.go:409-1006 | the same for acks |
| Protobuf.ChunkSpelled | peer/streambigfile/sbf.pb.go:327-397 | the bytes of every chunk written out: each non-zero field in order, its literal tag byte and its value |
| Protobuf.AckSpelled | peer/streambigfile/sbf.pb.go:409-443 | the bytes of every ack written out |
| ProtobufUnknown.SkipSpelled | peer/streambigfile/sbf.pb.go:1008-1106 | a field of any wire type, groups within groups included, is skipped whole |
| ProtobufUnknown.UnknownIgnored | peer/streambigfile/sbf.pb.go:811-826 | a field the message does not have changes nothing, wherever it stands |
| ProtobufUnknown.NewerAckRead | peer/streambigfile/sbf.pb.go:833-1006 | an ack with one more field in front is read as the ack |
| ProtobufState.PutVarint | peer/streambigfile/sbf.pb.go:463-471 | writes the varint at its place and nothing else |
| ProtobufState.PutFixed | peer/streambigfile/sbf.pb.go:445-455 | writes the bytes in little-endian order and nothing else |
| ProtobufState.PutField | peer/streambigfile/sbf.pb.go:327-397 | writes tag and payload of a field unless it is zero |
| ProtobufState.MarshalTo | peer/streambigfile/sbf.pb.go:327-397 | writes exactly the encoding, in the announced size |
| ProtobufState.SovOf | peer/streambigfile/sbf.pb.go:536-545 | the loop computes the length of a varint |
| ProtobufState.GetVarint | peer/streambigfile/sbf.pb.go:555-568 | the shift loop reads what the specification reads, errors and 64-bit overflow included |
| ProtobufState.GetPayload | peer/streambigfile/sbf.pb.go:577-810 | reads the payload of any field kind, errors included |
| ProtobufState.Unmarshal | peer/streambigfile/sbf.pb.go:549-832 | decodes as specified or fails with the same error, on any bytes; unknown fields are skipped |
| ProtobufState.SkipIsSuffix | peer/streambigfile/sbf.pb.go:1008-1106 | skipping an unknown field leaves a suffix of the input |

## Left out

- SwpSession.RunInv: both ends use the same window size, so the capacity a peer announces is at most the sender's window; SwpSender.GateExactly states what happens otherwise.
- SwpSenderState.SenderState.Retransmit: the send time and RTT fields of the packet are left out.
- SwpSenderState.SenderState.RetryTick: the shutdown after failed keepalives is left out.
- SwpRecvState.RecvState.ReceiveData: the map of received but unconsumed packets is left out; only its size is ever asked for.
- SwpSession.RunAckSafety: excludes frame 0, for which it is false; FrameZeroExactly has the condition.
- SwpSession: a pushed packet is a data packet with acknowledgement number 0, as `Push` and `Write` make them; checksums are taken to detect every corruption; each select case is one atomic step; the session filters are passed.
- SwpRecvState.RecvState.DeliverToConsumer: a packet that was partly read before it is delivered as a message counts from its `DataOffset` on.
- The red-black tree and the B-tree are ordered sequences; a tree item is the index of a window slot, as the trees hold pointers to slots.
- RTT estimates, out-of-order delivery (`RegisterAsap`), accounting and nats transport of `swp/` are not modelled.
- Trie nodes and result lists are values: sharing of slices between a node and a result (server/sublist.go:255, 419-422) is below this model; statistics are left out and counters do not wrap around.
- LifecycleState.ServerState.ProcessSub: permission checks are left out.
- LifecycleState.ServerState.ProcessMsg: permission and reserved-name checks are left out.
- LifecycleState.ServerState.CloseConnection: broadcasts to routes and the reconnection of solicited routes are left out.
- Verbose and pedantic answers of server/client.go are not modelled.
- WireState.ParseState.Read: bytes are characters, sizes do not overflow, no authentication timer is pending, CONNECT and INFO succeed; an index out of range stops the model where Go would panic.
- WireChunks.ParseSim: claims nothing about streams outside the protocol; WireErrors covers wrong words, refused lines and lines a later read takes past the limit. Bytes in the place of the line end behind a payload, a carriage return inside a line and a line over the limit within one read are not claimed to be refused, since the source takes some of them; PUB is taken from clients and MSG from routes.
- LifecycleDelivers.PublishReaches: requires that the byte-level matcher judges the published subject right, without which it is false (DeliveryExactly).
- SwpProgress.RunCanFinish: says that the rest can be delivered, not that a network which loses everything does so; RTT-based deadlines are parameters of a tick.
- HandshakeState.Peer.CheckRetry: stands for a timer that goes off more than a second after the last attempt.
- Lifecycle.PublishKeeps: steps of different connections do not interleave within one operation; the outcome of writes, the random pick and the order of maps are parameters; broadcasts to routes are left out.
- Cluster.PlainExactlyOnce: a full mesh with synchronised interest, open connections, no limits, and subscription ids without form feed; joining and leaving servers are left out.
- ElectionRounds.GrantExactly: the clock shows a time between 1970 and 2262, where nanoseconds fit 64 bits, and time addition does not saturate.
- ElectionRounds.CollectedHas: the first round's collector is empty; from the second round on it was seeded with oneself when it was cleared, which the caller of the model says through the list of agents heard.
- ElectionRounds.GrantsApart: the clock of the agent does not go backwards; agents with different clocks are not compared.
- Handshake.RunHandshake: simultaneous open is excluded and covered by HandshakeProgress.BothConnect, nonces are not empty, and an answer without destination still enters the network.
- Compaction.CompactExact: a database is a tree of ordered key lists; page layout, file handling and transaction errors are left out, and so is a sequence number of the root, which has no bucket.
- ProtobufState.Unmarshal: positions do not overflow.
- Configuration lexing, authentication, TLS, sockets, monitoring, logging, the peer and gRPC services and the test servers are left out: they hold no protocol state of their own, or wrap libraries.
