# A verified model of mymq

mymq is an MQTT Version 5.0 broker and client. This project models the parts of it whose correctness
is hardest to see from the code, and proves what they are for. `dafny verify dfyconfig.toml` checks
everything.

| files | what they model |
|---|---|
| `Topics`, `Trie`, `TrieContents`, `Subscribed`, `SubscribedRuns`, `SubscribedTries` | the copy-on-write topic trie, as an index of a flat list of subscriptions |
| `Spinlock` | the latch-and-lock readers-writer spinlock, as interleaved atomic steps of any number of agents |
| `Framing`, `FrameRuns`, `Writing`, `Channels`, `Sockets`, `EndToEnd` | cutting byte streams into packets and back, over sockets that move any number of bytes, interrupt, block or fail |
| `Timers`, `TimerRuns`, `Retained`, `RetainBooks`, `RetainExpiry` | the differential timer and the book-keeping of retained messages on top of it |
| `Wire`, `ItemLoops`, `Properties`, `Packets`, `PublishCodec`, `ConnectCodec`, `SubscribeCodec`, `SafeReads`, `WireLayout`, `PacketLayout` | the codec of PUBLISH, CONNECT and SUBSCRIBE |
| `Routing`, `Shards`, `BackLog`, `Sessions`, `SessionRuns` | from the subscriptions a topic matches, over the queues between shards, to the outgoing queue of a session |

`Base` and `Mqtt` hold what these share.

Strings are byte sequences with a concrete UTF-8 predicate. Machine words are integers with the width
written out. A panic or `unreachable!` is the result `Err(Panic)`, or a precondition where the source
relies on its callers. Time, and what the operating system answers when a socket is to move bytes, are inputs. Decoders and
walks over lists and trees that the source writes as expressions or recursion are functions; loops are
methods proved equal to the function that specifies them; objects updated in place are classes.

## What the proofs show about the code

Most of what the code is for holds as intended. These are the places where it does something else than
its documentation or MQTT Version 5.0 says. The model follows the code. The lemmas named state exactly when;
where an input does not follow at once from that, the last one named gives it.

- `match_topic_name` always sets the dollar flag, so a filter that starts with `#` or `+` never receives
  anything, and `a/#` does not receive `a`: `Topics.DeliveryVersusStandard`, `Topics.HashAloneIsNeverDelivered`.
- Subscribing again does not update the options of a subscription, and unsubscribing a lone
  subscription needs every option to be equal: `SubscribedRuns.UnsubscribeEndsSubscription`,
  `SubscribedRuns.ResubscribeChangesNothing`, `SubscribedRuns.StaleSubscriptionSurvives`.
- Unsubscribing an inner level that holds nothing itself is a crash: `SubscribedRuns.RunCrash`,
  `SubscribedRuns.InnerLevelCrashes`. So is resetting a retained message there: `RetainBooks.ResetCrash`,
  `RetainBooks.InnerResetCrashes`.
- `do_unsubscribe` lowers the counter of missing subscriptions, so it stays at zero: `SubscribedRuns.RunCounts`.
- The spinlock needs no bound on its readers. The 2^30th reader carries into the latch bit, which only
  keeps everybody else waiting: `Spinlock.WordMeaning`. Its documentation speaks of bits 62 and 63; the word has 32.
- `VarU32::decode` takes longer forms than the shortest: `Wire.VarIsCanonicalIff`, `Wire.LongZero`.
- Parsing a frame of CONNECT, PUBLISH or SUBSCRIBE does not crash, and parsing one whose first byte holds no packet
  type or the reserved QoS does: `EndToEnd.ParseCrash`, `EndToEnd.TypeZeroCrashes`. Encoding a connection crashes on
  a will that is said to be UTF-8, has no payload and is not announced: `SafeReads.EncodeConnectCrash`,
  `SafeReads.BareWillCrashes`.
- The timer is never late but may be early: `TimerRuns.ExpiresExactly`, `TimerRuns.PlacedOnTime`, `TimerRuns.PlacedEarlyBy`,
  `TimerRuns.ExpiresEarly`; so may entries behind one that has expired or was swept: `TimerRuns.LeftOffset`,
  `TimerRuns.SweptOffset`. So may retained messages be, except one that is alone: `RetainExpiry.LoneMessageIsPunctual`.
- A publication that passes the checks on QoS, duplicates, retaining and topic aliases is a crash in `book_index` if it
  is above QoS 0. At QoS 0 it is one in `book_routed_timestamps` as soon as somebody is to be sent it, since no shard
  ever has an entry there: `Routing.RxPublish`, `Routing.SomebodySubscribed`, `Routing.BookRoutedMeans`. What is proved of back logs, queues and sessions holds of
  the messages that would be routed if these two were mended.
- Packet ids run through zero, which MQTT forbids, and repeat after 65536 messages: `SessionRuns.IdsDiffer`.
- Sequence numbers stop at 2^64 - 1, and from then on a waiting message may be overwritten: `SessionRuns.RunQueues`,
  `SessionRuns.StampsDiffer`, `SessionRuns.UsedUpNumberLoses`.
- The receive maximum is looked at before a batch and not within it, so it is exceeded, by less than a batch, in a round
  that can send more than is left of it: `SessionRuns.RunKeepsMaximum`, `SessionRuns.RoundKeepsMaximum`,
  `SessionRuns.SentAwait`, `SessionRuns.ExceedsReceiveMaximum`. Nothing leaves `qos12_unacks` again, so a session that
  has reached it never sends anything above QoS 0 any more: `SessionRuns.RefusedForGood`.

## Model

| member | source | states |
|---|---|---|
| Topics.JoinSplit | src/types.rs:198-204 | joining the levels of a topic gives the topic back |
| Topics.SplitJoin | src/types.rs:198-204 | joining levels that hold no slash and splitting again gives the levels back |
| Topics.SplitInjective | src/types.rs:198-204 | different topics have different lists of levels |
| Topics.FilterValidation | src/types.rs:313-336 | a filter is accepted if and only if it is not empty, has no NUL, wildcards stand alone in a level and `#` is only last |
| Topics.NameValidation | src/types.rs:206-219 | a topic name is accepted if and only if it is not empty and no byte of it is `#`, `+` or NUL; otherwise it is malformed |
| Topics.ValidNameIsWildcardFree | src/types.rs:206-219 | no level of an accepted topic name is a wildcard |
| Topics.MatchesClosedForm | src/broker/ttrie.rs:512-573 | the level-by-level matcher accepts exactly the topics given by a closed condition on levels, for every filter |
| Topics.DeliveryVersusStandard | src/broker/ttrie.rs:49-75 | a filter is delivered a topic if and only if section 4.7 of MQTT Version 5.0 matches them, the filter does not start with a wildcard, and it has no more levels than the topic |
| Topics.HashAloneIsNeverDelivered | src/broker/ttrie.rs:529-537 | `#` and `a/#` match the topic `a` in the standard and are not delivered it |
| Trie.PutForestForm | src/broker/ttrie.rs:369-401 | inserting keeps children strictly sorted and no node empty, and reports first and repeat as the value list does |
| Trie.PutForestLookup | src/broker/ttrie.rs:369-474 | `sub` and `set` change the values at the addressed path and at no other |
| Trie.TakeForestForm | src/broker/ttrie.rs:404-438 | removing keeps the form: emptied nodes disappear all the way up |
| Trie.TakeForestLookup | src/broker/ttrie.rs:404-510 | `unsub` and `remove` change the values at the addressed path and at no other |
| Trie.TakeForestPanics | src/broker/ttrie.rs:335-363 | removing crashes if and only if the path leads to a node and the cut of its values is unreachable |
| TrieContents.LookupIsAt | src/broker/ttrie.rs:281-354 | what a lookup finds is what the flat list of the trie's contents holds at that path |
| TrieContents.MatchAllIsPick | src/broker/ttrie.rs:512-573 | with the dollar flag clear, matching a wildcard-free topic returns every pair of the flat list whose filter matches, once, and nothing else; stopping at `#` loses nothing |
| TrieContents.MatchDollarIsPick | src/broker/ttrie.rs:525-562 | with the dollar flag set, the same minus filters that start with a wildcard |
| TrieContents.Canonical | src/broker/ttrie.rs:281-354 | two well-formed tries that answer all lookups alike are structurally equal |
| TrieContents.HasNodeIffBelow | src/broker/ttrie.rs:404-438 | a path leads to a node if and only if something is stored at or below it |
| Subscribed.InsertValueKeepsOrder | src/broker/ttrie.rs:292-310 | inserting keeps values strictly sorted by key, adds the value if and only if its key is new, and reports so |
| Subscribed.RemoveValueTakesKey | src/broker/ttrie.rs:330-354 | removing keeps the order and takes out the value with the key, except that a lone value must be equal in every option |
| Subscribed.RemoveInsertedValue | src/broker/ttrie.rs:292-354 | removing a freshly inserted value restores the list |
| SubscribedRuns.SubscribeAgrees | src/broker/ttrie.rs:78-99 | subscribing keeps trie and flat list in agreement at every path |
| SubscribedRuns.UnsubscribeAgrees | src/broker/ttrie.rs:101-124 | unsubscribing keeps trie and flat list in agreement at every path |
| SubscribedRuns.UnsubscribeCrash | src/broker/ttrie.rs:330-354 | unsubscribing crashes if and only if the list holds something below the filter and nothing at it |
| SubscribedRuns.RunAgrees | src/broker/ttrie.rs:78-124 | after any run of subscribe and unsubscribe the trie is well-formed and agrees with the flat list |
| SubscribedRuns.RunCounts | src/broker/ttrie.rs:78-124 | after any run of at most 2^64-1 operations `count` is the number of filters that hold a subscription, and `missing` is zero |
| SubscribedRuns.RunRepeats | src/broker/ttrie.rs:78-99 | after any run of at most 2^64-1 operations `repeat` is the number of subscribes in it whose key was there, and lookups and hits are zero |
| SubscribedRuns.RunCrash | src/broker/ttrie.rs:101-124 | a run crashes if and only if some unsubscribe in it addresses an inner filter that holds nothing |
| SubscribedRuns.RunMatches | src/broker/ttrie.rs:49-75 | after any run, matching a valid topic returns, as a multiset, exactly the listed subscriptions whose filter is delivered to |
| SubscribedRuns.SubscribedIsDelivered | src/broker/ttrie.rs:49-99 | after any run, a client that then subscribes is among the matches of every topic its filter is delivered, with this subscription if it had none there |
| SubscribedRuns.RunsConverge | src/broker/ttrie.rs:78-124 | runs whose lists hold the same pairs, in any order, end in the very same trie |
| SubscribedRuns.ResubscribeChangesNothing | src/broker/ttrie.rs:292-310 | a repeated key leaves the trie unchanged, options included |
| SubscribedRuns.UnsubscribeUndoesSubscribe | src/broker/ttrie.rs:369-438 | subscribing a fresh key and unsubscribing it restores the original trie exactly, emptied nodes included |
| SubscribedRuns.UnsubscribeEndsSubscription | src/broker/ttrie.rs:330-354 | after unsubscribing, the key is gone if and only if it was not a lone subscription that differs in an option |
| SubscribedRuns.StaleSubscriptionSurvives | src/broker/ttrie.rs:335-345 | in the trie, a client that subscribes, subscribes again with another QoS and unsubscribes with it is still subscribed |
| SubscribedRuns.InnerLevelCrashes | src/broker/ttrie.rs:330-345 | subscribing `a/b` and unsubscribing `a` is a crash |
| SubscribedRuns.HashIsLeaf | src/broker/ttrie.rs:540-562 | after any run that subscribed accepted filters only, no node lies below a `#` |
| SubscribedTries.MatchLoop | src/broker/ttrie.rs:512-562 | the accumulator loop returns what the recursive matcher does |
| SubscribedTries.SubscribedTrie.constructor | src/broker/ttrie.rs:18-26 | a new trie is empty |
| SubscribedTries.SubscribedTrie.Subscribe | src/broker/ttrie.rs:78-99 | the object goes to the specified next state and keeps agreeing with its flat list |
| SubscribedTries.SubscribedTrie.Unsubscribe | src/broker/ttrie.rs:101-124 | likewise; it crashes exactly on an inner filter that holds nothing, and then leaves everything as it was |
| SubscribedTries.SubscribedTrie.MatchTopicName | src/broker/ttrie.rs:49-75 | returns, as a multiset, the listed subscriptions that the topic is delivered to; only the statistics change |
| Spinlock.RunKeeps | src/broker/spinlock.rs:94-157 | every interleaving of atomic steps of any agents keeps the word equal to readers plus latch plus lock |
| Spinlock.NeverPanics | src/broker/spinlock.rs:117-152 | no "call the programmer" panic is reachable, with any number of readers |
| Spinlock.WriterExcludes | src/broker/spinlock.rs:185-226 | a held write guard excludes every other guard |
| Spinlock.WordMeaning | src/broker/spinlock.rs:75-79 | the word's value; lock implies latch; read as bits it is right if and only if there are fewer than 2^30 readers |
| Spinlock.ActRefines | src/broker/spinlock.rs:94-157 | each atomic step is one allowed step of an abstract readers-writer lock, or none |
| Spinlock.RunRefines | src/broker/spinlock.rs:13-36 | every run is a run of the abstract readers-writer lock |
| Spinlock.ReaderSeesOneValue | src/broker/spinlock.rs:170-188 | while a read guard is held the value does not change, whatever others do |
| Spinlock.LatchKeepsReadersOut | src/broker/spinlock.rs:25-31 | while a writer is past the latch, readers only leave |
| Spinlock.QuietIsZero | src/broker/spinlock.rs:211-226 | with no operation under way and no guard held the word is zero |
| Spinlock.ReaderEnters | src/broker/spinlock.rs:94-110 | from any valid state a reader that steps alone has its guard after two steps, and is counted, if and only if nobody is past the latch and fewer than 2^30 read; otherwise it starts over |
| Spinlock.WriterLatches | src/broker/spinlock.rs:113-132 | a writer that steps alone has the latch after two steps under the same condition, and otherwise starts over |
| Spinlock.WriterLocks | src/broker/spinlock.rs:133-157 | a writer past the latch that steps alone has the lock after two steps if and only if no reader is left; otherwise it loads again |
| Spinlock.GuardsDrop | src/broker/spinlock.rs:185-226 | dropping a write guard clears the word in two steps; dropping a read guard counts one reader less in one |
| Spinlock.WriteAcquires | src/broker/spinlock.rs:113-226 | in every reachable state in which nobody else is in, an agent in `write` that steps alone has its guard after four steps with the word 0xC000_0000, and two more bring the word back to zero; no other agent changes |
| Spinlock.ReadAcquires | src/broker/spinlock.rs:94-189 | likewise an agent in `read` has its guard after two steps, and one more gives it back |
| Framing.FrontStable | src/packet.rs:90-117 | bytes that follow never change what the front of a stream has decided |
| Framing.FrontMeans | src/packet.rs:284-310 | what the front of a stream is, in plain bytes: one to four bytes of length in groups of seven bits, least first; bad if longer or over the limit |
| Framing.SplitSound | src/packet.rs:66-195 | the one-shot splitter loses nothing, yields packets only, and stops where one is incomplete or bad |
| Framing.SplitConcat | src/packet.rs:66-195 | packets written one after the other are what the splitter finds |
| Framing.PreReadSound | src/packet.rs:284-310 | `pre_read` finds a packet already buffered, fails only on a bad front, and otherwise changes nothing |
| Framing.ReadSound | src/packet.rs:66-195 | one read keeps the reader's state valid, loses no byte, and is malformed only where the splitter is |
| FrameRuns.RunSplits | src/packet.rs:66-195 | for every schedule the packets handed on are the first ones of the splitter, and with the buffered and unread bytes they make up the stream; a malformed end is the splitter's |
| FrameRuns.FramesFit | src/packet.rs:466-477 | no packet exceeds the limit, and at most four bytes are carried over behind one |
| FrameRuns.WaitingHoldsNone | src/packet.rs:284-310 | a reader that waits for the socket holds no whole packet |
| FrameRuns.RunFinishes | src/packet.rs:66-195 | on a connection that stays up every packet is handed on once the socket was ready often enough, and the end is malformed if and only if the splitter's is |
| Writing.WriteConserves | src/packet.rs:357-410 | a write moves bytes from what is owed to the wire, and is finished if and only if nothing is owed |
| Writing.WriteMoves | src/packet.rs:357-410 | a ready socket takes exactly as much as it can, an interruption or a full socket takes nothing, a closed or broken one ends the connection; with nothing owed a write is finished at once |
| Channels.Channel.constructor | src/broker/socket.rs:356-362 | a new queue is empty and open |
| Channels.Channel.TrySends | src/broker/socket.rs:33-55 | as many items as fit go in, in order; the rest comes back in order; nothing is lost |
| Channels.Channel.TryRecvs | src/broker/socket.rs:64-81 | items come out from the front, one more than the batch size if there are that many |
| Sockets.Sink.constructor | src/broker/socket.rs:115-121 | a new sink owes nothing |
| Sockets.Sink.Accept | src/broker/socket.rs:255-257 | accepted packets join the queue |
| Sockets.Sink.WritePacket | src/broker/socket.rs:319-349 | the wire grows by what the current packet loses, which is all a ready socket takes; it blocks only with part of a packet left, and gives up only if the operating system's answer is a failure or the timeout is over |
| Sockets.Sink.Load | src/broker/socket.rs:290-310 | a packet that encodes moves into the writer behind a flush; one that does not leaves it with nothing; a failed flush gives up |
| Sockets.Sink.FlushPackets | src/broker/socket.rs:273-316 | wire, rest of the current packet and queue keep making up everything accepted, skipping only what does not encode or exceeds the limit; when done all is on the wire; it blocks only on a socket that took less than a packet, and gives up only for an answer that says so |
| Sockets.Sink.WritePackets | src/broker/socket.rs:241-269 | the same across receives from the session's queue, which may also be the one to disconnect |
| Sockets.Source.constructor | src/broker/socket.rs:106-112 | a new source has handed on nothing |
| Sockets.Source.SendUpstream | src/broker/socket.rs:229-237 | queued packets move to the session's channel, in order, as far as they fit; some stay only if it is full or disconnected |
| Sockets.Source.ReadPacket | src/broker/socket.rs:192-226 | packets sent on and queued stay what the first frames of the stream parse to; a ready socket brings the reader forward; it gives up only on a failure, a timeout or the end of the stream; a refusal has a bad front or an unparsable next frame as its reason |
| Sockets.Source.ReadTurn | src/broker/socket.rs:169-185 | the same for one pass of the loop, which goes on only after a packet was read |
| Sockets.Source.ReadPackets | src/broker/socket.rs:164-186 | the same across reads and sends, and it ends; it reads nothing only while packets wait for a full or disconnected channel |
| EndToEnd.EncodedIsFrame | src/v5/mod.rs:1191-1203 | every encoding is exactly one frame |
| EndToEnd.EncodedParses | src/packet.rs:199-271 | the encoding of a consistent packet parses to the packet, normalized |
| EndToEnd.ParseCrash | src/packet.rs:199-271 | on a frame whose first byte holds CONNECT, PUBLISH, SUBSCRIBE or nothing valid, parsing crashes if and only if it holds no packet type or the reserved QoS |
| EndToEnd.TypeZeroCrashes | src/packet.rs:199-205 | it does on the empty frame of packet type 0 |
| EndToEnd.FramesArrive | src/packet.rs:66-195 | frames on the wire are read in order on any schedule, never as malformed, and all of them once the run ends |
| EndToEnd.PacketsArrive | src/packet.rs:66-195 | any part of the bytes of a list of packets, read on any schedule, yields the first of them in order and equal up to normalization, and all of them once the run ends |
| EndToEnd.SourceHasWhatSinkAccepted | src/broker/socket.rs:164-316 | a source that reads what a sink wrote has, sent on or queued, the first packets the sink accepted, in order and equal up to normalization; it has all of them once everything was written and read; and it has no reason to refuse the connection |
| Timers.InsertOffsets | src/timer.rs:52-79 | a new entry comes behind all that are due no later; every other entry keeps its offset |
| Timers.InsertLoop | src/timer.rs:56-78 | the walk computes that insertion |
| Timers.SweepLoop | src/timer.rs:124-152 | the walk removes exactly the entries marked as deleted and returns them |
| Timers.Timer.constructor | src/timer.rs:41-48 | a new timer is empty |
| Timers.Timer.AddTimeout | src/timer.rs:52-79 | inserts at the delay with 64-bit wrap-around, less the elapsed time, not below zero |
| Timers.Timer.TakeExpired | src/timer.rs:83-121 | advances the instant, returns the unmarked entries before the first delta above the elapsed time, and shortens that delta |
| Timers.Timer.Gc | src/timer.rs:124-152 | removes exactly the marked entries and returns marked ones only; nothing else is lost |
| Timers.Timer.Close | src/timer.rs:154-173 | returns every value in order |
| TimerRuns.RunKeeps | src/timer.rs:52-152 | over any run no entry lies beyond its due time, and what was added is held, was returned, or was dropped because marked, each exactly once |
| TimerRuns.NeverLate | src/timer.rs:83-121 | after any run, `expired` at a time leaves nothing that is due by then |
| TimerRuns.AllAccounted | src/timer.rs:52-152 | after any run, what its requests set, each due its seconds after the request, is held, was returned, or was dropped, once for each time; only what the run marked is dropped |
| TimerRuns.DueIsReturned | src/timer.rs:52-121 | after any run, a timeout due by now and not marked has been returned by the next `expired` as often as it was set, and is not held |
| TimerRuns.ExpireIsPunctual | src/timer.rs:83-121 | likewise from any valid state, and nothing marked as deleted is returned |
| TimerRuns.PlacedOnTime | src/timer.rs:52-54 | a new entry is placed at its due time if and only if no time has passed since the instant and the product did not wrap; otherwise earlier |
| TimerRuns.PlacedEarlyBy | src/timer.rs:52-54 | exactly how much earlier: by the time since the instant, counted twice, or at the instant if that is more than the timeout |
| TimerRuns.DueByOffset | src/timer.rs:92-118 | the entries due by the timer's own count are those with an offset up to the elapsed time |
| TimerRuns.ExpiresExactly | src/timer.rs:92-118 | `expired` takes every due entry, and no other if and only if the first one not due has a delta above the elapsed time |
| TimerRuns.ExpiresEarly | src/timer.rs:92-118 | of timeouts of three and of six seconds, set together on a new timer, both go after four |
| TimerRuns.LeftOffset | src/timer.rs:92-118 | what `expired` leaves comes forward by the elapsed time and also by the deltas of what it took |
| TimerRuns.SweptOffset | src/timer.rs:124-152 | `gc` brings an entry forward by the deltas of the marked entries before it; it stays put if and only if those are all zero |
| Retained.SetHolds | src/broker/ttrie.rs:195-213 | `set` makes a message its topic's only one, changes no other topic, and raises the count if and only if the topic held nothing |
| Retained.RemoveHolds | src/broker/ttrie.rs:215-237 | `remove` of a held topic never crashes, takes its message, changes no other topic and lowers the count |
| Retained.RemoveMissing | src/broker/ttrie.rs:356-366 | `remove` of a topic not held crashes if and only if a held topic lies below it, and otherwise does nothing but lower the counter of missing ones |
| RetainBooks.SetKeeps | src/broker/cluster.rs:629-664 | setting keeps trie, index and timer in step, with the new message as the topic's |
| RetainBooks.ResetCrash | src/broker/cluster.rs:666-685 | a reset crashes if and only if its topic is not held and a held topic lies below it |
| RetainBooks.InnerResetCrashes | src/broker/cluster.rs:666-685 | setting `a/b` and resetting `a` is a crash |
| RetainBooks.ResetKeeps | src/broker/cluster.rs:666-685 | otherwise it keeps trie, index and timer in step and removes exactly that topic |
| RetainBooks.ExpiryKeeps | src/broker/cluster.rs:583-607 | expiry never reaches its assertion or `unreachable!`, keeps trie, index and timer in step, and leaves no message whose expiry has come |
| RetainBooks.RunKeeps | src/broker/cluster.rs:583-685 | a run of set, reset and expiry crashes if and only if it meets a bad reset; otherwise trie, index and timer agree at its end |
| RetainBooks.RunCounts | src/broker/ttrie.rs:195-237 | after any run that cannot saturate the counter, `count` is the number of topics that hold a message, and `missing` is zero |
| RetainBooks.NothingOverdue | src/broker/cluster.rs:583-607 | after any run, expiry at a later time leaves no message whose expiry has come by then |
| RetainBooks.DropLoop | src/broker/cluster.rs:593-605 | the loop drops each expired message from the trie and from the index |
| RetainBooks.ExpireLoop | src/broker/cluster.rs:583-607 | the method computes the specified expiry |
| RetainBooks.Cluster.constructor | src/broker/cluster.rs:478-481 | a new book is empty |
| RetainBooks.Cluster.HandleSetRetainTopic | src/broker/cluster.rs:629-664 | the object goes to the specified next state and stays in step |
| RetainBooks.Cluster.HandleResetRetainTopic | src/broker/cluster.rs:666-685 | likewise; it crashes exactly on a bad reset, and then leaves everything as it was |
| RetainBooks.Cluster.RetainExpires | src/broker/cluster.rs:583-607 | likewise, and no message whose expiry has come is left |
| RetainExpiry.StaysWithoutExpiry | src/broker/cluster.rs:583-685 | after any run, a topic whose last request set a message without expiry has that message in trie and index, however often it ticked |
| RetainExpiry.StaysUntilTick | src/broker/cluster.rs:629-664 | after any run, a topic whose last request set a message has it if no tick has come since |
| RetainExpiry.NothingAfterReset | src/broker/cluster.rs:666-685 | after any run, a topic never set, or reset since, is in neither trie nor index |
| RetainExpiry.GoneWhenDue | src/broker/cluster.rs:583-664 | after any run, a message whose last request gave it an expiry of so many seconds is in neither after a tick at least that long behind the request |
| RetainExpiry.LoneMessageIsPunctual | src/broker/cluster.rs:583-664 | the first message of a new book stays at a tick if and only if its expiry has not come |
| Wire.DecodeVarLoop | src/types.rs:373-389 | the loop computes the specified value and length |
| Wire.VarRoundTrip | src/types.rs:372-421 | a variable byte integer up to 268435455 reads back, whatever follows, from exactly its one to four bytes |
| Wire.VarIsCanonicalIff | src/types.rs:373-389 | what was read is the encoding of the result if and only if it is one byte long or does not end in zero |
| Wire.LongZero | src/types.rs:373-389 | zero reads from two bytes and is written in one |
| Wire.StringRoundTrip | src/types.rs:542-590 | encodable text reads back, whatever follows |
| Wire.BinaryRoundTrip | src/types.rs:592-617 | binary data up to 65535 bytes reads back, whatever follows |
| Wire.PairRoundTrip | src/types.rs:450-476 | user properties read back |
| WireLayout.U16Layout | src/types.rs:500-519 | two bytes, the high one first; fewer are not enough |
| WireLayout.U32Layout | src/types.rs:521-540 | four bytes, the highest first |
| WireLayout.BinaryLayout | src/types.rs:592-617 | data behind its length in two bytes, writable if and only if up to 65535 bytes; what is announced must be there |
| WireLayout.CharsAreText | src/types.rs:542-590 | scalar values in the form of section 3 of RFC 3629 are UTF-8, and text if and only if none is a control character |
| WireLayout.TextIsChars | src/types.rs:542-590 | and all UTF-8 is of that form |
| WireLayout.StringLayout | src/types.rs:179-262 | strings, names and filters are written as data, if and only if they are text, valid and not too long |
| ItemLoops.RunLoop | src/v5/publish.rs:291-323 | the decoding loop computes the specified fold over items |
| ItemLoops.LoopReadsItems | src/v5/publish.rs:291-323 | the loop over an encoded list does what entering the items does, and stops right behind it |
| ItemLoops.CountedRoundTrip | src/v5/mod.rs:1205-1217 | a list behind its length reads back as what its items build, from exactly the bytes written |
| Properties.FromCodeOfCode | src/v5/mod.rs:779-825 | property type codes read back |
| PacketLayout.LowNumbers | src/v5/mod.rs:752-780 | property numbers of section 2.2.2.2 of MQTT Version 5.0 up to 18 |
| PacketLayout.MiddleNumbers | src/v5/mod.rs:752-780 | the next of them |
| PacketLayout.HighNumbers | src/v5/mod.rs:752-780 | the next of them |
| PacketLayout.HighestNumbers | src/v5/mod.rs:752-780 | the last of them |
| PacketLayout.PropertyForms | src/v5/mod.rs:985-1098 | how the value of each property is written |
| PacketLayout.ValueLayout | src/v5/mod.rs:985-1098 | the bytes of each kind of value |
| PacketLayout.SectionLayout | src/v5/publish.rs:327-352 | a section is its length, then number and value of each property |
| PacketLayout.RepeatsAreRefused | src/v5/publish.rs:291-301 | a property that may not repeat and does makes the section unreadable |
| PacketLayout.SectionEnds | src/v5/mod.rs:44-87 | a section that is read ends where its length says, and is nothing if and only if that is zero |
| Properties.PropertyRoundTrip | src/v5/mod.rs:985-1098 | every property of every type reads back, whatever follows |
| Properties.SectionRoundTrip | src/v5/mod.rs:44-87 | a property section reads back as nothing when empty and otherwise as the record its properties build, or fails as they do |
| Properties.PropsKeep | src/v5/publish.rs:282-325 | what holds of the default record and survives every property holds of every decoded record |
| Properties.DecodePropsLoop | src/v5/publish.rs:282-325 | the loop computes the specified record |
| Packets.UnwrapFixedByte | src/v5/mod.rs:525-534 | type, retain, QoS and duplicate read back from the first byte |
| WireLayout.FirstByteLayout | src/v5/mod.rs:525-534 | type in the high four bits, then duplicate, two bits of QoS, and retain; type 0 and QoS 3 are refused; read and written alike |
| WireLayout.TypeNumbers | src/v5/mod.rs:214-230 | the packet types have the numbers of section 2.1.2 of MQTT Version 5.0 |
| WireLayout.HeaderBytes | src/v5/mod.rs:713-747 | a header is accepted if and only if it is PUBLISH with valid flags, or has none, or is PUBREL, SUBSCRIBE or UNSUBSCRIBE with QoS 1 alone |
| Packets.HeaderRoundTrip | src/v5/mod.rs:575-601 | a fixed header reads back from its two to five bytes |
| Packets.InsertFront | src/v5/mod.rs:1191-1217 | appending, shifting and overwriting puts the header in front of the data |
| PublishCodec.PublishBuild | src/v5/publish.rs:281-353 | reading the properties a record writes rebuilds the record |
| PacketLayout.PublishProperty | src/v5/publish.rs:291-323 | a PUBLISH takes a property alone if and only if it is one of its own with a valid value; the default payload format changes nothing; only user properties and subscription ids repeat |
| PacketLayout.PublishEncodes | src/v5/publish.rs:119-149 | a publication can be written if and only if its topic is valid, its topic and properties fit, and the whole is up to 268435455 bytes, by their sizes |
| PacketLayout.PublishLayout | src/v5/publish.rs:119-149 | its bytes: flags, length, topic, packet id, properties, payload |
| PacketLayout.PublishEnds | src/v5/publish.rs:80-117 | a PUBLISH that is read ends where its header says |
| PublishCodec.DecodedPublishIsConsistent | src/v5/publish.rs:80-117 | every decoded publication is consistent |
| PublishCodec.PublishRoundTrip | src/v5/publish.rs:80-149 | decoding an encoding, whatever follows, gives the publication back normalized with its exact length if and only if it is consistent: packet id present exactly above QoS 0, no duplicate at QoS 0, no zero alias, UTF-8 payload where announced |
| ConnectCodec.ConnectBuild | src/v5/connect.rs:495-588 | reading the properties a record writes rebuilds the record |
| ConnectCodec.WillBuild | src/v5/connect.rs:670-744 | the same for will properties |
| PacketLayout.ConnectProperty | src/v5/connect.rs:495-588 | a CONNECT takes a property alone if and only if it is one of its own with a valid value; only user properties repeat |
| PacketLayout.WillProperty | src/v5/connect.rs:670-744 | likewise a will |
| PacketLayout.FlagBits | src/v5/connect.rs:87-122 | will, user name and password are the bits of 4, 64 and 128 of the flag byte |
| PacketLayout.DecodedFlags | src/v5/connect.rs:250-295 | in every decoded connection will topic, payload and properties, user name and password are there exactly as those bits say |
| PacketLayout.ConnectValidation | src/v5/connect.rs:354-418 | a connection is valid if and only if it has the name MQTT and version 5, no reserved bit, no will QoS 3, all of the will if announced, and UTF-8 where announced |
| PacketLayout.ConnectEncodes | src/v5/connect.rs:297-338 | a connection can be written if and only if it is valid, its fields fit, and the whole is up to 268435455 bytes, by their sizes |
| PacketLayout.ConnectLayout | src/v5/connect.rs:297-338 | its bytes: name, version, flags, keep alive, properties, client id, the will, user name, password |
| ConnectCodec.DecodedConnectAgrees | src/v5/connect.rs:250-295 | the flag byte of every decoded connection says which fields it has |
| ConnectCodec.StrayWill | src/v5/connect.rs:318-322 | empty will properties without a will flag write a byte that the reader never expects |
| ConnectCodec.ConnectRoundTrip | src/v5/connect.rs:250-338 | decoding an encoding, whatever follows, gives the connection back normalized with its exact length if and only if the flag byte agrees with the fields present, will properties are not empty, and neither receive maximum nor packet size is zero |
| SubscribeCodec.SubscribeBuild | src/v5/sub.rs:259-311 | reading the properties a record writes rebuilds the record |
| PacketLayout.SubscribeProperty | src/v5/sub.rs:259-311 | a SUBSCRIBE takes a property alone if and only if it is one of its own with a valid value |
| PacketLayout.SubscribeEncodes | src/v5/sub.rs:172-235 | a SUBSCRIBE can be written if and only if it has filters, all valid, with no option of 64 and above, retain handling 3 or QoS 3, and everything fits, by sizes |
| PacketLayout.SubscribeLayout | src/v5/sub.rs:172-195 | its bytes: packet id, properties, each filter with its option byte |
| PacketLayout.SubscribeEnds | src/v5/sub.rs:140-170 | a SUBSCRIBE that is read ends where its header says, and all of it is there |
| SubscribeCodec.DecodeFiltersLoop | src/v5/sub.rs:158-165 | the loop computes the specified list of filters |
| SubscribeCodec.FiltersRead | src/v5/sub.rs:158-165 | a written list of filters reads back in order |
| SubscribeCodec.DecodedSubscribeIsConsistent | src/v5/sub.rs:140-170 | every decoded packet is consistent and valid |
| SubscribeCodec.SubscribeRoundTrip | src/v5/sub.rs:140-195 | decoding the encoding of a valid packet, whatever follows, gives it back normalized with its exact length if and only if its subscription id is not zero |
| SafeReads.PublishIsGentle | src/v5/publish.rs:96-104 | decoding a frame as PUBLISH never crashes |
| SafeReads.SubscribeIsGentle | src/v5/sub.rs:149-155 | decoding a frame as SUBSCRIBE never crashes |
| SafeReads.ConnectIsGentle | src/v5/connect.rs:250-295 | decoding any bytes as CONNECT never crashes |
| SafeReads.EncodeConnectCrash | src/v5/connect.rs:404-412 | encoding a connection crashes if and only if it is otherwise valid, announces no will, and has will properties that say UTF-8 and no will payload |
| SafeReads.BareWillCrashes | src/v5/connect.rs:404-412 | such a connection |
| Routing.MatchSubscribers | src/broker/shard.rs:1052-1081 | one group for each client with a match, merging all its matches |
| Routing.MergeMeans | src/broker/shard.rs:1046-1081 | the merged QoS is the greatest, `no_local` holds if all matches say so, `retain_as_published` if any does; ids are kept in order, the rest is the first match's |
| Routing.TopicNameMeans | src/broker/session.rs:325-384 | the topic of a publication by alias and name: an alias without or above the maximum is a protocol error; with a name it is bound anew; without one it stands for the name bound; neither is a protocol error |
| Routing.AliasesAreLatest | src/broker/session.rs:325-384 | after any run of publications an alias stands for the name last given with it, or for none |
| Routing.DuplicateMeans | src/broker/session.rs:386-410 | none at QoS 0; above it one marked as duplicate is unless those are ignored, and one not marked is if its packet id was seen |
| Routing.SecondTimeIsDuplicate | src/broker/session.rs:386-432 | a packet id that has passed once is dropped the next time, unless marked as duplicate and duplicates are ignored |
| Routing.OrderIndependent | src/broker/shard.rs:1060-1078 | whatever order the matches come in, a client gets the same QoS, flags and multiset of ids, and the same shard if all its matches name one |
| Routing.SetSubscriptionIds | src/v5/publish.rs:164-176 | the loop appends all ids to the properties, creating them if need be |
| Routing.RouteQoS | src/v5/mod.rs:205-208 | the routed QoS is the least of the server's, the publication's and the subscription's |
| Routing.EnvelopeMeans | src/broker/session.rs:769-779 | the message for one client, field by field: topic, payload and packet id of the publication, retain only if asked for as published, no duplicate mark, least QoS, ids of all matches behind the publication's own |
| Routing.BookRoutedMeans | src/broker/shard.rs:1128-1141 | booking a routed message crashes if and only if every entry is of a lower shard; otherwise, unless the shard has an entry, another shard's entry is lost |
| Routing.RouteToClients | src/broker/session.rs:759-782 | each client of a group gets exactly one message, unless it is the publisher and all its matches are `no_local`; it does not crash if all shards have entries, and with none it crashes if and only if somebody is to be sent a message |
| Routing.RxPublish | src/broker/session.rs:727-783 | what a consistent publication does, by its own fields: above the server's QoS, with an unavailable retain or an unusable alias it is a protocol error, and a duplicate is dropped; otherwise the subscribers looked up are those of its name or of the name its alias stands for, and it is a crash above QoS 0; on a new shard it crashes if and only if it gets that far and is above QoS 0 or somebody is to be sent it |
| Routing.SomebodySubscribed | src/broker/session.rs:759-769 | after any run of subscribe and unsubscribe, somebody is to be sent a publication if and only if a delivered subscription is another client's or not `no_local` |
| Routing.RoutedAsSubscribed | src/broker/shard.rs:1052-1081 | after any run of subscribe and unsubscribe a client is routed to if and only if it has a listed subscription the topic is delivered to, with QoS, flags and ids from all of those |
| Routing.RoutedIsConsistent | src/broker/session.rs:772-779 | the copy of a consistent publication is consistent if and only if it was at QoS 0 or neither server nor subscription lowers it to QoS 0 |
| Routing.DowngradedDoesNotRoundTrip | src/broker/message.rs:232-242 | a copy that is lowered keeps the publisher's packet id and does not read back from the wire as itself; reached only with a mended `book_index` |
| Routing.DowngradedExample | src/broker/message.rs:232-242 | a publication at QoS 1 for a subscription at QoS 0 |
| Shards.AppendIndex | src/broker/shard.rs:19-28 | the message joins the end of the list under its key and no other |
| Shards.ActKeeps | src/broker/shard.rs:757-782 | each atomic step keeps, for every pair of shards, received, queued and held messages equal to those given, in order |
| Shards.NothingLost | src/broker/shard.rs:757-782 | for every pair of shards and every interleaving, received, queued and held messages are exactly those the actions of the run gave the one shard for the other, in order, and no queue exceeds its capacity |
| Shards.RoutedIsGiven | src/broker/shard.rs:1113-1126 | what is recorded as routed over a run is what its actions gave, in order |
| Shards.ReceiveTakesFront | src/broker/shard.rs:757-782 | a shard that receives takes the front of its own queue, whoever sent it, and no other queue changes |
| Shards.HeldIsEverything | src/broker/shard.rs:757-782 | what is held is what is in flight, taken and in the back log |
| Shards.SendToShards | src/broker/shard.rs:757-782 | each target's messages move to its queue in order, exactly as many as fit; the rest stays in the back log in order |
| Shards.FlushIsRun | src/broker/shard.rs:757-782 | a run of the atomic steps of one flush, with the targets in any order, moves to every target exactly as many messages as fit and keeps the rest |
| Shards.FlushLeavesOthers | src/broker/shard.rs:757-782 | such a run leaves the back logs of other shards alone |
| BackLog.ListingUnique | src/broker/session.rs:79-83 | a map of packets has exactly one list in increasing sequence numbers |
| BackLog.InsertCounts | src/broker/session.rs:211-217 | inserting loses a packet if and only if a number repeats or is in use |
| BackLog.Book | src/broker/session.rs:211-217 | the loop numbers new messages with wrapping packet ids and inserts them |
| BackLog.PopBatch | src/broker/session.rs:219-226 | the batch is the front of the queue, and the map holds the rest |
| BackLog.PutBack | src/broker/session.rs:233-238 | packets put back come first again |
| Sessions.FlushToMiot | src/broker/session.rs:867-877 | what the queue takes is a prefix, and the rest comes back |
| Sessions.SentAreRegistered | src/broker/session.rs:227-238 | registering a batch and taking the rest of it back leaves exactly the sent packets registered, if no id repeats or is in use |
| Sessions.OutBatch | src/broker/session.rs:219-241 | the front of the back log goes out, as much as a batch and the connection allow; the rest stays, and exactly that is unregistered again |
| Sessions.OutActive | src/broker/session.rs:182-241 | from any back log and any sequence numbers: the two refusals change nothing, and an accepted batch leads to the specified state, packets sent and report |
| Sessions.Session.constructor | src/broker/session.rs:71-84 | a new session waits for nothing and numbers from one |
| Sessions.Session.IncrOutSeqno | src/broker/session.rs:131-143 | hands out the sequence number and saturates |
| Sessions.Session.StampAll | src/broker/shard.rs:795-829 | the loop stamps every message, of any QoS, with the next number up to the last one, and parts them by QoS |
| Sessions.Session.OutQos0 | src/broker/session.rs:145-171 | QoS 0 messages go out first in first out; a batch that finds too much waiting is discarded |
| Sessions.Session.OutMessages | src/broker/shard.rs:789-835 | everything that arrived is stamped; the QoS 0 messages are exactly those that go out or wait, in order, or are discarded where too much waits; the rest is handed on |
| Sessions.Session.OutQosActive | src/broker/session.rs:182-241 | the object goes to the state specified for the batch, `qos12_unacks` included |
| Sessions.Session.Commit | src/broker/shard.rs:917-925 | the same if there is anything above QoS 0, otherwise nothing changes |
| Sessions.Session.Round | src/broker/shard.rs:567-583 | one round of the shard leads to the specified state and packets, and to that of the QoS 0 messages |
| Sessions.Session.Deliver | src/broker/shard.rs:567-583 | a round that is recorded: the object stays where the run of all its rounds leads; its queue grows by the QoS 0 messages and then by the id and publication of each packet that run sends |
| SessionRuns.IdsDiffer | src/broker/session.rs:211-217 | packet ids of the first n accepted messages differ if and only if n is at most 65536, and none is zero if and only if n is below that |
| SessionRuns.StampsDiffer | src/broker/session.rs:131-143 | sequence numbers of the first n messages increase if and only if n is at most 2^64-1 |
| SessionRuns.FitsUnlessCrowded | src/broker/session.rs:211-217 | a round loses no packet if and only if no message above QoS 0 in it gets the last number while another has it in the same round or in the back log |
| SessionRuns.RunKeeps | src/broker/session.rs:131-241 | over any run packet ids follow one another and sequence numbers increase, except that the last one repeats once all are used up |
| SessionRuns.RunQueues | src/broker/session.rs:182-241 | over any run, what was sent and what waits are everything that was accepted, in order, if and only if no round met a used-up number |
| SessionRuns.IssuedIsAccepted | src/broker/session.rs:131-217 | over any run, the packets numbered are what arrived above QoS 0 in rounds that were not refused, each with the place of its message among all that arrived |
| SessionRuns.SentAsAccepted | src/broker/session.rs:131-241 | over any run of at most 2^64-1 messages, what was sent and what waits is that, in order of arrival |
| SessionRuns.SentInOrder | src/broker/session.rs:182-241 | over any run of at most 2^64-1 messages, those at QoS 0 and refused ones included, packets go out in strictly increasing sequence numbers, none is lost, and all that waits comes behind |
| SessionRuns.StrictlyIncreasing | src/broker/session.rs:131-143 | numbers of accepted messages strictly increase over a run if and only if the last number was given to at most one of them, which is so if no more than 2^64-1 messages arrived |
| SessionRuns.SentAwait | src/broker/session.rs:207-241 | up to 65536 accepted messages, exactly the packets sent await acknowledgement, no waiting packet has the id of one, and they are fewer than receive maximum plus batch |
| SessionRuns.RoundKeepsMaximum | src/broker/session.rs:207-241 | a round of a session within its receive maximum stays within it if and only if what it can send, by room, batch, back log and arrivals, is no more than what is left of it |
| SessionRuns.RunKeepsMaximum | src/broker/session.rs:207-241 | over any run of up to 65536 accepted messages the receive maximum is kept if and only if no round exceeds it in that way; with batches of one it always is |
| SessionRuns.ExceedsReceiveMaximum | src/broker/session.rs:207-229 | with a receive maximum of one, two packets await acknowledgement |
| SessionRuns.RefusedForGood | src/broker/session.rs:207-209 | a session that refuses a batch sends nothing above QoS 0 in any run that follows |
| SessionRuns.UsedUpNumberLoses | src/broker/session.rs:131-217 | after 2^64-2 messages at QoS 0, of two above it the first is accepted, overwritten and never sent |

## Left out

- PUBACK and the release of messages through `index` and `ack_timestamps`: unfinished in the source, where an acknowledgement is a `todo!`.
- Shards.Act: appends a routed message without `book_routed_timestamps`, which as written crashes on it (`Routing.RouteToClients`).
- Routing.RxPublish: leaves setting and resetting retained messages to the cluster's book (`RetainBooks`), and keeps the sorted list of packet ids as a set.
- Concurrent writers of the trie: each operation reads a snapshot and writes later, so runs are serial; the spinlock is modelled on its own.
- `RetainedTrie::match_topic_filter` and matching with wildcards in the input; its lookup statistics.
- `ConnectFlags::unwrap` and `SubscriptionOpt::unwrap`: nothing modelled uses them; round trips compare the raw bytes.
- CONNACK, SUBACK, UNSUBSCRIBE, AUTH, PINGREQ, DISCONNECT and the PUBACK family: they would repeat the same proofs; `EndToEnd.Parse` gives an error for them.
- Threads, polling, wakers, listener, handshake, flusher, ticker, client sockets, configuration, logging, keep-alive, UUIDs and hashing; wake-up counters of channels.
- `todo!` handlers, reconnecting and replica sessions.
- Texts and codes of errors: only the kind is kept, and failed integer conversions count as protocol errors.
- `expired` with an explicit elapsed time, and elapsed times of 2^64 microseconds or more.
- The order in which one publication's copies for different clients enter a back log.
- Heap sharing of retained messages: a shared object is a value with an identity, and its deleted mark is membership in a set.
- The linked list of the timer and the buffers of reader and writer are sequences; what a buffer holds beyond its filled part is modelled, its reserved capacity is not.
- Sockets.Source.ReadPacket: on a timeout or failure the connection is only marked as down, since the source drops it.
