# Lokinet: verified models

Dafny models of the parts of Lokinet in which state, timing and several operations interact, with proofs
of what they promise over all inputs and all runs. `dafny verify dfyconfig.toml` checks the project.

- **IWP, the reliable link protocol.** `iwp_messages` holds fragmentation and the acknowledgement bit set,
  `iwp_session` one transition function per operation of a session, `iwp_network` two sessions joined by a
  network that loses, repeats, delays and reorders, `iwp_delivery` what happens when packets do arrive,
  `iwp_recovery` how lost packets are made up for and what the timers do, `iwp_accounting` counters,
  completion handlers and the replay filter over whole runs. `iwp_session_class` is the session as the object
  it is, with its loops, proved to make those transitions. `iwp_wire` is the byte layout and the encryption, `iwp_transport` joins
  it to the runs. `iwp_handshake` is the inbound handshake.
- **Kademlia DHT.** `dht_key` (the metric), `dht_search` (bucket and node database searches), `dht_lookup`
  (relayed lookups), `dht_transactions` and `dht_context` (the pending-transaction table, as values and as
  the objects).
- **Exit address allocator.** `exit_allocator`, as transitions and as the object, and `exit_endpoints`, which
  endpoints are live over every run.
- **Onion path build.** `onion_path`: frames encrypted in place, and the commit message on its way along a path.
- **Codecs and a scheduler.** `dns_names`, `dns_message`, `dns_buffer` (questions, sections 3.1, 4.1.1 and
  4.1.2 of RFC 1035), `ini_config` and `ini_reading`, `base32z`, `reachability`. `common` holds what several of these share.

State that the source updates in place is a class whose methods are proved equal to a transition function on
values; the properties of whole runs are proved about those functions. Containers that the source iterates
over are visited in an arbitrary order, so results hold for every order. Clocks, random numbers, hashes,
ciphers and key agreement are parameters; laws assumed of them are stated as predicates and shown to be
satisfiable.

## Where the code differs from what is said about it

Each of these is proved as an exact condition, with an input that shows the difference beside it.

- A message that ACKS completes stays in the in-flight counter (`IwpAccounting.StatsAddUp`, `IwpAccounting.AckedStaysInFlight`).
- An inbound session closed before its session request can still become Ready, without authentication
  (`IwpHandshake.ReadyIsAuthenticatedIff`, `IwpHandshake.EarlyCloseReopens`).
- `NodeDB::FindClosestTo` takes the all-zero key for "nothing yet" (`DhtSearch.ClosestIsNearestIff`).
- The exit allocator starts its search from `std::numeric_limits<llarp_time_t>::max()`. That template is not
  specialised for durations, so the value is a zero duration and the search never finds anything. The
  sentinel is a parameter here. The `Zero` members of `ExitAllocator` state what the code keeps and whom it
  evicts with the value it has; `RunKeepsInv` and `EvictsOldestOnly` state the design.
- A search that finds nothing looks up the owner of address 0 and gets a default-constructed key. If that
  key is an ident itself, it is thrown out and the maps are no longer inverse
  (`ExitAllocator.ZeroInverseIff`, `ExitAllocator.ZeroKeyBreaksTables`).
- `hex_from_snode` is described as the inverse of the encoder; it pads with blanks and prints lower case
  (`Base32z.TextSurvivesIff`, `Base32z.ZerosPrintAsBlanks`).
- `next_random` is described as using a refilled queue in the same call; the inner call finds the clock
  already advanced (`Reachability.RefillReturnsIff`). The comment on the retest queue names a maximum of two
  and a half minutes; the constant is two minutes (`Reachability.Delay`).

## Model

| member | source | states |
|---|---|---|
| IwpMessages.FragmentsDetermineData | llarp/iwp/message_buffer.cpp:60-85 | Two buffers of one size that agree on every 1024-byte fragment are equal. |
| IwpMessages.FlushUnAcked | llarp/iwp/message_buffer.cpp:60-85 | The flush loop sends exactly the unacknowledged fragments, each once, in ascending order. |
| IwpMessages.IsTransmitted | llarp/iwp/message_buffer.cpp:87-97 | Says whether every fragment is acknowledged, and throws exactly where the bitset is asked for its ninth bit. |
| IwpMessages.AllBitsSet | llarp/iwp/message_buffer.cpp:150-160 | The index loop over the 8-bit set: throws exactly if the message is longer than the set covers and the whole set is marked, and otherwise decides whether all fragments are marked. |
| IwpMessages.IsCompleted | llarp/iwp/message_buffer.cpp:150-160 | Says whether every fragment has arrived, and throws exactly where the bitset is asked for its ninth bit. |
| IwpMessages.HandleDataHolds | llarp/iwp/message_buffer.cpp:120-133 | Copying a sender's fragment keeps every marked fragment equal to the sender's bytes and marks exactly that fragment. |
| IwpMessages.CompletedIsMessage | llarp/iwp/message_buffer.cpp:150-188 | With every fragment marked the buffer is the sender's message, so the digest check succeeds. |
| IwpNetwork.OnMackFrame | llarp/iwp/session.cpp:685-720 | A multi-ack only takes messages out of the send queue, and only those it names. |
| IwpNetwork.ActGrows | llarp/iwp/session.cpp:178-892 | No operation changes a submission or takes back anything sent, delivered or given up. |
| IwpNetwork.SenderKeeps | llarp/iwp/session.cpp:178-265 | Every operation keeps: ids are handed out without gaps, each queued message is what was submitted, and every XMIT and DATA packet ever sent carries bytes of the submitted message at the right offset. |
| IwpNetwork.StoreInboundKeeps | llarp/iwp/session.cpp:740-861 | Filing a fragment keeps the receiver honest: an inbound message left in the table always lacks a fragment, and a complete one passes its digest check. |
| IwpNetwork.ReceiverKeepsXmit | llarp/iwp/session.cpp:740-800 | HandleXMIT keeps the receiver invariant for any packet the sender made, whenever it arrives. |
| IwpNetwork.ReceiverKeepsData | llarp/iwp/session.cpp:802-848 | HandleDATA keeps the receiver invariant likewise. |
| IwpNetwork.ReceiverKeeps | llarp/iwp/session.cpp:203-265 | Every operation of the receiver keeps it: filter and table share no id, a full ACKS names a delivered message, a multi-ack names only delivered or abandoned ids. |
| IwpNetwork.SenderOutcomes | llarp/iwp/session.cpp:863-892 | Completion through ACKS happens only after delivery; through MACK only after delivery or receive timeout. |
| IwpNetwork.StepKeepsInv | llarp/iwp/session.cpp:178-892 | Each step of the two-session system, whatever packet arrives, keeps both directions' invariants. |
| IwpNetwork.RunKeepsInv | llarp/iwp/session.cpp:178-892 | They hold after every prefix of every run over a network that loses, repeats, delays and reorders. |
| IwpNetwork.AckedMeansDelivered | llarp/iwp/session.cpp:850-892 | In every run a message completed with success through ACKS has been handed to the peer's upper layer byte for byte. |
| IwpNetwork.OnlySubmittedIsDelivered | llarp/iwp/session.cpp:740-861 | In every run whatever the upper layer is handed under an id is what the peer submitted under that id. |
| IwpDelivery.XmitProgress | llarp/iwp/session.cpp:740-800 | XMIT to a receiver that does not know the id brings the first fragment, and delivers at once a message that has no other. |
| IwpDelivery.DataProgress | llarp/iwp/session.cpp:802-848 | One more fragment, new or repeated, before or after completion: delivered exactly once all are marked, and never again. |
| IwpDelivery.ActUntouched | llarp/iwp/session.cpp:203-892 | Any other event at the receiver, ticks that do not time the message out included, leaves the message with a given id alone. |
| IwpDelivery.DeliversWhenComplete | llarp/iwp/session.cpp:740-861 | After the XMIT, with any fragments of the message in any order and with repeats amid any other events, it has been delivered once and byte for byte exactly if all fragments were among them, and then a full ACKS was sent; before that nothing is delivered under its id. |
| IwpDelivery.SentPackets | llarp/iwp/session.cpp:178-201 | An accepted message is queued and its XMIT and all other fragments are on their way. |
| IwpDelivery.AckCompletes | llarp/iwp/session.cpp:863-892 | A full ACKS, in whatever state it arrives with the message queued, takes out this message alone and reports success once. |
| IwpDelivery.ExchangeCompletes | llarp/iwp/session.cpp:178-201 | If what SendMessageBuffer sends arrives, XMIT first and the rest in any order amid any other events, the peer delivers the message once and its answer completes the message at the sender. |
| IwpAccounting.RunAccounted | llarp/iwp/session.cpp:178-201 | In every run each submitted id is queued or has one fate, the counters count fates, and handler calls match fates. |
| IwpAccounting.StatsAddUp | llarp/iwp/session.cpp:178-201 | In every run acked + dropped + in flight equals the number of ids handed out; the in-flight counter exceeds the queue length by exactly the messages that ACKS completed; queued ids are below the next id; the queue is within its bound. |
| IwpAccounting.AckedStaysInFlight | llarp/iwp/session.cpp:863-892 | A run of two steps after which the queue is empty and the in-flight counter is one. |
| IwpAccounting.HandlerRunsOnce | llarp/iwp/message_buffer.cpp:38-46 | In every run a completion handler has run exactly once if its message left the queue and not at all otherwise, with Dropped exactly for timeouts. |
| IwpAccounting.RunKeepsFilter | llarp/iwp/session.cpp:382-408 | In every run of a monotone clock the replay filter remembers each delivery for the whole window. |
| IwpAccounting.DeliveriesSpaced | llarp/iwp/session.hpp:24-29 | Two deliveries under one id are at least ReplayWindow apart. |
| IwpAccounting.TimelyIsPrompt | llarp/iwp/session.cpp:364-381 | If a session that does something has ticked at most a period ago, nothing in its queue is older than DeliveryTimeout plus the period. |
| IwpAccounting.PromptRunKeeps | llarp/iwp/session.cpp:356-409 | If queued messages are no older than a lifetime and packets arrive within a maximal delay, every delivery happens within the sum of the two after submission. |
| IwpAccounting.DeliveredAtMostOnce | llarp/iwp/session.hpp:24-29 | If the time between ticks plus the network delay is below ReplayWindow less DeliveryTimeout, 700 milliseconds, every message is delivered at most once. |
| IwpRecovery.MackCompletes | llarp/iwp/session.cpp:685-720 | For every multi-ack, repeats included: each queued id that it names leaves the queue with that fate, its handler runs once more with success, and acked and in flight move by the number of such ids; other ids keep their fate and calls. |
| IwpRecovery.MackLeaves | llarp/iwp/session.cpp:685-720 | What is left in the queue is exactly what was there and is not named. |
| IwpRecovery.LostAckRecovers | llarp/iwp/session.cpp:740-861 | If the ACKS of a delivered message is lost, a repeated XMIT or DATA leads to a multi-ack that names the id, and that completes the message at the sender. |
| IwpRecovery.NackRecovers | llarp/iwp/session.cpp:722-848 | DATA of a message that the receiver does not know makes it ask, and the answer is an XMIT that the receiver accepts as the start of the message. |
| IwpRecovery.MisfitXmit | llarp/iwp/session.cpp:740-800 | An XMIT whose body has the wrong size still opens the message, with nothing marked and nothing delivered. |
| IwpRecovery.PartialAck | llarp/iwp/session.cpp:863-892 | Acknowledgement of some fragments replaces the bit set, stamps the message and sends exactly the missing fragments again. |
| IwpRecovery.PartialAckRecovers | llarp/iwp/session.cpp:228-251 | With some fragments lost, the pump of the receiver acknowledges what it has, the sender answers with the rest, and when these arrive, amid any other events, the message is delivered once and byte for byte. |
| IwpRecovery.PumpSendsDue | llarp/iwp/session.cpp:228-251 | A pump sends exactly the acknowledgements last sent more than 250 milliseconds ago and the missing fragments of messages flushed 400 or more milliseconds ago, stamps those and changes nothing else. |
| IwpRecovery.InboundStamps | llarp/iwp/message_buffer.cpp:120-173 | After every event an inbound message still held was last active when a fragment last fitted into it, and last acknowledged when a pump last did so, or never. |
| IwpRecovery.OutboundStamps | llarp/iwp/message_buffer.cpp:49-104 | After every event a queued message was started when it was submitted and last flushed when it was sent, partly acknowledged or found overdue last. |
| IwpRecovery.ThrowLeaves | llarp/iwp/message_buffer.cpp:120-160 | An exception on DATA leaves the bytes copied if they fit, and no mark that the bit set has no place for. |
| IwpRecovery.TickDropsExactly | llarp/iwp/session.cpp:364-381 | A tick drops exactly the messages queued for more than 500 milliseconds, reports each once as dropped and counts it. |
| IwpRecovery.TickForgetsExactly | llarp/iwp/session.cpp:382-408 | A tick forgets exactly the inbound messages idle for more than 500 milliseconds; the filter then holds those, and what it held less than 1200 milliseconds ago with its time. |
| IwpSessionObject.Session.constructor | llarp/iwp/session.cpp:46-58 | A new session has empty queues and zero counters. |
| IwpSessionObject.Session.SendMessageBuffer | llarp/iwp/session.cpp:178-201 | Refuses exactly when 16384 messages are queued and then tells the handler; otherwise queues the message and sends XMIT and, above one fragment, all unacknowledged DATA. |
| IwpSessionObject.Session.Finish | llarp/iwp/message_buffer.cpp:38-46 | A message leaves the queue and its handler, if any, runs once. |
| IwpSessionObject.Session.HandleRecvMsgCompleted | llarp/iwp/session.cpp:850-861 | Delivers and acknowledges unless the id is in the replay filter; removes the message in either case. |
| IwpSessionObject.Session.HandleXMIT | llarp/iwp/session.cpp:740-800 | For every XMIT packet, of any announced size, the new state is the transition OnXmit; no exception can occur. |
| IwpSessionObject.Session.HandleDATA | llarp/iwp/session.cpp:802-848 | For every DATA packet: throws exactly if DataThrows holds of the stored message, leaving the copied bytes behind, and otherwise the new state is the transition OnData. |
| IwpSessionObject.Session.HandleACKS | llarp/iwp/session.cpp:863-892 | Replaces the bit set, then completes the message or sends the rest again; counters are left alone. |
| IwpSessionObject.Session.HandleNACK | llarp/iwp/session.cpp:722-738 | Sends XMIT again, once, for a queued message and nothing for another. |
| IwpSessionObject.Session.HandleMACK | llarp/iwp/session.cpp:685-720 | Completes exactly the queued ids that are named, each once and reported once, and moves as many from in flight to acked. |
| IwpSessionObject.Session.SendMACK | llarp/iwp/session.cpp:203-226 | Ends with no ids left and has emitted them ascending, in packets of at most 128, in that order. |
| IwpSessionObject.Session.PopAcks | llarp/iwp/session.cpp:209-223 | One packet's worth of ids leaves the heap, smallest first. |
| IwpSessionObject.Session.Pump | llarp/iwp/session.cpp:228-251 | In the Ready and LinkIntro phases, for every iteration order: acknowledges the inbound messages that are due and flushes the outbound ones that are due; in other phases does neither. |
| IwpSessionObject.Session.PumpInbound | llarp/iwp/session.cpp:236-242 | The first half of that, over the receive table in any order. |
| IwpSessionObject.Session.PumpOutbound | llarp/iwp/session.cpp:243-249 | The second half, over the send queue in any order. |
| IwpSessionObject.Session.Tick | llarp/iwp/session.cpp:356-409 | For every iteration order: drops timed-out outbound messages, forgets timed-out inbound ones into the replay filter, and decays the filter. |
| IwpSessionObject.Session.DropEach | llarp/iwp/session.cpp:364-381 | The outbound loop: exactly the timed-out messages are dropped, counted and reported. |
| IwpSessionObject.Session.RemoveEach | llarp/iwp/session.cpp:382-395 | The inbound loop: exactly the timed-out messages go, and the filter keeps the older time of an id it knows. |
| IwpSessionObject.Session.DecayReplay | llarp/iwp/session.cpp:396-408 | Exactly the ids whose window has passed leave the filter. |
| IwpWire.BERoundTrip | llarp/iwp/session.cpp:203-226 | A big-endian field of n bytes reads back every number that fits. |
| IwpWire.MaskRoundTrip | llarp/iwp/message_buffer.cpp:135-148 | The acknowledgement byte reads back the set of marked fragments. |
| IwpWire.DecodeEncode | llarp/iwp/session.cpp:685-892 | Every handler reads back every packet whose values fit their fields, whatever random padding follows. |
| IwpWire.WireRoundTrip | llarp/iwp/session.cpp:146-163 | A packet sealed with the session key is accepted by the peer and decodes to the same packet. |
| IwpWire.DecodeIff | llarp/iwp/session.cpp:685-892 | Bytes are read as a packet exactly if they are what is written for it followed by padding where padding is allowed: nothing else is accepted. |
| IwpWire.OpenIff | llarp/iwp/session.cpp:562-602 | A packet opens to a text exactly if it is that text, not empty, sealed under the key and the nonce in it. |
| IwpWire.WrongTagRefused | llarp/iwp/session.cpp:562-602 | A packet that opens does not open with any other tag. |
| IwpWire.LawfulCryptoExists | llarp/iwp/session.cpp:562-602 | The laws assumed of cipher and keyed hash can be met. |
| IwpWire.MacksReadBack | llarp/iwp/session.cpp:203-226 | What SendMACK emits for any heap, read with HandleMACK's layout, is the heap's multiset of ids in ascending order. |
| IwpTransport.ActFits | llarp/iwp/session.cpp:178-892 | Every operation emits only packets whose values fit the wire fields, given that the packets it receives do. |
| IwpTransport.RunFits | llarp/iwp/session.cpp:178-892 | So does every run, as long as the 64-bit ids last. |
| IwpTransport.RunSurvivesWire | llarp/iwp/session.cpp:562-602 | Every packet of every run survives encoding, sealing, opening and decoding unchanged. |
| IwpTransport.FragmentsNeverThrow | llarp/iwp/message_buffer.cpp:120-160 | In every run no DATA packet of the peer makes the receiver throw. |
| IwpHandshake.ActKeepsInv | llarp/iwp/session.cpp:449-529 | Every event of an inbound session, closing at any time included, keeps the authentication invariant, which records whether the session was closed before its request was accepted. |
| IwpHandshake.ReadyIsAuthenticatedIff | llarp/iwp/session.cpp:70-84 | In every run a Ready session is authenticated (introduction signed by the expected ident, session key agreed with it, our token echoed, a verified link introduction of the same ident) exactly if it was not closed in the Initial or Introduction phase. |
| IwpHandshake.PhaseMovesForwardIff | llarp/iwp/session.cpp:922-966 | In every run the phase only moved forward exactly if no link introduction met a session that was closed before it was established. |
| IwpHandshake.StepGoesBackIff | llarp/iwp/session.cpp:165-176 | A step goes back exactly if the session was closed before it was established and a verified link introduction is waiting. |
| IwpHandshake.EarlyCloseReopens | llarp/iwp/session.cpp:165-176 | Such a run, with sizes as in the code: closed after a genuine introduction and before any session request, the session becomes Ready and its token was never echoed. |
| IwpHandshake.HonestHandshakeCompletes | llarp/iwp/session.cpp:449-529 | A good introduction, a request that echoes the token and a packet that completes a verified link introduction of that ident take a new session through every phase to Ready, with the token and our link introduction sent and nothing else, and with the agreed key and the ident of the peer. |
| IwpHandshake.IntroAcceptedIff | llarp/iwp/session.cpp:481-529 | A first packet is accepted exactly if it opens to 160 bytes or more, signed by the ident in it, with a key to agree on; the fields come from their offsets, and a refused packet changes at most ident and onion key. |
| IwpHandshake.RequestAcceptedIff | llarp/iwp/session.cpp:449-479 | A request is accepted, and our link introduction sent, exactly if it opens and starts with the token; a refused one changes nothing. |
| IwpHandshake.LimAcceptedIff | llarp/iwp/session.cpp:70-84 | A session is established exactly by a queued packet that completes a verified link introduction of the expected ident; the worker changes the phase, the peer and what is sent in no other case. |
| IwpHandshake.ClosedOnce | llarp/iwp/session.cpp:165-176 | Closing works from every phase and sends one notice however often it is repeated. |
| IwpHandshake.OpensInOrder | llarp/iwp/session.cpp:618-683 | Packets of an open session are opened once each, in the order of arrival, whatever they are. |
| IwpHandshake.InboundSession.constructor | llarp/iwp/session.cpp:46-58 | A new inbound session is in the initial phase with its own token. |
| IwpHandshake.InboundSession.RecvPacket | llarp/iwp/session.cpp:922-966 | Dispatches on the phase; refuses exactly an initial packet that does not open. |
| IwpHandshake.InboundSession.HandleGotIntro | llarp/iwp/session.cpp:481-529 | Checks length, signature and key agreement; on success takes the agreed key and answers with our token; ident and onion key are overwritten before the check. |
| IwpHandshake.InboundSession.HandleCreateSessionRequest | llarp/iwp/session.cpp:449-479 | The phase becomes LinkIntroSent, and our link introduction is sent, exactly if the packet opens and starts with the token. |
| IwpHandshake.InboundSession.ProcessPlaintext | llarp/iwp/session.cpp:618-683 | Opens the next queued packet and hands the link introduction that it completes, if any, to the handler. |
| IwpHandshake.InboundSession.OnLinkIntro | llarp/messages/link_intro.cpp:100-106 | Verifies the introduction, compares idents and becomes Ready unless the session is a duplicate; says yes exactly if all this and the link layer agree. |
| IwpHandshake.InboundSession.CloseNow | llarp/iwp/session.cpp:165-176 | Closing ends in Closed and sends one notice, none if closed already. |
| DhtKey.LessIsValueOrder | llarp/dht/key.hpp:62-67 | The lexicographic order of keys is the order of the 256-bit numbers they spell, and equal numbers are equal keys. |
| DhtKey.CloserIsLessDistant | llarp/dht/kademlia.hpp:17-27 | The metric compares distances to the target, and two keys at one distance are the same key. |
| DhtKey.XorCancels | llarp/dht/key.hpp:43-49 | Xor with one key is injective. |
| DhtKey.ZeroDistanceIsTarget | llarp/dht/key.hpp:43-49 | Only the target is at distance zero. |
| DhtSearch.AreNearestUnique | llarp/dht/kademlia.hpp:17-27 | The set of n nearest keys is unique. |
| DhtSearch.FindCloseExcluding | llarp/dht/bucket.hpp:124-146 | Finds the nearest key outside the excluded ones for every iteration order; fails exactly if there is none below distance all-0xff, and leaves the result alone. |
| DhtSearch.GetManyNearExcluding | llarp/dht/bucket.hpp:148-168 | Adds exactly the N nearest candidates; fails exactly if there are fewer, having added them all. |
| DhtSearch.FindClosestTo | llarp/nodedb.cpp:238-256 | The fold over the database in a given order. |
| DhtSearch.VisitedNearestIff | llarp/nodedb.cpp:238-256 | For every visiting order: the entry found is the nearest one exactly if the all-zero key does not get in the way. |
| DhtSearch.ClosestIsNearestIff | llarp/nodedb.cpp:238-256 | It is the nearest entry unless the all-zero key is the nearest and is not visited last. |
| DhtSearch.ZeroKeyIsMissed | llarp/nodedb.cpp:238-256 | A database on which the all-zero key is missed. |
| DhtSearch.VisitedIsNearest | llarp/nodedb.cpp:238-256 | What the search returns, for every visiting order: the nearest of all entries, or if the all-zero key is nearest and not last, the nearest of those visited after it. |
| DhtSearch.FindManyClosestTo | llarp/nodedb.cpp:258-284 | Returns the requested number of nearest entries, or all, nearest first. |
| DhtSearch.SearchesAgree | llarp/dht/bucket.hpp:148-168 | Over the same keys with nothing excluded, bucket and database return the same set. |
| DhtLookup.RelayedCloser | llarp/dht/context.cpp:371-429 | A lookup is relayed only to a router strictly closer to the target, whatever the database holds. |
| DhtLookup.TargetAnswers | llarp/dht/context.cpp:371-408 | Our own contact is sent exactly for our own key, nothing exactly if the target is not allowed, the known contact exactly if the search finds the target and it does not expire soon, and the target is asked exactly if it does. |
| DhtLookup.OtherAnswers | llarp/dht/context.cpp:408-429 | Another router is asked exactly if the lookup is recursive, the target is not found, and the router that the search returns is that one and is closer than we are; it is named exactly in the iterative case; and nothing is sent exactly if it is not closer. |
| DhtLookup.ChainApproaches | llarp/dht/context.cpp:371-429 | Along a chain of relays the distance strictly decreases. |
| DhtLookup.ChainVisitsOnce | llarp/dht/context.cpp:371-429 | No router is asked twice. |
| DhtLookup.ChainBounded | llarp/dht/context.cpp:371-429 | A chain is no longer than the network has routers. |
| DhtLookup.NotHereMeansClosestIff | llarp/dht/context.cpp:371-429 | A router that gives up is at least as close as every router it knows, exactly unless the search overlooks the all-zero key and that one is closer. |
| DhtTransactions.NewTXKeepsInv | llarp/dht/txholder.hpp:122-145 | Registering a transaction under its own target keeps the tables in agreement. |
| DhtTransactions.AnswerKeepsInv | llarp/dht/txholder.hpp:159-193 | Answering keys keeps them in agreement and answers each waiter once. |
| DhtTransactions.RunKeepsInv | llarp/dht/txholder.hpp:122-212 | So does every run. |
| DhtTransactions.EveryTransactionRepliesOnce | llarp/dht/txholder.hpp:122-212 | In every run a transaction has replied exactly once if it is no longer pending and never while it is; pending owners wait under exactly their own target; waiting and timeouts have the same keys. |
| DhtTransactions.AnsweredIffSettled | llarp/dht/txholder.hpp:147-212 | An operation answers a pending transaction exactly if it is Found or NotFound on its key or an expiry at or after the key's deadline; otherwise it leaves it and its deadline as they were. |
| DhtTransactions.ReplyCarriesAccepted | llarp/dht/tx.hpp:70-80 | The reply holds the values found before, then the accepted ones of this answer in its order and with its repeats. |
| DhtTransactions.AnswerCarries | llarp/dht/txholder.hpp:159-193 | An answered transaction is no longer pending and has sent what it had found before, then what is accepted of an answer with values. |
| DhtTransactions.RegisteredIsPending | llarp/dht/txholder.hpp:122-145 | A new transaction is pending as registered, has sent nothing, and starts a request exactly if no other is pending on its key; the others stay as they were. |
| DhtTransactions.OneRequestPerKey | llarp/dht/txholder.hpp:140-144 | In every run, of the transactions that wait for one key the first registered has started a request and no other has. |
| DhtTransactions.DeadlineIsOfFirst | llarp/dht/txholder.hpp:133-139 | In every run a key has a deadline exactly if it was registered since it was last settled, and the deadline is that of the earliest such registration. |
| DhtTransactions.ExpiryAnswersIff | llarp/dht/txholder.hpp:195-212 | In every run an expiry answers a pending transaction exactly if it comes at or after the deadline of the earliest registration on its key since that was last settled. |
| DhtContext.TXHolder.constructor | llarp/dht/txholder.hpp:17-25 | A new holder is empty. |
| DhtContext.TXHolder.HasLookupFor | llarp/dht/txholder.hpp:66-70 | True exactly if a pending transaction has this target. |
| DhtContext.TXHolder.New | llarp/dht/txholder.hpp:122-145 | Registers the transaction; starts it exactly if no other waits for the key, with now plus the timeout as the deadline of the key, and otherwise keeps the deadline there is. |
| DhtContext.TXHolder.Inform | llarp/dht/txholder.hpp:159-193 | Answers every owner waiting under the key, then drops the key. |
| DhtContext.TXHolder.InformEach | llarp/dht/txholder.hpp:166-185 | The loop over the waiters: each pending one is answered and removed. |
| DhtContext.TXHolder.OnFound | llarp/dht/txholder.hpp:90-94 | Answers everything waiting for the key with the values. |
| DhtContext.TXHolder.OnNotFound | llarp/dht/txholder.hpp:147-157 | Answers what waits for the target of this transaction, and nothing if it is unknown. |
| DhtContext.TXHolder.ExpireAll | llarp/dht/txholder.hpp:195-212 | For every iteration order: answers exactly the keys whose deadline has come. |
| DhtContext.TXHolder.ExpireEach | llarp/dht/txholder.hpp:200-211 | The loop over the deadlines, in any order. |
| DhtContext.Context.constructor | llarp/dht/context.cpp:299-303 | A context with empty holders. |
| DhtContext.Context.ExploreNetworkVia | llarp/dht/context.cpp:320-329 | Registers an exploration under a fresh id and the peer's own key. |
| DhtContext.Context.LookupRouterForPath | llarp/dht/context.cpp:628-637 | Registers under the target, owned by the peer asked. |
| DhtContext.Context.LookupRouterRecursive | llarp/dht/context.cpp:639-651 | Registers under the target, keeping who asked. |
| DhtContext.Context.LookupIntroSetForPath | llarp/dht/context.cpp:505-520 | Registers under the asker. |
| DhtContext.Context.PropagateIntroSetTo | llarp/dht/context.cpp:522-534 | Registers under the asker. |
| DhtContext.Context.PropagateLocalIntroSet | llarp/dht/context.cpp:536-551 | Registers under the peer told. |
| DhtContext.Context.LookupIntroSetRelayed | llarp/dht/context.cpp:553-566 | Registers under the asker. |
| DhtContext.Context.LookupIntroSetDirect | llarp/dht/context.cpp:568-580 | Registers under the asker with the shorter timeout. |
| DhtContext.Context.LookupRouterRelayed | llarp/dht/context.cpp:371-429 | Replies at once or registers a lookup with a strictly closer router under a fresh id, as the relay decision says; our own contact exactly for our own key, the known contact exactly if the target is found and does not expire soon. |
| DhtContext.Context.CleanupTX | llarp/dht/context.cpp:440-449 | Expires all three holders. |
| ExitAllocator.ServiceableKeeps | llarp/handlers/exit.cpp:520-577 | A request that finds a free address, its own address or an address to take over keeps the tables consistent, whatever the sentinel is, and maps the ident to the address returned. |
| ExitAllocator.ConsistentIffServiceable | llarp/handlers/exit.cpp:520-577 | For a given outcome of the search: a request keeps the tables consistent exactly if it is of that kind. |
| ExitAllocator.ConsistentIffCanServe | llarp/handlers/exit.cpp:520-577 | For every sentinel: a request keeps the tables consistent, in whatever order the activities are visited, exactly if the ident is known, an address is left, or some activity is below both the sentinel and our own. |
| ExitAllocator.MappedKeeps | llarp/handlers/exit.cpp:520-577 | As designed, with a sentinel above the clock, at least two addresses and another's key: the whole invariant is kept. |
| ExitAllocator.RunKeepsInv | llarp/handlers/exit.cpp:448-457 | As designed, with a sentinel above the clock: in every run the maps are inverse, cover the addresses from our own to the last handed out, each with an activity; our key keeps our address; every live endpoint carries its key's address. |
| ExitAllocator.EvictsOldestOnly | llarp/handlers/exit.cpp:553-577 | As designed, with a sentinel above the clock: an ident loses its address only if every address of the range is mapped, only with least activity, and alone. |
| ExitAllocator.ZeroConsistentIff | llarp/handlers/exit.cpp:520-577 | With the sentinel zero, as in the code: a request keeps the tables consistent exactly if the ident is known or an address is left. |
| ExitAllocator.ZeroMappedKeeps | llarp/handlers/exit.cpp:520-577 | With the sentinel zero, a request keeps the maps inverse, the activities and the endpoints right, and maps the ident to the address returned, if the ident is known, an address is left, address 0 has an owner, or the default-constructed key is not an ident. |
| ExitAllocator.ZeroInverseIff | llarp/handlers/exit.cpp:520-577 | It keeps the maps inverse exactly under that condition, whoever asks and whenever. |
| ExitAllocator.ZeroRunKeeps | llarp/handlers/exit.cpp:448-577 | With the sentinel zero, in every run of such requests, of any idents at any times: the maps are inverse, cover the addresses handed out and at most address 0 besides, each with an activity, our key keeps our address, every live endpoint carries its key's address. |
| ExitAllocator.ZeroRunKeepsIff | llarp/handlers/exit.cpp:448-577 | After every such run, whatever call comes next keeps the maps inverse exactly under that condition. |
| ExitAllocator.ZeroEvictsIff | llarp/handlers/exit.cpp:553-577 | After every such run, whatever call comes next takes an ident's address away exactly if it asks for a new ident, the range is used up, and the ident holds address 0, or nobody does and it is the default-constructed key; otherwise the address stays. |
| ExitAllocator.ZeroEvictsNewer | llarp/handlers/exit.cpp:553-577 | A run of four idents in which the one evicted is more recently active than another that stays. |
| ExitAllocator.ZeroKeyBreaksTables | llarp/handlers/exit.cpp:572-577 | The input for which the condition fails: the default-constructed key holds the last address of the range, and a new ident asks. |
| ExitAllocator.ServedRunConsistent | llarp/handlers/exit.cpp:520-577 | For every sentinel, every run of requests that can be served in this sense keeps the tables consistent. |
| ExitAllocator.AddressInRangeIff | llarp/handlers/exit.cpp:553-577 | With the range used up a new ident gets an address of the range exactly if some activity is below the sentinel, and otherwise address 0. |
| ExitAllocator.ZeroLimitLeavesRange | llarp/handlers/exit.cpp:560-577 | With the sentinel zero the third ident of a two-address range gets address 0. |
| ExitAllocator.OneAddressRange | llarp/handlers/exit.cpp:560-577 | With one address the first other ident gets address 0. |
| ExitAllocator.OwnKeyCanBeEvicted | llarp/handlers/exit.cpp:520-550 | As designed, with a sentinel above the clock, a request in our own name can cost us our address. |
| ExitEndpoints.AddressKeepsExits | llarp/handlers/exit.cpp:520-647 | After any request for an address the ident has the address returned, and the live endpoints are those before, less the ones whose key has lost its address. |
| ExitEndpoints.NewExitAppends | llarp/handlers/exit.cpp:801-823 | After a new exit the live endpoints are those before, less the ones whose key has lost its address, followed by one with this key, path and time and the address of the key. |
| ExitEndpoints.CountStep | llarp/handlers/exit.cpp:572-906 | For every call and endpoint: expiry and loss of the address remove it with all its like, a new exit adds one, a removal takes that one away, and nothing else changes. |
| ExitEndpoints.EndpointsMatchKeys | llarp/handlers/exit.cpp:520-906 | In every run of any calls, whatever the search finds, every live endpoint carries the address that its key is mapped to. |
| ExitEndpoints.LiveCount | llarp/handlers/exit.cpp:572-906 | In every run, of the endpoints equal to a given one as many are live as were allocated less those removed, since one like it last expired or its key last lost its address. |
| ExitEndpoints.LiveIff | llarp/handlers/exit.cpp:572-906 | In every run an endpoint that is allocated once is live exactly if it has been allocated and since then neither removed nor expired nor kicked off. |
| ExitAllocator.ExitEndpoint.constructor | llarp/handlers/exit.cpp:448-457 | Our key is mapped to the interface address. |
| ExitAllocator.ExitEndpoint.FindOldest | llarp/handlers/exit.cpp:558-571 | For every iteration order: an address of least activity below the sentinel, or 0. |
| ExitAllocator.ExitEndpoint.KickOff | llarp/handlers/exit.cpp:636-647 | The ident loses its address and all its endpoints. |
| ExitAllocator.ExitEndpoint.AllocateNewAddress | llarp/handlers/exit.cpp:552-577 | The next address of the range, or one taken over. |
| ExitAllocator.ExitEndpoint.GetIPForIdent | llarp/handlers/exit.cpp:520-550 | The ident's address, new if need be; its activity is now. |
| ExitAllocator.ExitEndpoint.ObtainServiceNodeIP | llarp/handlers/exit.cpp:769-793 | Our own address for our own key, and a mapped one for others. |
| ExitAllocator.ExitEndpoint.AllocateNewExit | llarp/handlers/exit.cpp:801-823 | Fails without a known path or without permission, changing nothing; otherwise succeeds, and the last endpoint has this key, path and time and the address the key is mapped to. |
| ExitAllocator.ExitEndpoint.RemoveEndpoint | llarp/handlers/exit.cpp:837-853 | Removes the first endpoint of that key and path and no other. |
| ExitAllocator.ExitEndpoint.Tick | llarp/handlers/exit.cpp:855-906 | Drops exactly the expired endpoints and chooses for each key the newest that does not look dead. |
| OnionPath.LawfulCryptoExists | llarp/crypto/crypto_libsodium.cpp:27-76 | The laws assumed of key agreement, cipher and keyed hash can be met. |
| OnionPath.DhAgrees | llarp/crypto/crypto_libsodium.cpp:48-76 | Both ends derive the same secret or both fail. |
| OnionPath.EncryptedLayout | llarp/crypto/encrypted_frame.cpp:9-87 | Where hash, nonce, key and body of an encrypted frame are and what they hold. |
| OnionPath.DecryptUndoesEncrypt | llarp/crypto/encrypted_frame.cpp:89-155 | The addressee recovers the body of the frame, and the size is kept. |
| OnionPath.OpensIff | llarp/crypto/encrypted_frame.cpp:89-155 | A frame opens exactly if a secret is agreed and its first 32 bytes authenticate the rest under it; hash, nonce and key stay and the body is decrypted. |
| OnionPath.WrongTagRefused | llarp/crypto/encrypted_frame.cpp:101-122 | A frame that opens does not open with any other tag. |
| OnionPath.EncryptUndoesDecrypt | llarp/crypto/encrypted_frame.cpp:89-155 | A frame that the receiver opens is the frame that the owner of the key in it makes of what was opened. |
| OnionPath.EncryptInPlace | llarp/crypto/encrypted_frame.cpp:56-87 | The frame array becomes the encrypted frame exactly if the agreement succeeds; otherwise the body is untouched. |
| OnionPath.DoEncrypt | llarp/crypto/encrypted_frame.cpp:9-53 | Body encrypted under the frame's nonce, hash over all that follows it. |
| OnionPath.DecryptInPlace | llarp/crypto/encrypted_frame.cpp:130-155 | Succeeds exactly if the frame authenticates and otherwise leaves it alone. |
| OnionPath.ShiftFrames | llarp/messages/relay_commit.cpp:425-439 | The eight frames move up by one and junk takes the last place. |
| OnionPath.ArrivingFrames | llarp/messages/relay_commit.cpp:425-439 | After k relays frame i + k is at place i and every frame has the same size. |
| OnionPath.EachHopGetsItsRecord | llarp/messages/relay_commit.cpp:360-459 | For every path of up to 8 hops the k-th relay recovers exactly record k and the path key the client shares with it, forwards 8 frames of the same size to hop k + 1, and the last one confirms. |
| OnionPath.TakesPartIff | llarp/messages/relay_commit.cpp:360-459 | A relay confirms a path exactly if the first frame opens to a record with non-zero path ids, a key to agree on and the relay itself as the next hop; with another next hop it sends that router the other seven frames and junk. |
| OnionPath.IgnoredIff | llarp/messages/relay_commit.cpp:360-459 | It ignores the message exactly if there is no such record. |
| OnionPath.OpensForHop | llarp/path/pathbuilder.cpp:35-126 | A frame built for a hop opens for it, decodes to its record, and both derive the same path key. |
| DnsNames.LabelsRoundTrip | llarp/dns/name.cpp:14-40 | Decoding encoded labels gives the labels before the first empty one and says how far it read. |
| DnsNames.DottedLines | llarp/dns/name.cpp:42-52 | Splitting at dots and joining again gives the name in trailing-dot form. |
| DnsNames.CanonicalIff | llarp/dns/name.cpp:42-72 | The labels written are the whole name exactly if it has no empty or overlong label. |
| DnsNames.NameRoundTripIff | llarp/dns/name.cpp:14-72 | A name that encodes comes back in trailing-dot form, all bytes read, exactly if every label has 1 to 63 bytes. |
| DnsNames.DecodeLabelsIff | llarp/dns/name.cpp:14-40 | Labels are read exactly from a buffer that starts with their wire form, and just that is taken. |
| DnsNames.EncodeLabelsIs | llarp/dns/name.cpp:42-72 | The bytes written are the wire form of the labels before the first empty one, and one more zero byte if there is such a one; nothing exactly if one of those is longer than 63 bytes. |
| DnsNames.LinesHaveNoDots | llarp/dns/name.cpp:42-52 | The parts of a name hold no dot. |
| DnsNames.CanonicalIs | llarp/dns/name.cpp:44-46 | A trailing dot makes no difference, and the root is the empty text. |
| DnsMessage.QuestionRoundTrip | llarp/dns/question.cpp:28-57 | The same for a question with type and class. |
| DnsMessage.QuestionsRoundTripIff | llarp/dns/message.cpp:88-134 | A list of questions reads back, consuming exactly its bytes, exactly if every name does. |
| DnsMessage.HeaderRoundTrip | llarp/dns/message.cpp:17-49 | The twelve header bytes read back. |
| DnsMessage.MessageRoundTripIff | llarp/dns/message.cpp:88-134 | A message without answers survives exactly if it has at most 65535 questions with proper names. |
| DnsMessage.DecodeMessageIff | llarp/dns/message.cpp:113-134 | Bytes are read as a message exactly if they start with a header and the wire form of as many questions as it announces; just that is taken, and the names are the labels with a dot after each. |
| DnsMessage.DoubledDotIsLost | llarp/dns/name.cpp:54-70 | A name with an empty label is cut there. |
| DnsBuffer.Buffer.PutU16 | llarp/util/buffer.cpp:36-45 | Writes two bytes and fails without change exactly if there is no room. |
| DnsBuffer.Buffer.ReadU16 | llarp/util/buffer.cpp:66-75 | Reads two bytes and fails without moving exactly if there are none. |
| DnsBuffer.Buffer.WriteName | llarp/dns/name.cpp:42-72 | Writes exactly the encoding of the name after what was there, or fails exactly for an overlong label or for lack of room, wherever the unchecked writes stay in the buffer. |
| DnsBuffer.Buffer.ReadName | llarp/dns/name.cpp:14-40 | Decodes the name at the cursor and moves past it. |
| DnsBuffer.Buffer.WriteQuestion | llarp/dns/question.cpp:28-36 | Appends the question's encoding or fails exactly if there is none or no room. |
| DnsBuffer.Buffer.ReadQuestion | llarp/dns/question.cpp:38-57 | Decodes the question at the cursor. |
| DnsBuffer.Buffer.ReadQuestions | llarp/dns/message.cpp:113-123 | The loop over the announced number of questions. |
| DnsBuffer.Buffer.WriteHeader | llarp/dns/message.cpp:17-30 | Appends the header or runs out of room. |
| DnsBuffer.Buffer.ReadHeader | llarp/dns/message.cpp:33-49 | Reads the header. |
| DnsBuffer.Buffer.WriteQuestions | llarp/dns/message.cpp:102-104 | The loop over the questions: appends all their encodings or fails exactly if one has none or there is no room. |
| DnsBuffer.Buffer.WriteMessage | llarp/dns/message.cpp:88-111 | Appends the encoding of the whole message or fails exactly if there is none or no room. |
| DnsNames.NameRoomSuffices | llarp/dns/name.cpp:42-72 | With room for the text and two bytes no unchecked write leaves the buffer. |
| DnsBuffer.QuestionRoomSuffices | llarp/dns/message.cpp:88-111 | With room for the texts and six bytes each, none does for a list of questions, and all of it fits. |
| DnsBuffer.Buffer.ReadMessage | llarp/dns/message.cpp:113-134 | Reads header and questions, consuming exactly what the encoding wrote. |
| IniConfig.ParsedOk | llarp/config/ini.cpp:54-121 | Whatever a line parses to could stand on a line of its own. |
| IniConfig.ParseLinesOk | llarp/config/ini.cpp:54-121 | So does a whole file: parsing never yields an entry that Save could not write. |
| IniConfig.ReadEntry | llarp/config/ini.cpp:95-112 | A proper key and value written on one line read back. |
| IniConfig.ReadSection | llarp/config/ini.cpp:88-94 | Any section name written in brackets reads back. |
| IniConfig.ReadRendered | llarp/config/ini.cpp:151-168 | Reading a rendered file collects its sections, whatever the current section was. |
| IniConfig.CollectedAll | llarp/config/ini.cpp:151-168 | Collecting sections in any order gives the map from sections to multisets of pairs. |
| IniConfig.SaveParseIff | llarp/config/ini.cpp:151-168 | For every iteration order, parsing what Save writes gives back the overrides exactly if section names, keys and values are free of line breaks, keys and values are trimmed, and keys are non-empty, without =, and do not make the line a comment or a section. |
| IniConfig.EqualsInKeyIsLost | llarp/config/ini.cpp:151-168 | A key with an equals sign does not come back. |
| IniReading.LinesAre | llarp/config/ini.cpp:57-71 | The lines of every text: what a return or a new line ends, and a last line that is not empty. |
| IniReading.LineIs | llarp/config/ini.cpp:75-118 | A line, its outer space put aside, is nothing exactly if empty or a comment, a section exactly if in brackets, malformed exactly if none of these and without an equals sign that has something before it. |
| IniReading.EntryIs | llarp/config/ini.cpp:95-112 | Key and value stand on either side of the first equals sign, without the space around it. |
| IniReading.EntrySplits | llarp/config/ini.cpp:95-112 | Every line that is no comment, no section and not malformed is an entry of that form. |
| IniReading.SectionAtIs | llarp/config/ini.cpp:88-94 | A line belongs to the section named last before it. |
| IniReading.ParseCounts | llarp/config/ini.cpp:73-121 | For every text: accepted exactly if no line is malformed; the entries are those there were, and each once for every line up to the first malformed one that is this entry in the section named last. |
| IniReading.ParseOkIff | llarp/config/ini.cpp:54-121 | A text is accepted exactly if none of its lines is malformed. |
| IniConfig.SplitLines | llarp/config/ini.cpp:57-71 | The index loop splits at line breaks. |
| IniConfig.TrimLeft | llarp/config/ini.cpp:79-80 | Drops leading blanks. |
| IniConfig.TrimRight | llarp/config/ini.cpp:81-82 | Drops trailing blanks. |
| IniConfig.ReadLine | llarp/config/ini.cpp:75-118 | One line's effect: comment, blank, section, entry or failure. |
| IniConfig.WriteEntries | llarp/config/ini.cpp:161-164 | Writes the pairs of a section in some order, each as often as it occurs. |
| IniConfig.WriteFile | llarp/config/ini.cpp:151-168 | Writes every section once, in some order. |
| IniConfig.ConfigParser.constructor | llarp/config/ini.cpp:32-46 | A parser without sections and overrides. |
| IniConfig.ConfigParser.LoadFromStr | llarp/config/ini.cpp:54-121 | Adds what the text holds, or fails at the first bad line keeping what came before. |
| IniConfig.ConfigParser.AddOverride | llarp/config/ini.cpp:144-149 | Adds one pair to a file's section. |
| IniConfig.ConfigParser.Save | llarp/config/ini.cpp:151-168 | Writes every file and forgets the overrides; each file parses back exactly under the condition of SaveParseIff. |
| Base32z.RegroupedStep | contrib/hex-to-base32z.py:14-21 | After any prefix, the 5-bit digits emitted and the pending bits together spell the nibbles read. |
| Base32z.SnodeAddr | contrib/hex-to-base32z.py:8-23 | Fails for anything but 64 hexadecimal digits; otherwise 52 characters, the last y or o, that spell the key's number followed by four zero bits. |
| Base32z.HexFromSnode | contrib/hex-to-base32z.py:26-39 | Fails for wrong length, letter or ending; otherwise prints the number as 64 columns. |
| Base32z.SpellingUnique | contrib/hex-to-base32z.py:8-23 | A number has one spelling of a given length. |
| Base32z.AddressesOf | contrib/hex-to-base32z.py:8-23 | Two keys get the same address exactly if they are the same number. |
| Base32z.HexRoundTrip | contrib/hex-to-base32z.py:39-39 | A text without leading zero prints again in lower case. |
| Base32z.TextSurvivesIff | contrib/hex-to-base32z.py:26-39 | The printed text is the key exactly if it has no leading zero and no upper-case digit. |
| Base32z.ZerosPrintAsBlanks | contrib/hex-to-base32z.py:26-39 | The key of all zeros does not come back. |
| Base32z.HexDigitIs | contrib/hex-to-base32z.py:14-15 | Both cases of the sixteen digits are read and nothing else; the lower case is written. |
| Base32z.TextPrintedIs | contrib/hex-to-base32z.py:39-39 | What is printed for a key with leading zeros: as many blanks, then the rest in lower case. |
| Base32z.ThereAndBack | contrib/hex-to-base32z.py:8-39 | Both functions in turn recover the number always, and the text under that condition. |
| Reachability.DrawSplits | llarp/consensus/reachability_testing.cpp:86-95 | Drawing from the queue loses nothing and makes nothing up. |
| Reachability.DrawFinds | llarp/consensus/reachability_testing.cpp:86-95 | Only this router and failing nodes are passed over, and nothing is found exactly if nothing else is queued. |
| Reachability.RefillReturnsIff | llarp/consensus/reachability_testing.cpp:74-114 | The call that refills the queue hands out a node exactly if its interval is not positive and the list has a node to test; otherwise the whole list is left queued. |
| Reachability.FirstCallFindsNothing | llarp/consensus/reachability_testing.cpp:74-114 | A first call with another node on the list that finds nothing. |
| Reachability.RunKeepsRound | llarp/consensus/reachability_testing.cpp:74-155 | In every run each node of the round is queued, handed out or passed over, and just one of these. |
| Reachability.TestedOncePerRound | llarp/consensus/reachability_testing.cpp:74-155 | Between refills no node is handed out twice and never this router; once the queue is empty every node of the list was handed out, or was this router or failing when it was drawn in this round. |
| Reachability.NextIsEligible | llarp/consensus/reachability_testing.cpp:74-114 | A node handed out comes from the queue drawn from and is neither this router nor failing at that moment; a node passed over was so before in the same round, or is. |
| Reachability.PassedOverForCause | llarp/consensus/reachability_testing.cpp:86-95 | Whatever was passed over in this round was this router or failing at the very call, since the last refill, that drew it. |
| Reachability.RunKeepsScheduled | llarp/consensus/reachability_testing.cpp:116-155 | In every run every failing node has a retest queued or a test handed out and unanswered: none is forgotten. |
| Reachability.TestsSpaced | llarp/consensus/reachability_testing.cpp:74-81 | If no interval is below d, random tests are at least d apart. |
| Reachability.Delay | llarp/consensus/reachability_testing.cpp:139-146 | The back-off never exceeds two minutes, and a first failure waits for the interval alone. |
| Reachability.DelayGrows | llarp/consensus/reachability_testing.cpp:139-146 | One more failure puts the next test off by ten more seconds, up to two minutes. |
| Reachability.DrawsFromBack | llarp/consensus/reachability_testing.cpp:86-95 | The node found is the last of the queue that may be tested, and what came before it stays. |
| Reachability.NextMovesOn | llarp/consensus/reachability_testing.cpp:74-114 | Before its time a call changes nothing; after it the next time is one interval from now, and a node found is recorded in the round of the queue it came from. |
| Reachability.FailedComesBackIff | llarp/consensus/reachability_testing.cpp:116-149 | A node that failed is handed out again, with one more failure, by a call with room for it exactly from the end of its delay on. |
| Reachability.RetestsConserved | llarp/consensus/reachability_testing.cpp:116-149 | In every run each retest scheduled is waiting or was taken out once. |
| Reachability.PassedIsFree | llarp/consensus/reachability_testing.cpp:151-155 | A node that passed may be drawn like any other, and nothing left of it in the retest queue is handed out. |
| Reachability.FailingIff | llarp/consensus/reachability_testing.cpp:134-155 | In every run a node fails exactly if it was reported to and has not been reported to pass since. |
| Reachability.ReachabilityTesting.constructor | llarp/consensus/reachability_testing.hpp:85-108 | Empty queues, and a first test is due at once. |
| Reachability.ReachabilityTesting.NextRandom | llarp/consensus/reachability_testing.cpp:74-114 | The whole new state and result are those of TakeNext, refill and recursion included. |
| Reachability.ReachabilityTesting.DrawFromQueue | llarp/consensus/reachability_testing.cpp:86-95 | The pop loop. |
| Reachability.ReachabilityTesting.GetFailing | llarp/consensus/reachability_testing.cpp:116-132 | Takes the due entries oldest first until four belong to nodes that still fail, reports exactly those, and leaves nothing due unless it stopped at four. |
| Reachability.ReachabilityTesting.PopDue | llarp/consensus/reachability_testing.cpp:121-131 | The pop loop of that. |
| Reachability.ReachabilityTesting.AddFailingNode | llarp/consensus/reachability_testing.cpp:134-149 | Marks the node and queues one retest after the back-off with the failure count raised. |
| Reachability.ReachabilityTesting.RemoveNodeFromFailing | llarp/consensus/reachability_testing.cpp:151-155 | Unmarks the node; its queued retests stay and will be skipped. |

## Left out

- IwpSessionObject.Session.Pump: pings and the worker queues are left out.
- IwpSessionObject.Session.Tick: the rate statistics are left out.
- IwpHandshake.InboundSession.ProcessPlaintext: one packet per call; the version byte and the bound of the plaintext queue are left out.
- IwpHandshake.InboundSession.CloseNow: removing the session from the link layer's address map is left out.
- IwpMessages.FlushUnAcked: requires a message of at most 8192 bytes; beyond that the source reads behind its bit set.
- IwpSessionObject.Session.SendMessageBuffer: requires a message of at most 8192 bytes, the size of the buffers that link messages are built in; the source does not check it and the bit set has 8 bits.
- IwpTransport.RunFits: assumes that fewer than 2^64 messages are sent, and a 32-byte hash; wrap-around of the 64-bit id counter is not modelled.
- IwpNetwork.RunKeepsInv: both peers are honest and read one clock; packets forged by a third party are stopped by the keyed hash, which is outside the run model.
- IwpAccounting.DeliveredAtMostOnce: assumes a bound on ticks and network delay; the source enforces none on the delay.
- IwpAccounting.RunAccounted: a run goes on where the code would throw on a DATA packet or send more bytes than the bit set covers.
- DhtContext.TXHolder.Inform: the form without replies, which no caller uses, and replies that call back into the same holder are not modelled.
- ExitAllocator.MappedKeeps: holds for a sentinel above the clock, which the code does not have; ZeroMappedKeeps is its counterpart for the code's value.
- ExitAllocator.RunKeepsInv: likewise; ZeroRunKeeps is its counterpart.
- ExitAllocator.EvictsOldestOnly: likewise; ZeroEvictsIff is its counterpart.
- ExitAllocator.OwnKeyCanBeEvicted: likewise; with the code's value our key keeps its address (ZeroRunKeeps).
- ExitAllocator.ExitEndpoint.ObtainServiceNodeIP: the service node session is left out.
- ExitAllocator.ExitEndpoint.Tick: service node sessions and the endpoints' own ticks are left out.
- OnionPath.EachHopGetsItsRecord: the record decoder is a parameter (bencode is not part of this model), and the hop lifetime, the transit-hop table and the policy checks before forwarding are left out.
- OnionPath.DoEncrypt: the branch without key agreement is left out.
- DnsBuffer.Buffer.WriteName: requires only that the length and end bytes, which the source writes without looking at the space left, stay in the buffer; what a write behind the buffer does is not modelled.
- DnsBuffer.Buffer.WriteQuestion: requires the same.
- DnsBuffer.Buffer.WriteQuestions: requires the same of each question at its place.
- DnsBuffer.Buffer.WriteMessage: requires the same.
- DnsBuffer.Buffer.ReadName: fails at the end of the buffer where the source would read the length byte behind it.
- DnsMessage.MessageRoundTripIff: messages without resource records; encoder and decoder of answers use different layouts, so there is no round trip.
- Reachability.TestsSpaced: assumes positive intervals; the source draws them from a normal distribution.
- Base32z.SnodeAddr: hexadecimal digits are the ASCII ones; other Unicode digits that int() accepts are not modelled.
- IWP liveness (a lost single-fragment XMIT is never sent again), outbound handshake, renegotiation, pings and rate statistics.
- Bucket PutNode, DelNode and the random picks; NodeDB loading and pruning.
- TunEndpoint address mapping, exit session packet queues, service-node sessions, DNS hooks of the exit.
- Link manager, event loop, VPN platforms, configuration option tables, RPC: input, output and wiring.
- Files that Save writes are strings; opening and writing them, and reading a file in LoadFile, are left out.
