# A model of a17: discovery, buffers, rates, polynomials, angles and control

This project models the parts of the a17 library whose correctness is hardest to see by reading one
function, and proves what they promise for every input, every run and every interleaving.

**Discovery** (`a17/dispatch`). Directories announce topics to each other by multicast. The model has
three levels that are tied to each other.

- `Topics`, `Discovery`, `Laws`, `Unreliable` and `Staleness` are the protocol: any number of directories that
  join, register, withdraw, search, answer and leave. `Discovery` gives every pair of directories a first-in first-out
  queue. Its main result is that, in every reachable state, replaying what is in flight from one directory
  to another over what the receiver holds gives what the sender offers now: exactly, if the receiver was
  there while the sender offered nothing, and a part of it otherwise, until a search repairs the rest: once a
  query has been handled, everybody agrees about the names it asked for.
  `Unreliable` lets the network lose, duplicate and reorder; what survives is provenance. What does not
  survive is freshness, and `Staleness` proves, for every history, which offer an entry has and since when, and
  exactly when it is stale. Every reliable run is proved to be an unreliable one.
- `TopicStore` and `Directory` are the objects. The store keeps nested maps name -> guid -> topic, and its
  methods are proved against the flat relation the protocol is stated over. Its validity includes that
  every informed client is connected to exactly the addresses stored for its topic. `Directory` is proved
  to do what the protocol's actions do. That goes down to the bytes of a datagram: the line sent for a message
  is heard by another directory as that message, if and only if it fits the 1500-byte buffers and the sender's
  guid and the fields are transmissible; then it has the effect the protocol gives it.
- `Wire`, `TypeList`, `Datagram`, `Query` and `Messages` are the text format: datagrams with a non-printable
  character are dropped, lines are cut into tokens in place, in a 1500-byte buffer with a terminator, and
  read back. The round trips are stated as if-and-only-if.

`RequestClient` is the client that has one request out at a time and follows the newest server. Its runs
never break the send/receive alternation of a request socket; the model also shows exactly when a client
ends up waiting for ever, and that every way to it can happen.

**Buffers** (`a17/utils`, `a17/dispatch`). `BufferRing` and `BufferPool` are the ring of buffers;
`PoolInterleaving` is its concurrent use, one atomic access at a time, by one allocating thread and any
number of freeing threads. `SendQueue` and `CharacterDevice` are the chunking sender that lives on the pool;
no byte is lost, repeated or reordered, every pool buffer that is out belongs to exactly one queued
chunk, and a failed write is shown to stop the sender for ever. `Framing` is the Cap'n Proto stream framing,
read back by the "Serialization Over a Stream" section of the Cap'n Proto encoding specification.

**Measures.** `Window` and `RateMeasure` are the sliding-window queues, proved equal to a definition over
the whole history. `DigitTable`, `DecimalDigits` and `IntervalBin` are the nearest-bin search.

**Mathematics.** `Sums`, `PolynomialAlgebra` and `Polynomials` are polynomials: evaluation, derivatives,
reversal and low-degree level sets. `Angles` is wrapping, circular distance and unrolling; `PidModel` and
`Pid` are the controller. Doubles are idealised as reals, and comparison with zero is exact.

Where a promise turns out not to hold for every input, the code is kept as it is and the exact condition is
proved: which type sets survive the wire (`TypeList.TypesRoundTrip`), which messages arrive as they were meant
(`Messages.MessageRoundTrip`), which numbers get their digits counted right (`DecimalDigits.DigitsExact`), when
the pool's `remaining` is right (`BufferRing.RemainingCounts`), when the level set of a constant is wrong
(`Polynomials.Polynomial.LevelSet`), when an entry is stale (`Staleness.StaleOfferIff`), when a device with something
to write is writing (`SendQueue.BytesAreConserved`) and how a request client gets stuck
(`RequestClient.HowAClientGetsStuck`).

`dafny verify dfyconfig.toml` checks the whole project.

## Model

| member | source | states |
|---|---|---|
| Discovery.PresentFromTheStart | a17/dispatch/directory.cpp:109-157 | A directory that was live at any moment when g offered nothing agrees with g for ever after: entries held of g, with everything in flight from g replayed over them, are exactly g's local topics. |
| Discovery.InvRun | a17/dispatch/directory.cpp:374-409 | Every run keeps: for each receiver and sender, entries plus messages in flight give a part of what the sender offers now; own entries are the local topics; nobody is sent its own messages. |
| Discovery.Reachable | a17/dispatch/directory.cpp:109-157 | The same in every state reachable from the empty network. |
| Discovery.AgreementIsStable | a17/dispatch/directory.cpp:109-157 | Agreement of a receiver with a sender, on one name or on all, is never lost, whatever steps follow. |
| Discovery.SearchSynchronises | a17/dispatch/directory.cpp:388-409 | Once g has handled a search, every live directory agrees with g about each name searched for, and about all of g's topics after a wildcard search. |
| Laws.QueryLeadsToAgreement | a17/dispatch/directory.cpp:184-221 | In every run, once g has handled what was in its queue from i and then i's search, every directory that was there all the time agrees with g about each name searched for, and about all of g's topics after a wildcard search. |
| Laws.SearchIsHandled | a17/dispatch/directory.cpp:388-409 | The same for a search anywhere in a queue, after as many deliveries as it takes to reach it. |
| Discovery.QuiescentTables | a17/dispatch/directory.cpp:465-525 | With nothing in flight from g to i, i holds no stale entry of g, none at all if g has left, and everything g offers exactly when the two agree. |
| Discovery.StepOffered | a17/dispatch/directory.cpp:119-157 | What a directory offers changes exactly as the messages it sends say. |
| Discovery.StepProspect | a17/dispatch/directory.cpp:325-386 | What a receiver will come to hold of a sender changes exactly as the sender's messages say, whatever else happens. |
| Discovery.ReceiveView | a17/dispatch/directory.cpp:371-386 | A received message changes the entries of its sender and nobody else's. |
| Laws.ReceiveHeeds | a17/dispatch/directory.cpp:325-386 | What an arriving message leaves in a table, entry by entry: an announcement files the topic with the time of its arrival unless it is there with the same address, a withdrawal takes one entry away, an exit all of its sender's, a search none. |
| Laws.QueueStep | a17/dispatch/directory.cpp:224-241 | A step takes at most the first message from one queue, and appends what was sent to the queues of all others. |
| Laws.ActionIsQueued | a17/dispatch/directory.cpp:109-157 | What each action of a directory puts in the queue of every other: the announcement, the withdrawal if the topic was local, the search, the exit. |
| Discovery.RepliesEcho | a17/dispatch/directory.cpp:388-409 | Answers to a search repeat local topics only, and cover every local topic asked for by name or by wildcard. |
| Laws.RepliesExactly | a17/dispatch/directory.cpp:388-409 | A message is among the answers to a search if and only if it announces a local topic, as it is, whose name was asked for or that a wildcard covers. |
| Laws.RepliesAnswer | a17/dispatch/directory.cpp:388-409 | The answers are one for each name asked for that is local, in the order asked for, where a wildcard asks for all in the order of iteration. |
| Discovery.GoneForever | a17/dispatch/directory.cpp:35-43 | A guid that has left never comes back. |
| Unreliable.Provenance | a17/dispatch/directory.cpp:289-323 | Under any loss, duplication and reordering, every entry a directory holds has the name and guid it is filed under and was registered locally by that guid, with that name, address and types; and own entries are the local topics. |
| Unreliable.TruthfulHistory | a17/dispatch/directory.cpp:465-525 | The invariant behind it: every letter ever sent and every table entry goes back to a registration in the history. |
| Unreliable.ArrivalKeepsOwnTopics | a17/dispatch/directory.cpp:299-323 | No arriving datagram changes the receiver's local topics or the entries under its own guid. |
| Staleness.StaleIff | a17/dispatch/directory.cpp:374-386 | In every history a name, or a name at an address, is stale if and only if the last message about it to arrive announced it and the last thing its owner did about it was not to register it. |
| Staleness.StaleOfferIff | a17/dispatch/directory.cpp:465-490 | In every history an entry is stale in any part of its offer, the types included, if and only if that offer was taken over and the last thing its owner did about the topic was not to register that offer. |
| Staleness.StaleIsStaleOffer | a17/dispatch/directory.cpp:465-490 | An entry that is stale by name or by address is stale as an offer. |
| Staleness.OfferIffTaken | a17/dispatch/directory.cpp:474-488 | In every history b holds exactly a given offer of a, with a given timestamp, if and only if its announcement arrived at that time while b held nothing of a under that name at that address, and nothing has ended the entry since. |
| Staleness.EntryIsTimed | a17/dispatch/directory.cpp:122-129 | In every history the timestamp of an entry is the time of the arrival that took it over. |
| Staleness.TopicIsTimed | a17/dispatch/directory.cpp:122-129 | In every history the timestamp of a directory's own topic is the time of its registration. |
| Staleness.OfferIffRegistered | a17/dispatch/directory.cpp:119-157 | In every history a makes an offer, since a certain time, if and only if it registered it then and has not withdrawn it or left since. |
| Staleness.LossLeavesStaleOffer | a17/dispatch/directory.cpp:474-488 | That condition can be met by an entry with the right address: for all offers with one address, a history in which a withdrawal is lost, the new announcement arrives twice, and the receiver keeps the old types. |
| Staleness.EntryIffAnnouncedLast | a17/dispatch/directory.cpp:465-525 | In every history b holds a topic of a, anywhere or at an address, if and only if an announcement of it has arrived from a, after which no withdrawal, exit or announcement of another address arrived from a and b did not leave. |
| Staleness.TopicIffRegisteredLast | a17/dispatch/directory.cpp:119-157 | In every history a has a topic if and only if it registered it and has not withdrawn it or left since. |
| Staleness.ReorderingLeavesStaleTopic | a17/dispatch/directory.cpp:374-379 | The condition can be met: a history in which a withdrawal overtakes its announcement, every letter ever sent has arrived, and the receiver holds a topic that its owner no longer has. |
| Unreliable.SimulationStep | a17/dispatch/directory.cpp:224-241 | Each step over reliable queues is a step over the unreliable network. |
| Unreliable.Simulation | a17/dispatch/directory.cpp:224-241 | So each reliable run has an unreliable history with the same directories. |
| TopicStore.FlatIsFaithful | a17/dispatch/directory.h:70-73 | Nested maps without empty inner maps are determined by the flat relation (name, guid) -> topic. |
| TopicStore.Store.Add | a17/dispatch/directory.cpp:465-490 | A second local topic of a name is refused and changes nothing, the clients included; otherwise the relation gains the topic unless it is there with the same address, local topics and own entries stay equal, no empty inner map is stored, and informed clients are connected to exactly the stored addresses. |
| TopicStore.Store.Remove | a17/dispatch/directory.cpp:492-508 | Takes one entry out of the relation, and the local topic if it is the directory's own; keeps own topics, absence of empty maps and the clients' connections. |
| TopicStore.Store.EvictAll | a17/dispatch/directory.cpp:510-525 | Takes every entry of one guid out of the relation and nothing else, with the same invariants. |
| TopicStore.Store.CallObservers | a17/dispatch/directory.cpp:554-574 | Observers of the name and observers of every topic are all told the given inner map; observers of other names are left as they were. |
| TopicStore.Store.Observe | a17/dispatch/directory.cpp:527-532 | Adds an observer; a client whose topic is absent is right at once, being connected to nothing. |
| TopicStore.Store.CallImmediate | a17/dispatch/directory.cpp:534-540 | The posted first notification connects the client to the stored addresses, or does nothing while the topic is absent. |
| TopicStore.Store.Unobserve | a17/dispatch/directory.cpp:542-552 | Removes exactly the observers with that name and reference, and keeps the others in order. |
| TopicStore.WithoutConcat | a17/dispatch/directory.cpp:542-552 | Observers are taken out one by one, wherever they are, and the others keep their places. |
| TopicStore.Store.GetMissing | a17/dispatch/directory.cpp:576-587 | The names to search for are exactly the observed names that nobody announces. |
| TopicStore.MissingMeans | a17/dispatch/directory.cpp:576-587 | A name is missing if and only if it is observed and no directory has an entry for it. |
| TopicStore.ConnectionsMirror | a17/dispatch/client.cpp:47-66 | In a valid store an informed client is connected to an address if and only if some directory's entry for its topic has it, and once. |
| TopicStore.Client.OnDirectoryTopicsChanged | a17/dispatch/client.cpp:47-66 | Afterwards the connected addresses are exactly those of the inner map, each connected once. |
| TopicStore.Client.Connect | a17/dispatch/client.cpp:68-77 | Adds the address; the socket has one connection for each address. |
| TopicStore.Client.Disconnect | a17/dispatch/client.cpp:79-89 | Removes the address and its one connection, if there is one. |
| Directory.Directory.Register | a17/dispatch/directory.cpp:119-150 | Acts as the protocol's registration: the topic with the time of registration becomes local and own entry, and is announced, exactly when the name was new; a duplicate changes nothing. |
| Directory.Directory.Withdraw | a17/dispatch/directory.cpp:152-157 | Acts as the protocol's withdrawal: takes the local topic and the own entry away, and broadcasts exactly when the topic was local. |
| Directory.Directory.Leave | a17/dispatch/directory.cpp:109-116 | Broadcasts what the protocol's leaving action does. |
| Directory.Directory.AskForMissing | a17/dispatch/directory.cpp:184-221 | Broadcasts searches of the protocol, each datagram the line of one and within its buffer; if every missing name fits, together they ask for every missing name once. |
| Messages.BatchesAreOneSearch | a17/dispatch/directory.cpp:388-409 | Answering the datagrams of a query one after the other is answering one search for all its names. |
| Directory.Directory.Answer | a17/dispatch/directory.cpp:388-409 | Broadcasts exactly the answers asked for: one for each name that is local, in the order asked for, all local topics for a wildcard, and nothing else. |
| Directory.Directory.Deliver | a17/dispatch/directory.cpp:264-323 | Handling a datagram leaves in the table what the message it stands for says, entry by entry and with the time of arrival, and broadcasts what a search asks for and nothing otherwise; a datagram that stands for none or has a non-printable character changes nothing. So the line another directory with a plain guid sends for a transmissible message has the effect of that message. |
| Directory.SenderIsAnother | a17/dispatch/directory.cpp:299-300 | No line is ever taken as coming from the directory that reads it. |
| Wire.TokenTail | a17/dispatch/directory.cpp:452-463 | A token and its tail are the two sides of the first space, and together make up the text. |
| Wire.NextToken | a17/dispatch/directory.cpp:452-463 | Cutting in place leaves the token and the tail as two terminated strings, changes nothing before them and stays inside the buffer. |
| TypeList.WriteTypes | a17/dispatch/directory.cpp:423-438 | For every list of type names the character loop with its scratch buffer as flag writes what printing leaves of them: a NUL prints as nothing, and no separator follows nothing or a NUL. |
| TypeList.ParseTypes | a17/dispatch/directory.cpp:440-450 | The getline loop reads exactly the pieces between separators, and no types from "" or ".". |
| TypeList.JoinSplit | a17/dispatch/directory.cpp:440-450 | The pieces read from a text, written with separators between them, give it back. |
| TypeList.TypesRoundTrip | a17/dispatch/directory.cpp:423-450 | A type set comes back as it was written if and only if no name is empty or has a separator or a NUL, and the set is not {"."}. |
| Datagram.HandleEvent | a17/dispatch/directory.cpp:289-323 | Reading a terminated line in place gives what the line says. |
| Datagram.HandleDatagram | a17/dispatch/directory.cpp:264-287 | A datagram with a non-printable character is ignored; any other is terminated and read as its line says. |
| Datagram.HeardIfSaid | a17/dispatch/directory.cpp:264-386 | A message is heard from a datagram if and only if the datagram is printable, is not the receiver's own, and is, by a grammar of words and single spaces, tag, sender, command word and the arguments of that message. |
| Datagram.SearchNamesSplit | a17/dispatch/directory.cpp:388-409 | The names of a search are the texts between its spaces, without the empty ones, in order. |
| Datagram.HandleAvailable | a17/dispatch/directory.cpp:325-372 | The five-token cascade with its early returns gives the announcement the arguments say, or ignores them. |
| Datagram.HandleSearch | a17/dispatch/directory.cpp:388-409 | The loop terminates having visited every non-empty name once, in order. |
| Datagram.AnnouncementRoundTrip | a17/dispatch/directory.cpp:229-241 | The line written for a topic is read as the same guid, name, socket type, address and both type sets if and only if it fits the send buffer with its terminator, the guid is printable, without spaces and not the receiver's, name and address are printable, not empty and without spaces, the address is on the network, and both type sets are writable, printable and without spaces. |
| Datagram.AnnouncementLength | a17/dispatch/directory.cpp:229-238 | How long that line is, from the lengths of its fields. |
| TypeList.WrittenLength | a17/dispatch/directory.cpp:423-438 | How long the text of a type set is, from the lengths of its names. |
| Datagram.SenderIsPlain | a17/dispatch/directory.cpp:271-300 | Whatever the datagram, nothing is heard from a guid with a space or a non-printable character, or from the receiver itself. |
| Datagram.RemoveAndExitRoundTrip | a17/dispatch/directory.cpp:374-386 | A withdrawal is read as it was written if and only if its line fits the send buffer, guid and name are printable and without spaces, and the guid is not the receiver's; an exit, which is not printed into that buffer, if and only if the receive buffer holds it and the guid is in order. |
| Datagram.OwnLinesAreIgnored | a17/dispatch/directory.cpp:299-299 | A directory ignores its own lines, whatever they say. |
| Datagram.FromNameFinds | a17/dispatch/socket_types.h:15-17 | Every socket type's name is read back as that type. |
| Query.QueryMissing | a17/dispatch/directory.cpp:184-221 | Says whether every name fits a datagram of its own, and otherwise stops before the first that does not. The datagrams carry the names in order, one to four each, fit their buffer with the terminator and are never cut short of room for the next name; a directory hears from a complete query each non-empty name exactly once, in order, if and only if all names are printable and without spaces, and so is the guid, which is not its own, or there is nothing to ask for. |
| Query.SearchRoundTrip | a17/dispatch/directory.cpp:388-409 | A directory hears from a search line exactly its non-empty names, in order, from the guid that wrote it, if and only if the guid and all names are printable and without spaces and the guid is not its own. |
| Query.QueryIsHeard | a17/dispatch/directory.cpp:184-221 | Whoever receives all the datagrams of a query hears all its names from that guid, in order, under the same condition; only the empty name is dropped. |
| Messages.MessageRoundTrip | a17/dispatch/directory.cpp:229-241 | The line sent for any message of the protocol is heard as that message from that sender, if and only if it fits the buffers, the guid is printable, without spaces and not the receiver's, and the message is transmissible. |
| Messages.WriteMessage | a17/dispatch/directory.cpp:229-241 | The send buffer holds the line of the message and its terminator, with the type sets in any iteration order; a line that does not fit is reported, where the source writes past the buffer. |
| Messages.BuildTopicInfo | a17/dispatch/directory.cpp:411-421 | The info text has the fields of the topic in order, one space between them. |
| RequestClient.NewestIsFirstMaximum | a17/dispatch/request_client.cpp:10-22 | The running maximum is the first topic with the greatest timestamp. |
| RequestClient.NewestTopic | a17/dispatch/request_client.cpp:10-22 | The loop computes it, and reports an empty map. |
| RequestClient.RequestsAlternate | a17/dispatch/request_client.cpp:42-130 | In every run, with late timeouts, receive errors and any directory changes, requests are sent only on a live socket without an unanswered request, and a client that is not waiting has none. |
| RequestClient.InvStep | a17/dispatch/request_client.cpp:42-130 | Every step keeps the socket discipline and the agreement of the flags with it. |
| RequestClient.NotifiedConnection | a17/dispatch/request_client.cpp:92-112 | After a notification the client is connected to a newest topic, or to none if there is none; it keeps its socket if it is connected to that very topic, opens a fresh one otherwise, and changes nothing else. |
| RequestClient.TimeoutKeeps | a17/dispatch/request_client.cpp:66-77 | A timeout, however late, leaves the client with no unanswered request. |
| RequestClient.TimeoutReconnects | a17/dispatch/request_client.cpp:66-77 | After a timeout, however late, a client that had a socket has a fresh one to the same server with nothing asked on it, so that its next request is accepted; one that had none still has none. |
| RequestClient.HowAClientGetsStuck | a17/dispatch/request_client.cpp:46-121 | A client starts waiting for a reply that nothing can bring if and only if, while it listens for an answer without a timeout, the receive fails or the directory takes or moves its socket. |
| RequestClient.StuckIsReachable | a17/dispatch/request_client.cpp:46-121 | From the start, for every server, connecting and sending without a timeout leaves the client stuck when the receive fails, and on every notification that removes or replaces the server. |
| RequestClient.ReplyGoesToTheLatest | a17/dispatch/request_client.cpp:45-50 | In every run a reply goes to the handler of the latest request, even one that was refused. |
| RequestClient.StuckForever | a17/dispatch/request_client.cpp:46-50 | Such a client refuses every request in every continuation. |
| RequestClient.RequestClient.SendRequest | a17/dispatch/request_client.cpp:42-80 | Takes the new reply handler first; then names the first condition that fails, if any, and changes nothing else; otherwise sends on the live socket, listens, waits, and arms the timer exactly for a timed request. |
| RequestClient.RequestClient.ReceiveReply | a17/dispatch/request_client.cpp:82-90 | Stops waiting and the timer, keeps the socket and the discipline, and says which handler gets the reply. |
| RequestClient.RequestClient.FailReceive | a17/dispatch/socket.cpp:48-53 | After a receive error the client keeps waiting and posts no other receive; it is stuck exactly when no timeout is left. |
| RequestClient.RequestClient.FireTimeout | a17/dispatch/request_client.cpp:66-77 | Stops waiting and leaves a fresh idle socket to the same server, on which the next request is accepted, or none if there was none. |
| RequestClient.RequestClient.OnDirectoryTopicsChanged | a17/dispatch/request_client.cpp:92-99 | Disconnects if there is no topic; changes nothing if the client is connected to the newest one; otherwise leaves a fresh idle socket to it. |
| RequestClient.RequestClient.ReconnectSocket | a17/dispatch/request_client.cpp:123-130 | Closes the socket and opens a fresh one to the same topic, in that order; does nothing without a socket. |
| BufferPool.BufferPool.constructor | a17/utils/buffer_pool.cpp:10-27 | All buffers are free, in address order, none twice. |
| BufferPool.BufferPool.Malloc | a17/utils/buffer_pool.cpp:36-42 | Hands out the buffer that has been free longest, which nobody holds; falls back to the system only when none is free. |
| BufferPool.BufferPool.Release | a17/utils/buffer_pool.cpp:50-60 | A returned pool buffer becomes the last to be reused; free and handed-out buffers stay a partition of the pool. |
| BufferRing.PopSlot | a17/utils/buffer_pool.h:64-64 | Advancing the head removes the first free buffer, also where the ring wraps. |
| BufferRing.PushSlot | a17/utils/buffer_pool.h:64-64 | Advancing the tail appends the stored buffer, unless it would meet the head. |
| BufferRing.SlotCount | a17/utils/buffer_pool.h:50-51 | `empty` and `full` mean that no buffer, or every buffer, is free. |
| BufferRing.RemainingCounts | a17/utils/buffer_pool.h:52-54 | `remaining` is the number of free buffers if and only if the pool is not empty, or has 65535 buffers, where the 16-bit result wraps to zero. |
| BufferRing.RoomForOneMore | a17/utils/buffer_pool.cpp:57-58 | A ring that misses one of its buffers always has room for it. |
| BufferPool.BuffersAreDistinct | a17/utils/buffer_pool.cpp:15-24 | The buffers are as many as promised and lie inside the pool. |
| PoolInterleaving.EveryInterleaving | a17/utils/buffer_pool.cpp:36-60 | Under every interleaving of one allocator and any number of freers, each buffer is in exactly one place, and buffers leave the ring in the order in which they were freed. |
| PoolInterleaving.NeverHandedOutTwice | a17/utils/buffer_pool.cpp:36-60 | A buffer being handed out is held by nobody, storing at the tail changes no free buffer, and the tail never reaches the head. |
| PoolInterleaving.InvStep | a17/utils/buffer_pool.cpp:36-60 | Every atomic access keeps ownership, the lock discipline, what the allocator has seen, and the order of reuse. |
| PoolInterleaving.FreeStep | a17/utils/buffer_pool.cpp:36-60 | Only advancing an index changes the free list, by its first or by one more last buffer. |
| PoolInterleaving.StepLaw | a17/utils/buffer_pool.cpp:36-60 | A ring with a free buffer is never taken for an empty one, the buffer handed out is the first free one, and a buffer that is freed is no longer out and is returned at the tail. |
| SendQueue.BytesAreConserved | a17/utils/character_device.cpp:49-101 | In every run of sends of both kinds, completions and failures, bytes written followed by what the queue has left are the accepted bytes in order, and the queue stays within the high water mark; one write is in flight exactly when the queue is not empty, if and only if no write has failed. |
| SendQueue.StalledForever | a17/utils/character_device.cpp:86-91 | After a failed write nothing more is ever written, whatever is sent. |
| SendQueue.StepConserves | a17/utils/character_device.cpp:49-92 | Every event adds what it is promised to add behind what was there, and loses nothing. |
| SendQueue.SendTakesPrefix | a17/utils/character_device.cpp:49-60 | A send adds a prefix of its input, whole chunks for as long as there is room, and nothing else. |
| SendQueue.SendLaw | a17/utils/character_device.cpp:49-70 | A send queues its input in chunks of the buffer size, none of them empty and all full but perhaps the last; all of it, or until the queue is at the mark; and starts a write only when the queue was empty. |
| SendQueue.CopyLaw | a17/utils/character_device.cpp:62-70 | A callback's bytes are queued as one chunk if there is room, and start a write only when the queue was empty. |
| SendQueue.CompleteLaw | a17/utils/character_device.cpp:72-88 | A completed write adds exactly the next bytes of the front chunk to what is written; the chunk leaves the queue when nothing of it is left, and has the rest left otherwise. |
| SendQueue.CompleteMoves | a17/utils/character_device.cpp:72-88 | A partial write moves bytes from what is left to what is written and loses none. |
| SendQueue.FullQueueDrops | a17/utils/character_device.cpp:94-101 | A send to a full queue changes nothing. |
| CharacterDevice.CharacterDevice.Send | a17/utils/character_device.cpp:49-60 | The chunking loop has the effect above, and the buffers out of the pool are exactly those in the queue. |
| CharacterDevice.CharacterDevice.SendChunk | a17/utils/character_device.cpp:62-70 | Queues one chunk in a fresh buffer and starts a write only if the queue was empty; nothing at the mark. |
| CharacterDevice.CharacterDevice.OnSend | a17/utils/character_device.cpp:72-92 | Advances the front chunk, gives a sent buffer back to the pool once, and starts the next write if anything is left; after an error it starts none and leaves the queue as it is. |
| Framing.BuildSmartMessage | a17/dispatch/smart_capnp_builder.cpp:114-136 | Every half word of the buffer is written, and the buffer is the table followed by the segments. |
| Framing.Build | a17/dispatch/smart_capnp_builder.cpp:88-111 | The message has n/2 + 1 words and its segments' words, and reading it by the specification gives the segments back if and only if the table can express them. |
| Framing.EncodedLength | a17/dispatch/smart_capnp_builder.cpp:88-90 | The header takes n/2 + 1 words for every n. |
| Framing.FramingRoundTrip | a17/dispatch/smart_capnp_reader.cpp:19-23 | Decoding a stream that starts with a written message gives its segments and leaves what follows, if and only if there are at most 2^32 segments of fewer than 2^32 words. |
| Framing.DecodeIsFaithful | a17/dispatch/smart_capnp_reader.cpp:19-23 | Any stream that can be read and is padded with zero is the written form of what is read. |
| Window.LongestSuffixIsLongest | a17/utils/rate_measure.cpp:22-25 | The queue's content fits the window, and no longer suffix of the gaps does. |
| Window.SuffixIsIncremental | a17/utils/rate_measure.cpp:17-25 | Gaps that have been dropped never matter again: the queue can be computed from the queue before. |
| Window.SuffixCountsMarks | a17/utils/rate_measure.h:36-36 | The number of queued gaps is the number of earlier marks within the window of the latest. |
| Window.GapsTelescope | a17/utils/rate_measure.cpp:18-20 | Gaps add up to the time between the first and the last mark. |
| RateMeasure.RateMeasure.MarkSize | a17/utils/rate_measure.cpp:13-54 | Over every history of marks the interval queue is the longest suffix of all gaps that fits the window, the three accumulators are the sums of their queues, and the three queues have one length. The average is the queue's, the target its nearest bin, the jitter of a mark the distance of its gap from that target, and the greatest jitter that of all since the last reset. |
| RateMeasure.RateMeasure.AddInterval | a17/utils/rate_measure.cpp:17-30 | The interval part of it: with a gap in the window the average is that of the queue and the target its nearest bin; otherwise both stay as they were. |
| RateMeasure.RateMeasure.AddJitter | a17/utils/rate_measure.cpp:32-41 | The jitter queued is the distance between gap and target, and the greatest is kept. |
| RateMeasure.CutToWindow | a17/utils/rate_measure.cpp:22-25 | Popping while the sum is too large leaves the longest suffix that fits, and never pops an empty queue. |
| RateMeasure.RateMeasure.SampleCount | a17/utils/rate_measure.h:36-36 | Without a reset, the number of earlier marks within the window of the latest. |
| RateMeasure.RateMeasure.Reset | a17/utils/rate_measure.cpp:56-62 | Forgets the last mark, average, target and greatest jitter, and keeps the queues as they are. |
| DigitTable.BaseTwoDigits | a17/utils/nearest_interval_bin.cpp:46-54 | The bit length brackets the number between two powers of two, across both 32-bit halves. |
| DecimalDigits.DigitsExact | a17/utils/nearest_interval_bin.cpp:56-63 | The table gives the decimal digit count if and only if the number is below 10^19 or the greatest 64-bit number. |
| IntervalBin.SearchBin | a17/utils/nearest_interval_bin.cpp:78-98 | From any start the one-directional walk ends at a bin that no other bin beats. |
| IntervalBin.LocalIsGlobal | a17/utils/nearest_interval_bin.cpp:86-98 | A bin that neither neighbour beats is beaten by none. |
| IntervalBin.NearestIsClose | a17/utils/nearest_interval_bin.cpp:12-23 | The nearest bin to a number from one to ten is within a fifth of it. |
| IntervalBin.NearestIntervalBin | a17/utils/nearest_interval_bin.cpp:67-101 | Zero gives zero; any other interval its scaled nearest bin, which below 10^19 differs from the interval by less than a fifth of it plus one. |
| IntervalBin.TargetInterval | a17/utils/nearest_interval_bin.cpp:67-101 | For every 63-bit interval: scaled by the power of ten that leaves one digit before the point it is nearest to the bin chosen, and the result is that bin scaled back and rounded down. |
| Sums.ValueIsHorner | a17/maths/polynomial.h:43-51 | The sum of coefficients times powers is what Horner's rule gives. |
| PolynomialAlgebra.TrimKeepsValue | a17/maths/polynomial.h:28-38 | Removing leading zeros changes no value and leaves at least one coefficient. |
| PolynomialAlgebra.DerivativesCompose | a17/maths/polynomial.h:67-92 | The m-th derivative of the n-th is the (m+n)-th, coefficient by coefficient, also past the degree. |
| PolynomialAlgebra.DerivativeIsSlope | a17/maths/polynomial.h:67-92 | P(t + h) = P(t) + h P'(t) + h^2 R with R a polynomial: the coefficients are those of the derivative. |
| PolynomialAlgebra.ColumnIsPower | a17/maths/polynomial.h:141-152 | Column j of the conversion matrix holds the coefficients of (c - t)^j. |
| PolynomialAlgebra.ReversedValue | a17/maths/polynomial.h:127-155 | The reversed polynomial at t is the polynomial at t0 + t1 - t, for all coefficients, intervals and t. |
| PolynomialAlgebra.ReversedTwice | a17/maths/polynomial.h:131-155 | Reversing twice over one interval gives back the same coefficients. |
| PolynomialAlgebra.ReversedLeading | a17/maths/polynomial.h:131-155 | Reversal keeps the degree: the leading coefficient changes at most its sign. |
| PolynomialAlgebra.DerivativesOfReversed | a17/maths/polynomial.h:67-92 | The n-th derivative of a reversal is (-1)^n times the reversal of the n-th derivative. |
| Polynomials.Polynomial.SetCoefficients | a17/maths/polynomial.h:28-38 | Keeps everything up to the highest coefficient that is not zero, and at least the first. |
| Polynomials.Polynomial.Evaluate | a17/maths/polynomial.h:43-51 | Horner's loop gives the sum of coefficients times powers. |
| Polynomials.Polynomial.TakeDerivative | a17/maths/polynomial.h:67-92 | A negative order is an error; otherwise the coefficients of that derivative, a single zero past the degree. |
| Polynomials.ConversionMatrix | a17/maths/polynomial.h:141-152 | The loops fill every entry of the matrix by its recurrence, and leave zero below the diagonal. |
| Polynomials.Polynomial.Reverse | a17/maths/polynomial.h:131-155 | The object has the reversed coefficients, and trimming removes none of them. |
| Polynomials.QuadraticRootsExact | a17/maths/polynomial_utils.h:11-25 | A number is a root if and only if the quadratic formula gives it. |
| Polynomials.QuadraticRealRoots | a17/maths/polynomial_utils.h:11-25 | The vector holds every real root and nothing else, one, two or none by the discriminant. |
| Polynomials.Polynomial.LevelSet | a17/maths/polynomial.h:97-112 | Up to degree two the result is exactly the set of t with P(t) = level, if and only if P is not the constant `level`, for which it is empty. |
| Angles.WrapToPi | a17/maths/angle_utils.cpp:10-18 | The loops terminate with the angle brought into [-pi, pi] by the least number of turns. |
| Angles.WrappedSpec | a17/maths/angle_utils.cpp:10-18 | That angle is congruent to the input; a half turn keeps to the side it came from. |
| Angles.DiffIsLeast | a17/maths/angle_utils.cpp:20-22 | No number of full turns brings two angles closer than AngleDiff. |
| Angles.DiffIsAttained | a17/maths/angle_utils.cpp:20-22 | Some number of full turns brings them that close. |
| Angles.DiffTriangle | a17/maths/angle_utils.cpp:20-22 | AngleDiff satisfies the triangle inequality and lies between 0 and pi. |
| Angles.DiffIsWrapped | a17/maths/angle_utils.cpp:10-22 | AngleDiff is the size of the wrapped difference: the loops and the remainder agree. |
| Angles.DiffZeroIffCongruent | a17/maths/angle_utils.cpp:20-22 | AngleDiff is zero if and only if the angles are the same up to full turns. |
| Angles.UnrollSpec | a17/maths/angle_unroller.cpp:12-24 | An output is congruent to its input and as far from the last output as AngleDiff says, at most pi; half a turn goes the way the wrapped angles go. |
| Angles.UnrollRun | a17/maths/angle_unroller.cpp:12-24 | So is every output of every series of angles. |
| Angles.UnrollRecovers | a17/maths/angle_unroller.cpp:12-24 | A series that never jumps by half a turn is recovered from its angles in any representation modulo full turns. |
| Angles.AngleUnroller.UnrollAngle | a17/maths/angle_unroller.cpp:12-24 | The method does this and remembers its output. |
| Pid.HandleAngularDiscontinuity | a17/utils/pid.cpp:92-108 | The reduction to [-2 pi, 2 pi] and one more step terminates and equals WrapToPi on every error. |
| Pid.Clip | a17/utils/pid.cpp:87-90 | The value moved into [-limit, limit], and only as far as needed. |
| PidModel.IntegralStaysBounded | a17/utils/pid.cpp:28-65 | Over every run of calls, settings changes and restarts included, with damping at most d < 1, errors at most E and elapsed times at most T, the integral stays within E T / (1 - d), and after every compute within the limit too. |
| PidModel.AngularIntegralStaysBounded | a17/utils/pid.cpp:41-48 | An angular controller needs no bound on its inputs: the bound holds with E = pi. |
| PidModel.HistoryUntilClipped | a17/utils/pid.cpp:45-48 | Over every series of samples the integral is the sum of the errors, each times the time it was held and damped once for every sample since, if and only if that sum never leaves the limit. |
| PidModel.TheStartIsForgotten | a17/utils/pid.cpp:45-48 | Two controllers with the same settings and samples, clipped or not, come together at the rate of the damping. |
| PidModel.ComputeStaysInRange | a17/utils/pid.cpp:45-62 | After a compute the integral is within the limit, and every output after the first sample lies in [min, max] when min <= max. |
| PidModel.ComputeLaw | a17/utils/pid.cpp:28-65 | From the second sample on: the error is the difference, wrapped for an angular controller; the integral the damped one plus error times elapsed time, limited; the slope the change of the error over that time, or zero; and the output the sum of each gain times its own term, limited. |
| PidModel.FirstSampleLaw | a17/utils/pid.cpp:28-33 | The first sample gives the proportional part, not limited, remembers the error unwrapped and leaves the integral alone. |
| PidModel.ValidStep | a17/utils/pid.cpp:80-90 | Every call keeps the limit and the damping legal, and nothing is accumulated before the first sample. |
| Pid.Pid.Compute | a17/utils/pid.cpp:28-65 | The object's step and output obey those two laws; its integral and, after the first sample, its output stay in range. |
| Pid.Pid.ComputeP | a17/utils/pid.cpp:67-78 | Returns the proportional part of the wrapped error, remembers the error as given, and leaves the integral alone. |
| Pid.Pid.SetAntiWindup | a17/utils/pid.cpp:136-140 | Sets the damping and a limit that clip accepts, whatever the sign given. |
| Pid.Pid.RestartController | a17/utils/pid.cpp:80-85 | Back to the state before the first sample, with the settings kept. |

## Left out

- Sockets, event loop, timers, logging, environment and interface lookup; what the network delivers is an action of the protocol, and `onNetwork` is a parameter.
- The query timer and its back-off; that missing topics imply a running timer is not stated, since a local withdrawal does not restart it.
- The Python bridge, which repeats the same store.
- Memory orderings: each access of the pool's indices is one atomic, sequentially consistent step.
- `calloc`'s zeroing and the contents of pool buffers.
- BufferPool.BufferPool.constructor: a pool with buffers of size zero is excluded; its buffers would all be one address.
- The segment allocation, destructor and move constructor of SmartCapnpBuilder; only the written message is modelled.
- Adjugate, quaternions and rotations, which depend on libraries that are not part of this model.
- Polynomials.Polynomial.LevelSet: stops at degree two; above it the source calls a Jenkins-Traub root finder that is not part of this model.
- Rounding: doubles are reals, `FloatEq(c, 0)` is c = 0, pi is one positive constant, and an elapsed time is not narrowed to a float.
- The default-constructed polynomial without coefficients, on which evaluation is undefined.
- The PID's setters of one gain at a time; they are cases of `Pid.Pid.SetGains`.
- Re-entrant observers: a handler does not change the store while it is called.
- TopicStore.Client.OnDirectoryTopicsChanged: walks a snapshot of the addresses, where the source erases from the set it is iterating.
- TopicStore.Store.CallObservers: observers of the empty name hear of every topic; their connections are not claimed to mirror any one of them.
- TopicStore.Store.EvictAll: visits the names in any order, where the source visits them in map order.
- TypeList.TypesRoundTrip: takes the iteration order of a set as any order without duplicates in which the empty string can only come first; the source's order is one of them.
- Directory.Directory.Answer: takes the iteration order of the local topics as a parameter.
- RequestClient.NewestTopic: takes the topics of the map as a sequence in the order of the map.
- RequestClient.RequestClient.SendRequest: a send that fails sends nothing; frames of a multipart message that went out before the failure are not modelled.
- Messages.MessageRoundTrip: says of a line too long for the send buffer only that it overflows, since the source's behaviour is then undefined; an exit too long for the receive buffer is cut there.
- Query.QueryMissing: after a name that does not fit, nothing is claimed about the rest of the query, for the same reason.
- Directory.Directory.AskForMissing: visits the missing names in any order, where the source visits them in the order of the set.
- CharacterDevice.CharacterDevice.Send: a send buffer is a value with an address; moving one is passing the value on. The fallback address stands for what the system allocates, for every chunk.
- CharacterDevice.CharacterDevice.OnSend: what a failing write may have put on the device before its error is not counted as written; the source ignores it too.
- CharacterDevice.CharacterDevice.SendChunk: a copy callback that reports more than the buffer holds is excluded.
- RateMeasure.RateMeasure.MarkSize: 64-bit overflow of the accumulators is not modelled; times are positive and do not decrease, as a steady clock gives them.
- IntervalBin.SearchBin: the neighbour beyond an end of the table is not read, where the source reads it and does not use it.
- Polynomials.QuadraticRealRoots: the square root of a positive discriminant is a parameter, and a leading coefficient of zero is excluded, where the source divides by it; trimmed polynomials have none.
- BufferPool.BufferPool.Release: a pool address that is not handed out is excluded, as the class's usage contract says.
- PidModel.ComputeStaysInRange: nothing is claimed about the derivative term after the first sample, whose error is remembered unwrapped; the first output is not clamped.
