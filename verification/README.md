# Verified model of netns-mcast-relay

netns-mcast-relay forwards multicast datagrams between Linux network namespaces. A receiver per
namespace and group tags what it reads and feeds one broadcast channel; a single broadcaster drops
duplicates and fans out to bounded per-namespace queues; send workers write to networks that may
lead back to other receivers. A coordinator debounces requests to add and remove namespaces and owns
every handle and socket. This project models that machinery in Dafny and proves properties of it.

Methods and classes follow the Go code's own shape and are proved equal to functions on values; the
main results are then lemmas about those functions over every input, every run and every
interleaving.

| file | what it holds |
|---|---|
| Basics.dfy, ExpiryCache.dfy | options, integer widths, subsequences; what a map of expiry times is worth against the full log of insertions |
| Addresses.dfy | group addresses, the socket-lookup key, the loop key, the hop |
| LoopGuard.dfy | the duplicate filter: refinement of an uncleaned history, rate bound, space bound |
| LoopFreedom.dfy | the whole relay on an arbitrary network: at most one fan-out per datagram, and draining |
| Wildcards.dfy | which configurations this holds for when sockets hear every group on their port |
| FanOut.dfy | fan-out and send queues: conservation and order over runs |
| Coordinator.dfy | the debounced coordinator on values: batching against sequential application |
| Relay.dfy | the Relay object: resource ownership, reconcile, broadcast, receivers, workers |
| Teardown.dfy | teardown against concurrent workers: ordering and termination |
| Checksum.dfy, Datagram.dfy | the UDP checksum and the source-preserving datagram |
| Socket.dfy, EchoProtocol.dfy | writes, echo suppression, and the lock-free reader/writer protocol |
| Registry.dfy | the container registry: its handlers and what one request does |
| Convergence.dfy | requests, direct commands and the timer call by call: convergence, retries, abandoned requests |

Time is always a parameter; the only assumption on it is that it does not decrease. Hashes are an
arbitrary function: no result needs the hash to be injective. What opening a namespace, creating a
socket or a system call returns is a parameter too. Of the network only this is assumed: a socket
hears nothing but datagrams sent to its group, or to its port.

## What the code does differently from its documentation

Each point names the lemma that says exactly when it happens, and one that shows it happening.

- The project's own README says both copies of a forwarded packet retain the incoming TTL. They do
  exactly when it is above zero, or when no copy is made: without one (TTL 0) the raw copy goes out
  with TTL 1 and the local copy with whatever TTL the socket was last given
  (`Socket.CopiesKeepTTLAndPayload`, `Socket.ZeroTTLExample`).
- `WriteToGroup` reports success exactly when some copy went out, except for an empty datagram where
  one failed write hides the local copies that were written and no raw copy is among them
  (`Socket.SuccessIsACopyIff`, `Socket.HiddenCopyExample`).
- The echo filter matches payload hashes, so a packet from somebody else with the payload of a
  recent write is dropped too (`EchoProtocol.EchoNeverReturned`, `EchoProtocol.ForeignEchoExample`).
- Go binds a multicast listener to the wildcard address, so a socket may hear datagrams of another
  configured group on its port, and `receive` tags them with its own group, which changes the loop
  key. One fan-out per datagram holds, on the guard's own delay assumption, if and only if sockets
  hear their own group only or no two configured groups share a port (`Wildcards.OneFanOutIff`); the
  default groups do not (`Wildcards.DefaultGroupsAreSafe`). Where they do, the loop need not end
  (`Wildcards.LoopsWithoutEnd`).
- Coalescing commands differs from applying them one by one in one case: an active path that can no
  longer be built, removed and added again within one window, survives
  (`Coordinator.BatchedIsSequential`, `Coordinator.KeptInstanceExample`). From buildable paths the
  difference cannot arise (`Coordinator.DebouncingIsUnobservable`).
- Two containers registered under one path break convergence as soon as one of them gives the path
  up, and a successful request breaks it in no other way (`Registry.RequestKeepsAgreementIff`,
  `Registry.SharedPathExample`).
- A failed PUT that is given up can leave a path active with no container
  (`Convergence.AbandonedPut`, `Convergence.AbandonedPutExample`).

A failed request that is retried is not on this list: from the success on it leaves no trace in the
registry, in what the relay wants, or in what is active once nothing is pending
(`Convergence.RetryIsClean`). Before that the timer may fire between the failure and the retry, so
the active set at the instant of the success says nothing; `Convergence.LateRetryExample` is a run
in which it differs.

## Model

| member | source | states |
|---|---|---|
| Addresses.HopKeepsLoopKey | internal/middleware/loop_guard.go:56-69 | for groups the relay accepts, three notions of "same group" coincide: same address on the wire, same socket-lookup key, same loop key for any payload; so a hop keeps the loop key |
| Addresses.LoopKeyMeans | internal/middleware/loop_guard.go:56-69 | two packets on IPv4 groups have one loop key if and only if the hashes of their data and their addresses on the wire are equal |
| ExpiryCache.LookupAgrees | internal/middleware/loop_guard.go:38-51 | from its clock on, a pruned expiry map answers every lookup as the full log of insertions would |
| ExpiryCache.LatestDecides | internal/socket/multicast.go:437-463 | whether some insertion of a key is still within the window is decided by the latest one |
| ExpiryCache.InsertTracks | internal/socket/multicast.go:411-435 | inserting with expiry now + window keeps the agreement with the log |
| LoopGuard.LoopGuard.constructor | internal/middleware/loop_guard.go:28-33 | a non-positive window becomes 250 ms; the cache starts empty |
| LoopGuard.LoopGuard.Process | internal/middleware/loop_guard.go:35-52 | the in-place cleanup, in any iteration order, the insertion and the drop are the step function on (seen, nextCleanup); and in terms of packets alone, over all that the guard was shown: the data becomes nil exactly when a packet with the same hash of its data, on the same wire address, was accepted less than a window ago |
| LoopGuard.DropsByContent | internal/middleware/loop_guard.go:35-52 | the same over runs on values: the cache drops and accepts exactly as a filter on data and wire addresses that never forgets |
| LoopGuard.StepAgrees | internal/middleware/loop_guard.go:35-52 | one call blocks exactly when the history of accepted packets holds a younger-than-window entry of the key, and keeps the cache sound against that history |
| LoopGuard.RunIsSound | internal/middleware/loop_guard.go:35-52 | over every run with a non-decreasing clock the lazily cleaned cache passes exactly what a filter that never forgets passes |
| LoopGuard.CleanupIsUnobservable | internal/middleware/loop_guard.go:38-51 | the next packet is dropped exactly when an accepted packet of its key is less than a window old; drops never extend the expiry |
| LoopGuard.HistoryIsSpaced | internal/middleware/loop_guard.go:38-51 | accepted packets with equal keys are at least one window apart |
| LoopGuard.RateBound | internal/middleware/loop_guard.go:38-51 | a closed interval of length T holds at most floor(T / window) + 1 fan-outs of one key, with no assumption on delays |
| LoopGuard.SpaceBound | internal/middleware/loop_guard.go:43-51 | after every accepting call the next cleanup lies ahead and the map is no larger than the number of packets accepted in the last two windows |
| LoopFreedom.ArrivingIsTraced | internal/relay/relay.go:386-414 | lookup by the packet's group, write to the socket's group, receive by any socket that hears it: the copy still has the payload and, above zero, the TTL of what was sent, and its loop key if sockets hear their own group only |
| LoopFreedom.RunKeepsInv | internal/relay/relay.go:265-305 | over every run, reconfigurations included, every packet anywhere is traced to its datagram and the guard agrees with the history of fan-outs |
| LoopFreedom.DroppedIff | internal/relay/relay.go:273-276 | in the running system a packet is dropped exactly when a packet of its key was fanned out less than a window ago |
| LoopFreedom.ReturningCopyIsDropped | internal/middleware/loop_guard.go:19-21 | a timely copy that repeats the key of a fan-out of its datagram, which with exact sockets every copy does, is dropped and changes nothing else |
| LoopFreedom.ReturnDroppedIffTimely | internal/middleware/loop_guard.go:8-10 | with sockets that hear their own group, the delay assumption is exact: a copy of the latest fan-out of its key is fanned out again precisely when it returns a window or more later |
| LoopFreedom.AtMostOneFanOut | internal/middleware/loop_guard.go:19-21 | over every timely run, with any network topology and any number of re-entries, each injected datagram causes at most one fan-out; at most one under each loop key if sockets hear other groups on their port |
| LoopFreedom.TimelyRepeatIsDropped | internal/middleware/loop_guard.go:35-42 | a timely packet whose datagram was already fanned out under its key is dropped and changes nothing else, whichever sockets hear what |
| Wildcards.OneFanOutIff | internal/middleware/loop_guard.go:19-21 | for every valid configuration: each run in which every copy returns within a window of its own fan-out fans each datagram out at most once, if and only if sockets hear their own group only or no two groups share a port |
| Wildcards.OnePerPortSuffices | internal/relay/relay.go:386-414 | the same for one run, whatever group a socket that hears its whole port tags a packet with |
| Wildcards.LoopsWithoutEnd | internal/middleware/loop_guard.go:35-69 | otherwise, for every n, some such run fans one datagram out n + 1 times |
| Wildcards.DefaultGroupsAreSafe | internal/config/config.go:109-112 | the default groups have a port each, so one fan-out holds for them whatever sockets hear |
| LoopFreedom.MovesLower | internal/relay/relay.go:265-305 | every timely step of the relay lowers a well-founded measure of the packets under way |
| LoopFreedom.Drains | internal/relay/relay.go:265-305 | without new datagrams no infinite sequence of timely steps exists |
| LoopFreedom.RestsOnlyWhenEmpty | internal/relay/relay.go:386-414 | while a packet is in flight, in the channel or in a queue, some timely step that loses nothing is possible, whoever hears it, unless the packet to be processed next is already late |
| LoopFreedom.DrainsToEmpty | internal/relay/relay.go:265-305 | a schedule that takes a timely step whenever there is one reaches a state where every queue is empty or the next packet is late |
| FanOut.EachDestinationOnce | internal/relay/relay.go:278-299 | the source and cancelled instances are skipped; every other destination takes the packet or counts one drop, never both |
| FanOut.LineIsBalanced | internal/relay/relay.go:286-298 | for the present instance of a path: taken plus queued is an in-order subsequence of what it was offered since it joined, and offers are taken, queued or dropped |
| FanOut.NothingLostOrReordered | internal/relay/relay.go:265-305 | the same for every present instance of every run in which instances join, are cancelled, leave and come back; and the relay's counter is the number of drops over all instances there ever were |
| Coordinator.PendingIsLastOp | internal/relay/relay.go:220-228 | the pending sets hold exactly each path's last operation |
| Coordinator.SequentialMember | internal/relay/relay.go:190-216 | which paths are active after reconciling after every single command, from the commands alone |
| Coordinator.BatchedIsSequential | internal/relay/relay.go:190-228 | one reconcile for a window equals one per command exactly when no active, unbuildable path is removed and re-added in it |
| Coordinator.KeptInstanceExample | internal/relay/relay.go:197-212 | an unbuildable active path, removed and added again: kept by one reconcile, lost by two |
| Coordinator.WindowsPartition | internal/relay/relay.go:218-247 | every accepted intent belongs to exactly one debounce window, in order |
| Coordinator.RunIsWindows | internal/relay/relay.go:218-247 | over every run the state is: pending sets of the open window, its deadline, and one reconcile per closed window |
| Coordinator.TimerArmedIffPending | internal/relay/relay.go:229-247 | the timer is armed exactly when an intent is pending, and no path is pending both ways |
| Coordinator.DebouncingIsUnobservable | internal/relay/relay.go:180-181 | from buildable paths, whenever nothing is pending the active set is what applying every command at once, in order, would give |
| Relay.TableIsLookup | internal/relay/relay.go:316-338 | the socketsByGroup table built by the loop is the lookup used in the protocol model, duplicates included |
| Relay.TableHoldsLast | internal/relay/relay.go:337-337 | of several sockets with one key the table holds the last |
| Relay.Relay.OpenSockets | internal/relay/relay.go:315-338 | distinct sockets, one for each group in order, or for each group before the one whose creation fails; the table is that of the sockets |
| Relay.Relay.BuildInstance | internal/relay/relay.go:309-360 | an instance that owns all it opened, or nil with everything opened closed again, once |
| Relay.Relay.CloseSockets | internal/relay/relay.go:365-372 | each socket of the sequence is closed once, in order |
| Relay.Relay.Teardown | internal/relay/relay.go:363-380 | the context is cancelled, each socket closed, the workers awaited and the handle closed, in that order and once each |
| Relay.Relay.Rollback | internal/relay/relay.go:320-334 | the sockets opened so far are closed in order, then the handle, once each |
| Relay.Relay.RemovePending | internal/relay/relay.go:197-202 | in any iteration order, exactly the pending removals are torn down and exact ownership is kept |
| Relay.Relay.AddPending | internal/relay/relay.go:204-212 | in any iteration order, each missing path has one build of its own and is added exactly when that build succeeds; present paths keep their instance; exact ownership is kept |
| Relay.Relay.Reconcile | internal/relay/relay.go:190-216 | a kept path keeps its instance, a path removed and re-added in one window included; new instances are fresh; removed ones are cancelled; the active paths are those of the value model |
| Relay.Relay.HandleCommand | internal/relay/relay.go:220-240 | recording an intent and restarting the timer |
| Relay.Relay.HandleTimer | internal/relay/relay.go:243-247 | once its deadline has passed the timer case empties the pending sets, disarms the timer and reconciles; before that it changes nothing |
| Relay.Relay.Shutdown | internal/relay/relay.go:249-256 | every handle and socket ever opened has been closed exactly once |
| Relay.Relay.Coordinate | internal/relay/relay.go:182-259 | for every event sequence and every outcome of every build: nothing is left open, nothing is closed twice, and with stable builds the snapshot is that of the debounced machine |
| Relay.Relay.Submit | internal/relay/relay.go:138-167 | a nil error means the intent was recorded; an error leaves open whether it was |
| Relay.Relay.Offer | internal/relay/relay.go:456-460 | the select: published, given up by a cancelled receiver, or still in hand with a full channel |
| Relay.Relay.Receive | internal/relay/relay.go:428-461 | the packet carries the data, sender and TTL read, the socket's group and the namespace's path; a live receiver publishes it or still holds it; it exits only when cancelled |
| Relay.Relay.FanOutTo | internal/relay/relay.go:278-299 | in any iteration order each queue is served as the value model says and the counter grows by the number of full destinations |
| Relay.Relay.Broadcast | internal/relay/relay.go:268-299 | one iteration is the guard's step followed by the fan-out, or nothing for a dropped packet; the packet keeps its data unless dropped, and every packet in every queue keeps its own |
| Relay.Relay.WorkerTurn | internal/relay/relay.go:390-408 | the worker takes the head of its queue and writes it, with its TTL and sender, through the socket of the packet's group, and fails as that write does; no other socket is touched, and without such a socket nothing happens |
| Relay.HandBack | internal/relay/relay.go:197-202 | tearing an instance down keeps the books: every resource has one owner and no close, or no owner and one close |
| Relay.PayOff | internal/relay/relay.go:320-335 | a failed build keeps the books |
| Relay.TakeOver | internal/relay/relay.go:204-212 | a good build keeps the books |
| Teardown.HandleOutlivesWorkers | internal/relay/relay.go:363-380 | under every interleaving the handle is closed only after all receivers and the worker have exited, and none exits before cancellation |
| Teardown.LastPublish | internal/relay/relay.go:418-462 | after cancellation a receiver publishes at most one more packet, and only if it was past its context check |
| Teardown.LastEnqueue | internal/relay/relay.go:279-298 | after cancellation the broadcaster offers the instance at most one more packet |
| Teardown.LastTurns | internal/relay/relay.go:386-414 | the worker's remaining turns are at most the packets queued, that one more, and its exit |
| Teardown.StepLowersRank | internal/relay/relay.go:363-380 | every step after cancellation lowers an explicit bound |
| Teardown.NeverStuck | internal/relay/relay.go:363-380 | until teardown has finished some step of the instance itself is possible, even with a full broadcast channel |
| Teardown.TeardownTerminates | internal/relay/relay.go:363-380 | from every reachable cancelled state every run is bounded, and one that cannot go on has closed the handle |
| Checksum.UdpChecksum | internal/socket/multicast.go:383-407 | the deferred-carry 32-bit sum with interleaved address words never wraps and yields the RFC 768 checksum of pseudo-header and zero-padded datagram |
| Checksum.OnesSumIsResidue | internal/socket/multicast.go:399-401 | end-around-carry addition (section 2 of RFC 1071) is the nonzero representative of the plain sum modulo 65535 |
| Checksum.WordsInNumbers | internal/socket/multicast.go:393-398 | in numbers: a word is 256 times its first byte plus its second, and an odd last byte is 256 times that byte |
| Checksum.PaddingIsZero | internal/socket/multicast.go:396-398 | the words of an odd number of bytes are those of the bytes and a zero after them |
| Checksum.AddWords | internal/socket/multicast.go:393-398 | the payload loop with its odd last byte sums the padded 16-bit words, without wrapping |
| Checksum.FoldCarries | internal/socket/multicast.go:399-401 | the folding loop ends within two rounds and keeps the residue |
| Checksum.FoldKeepsResidue | internal/socket/multicast.go:400-400 | one round of folding keeps the residue modulo 65535 and the difference between zero and all ones |
| Checksum.ChecksumIsUnique | internal/socket/multicast.go:402-406 | the value is never zero, makes the receiver's sum all ones, and is the only nonzero value that does |
| Checksum.OneWordChange | internal/socket/multicast.go:383-407 | changing one covered word keeps the datagram verifying exactly when the new word is congruent modulo 65535 |
| Datagram.ChecksumExample | internal/socket/multicast.go:383-407 | 10.0.0.5:5353 to 224.0.0.251:5353 with the one byte 7: the checksum is 0xe409 |
| Datagram.BuildRawUDP | internal/socket/multicast.go:325-352 | the two refusals in their order, the exact bytes, the IP fields, and a total length that fits 16 bits |
| Datagram.EncodeInNumbers | internal/socket/multicast.go:336-342 | the bytes in numbers: source port, group port, length and checksum, high octet first, then the data |
| Datagram.EncodeThenDecode | internal/socket/multicast.go:336-342 | a receiver recovers both ports and the exact payload, for every port and every payload up to 65507 bytes |
| Datagram.EncodeVerifies | internal/socket/multicast.go:336-342 | the receiver's checksum test succeeds on everything that is built |
| Datagram.DecodeThenEncode | internal/socket/multicast.go:336-342 | conversely any delivered datagram that carries a checksum is byte for byte the one the builder makes |
| Socket.MulticastSocket.MarkSent | internal/socket/multicast.go:411-435 | the rebuilt map holds the unexpired entries and the new one, in any iteration order |
| Socket.MarkedIsAhead | internal/socket/multicast.go:417-428 | a mark leaves no expired entry behind and changes no other |
| EchoProtocol.SpaceBound | internal/socket/multicast.go:417-434 | over every run the published map is no larger than the number of marks in the 500 ms up to the latest |
| Socket.MulticastSocket.IsSelfEcho | internal/socket/multicast.go:439-463 | true exactly when the hash is present and unexpired |
| Socket.MulticastSocket.ReadFrom | internal/socket/multicast.go:211-250 | the first arrival that is not an echo decides the result; every earlier one was an echo |
| Socket.MulticastSocket.WriteRawUDP | internal/socket/multicast.go:325-374 | one copy of the built packet per interface that accepts it; success exactly when there is one |
| Socket.MulticastSocket.WriteToGroup | internal/socket/multicast.go:271-323 | the mark precedes every copy and is made even on failure; the exact copies; exactly when an error is returned; a positive stored TTL stays positive |
| Socket.OneCopyEach | internal/socket/multicast.go:302-309 | the interfaces that carry a copy are the accepting ones, in interface order, each as often as it is listed |
| Socket.CopiesGoEverywhere | internal/socket/multicast.go:292-309 | with distinct interfaces, the local copy goes out once on each that accepts it, and the raw copy likewise exactly if the sender has an IPv4 address other than 0.0.0.0 and a real port, the payload fits and raw access works |
| Socket.SuccessIsACopyIff | internal/socket/multicast.go:288-322 | an error means that no copy went out, and success that one did, exactly outside one family: empty payload, no raw copy, some local copy, some failed write |
| Socket.HiddenCopyExample | internal/socket/multicast.go:301-313 | an empty datagram that leaves through one of two interfaces and is reported as an error |
| Socket.CopiesKeepTTLAndPayload | internal/socket/multicast.go:271-323 | every copy carries the incoming TTL if and only if it is above zero or there is no copy; every copy delivers the payload; a raw one is a UDP datagram of 28 bytes more than the data, from the original address and port to the group's |
| Socket.ZeroTTLExample | internal/socket/multicast.go:282-286 | a write with TTL 0 that leaves with TTL 1 |
| EchoProtocol.RunKeepsInv | internal/socket/multicast.go:46-48 | over every interleaving of marks, deliveries, loads and judgements the snapshot in the reader's hand agrees with the log of marks it was taken from |
| EchoProtocol.EchoNeverReturned | internal/socket/multicast.go:267-275 | a loopback copy judged within 500 ms of its mark is dropped, whatever marks replaced the map; every verdict is exactly the full log's |
| EchoProtocol.ForeignEchoExample | internal/socket/multicast.go:238-241 | a packet from outside with the payload of a recent write is not returned |
| EchoProtocol.ArrivalOrderKept | internal/socket/multicast.go:206-210 | nothing is lost, duplicated or reordered: what was returned is the judged packets not dropped, in arrival order |
| Registry.Server.PutContainer | internal/control/server.go:204-229 | the handler against the coordinator: registry, recorded intents and status for every outcome of its two calls |
| Registry.Server.DeleteContainer | internal/control/server.go:239-259 | the same for DELETE, unknown containers included |
| Registry.SucceedsIff | internal/control/server.go:207-250 | a DELETE succeeds exactly when the container is unknown or its removal was accepted, a PUT exactly when the addition and any removal were; a failed request changes no entry, a successful one only its own |
| Registry.RemovesFirst | internal/control/server.go:207-218 | the removal is issued first, and the addition only once that was accepted |
| Registry.RequestKeepsAgreementIff | internal/control/server.go:204-250 | a request whose calls succeed keeps wanted paths equal to registered paths exactly when the path it takes away is not held by another container |
| Registry.SharedPathExample | internal/control/server.go:242-250 | two containers under one path, one deleted: the other is registered and no longer wanted |
| Convergence.AloneIsHandle | internal/control/server.go:204-250 | the steps of one request, with nothing in between, are what the handler does |
| Convergence.RunAgrees | internal/control/server.go:204-250 | over every run, with POSTs and the timer between any two calls and any calls failing, the relay wants a settled container path exactly when it is registered |
| Convergence.Converges | internal/control/server.go:204-250 | over such runs, whenever nothing is pending a settled container path is active exactly when some container is registered under it |
| Convergence.SettledWithoutFailures | internal/control/server.go:207-219 | without failed calls nothing is unsettled but paths of the request that holds the mutex |
| Convergence.SuccessSettles | internal/control/server.go:204-250 | a request all of whose calls succeed, whatever falls between them, writes the registry and decides its own paths |
| Registry.AttemptsTouchOwnPaths | internal/control/server.go:207-218 | failed attempts change what is pending for the request's own two paths only |
| Registry.PromptRetryIsClean | internal/control/server.go:207-219 | a request retried at once: the registry and the whole coordinator state, timer included, are as after one clean call |
| Convergence.RetryIsClean | internal/control/server.go:207-219 | however often and wherever a request failed, whatever the timer, POSTs and other containers did in between off its paths: from one success on, whatever follows, the registry and the wanted paths are as if the failed attempts had not been made, and so are the active ones whenever nothing is pending |
| Convergence.LateRetryExample | internal/relay/relay.go:243-247 | the timer fires between failure and retry: the active set right after the retry differs |
| Convergence.AbandonedPut | internal/control/server.go:214-219 | failed attempts at a PUT followed by a successful DELETE, whatever comes in between: the relay wants what it would want without the attempts, plus the PUT's path exactly when its addition was received and the container did not hold it |
| Convergence.AbandonedPutDisagrees | internal/control/server.go:214-219 | so agreement with the registry is lost exactly when that path is registered by nobody |
| Convergence.AbandonedPutExample | internal/control/server.go:214-219 | a PUT whose answer is lost, then a DELETE: an empty registry and a wanted path |

## Left out

- Namespace switching and its system calls (internal/netns/netns.go): kernel and thread behaviour; opening a handle is an outcome that may fail.
- Interface selection, group joins and socket options inside NewMulticastSocket: foreign calls; creating a socket works or leaves nothing behind, and nothing is claimed about its internal cleanup.
- Which datagrams the kernel hands to a socket: those sent to its group, or to any group on its port; both are covered, a socket that hears another port is not.
- HTTP, JSON, identifier and path validation, and the Unix socket of the control server: plumbing around the two container handlers, which are modelled from the point where they hold the mutex.
- Startup flags (internal/config/config.go), packet decoding for logs, logging, shell scripts and hooks: they would add only easy members.
- The middleware chain: it has one element here, so the broadcaster calls the guard directly.
- Draining a Go timer's channel: the timer is an optional deadline.
- The drop counter's wrap at 2^64: it is a natural number.
- Fan-out while the whole relay shuts down, where broadcast may stop halfway: the fan-out results speak of a relay that is not shutting down.
- LoopFreedom.Drains: a copy is heard a finite, arbitrary number of times, chosen when it is written; a network that repeats one copy for ever is not covered by it, though each repeat that is timely is dropped.
- Teardown.TeardownTerminates: one return of ReadFrom and one write count as one step each; that they return at all rests on their deadlines and on the closing of the sockets.
- Relay.Relay.Receive: the read error paths that only log and retry are one case.
