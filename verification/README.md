# neth: verified model of the overlay daemon

neth connects hosts into a flat virtual network. Nodes shake hands with Noise IKpsk0, seal
every data packet with AES-256-GCM under a per-session counter, drop replays with a sliding
bitmap, find each other through lighthouse nodes, and filter traffic with a stateful firewall.
This project models those five mechanisms and their composition in Dafny 4.11 and proves what
they promise over whole runs. `dafny verify dfyconfig.toml` checks everything.

| file | models |
|---|---|
| `ReplayBits.dfy`, `ReplaySpec.dfy` | the 4096-bit window as 64 words shifted in place, and the set of counters it stands for |
| `Hosts.dfy` | `HostInfo` with `CheckReplay`, `HostMap`, both as classes |
| `Wire.dfy` | byte orders and the 16-byte header |
| `Crypto.dfy` | addresses, certificates, the pre-shared key, Noise terms, sealing |
| `HandshakeSpec.dfy`, `HandshakeManager.dfy` | the handshake manager on values, and the class with its two tables of shared entries |
| `HandshakeRuns.dfy` | all interleavings of starts, answers, queued packets and ticks on one manager |
| `QueuedPackets.dfy` | what becomes of every packet queued for a handshake, over those runs |
| `HandshakeNetwork.dfy`, `HandshakeExamples.dfy` | any number of nodes shaking hands over an unreliable wire, and histories that happen |
| `Transport.dfy` | one direction of a tunnel under a network that may alter packets |
| `EndToEnd.dfy` | handshakes and tunnels together, with data packets sealed and received as steps of the run |
| `InterfaceSpec.dfy`, `DaemonSpec.dfy` | what becomes of every packet, and the daemon as a state machine with its whole lives |
| `Interface.dfy` | the daemon as a class: outbound, handshake, lighthouse, receive, teardown, retry and expiry paths, and the loop over all of them |
| `Lighthouse.dfy`, `Discovery.dfy` | the registry of one node, and a network of them |
| `Firewall.dfy` | rules, connection tracking and expiry, over whole traces |

Modelling choices:

- Cryptography is symbolic. A sealed box opens only with its own key, nonce and additional data;
  the two Noise messages are terms over ephemeral keys, static keys and the pre-shared key;
  equal terms stand for equal bytes. Marshalling is injective, and a body that fails to parse is
  one value, `Malformed`.
- Clocks, random indices, ephemeral keys, the set of certificates the CA pool currently
  verifies, and the success of writing a handshake packet are parameters: a failed write decides
  what happens next. The error of any other write is only logged, so a packet handed to the
  socket counts as sent.
- A step of a manager's run is one call of a manager operation, which is one lock-protected section,
  so the run theorems hold for every interleaving of those sections. A step of the daemon is one whole
  input: the theorems about `Interface` and `DaemonSpec`, and the condition in `KeptExactly`, assume
  that a handler is not interrupted. `Hold` makes two manager calls; a stage-1 packet between them is
  a run in which the second finds no pending handshake and queues nothing.
- The handshake manager carries its life as a ghost run, and the theorems about runs are lifted to
  it. A session carries every plaintext it sent and every counter it was put, and the daemon's log
  of the wire is tied to the first, for every session that was ever in the table.
- In `EndToEnd.dfy` the network may lose, repeat, delay, misdirect and re-head data packets, and may
  inject any bytes and any box under a key that no installed session holds.
- The wire is the set of all packets ever sent: a packet may be delivered any number of times,
  late, in any order, or never.
- Counters, indices and bytes have their Go widths; the send counter wraps at 2^64.
- Ephemeral keys are assumed fresh. Local indices are random and may collide: agreement between
  the two ends does not need distinct ones. Where distinctness matters it is an explicit hypothesis
  or the condition of an equivalence.

Where the code differs from its comments or documentation, the model follows the code:

- The comments on connection tracking speak of the time a connection was last seen. A table entry
  is stamped once, by the packet that opened it, and established traffic does not refresh it.
- The documentation says ICMP entries expire after ten seconds. That timeout covers every
  protocol other than TCP and UDP.
- The documentation says the first matching rule wins. Since all rules allow, order has no effect
  (`RuleOrderIsIrrelevant`).
- `HostMap.Add` is described as replacing the previous entry for an address. It does so by
  address only: the replaced session stays reachable by its index for good
  (`SupersededStaysReachable`).

Properties one might expect that fail, each with an input and its exact condition:

- A genuine packet may be refused: any packet that reached the replay check, even one that did
  not open, uses up its counter (`ForgedCounterBlocksGenuine`). Exact condition:
  `GenuineDeliveredExactly`.
- Ownership of addresses in the registries can fail: every lighthouse packet carries index 0, so
  a session that happens to have local index 0 decides who an update is filed under
  (`MisfilingHappens`). Exact condition: `StepKeepsOwnershipExactly`, `OwnershipOverRuns`.
- Closing a tunnel through a session's index need not close that session: after a second handshake it
  takes down the session that replaced it instead (`ClosingOldIndexDropsCurrent`,
  `RehandshakeLeaks`). Exact condition: `CloseReachesOwnExactly`.
- An allowed packet to a peer without a session can fail to be queued: without a pending handshake,
  when the peer's certificate or address is unknown, when no index can be drawn, and when the first
  write of a new handshake fails; in the last case the handshake stays pending and may still complete
  (`FailedWriteLosesPacket`). Exact condition: `KeptExactly`, and `Hold` for the code.
- A queued packet can be lost: any stage-1 packet for the index, authenticated or not, takes the
  handshake out of both tables before it is looked at, and one that does not hold up cancels the
  handshake and drops its queue (`RefusalHappens`); so do the end of the retries and fifty newer
  packets. `ExactlyOneFate` says which, and `FlushedExactly` gives the exact condition for a packet
  to go out.
- A repeated stage-0 packet makes one more responder session, which takes over the peer's address at
  the responder; once the initiator has finished with another answer, nothing sent on it is ever
  opened (`OrphanHappens`). Exactly which sessions: `OrphansStayOrphans`, `OrphanIsNeverHeard`.
- A colliding random index overwrites the index entry of another handshake
  (`CollisionHappens`). Exact condition for the two tables to stay in bijection:
  `BijectionExactly`.
- Traffic does not keep a connection open in the firewall (`RepliesDoNotRefresh`). Exact condition
  for a verdict: `AllowInbound`, `AllowOutbound`.

## Model

| member | source | states |
|---|---|---|
| `ReplayBits.ShiftWindow` | hostmap.go:74-100 | the in-place word-and-carry shift moves every bit up by `n` for every `n`: zeros enter, bits past 4095 are lost |
| `ReplayBits.MoveWords` | hostmap.go:83-90 | the descending word loop reads no word it has overwritten |
| `ReplayBits.CarryBits` | hostmap.go:94-99 | the descending bit loop merges each word with the old value of the word below |
| `ReplayBits.BitPhase` | hostmap.go:92-99 | shifting within words with carry moves the whole bitmap by that many positions, across word boundaries |
| `ReplayBits.ShiftIsDetermined` | hostmap.go:74-100 | "moved up by `n`" determines the bitmap word for word |
| `ReplayBits.ShiftTwice` | hostmap.go:74-100 | shifting by `m` then `n` gives the same words as shifting by `m + n` |
| `ReplaySpec.AfterIsHistory` | hostmap.go:28-31 | after any arrivals the tracked state is exactly the counters that passed and their maximum |
| `ReplaySpec.TurnedAwayExactly` | hostmap.go:34-70 | a counter is turned away if and only if it passed before or one at least 4096 higher did |
| `ReplaySpec.NeverTwice` | hostmap.go:34-70 | no counter passes twice in any sequence of arrivals |
| `ReplaySpec.FirstCopiesPass` | hostmap.go:43-69 | when no arrival trails an earlier one by 4096 or more, exactly the first copy of each counter passes |
| `ReplaySpec.AllPassExactly` | hostmap.go:43-69 | distinct counters all pass if and only if the reordering stays below 4096 |
| `Hosts.Advance` | hostmap.go:43-56 | shifting to a new maximum and marking bit 0 represents the enlarged set of accepted counters |
| `Hosts.Fill` | hostmap.go:62-69 | marking a position inside the window represents the enlarged set |
| `Hosts.HostInfo.CheckReplay` | hostmap.go:37-70 | the bitmap's verdict equals the set's after every history, including jumps, carries and counter 0: refused if and only if the counter, or one 4096 or more above, passed before |
| `Hosts.HostMap.Add` | hostmap.go:120-125 | the new tables, agreeing with the history of additions and removals |
| `Hosts.HostMap.GetByVpnIP` | hostmap.go:128-132 | returns what the history says was last added at the address |
| `Hosts.HostMap.GetByIndex` | hostmap.go:135-139 | returns what the history says was last added under the index |
| `Hosts.HostMap.Remove` | hostmap.go:142-149 | the new tables, agreeing with the history |
| `Hosts.ByIpExactly` | hostmap.go:120-149 | a host is found by address if and only if its addition is the last word on that address |
| `Hosts.ByIndexExactly` | hostmap.go:120-149 | a host is found by index if and only if its addition is the last word on that index, removals of other addresses included |
| `Hosts.FoundBothWays` | hostmap.go:118-149 | with distinct indices every host found by address is found by its own index |
| `Hosts.SupersededStaysReachable` | hostmap.go:120-149 | a replaced session stays reachable by index through all later additions and removals |
| `Hosts.CloseReachesOwnExactly` | interface.go:359-363 | closing through a session's own index takes that session down if and only if it has not been superseded |
| `Hosts.ClosingOldIndexDropsCurrent` | interface.go:359-363 | closing through a replaced session's index removes the current session and keeps the old one |
| `Hosts.RehandshakeLeaks` | hostmap.go:120-149 | the input: after a second handshake and a close through the first index, the first session is still found and the second is not |
| `Headers.Encode` | header/header.go:68-79 | which byte holds what: version and type in the first, the sub-type, two zeros, index and counter most significant byte first; trailing bytes are left alone, and a short buffer untouched |
| `Headers.RefusedExactly` | header/header.go:82-89 | exactly the buffers of fewer than sixteen bytes are too short, and exactly the others whose first four bits are not 1 have a bad version |
| `Words.DigitsMakeWord` | header/header.go:76-77 | the base-256 digits that the two byte orders write out, each times its weight, make up the 64-bit word |
| `Headers.ParseOfBytes` | header/header.go:68-97 | what parsing gives back for every header and any trailing bytes, version and type truncation included |
| `Headers.RoundTripExactly` | header/header.go:68-103 | a header survives the wire if and only if its version is 1 and its type fits four bits |
| `Headers.ReencodeClearsReserved` | header/header.go:68-103 | re-encoding an accepted buffer reproduces its 16 bytes with the reserved ones cleared |
| `Headers.Bytes` | header/header.go:99-103 | a fresh 16-byte buffer holds the header |
| `Crypto.DerivePreSharedKey` | handshake/handshake.go:17-25 | byte for byte the exclusive or of the two fingerprints |
| `Crypto.PskIsSymmetric` | handshake/handshake.go:17-25 | both ends derive the same key |
| `Crypto.PskDeterminesPeer` | handshake/handshake.go:17-25 | with one fingerprint fixed, equal keys mean equal peers |
| `Crypto.CiphersCross` | handshake_manager.go:375-394 | send and receive keys match across two sessions if and only if they are opposite ends of one exchange |
| `Crypto.NonceDeterminesCounter` | noiseutil/aead.go:58-69 | 12-byte nonces are equal if and only if the counters are |
| `Crypto.NonceBytes` | noiseutil/aead.go:65-69 | the nonce is the counter's eight bytes, least significant first, and four zeros |
| `Crypto.OpensExactly` | noiseutil/aead.go:36-56 | a box opens if and only if key, counter and header are those it was sealed with |
| `HandshakeManager.HandshakeManager.StartHandshake` | handshake_manager.go:83-129 | every field of the new entry and of the packet written; nothing while one is in progress; a failed write is reported but the entry stays; the event joins the manager's run |
| `HandshakeManager.HandshakeManager.HandleStage0` | handshake_manager.go:134-214 | answered if and only if the body parses, its certificate is trusted, its digest fits key, details and message, and the message is for this node's key under the pair's pre-shared key; every field of the reply and the session |
| `HandshakeManager.HandshakeManager.HandleStage1` | handshake_manager.go:219-280 | the entry leaves both tables before validation; a session if and only if the certificate is trusted, the digest fits and the message continues the pending one; every field of the session, and the flushed queue |
| `HandshakeManager.HandshakeManager.FlushedSinceStart` | handshake_manager.go:219-297 | of the manager's own life: the queue an answered handshake hands over is the last fifty packets queued for its peer since it was started |
| `HandshakeManager.HandshakeManager.QueuePacket` | handshake_manager.go:284-297 | the queue gains a copy of the buffer at its end, losing its oldest packet if it held fifty, and no other entry changes |
| `HandshakeManager.HandshakeManager.RetryPending` | handshake_manager.go:313-336 | over any iteration order, exactly the due entries with fewer than ten attempts are resent, exactly the due ones with ten leave both tables |
| `HandshakeManager.HandshakeManager.Run` | handshake_manager.go:300-311 | over any ticks the manager's run gains exactly those ticks, and each puts exactly the due packets back on the wire |
| `HandshakeManager.HandshakeManager.ExpiresInTime` | handshake_manager.go:313-336 | of the manager's own life: an unanswered handshake is there before 180.5 s, and in neither table, after ten sends, once 180.5 s and ten gaps are over |
| `HandshakeManager.HandshakeManager.AnswersOnce` | handshake_manager.go:228-280 | of the manager's own life: no two answers take one handshake and none takes an expired one |
| `HandshakeManager.HandshakeManager.AccountsForPacket` | handshake_manager.go:284-297 | of the manager's own life: every packet queued for a pending handshake has met exactly one fate by now |
| `HandshakeSpec.StartKeeps` | handshake_manager.go:83-129 | a start keeps the tables linked and every handshake accounted for, whatever index it draws |
| `HandshakeSpec.StartKeepsBijectionExactly` | handshake_manager.go:91-125 | a start keeps the tables in bijection if and only if its index is not in use |
| `HandshakeSpec.Stage1Keeps` | handshake_manager.go:228-234 | taking an entry out keeps links, accounts and bijection |
| `HandshakeSpec.TickKeeps` | handshake_manager.go:313-336 | so does a tick, even when an expiring entry's index leads to another handshake |
| `HandshakeRuns.AlwaysConsistent` | handshake_manager.go:83-336 | over all interleavings every index entry leads to a live handshake under its own address, and every started handshake is pending, answered or expired, exactly one of them |
| `HandshakeRuns.BijectionExactly` | handshake_manager.go:83-336 | the tables are in bijection throughout a run if and only if no start drew an index in use |
| `HandshakeRuns.CollisionHappens` | handshake_manager.go:91-125 | the input: two starts that draw one index leave the first handshake pending but out of reach of its answer |
| `HandshakeRuns.AnsweredAtMostOnce` | handshake_manager.go:228-280 | a handshake is answered at most once, and never once it has expired |
| `HandshakeRuns.RetryBound` | handshake_manager.go:27-32 | with ticks at most a gap apart the timer gives up at attempt ten, between 180.5 s and 180.5 s plus ten gaps |
| `HandshakeRuns.UnansweredFollowsTimer` | handshake_manager.go:313-336 | among all other activity an unanswered handshake makes its timer's sends, keeps the last fifty packets queued since the start, and expires when the timer does |
| `HandshakeRuns.UnansweredExpires` | handshake_manager.go:114-125 | an unanswered handshake sends stage-0 exactly ten times, is still there before 180.5 s, and after 180.5 s plus ten gaps is in neither table |
| `HandshakeRuns.AnswerFlushesLastFifty` | handshake_manager.go:278-297 | the answering packet flushes exactly the last fifty packets queued since the start, in order |
| `QueuedPackets.PlaceInQueue` | handshake_manager.go:284-297 | while its handshake is pending a packet stands right before what was queued after it, and is gone from the queue if and only if that is fifty or more |
| `QueuedPackets.ExactlyOneFate` | handshake_manager.go:219-336 | at any later time of any run a queued packet is in exactly one of: still queued, sent by a completing answer, dropped by an answer that does not hold up, dropped with the last retry, pushed out by the fiftieth packet after it |
| `QueuedPackets.FlushedExactly` | handshake_manager.go:249-280 | a completing answer flushes the packet, in its place, if and only if fewer than fifty were queued for the peer after it |
| `QueuedPackets.RefusalHappens` | handshake_manager.go:228-247 | the input: a stage-1 packet that does not parse empties both tables and the waiting packet is gone |
| `HandshakeNetwork.StepKeepsNetwork` | handshake_manager.go:83-280 | every start, resend, reply, duplicate and answer keeps all nodes, sessions and packets consistent |
| `HandshakeNetwork.OnlyTrustedJoin` | handshake_manager.go:153-158 | in every run a step that gives a node one more session, in either role, is that node's own and the session's certificate is trusted in that step |
| `HandshakeNetwork.RefusedInstallsNothing` | handshake_manager.go:243-262 | whatever the wire holds, a packet that does not parse, whose digest differs in key, details or message, or whose certificate is not trusted installs no session anywhere |
| `HandshakeNetwork.TickResends` | handshake_manager.go:313-336 | a tick adds to the wire exactly the first packets of the handshakes that are due and have attempts left |
| `HandshakeNetwork.Agreement` | handshake_manager.go:134-280 | in every run each initiator session has exactly one responder session with mirrored indices and crossed keys, each end holds the other's certificate, and the responder is the peer asked for |
| `HandshakeNetwork.ResponderAgreement` | handshake_manager.go:134-214 | in every run each responder session came of a recorded start at the node whose certificate it holds, with that start's index, meant for this responder |
| `HandshakeNetwork.OrphansStayOrphans` | handshake_manager.go:134-280 | once an initiator finished with one answer to a start, no initiator session ever holds the keys of another answer to it |
| `HandshakeNetwork.SendKeysAreUnique` | handshake_manager.go:199-277 | no two sessions of any nodes and roles ever send under the same key |
| `HandshakeNetwork.AnswerCompletes` | handshake_manager.go:249-278 | a reply that reaches the handshake it answers, from a trusted responder, always installs a session |
| `HandshakeExamples.SessionHappens` | handshake_manager.go:83-280 | a three-step history, start, respond and answer, that installs both ends of a session |
| `HandshakeExamples.OrphanHappens` | handshake_manager.go:134-214 | the input: one repeated stage-0 packet leaves the responder's newest session for the peer orphaned |
| `Transport.NoncesRepeatExactly` | interface.go:365-375 | two sends of a session share a nonce if and only if they are a multiple of 2^64 apart; the nonce is that of the authenticated header's counter |
| `Transport.DeliveryIsSafe` | interface.go:280-298 | whatever the network loses, duplicates, delays, reorders or alters, deliveries map injectively to sends with the same packet, plaintext and counter |
| `Transport.CounterNamesPlaintext` | interface.go:280-298 | below 2^64 sends a delivered counter `c` carries the plaintext of send `c` |
| `Transport.GenuineDeliveredExactly` | interface.go:289-294 | an unaltered packet is delivered if and only if no earlier arrival, genuine or not, took its counter or one 4096 higher |
| `Transport.ForgedCounterBlocksGenuine` | interface.go:289-298 | the input: a packet nobody sealed with a counter 4096 or more above is not delivered and keeps the genuine packet after it out |
| `Transport.ReorderingIsTolerated` | interface.go:365-372 | with nothing altered and reordering below 4096, every send that arrives is delivered at its first copy and no other |
| `EndToEnd.NoNonceReuseAnywhere` | noiseutil/aead.go:30-69 | over any life of the network, no two sends of any sessions, below 2^64 sends each, are sealed under the same key and nonce |
| `EndToEnd.MoveKeeps` | interface.go:257-320 | every handshake step, data send and arrival keeps all sealed boxes accounted for as sends of installed sessions, and all arrivals under a held key among them |
| `EndToEnd.NobodyForges` | handshake_manager.go:199-277 | in every life, what arrives under a tunnel's key is a send of the one session that holds it for sending |
| `EndToEnd.TunnelIsSafe` | interface.go:280-298 | in every life of handshakes, sends and arrivals, an initiator's session has one other end, and in both directions what an end delivers was sent by the other, unchanged, once per send |
| `EndToEnd.SentCanBeDelivered` | interface.go:280-298 | what a session has just sealed may arrive at the other end, and is delivered there if and only if its counter, or one 4096 or more above, has not been taken |
| `EndToEnd.OrphanIsNeverHeard` | interface.go:280-298 | what an orphaned responder session sends opens at no end, in any life of the network |
| `Interface.Interface.constructor` | interface.go:85-110 | an empty table and a firewall with the given rules, over the given manager and registry |
| `Interface.Interface.SendToRemote` | interface.go:365-388 | the counter is bumped with wrap-around; the sixteen header bytes, key, nonce and plaintext of the datagram, and where it goes; it is the next send of the session's channel |
| `Interface.Interface.Flush` | interface.go:407-409 | the packets become the session's next sends, in order, and the part of the wire of every session there ever was is still exactly its sends |
| `Interface.Interface.OwnNoncesRepeatExactly` | interface.go:365-375 | two datagrams that any session ever in the table put on the wire share a nonce if and only if they are a multiple of 2^64 sends apart; the nonce is that of the header's counter |
| `Interface.Interface.OnHandshakeComplete` | interface.go:399-410 | a new session with the given keys, indices and certificate, a window of its own and nothing received joins the table alone, and its queue is its first sends |
| `Interface.Interface.HandleHandshake` | interface.go:322-333 | the daemon's whole new state; a session joins only under a trusted certificate and an untampered body; a completing response sends exactly the last fifty packets queued since the start, under counters 1, 2, 3 |
| `InterfaceSpec.FirstSends` | interface.go:405-409 | spelled out, what a completed handshake sends first: the last fifty packets queued for its peer since the start that chose its address, under the counters 1, 2, 3 |
| `InterfaceSpec.KeptExactly` | interface.go:237-254 | without a session a packet is queued if and only if a handshake is in progress or gets under way; otherwise no queue holds it, other peers are untouched, and a handshake is left pending if and only if only its first write failed |
| `InterfaceSpec.JustQueuedIsKept` | handshake_manager.go:284-297 | a packet that was just queued is one of the run's kept packets and stands last in its queue |
| `InterfaceSpec.FailedWriteLosesPacket` | handshake_manager.go:124-128 | the input: certificate, address and index at hand and a failing first write leave the handshake pending and the packet in no queue |
| `Interface.Interface.Hold` | interface.go:237-254 | held if and only if a handshake is in progress or one can be started, gets an index and its first write succeeds; whom the new handshake is with and at which address; that exactly the lighthouses are asked, about this peer; the manager's whole new state |
| `Interface.Interface.ConsumeInsidePacket` | interface.go:211-255 | ignored, barred, forwarded, held or lost, each with its exact condition: the destination is bytes 16 to 19, the firewall judges it with the peer's groups, and the packet goes out on the session found there, no other session being touched; the daemon's whole new state |
| `Interface.Interface.HandleCloseTunnel` | interface.go:359-363 | if a session is found under the index, nothing is found at its address any more, every other address finds what it did, and with distinct indices its own index finds nothing if and only if it was not superseded |
| `Interface.Interface.HandleLightHouse` | interface.go:335-351 | a message is handled as coming from the host its index finds, otherwise from a node its source address is stored for, and not at all if there is none or the body does not decode |
| `Interface.Interface.HandleMessage` | interface.go:280-320 | the daemon's whole new state on every path, the counter spent before opening; the plaintext is appended to the TUN device exactly if the firewall allows it for the session's groups and its source, bytes 12 to 15; the empty datagram for an unknown index |
| `Interface.Interface.ConsumeOutsidePacket` | interface.go:257-278 | each kind of datagram takes the step of its own handler |
| `Interface.Interface.Run` | interface.go:150-209 | over inputs of every kind in any order the daemon goes through a life of the state machine and stays sound; the plaintexts on the TUN device are those of exactly the inputs reported as written, one each and in order |
| `DaemonSpec.LogsGrow` | interface.go:211-320 | over any stretch of a life a session is put exactly the counters of the packets its index found it for, and sends exactly the packets routed to it, in order, while sessions come and go |
| `DaemonSpec.LifeIsFaithful` | interface.go:280-320 | among all other inputs, what the daemon makes of a data packet is what the session's channel lets through, counting all it heard before |
| `DaemonSpec.HeldExactly` | interface.go:237-254 | an allowed packet without a session is held, last in the peer's queue, if and only if a handshake is in progress or one gets under way; otherwise it is lost; and when the lighthouses are asked |
| `DaemonSpec.WrittenOncePerSend` | interface.go:280-320 | from the moment a session joins, every plaintext of its on the TUN device was sent to it in the very packet that arrived, and no two of them come of one send |
| `DaemonSpec.WrittenWasAllowed` | interface.go:300-319 | in any life, what is written was let through by the firewall at that point of its history, as an inbound packet with the plaintext's source, port and protocol and the session's groups |
| `DaemonSpec.JoinsExactly` | interface.go:322-333 | the inputs for which a session joins, and no others: trusted, untampered, and either for this node under the right pre-shared key and answered, or continuing a pending handshake; it is then found by address and by index and its certificate is known |
| `DaemonSpec.ClosedUntilJoined` | interface.go:359-363 | in any life, after a close that found a session nothing is found at its address until a session joins there |
| `IPv4.AddressBytes` | interface.go:505-517 | which bytes the source and the destination are, and which packets have none |
| `IPv4.PortBytes` | interface.go:519-536 | which byte is the protocol and which two are the port, behind a header of the stated length, and when there is none |
| `IPv4.FieldsReadBack` | interface.go:505-536 | for all fields, a packet put together from them gives exactly them back |
| `LighthouseSpec.ListRoundTrip` | lighthouse.go:266-294 | an address list survives the wire except for entries without an IP |
| `LighthouseSpec.AdvertisedIsFound` | lighthouse.go:102-151 | after an update, a query leaves exactly the advertised addresses in the asker's registry |
| `LighthouseSpec.ToldExactly` | lighthouse.go:190-251 | a message to a list of peers goes to every address on record for every one of them, and to nobody else |
| `Lighthouse.LightHouse.QueryPeer` | lighthouse.go:190-199 | exactly the addresses on record for the lighthouses get a query, and it names the peer |
| `Lighthouse.LightHouse.VpnIPByAddr` | lighthouse.go:67-78 | finds some owner on record if there is one, in any map order |
| `Lighthouse.LightHouse.HandleMessage` | lighthouse.go:81-188 | for every kind of message, what is stored under whom, which answers go to which addresses in order, and which holes are punched |
| `Lighthouse.LightHouse.Advertise` | lighthouse.go:201-217 | exactly the addresses on record for the lighthouses get an update, with the node's own addresses |
| `Discovery.LookupFindsOwner` | lighthouse.go:67-78 | the reverse lookup finds the true sender whichever entry the map yields first |
| `Discovery.UpdateFiledExactly` | lighthouse.go:142-151 | an update is filed under its owner if and only if no session at index 0 belongs to somebody else |
| `Discovery.StepKeepsOwnershipExactly` | lighthouse.go:81-251 | a step keeps every registry and packet truthful about ownership if and only if it does not misfile an update |
| `Discovery.OwnershipOverRuns` | lighthouse.go:81-251 | ownership holds in every state of a run if and only if no step of it misfiles an update |
| `Discovery.MisfilingHappens` | lighthouse.go:142-151 | the input: a three-step run in which a lighthouse with a session at index 0 files one node's address under another |
| `Discovery.NoIndexZeroNoMixUp` | interface.go:335-351 | without sessions at index 0, ownership holds throughout and every packet is attributed to the owner of its source address |
| `Discovery.AskingFinds` | lighthouse.go:102-140 | in any network, a query to a lighthouse that knows the asker, and its answer, leave with the asker exactly what the lighthouse has on record for the peer |
| `FirewallSpec.LiveIsUnique` | firewall/conntrack.go:43-47 | a connection has at most one live entry |
| `FirewallSpec.ReflectsPut` | firewall/firewall.go:26-58 | a packet changes the table only if a rule matches and no entry is there, keeping it equal to the live entries with their opening times |
| `FirewallSpec.ReflectsSweep` | firewall/conntrack.go:63-81 | so does a sweep |
| `FirewallSpec.EstablishedTimeBound` | firewall/expiry.go:8-25 | with sweeps at most a gap apart, a packet allowed without a rule comes within protocol timeout plus gap of a rule-matched packet on the same triple |
| `FirewallSpec.RepliesPassExactly` | firewall/firewall.go:26-58 | after one rule-matched packet, a packet no rule matches passes if and only if it has the same remote address, port and protocol |
| `FirewallSpec.ContainsExactly` | firewall/firewall.go:82-84 | a range contains exactly the addresses that agree with its base above the host bits |
| `FirewallSpec.RepliesDoNotRefresh` | firewall/conntrack.go:43-59 | the input: a reply is let in at 29 s, yet after the sweep at 30 s replies are refused, since the entry is as old as its opening packet |
| `FirewallSpec.RuleOrderIsIrrelevant` | firewall/firewall.go:32-57 | the same rules in any order and repetition give equal verdicts and tables after any run |
| `Firewall.MatchRule` | firewall/firewall.go:60-87 | a rule matches if and only if protocol, port, group and range each are a wildcard or fit the packet |
| `Firewall.ReversedLookupIsIdle` | firewall/conntrack.go:51-59 | with zero-source keys the reversed lookup never changes an answer |
| `Firewall.Conntrack.Expire` | firewall/conntrack.go:63-81 | over any iteration order exactly the entries older than the timeout of their protocol go, the rest keep their times |
| `Firewall.Firewall.AllowInbound` | firewall/firewall.go:26-40 | allowed on a new firewall if and only if protocol, port, group and range of some inbound rule each are a wildcard or fit; after every history, if and only if a rule matches or some rule-matched packet's entry is still live |
| `Firewall.Firewall.AllowOutbound` | firewall/firewall.go:44-58 | the same for the outbound rules |
| `Firewall.Firewall.ExpireWith` | firewall/expiry.go:28-30 | exactly the entries older than the given timeout of their protocol go, and the table stays equal to the live entries |
| `Firewall.Firewall.RunExpiry` | firewall/expiry.go:8-25 | one sweep per tick, with timeouts of 300 s for TCP, 30 s for UDP and 10 s for the rest |

## Left out

- Certificates: X.509 parsing, chain verification and PEM are not modelled; the set of currently trusted certificates is a parameter.
- Noise internals: key schedules and Diffie-Hellman are symbolic terms; secrecy and forgery of the cryptography are not claimed.
- Handshake timestamps: the time field of the handshake details is never read and is not modelled.
- TUN device, UDP sockets, configuration and rule parsing, logging: input and output without state of interest.
- Test packets: the echo of a test packet is not modelled.
- IPv6: addresses are IPv4 values or absent, and address prefixes are IPv4.
- HandshakeManager.HandshakeManager.QueuePacket: queued packets are values, so that later writes to the caller's buffer cannot show is part of the representation.
- Goroutine scheduling: the daemon's handlers are atomic steps. Concurrent handlers could interleave a flush with other sends on the same session, or the two manager calls of `Hold` with a stage-1 packet.
- DaemonSpec.WrittenOncePerSend: that boxes under the session's key are the peer's sends is a hypothesis here; it is proved for the network as a whole in `EndToEnd.NobodyForges`.
