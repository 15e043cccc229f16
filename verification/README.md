# packethose in Dafny

packethose carries raw IP packets over parallel TCP lanes. This project models the parts of it
that hold state or translate between forms, and proves what they guarantee:

* **Lane transport** (`Lane.dfy`, `LaneProofs.dfy`, `LaneFrames.dfy`, `LaneLoops.dfy`): bursts of packets become
  `[type][length][payload]` frames sealed under an implicit counter nonce, and a byte stream that
  may be cut anywhere becomes packets again.
* **Addresses and pools** (`Addr.dfy`, `AddrV6.dfy`, `Users.dfy`, `AddrPool.dfy`, `PoolLoops.dfy`):
  address arithmetic, the user database, and the sticky allocator with reservations.
* **Multi-client control plane** (`Control.dfy`, `ControlSafety.dfy`, `ControlRuns.dfy`,
  `ControlSticky.dfy`, `ControlPending.dfy`, `ControlLeaks.dfy`, `ControlUsed.dfy`,
  `ControlOffers.dfy`, `ControlLanes.dfy`, `ControlQueues.dfy`, `ControlQuota.dfy`,
  `ControlSerial.dfy`, `ControlRaces.dfy`, `ControlSample.dfy`, `McState.dfy`): sessions, the IP
  index, quotas, queues and pools as a state machine.
* **Accept-path limiter** (`RateLimit.dfy`, `RateLimitProofs.dfy`, `RateLimitExact.dfy`,
  `RateLimitLoops.dfy`).
* **Envelope and handshake** (`Envelope.dfy`, `Handshake.dfy`), and the bytes of all messages,
  position by position (`WireFormat.dfy`).
* `Bytes.dfy` holds bytes, fixed-width integers and bitwise operators over `int`.

`dafny verify dfyconfig.toml` checks everything.

## How it is modelled

The source's imperative code is a class or a method with loops; each is proved to compute a
function, and the theorems are about those functions. What a function decides is also stated without
it: the limiter's answer by counting earlier admissions (`RateLimitExact.AnswersAreExact`), the life of
a session by the lane events of the schedule (`ControlLanes.LiveIff`), an offered address by the
user's list (`AddrPool.AnswerIs`, `ControlOffers.ReservationHonoured`), admission by the list of users
(`ControlRuns.AuthorizeIff`), a queue by what was sent and taken (`ControlQueues.FirstInFirstOut`).

The AEAD, the keystream, SHA-256 and Noise are function-valued parameters. A theorem assumes of
them only what its own predicate says (`Lane.Lawful`: opening undoes sealing and whatever
opens carries a tag of 16 bytes; `Handshake.OnlyHello`, `OnlyReply` and `Delivers`: an ideal channel,
which `Handshake.IdealBox` shows to exist) and holds for every such function.
Random bytes, the clock and the order in which Go visits a map are parameters too.

Session objects live in a `heap` under serial numbers, so that a stale pointer to a collected
session stays distinguishable from the client's next session. `addrs` maps a family to the address
assigned in it and has no entry where the source has an invalid address.

The control plane is modelled step by step, and each theorem says which runs it is about:

* *Every interleaving* (`ControlRuns.IsRun`): allocation, `releaseOrphan`, the `acquireSession`
  critical section, the release after a quota refusal, the locked part of a collection, each
  tear-down up to its pool releases, its `ReleaseSlot`, and the lookup and the send of a dispatched
  packet are all separate steps. `ControlRuns.EveryScheduleRuns` shows that any order of such steps
  is a run. Two things are coarser than in the source: the two pools answer or release for one
  client in one step, and `tearDown` marks the session closed in the step that releases its addresses.
* *Undisturbed runs* (`ControlPending.Undisturbed`): no step is a release of a client that is live
  again or has another handshake under way. This is a condition on the guard of each release.
* *Prompt releases* (`ControlSticky.Prompt`): a collection is not interrupted before its addresses
  are released, nor a quota refusal before its release.
* *Coarse steps* (`ControlSerial.Serial`): moreover one connection set-up, from allocation to its
  abort, refusal or session, is not interrupted.

Properties one might expect that are false of the code are stated with their exact condition:

* The length fields are true exactly when packets that share a burst leave two bytes for their
  sub-length, and in every mode no wider bound on such packets guarantees the round trip
  (`LaneProofs.HeadersExactIff`, `SafeLimitIff`, `OversizeIsLost`; in open mode something else may be
  delivered instead, `OversizeBurstIsMisread`).
* Pruning the limiter's table is invisible exactly when a bucket refills within the entry's
  lifetime (`RateLimitProofs.PruningUnobservableIff`).
* The limiter's table outgrows its bound exactly when it is full and its unnamed source is strictly
  the oldest and visited last (`RateLimitProofs.OverflowIff`). `remoteIP` (supervisor.go:241-247)
  returns the host part of a TCP peer's address, which is not empty, so an accepted connection
  does not bring this about.
* A live session keeps its pool records on every step except a release owed to an earlier session,
  or refusal, of a client that is live again (`ControlSticky.StickyIff`); a pending handshake keeps
  what it was offered on every step except an effective release of its client
  (`ControlPending.PromisedIff`). A run has no such step exactly when all of them keep their records
  (`ControlPending.RunKeepsIff`), and then no two live sessions share an address
  (`ControlPending.InterleavedSafety`). Otherwise they may: `ControlRaces` and `ControlSample` give
  the runs.
* A step leaves a pool record that nobody answers for exactly when it ends the last set-up behind
  that record without a release. There are two such ends: an abort under the all-zero id
  (multiclient_linux.go:208-210), and a rejection because every prefix length that was assigned is
  zero (handshake.go:63-66, multiclient_linux.go:214-218). `ControlLeaks.NoLeakIff` says this of
  steps and `RunLeaksIff` of runs. With prefix lengths other than zero only the first is left
  (`NoLeakAlways`); on a server whose only subnet is `0.0.0.0/0` every client leaves its record
  behind (`ControlRaces.ZeroPrefixRun`).
* A step leaves a used address that is on record for nobody exactly when it makes a session whose
  claim replaces another recorded address of its client that no other client has on record
  (`ControlUsed.FreeableIff`, and `RunFreeableIff` for runs). Once nobody was offered it either,
  no later step frees it or gives it away (`ControlUsed.LostForGood`), and a server can come to rest
  like that (`ControlRaces.StrandRun`).
* A source is held to `burst + rate * T` in a window of length T, and to one more `burst` for each
  time that it is forgotten before its bucket has refilled (`RateLimitProofs.WindowBound`).
* The IPv4 walk ends on every pool but an exhausted `/0` (`AddrPool.WalkEndsIff`).

The protocol description lists a zero length, though marked as skipped, among the things that end a
lane. The code skips it (lane.go:204-206) and carries on, and the model follows the code.

## Model

| member | source | states |
|---|---|---|
| `LaneProofs.RoundTrip` | lane.go:124-243 | for every sequence of bursts within the packet bound, keyed or open, the receiver hands over exactly the packets of length at least `minRead`, unchanged and in order, ends cleanly, and stands at the sender's counter |
| `LaneProofs.PrefixSafety` | lane.go:190-243 | a sender's stream cut after any byte delivers a prefix of the packets sent |
| `LaneProofs.CutDeliversPrefix` | lane.go:190-243 | cutting any stream, well formed or not, only shortens what is delivered |
| `LaneProofs.SplitIsExact` | lane.go:224-238 | on any batch plaintext, printing the delivered units gives back exactly the bytes consumed, and the splitter stops only for want of a length or of the bytes it announces |
| `LaneProofs.SplitPrint` | lane.go:224-238 | units printed in front of any plaintext come out first and unchanged |
| `LaneProofs.CoalesceCarries` | lane.go:169-186 | greedy packing loses, reorders and changes no packet, and every frame it cuts can be read back |
| `LaneProofs.BatchingRefinesSingles` | lane.go:79-188 | the batching sender and the one-frame-per-packet sender lead the receiver to the same delivered packets |
| `LaneProofs.HeadersExactIff` | lane.go:133-147 | all length fields are true if and only if every packet in a burst of several is at most `maxRead - 2` long |
| `LaneProofs.SafeLimitIff` | lane.go:160-186 | for each mode, keyed or open, a bound on batched packets makes the round trip hold for all bursts if and only if it is at most `maxRead - 2` |
| `LaneProofs.OversizeIsLost` | lane.go:133-147 | in every mode, every packet longer than `maxRead - 2` that is read in a burst with an empty read is not delivered |
| `LaneProofs.DeliveredFits` | lane.go:195-243 | on any stream, no delivered packet is longer than the stream without a header and a tag |
| `LaneProofs.OversizeBurstIsMisread` | lane.go:202-213 | in open mode, two zero packets of 65534 bytes in one burst: the length wraps to zero, is skipped, and 65024 bytes that were never a packet are delivered |
| `LaneProofs.Lockstep` | lane_crypto.go:60-89 | at every frame boundary sender and receiver have counted the same frames |
| `LaneProofs.SenderKeepsLockstep` | lane.go:160-186 | the batching sender keeps lockstep and never emits a frame the receiver would skip uncounted |
| `LaneProofs.NoncesRepeatOnlyAfterWrap` | lane_crypto.go:79-83 | the 12-byte nonces at the counters a sender reaches under one key are distinct if and only if it seals at most 2^64 frames |
| `LaneFrames.BurstIsPacked` | lane.go:160-186 | a lone packet travels in one single frame; several travel in batch frames of at most 60000 bytes, unless one packet alone is longer, each so full that the next frame's first packet would not have fitted |
| `LaneFrames.UnopenedEnds` | lane.go:215-222 | after any good frames, a body that does not open ends the lane: all before it is delivered, nothing after it, and it is counted |
| `LaneFrames.MalformedEnds` | lane.go:224-233 | a batch that does not split ends the lane after the units before the fault |
| `LaneFrames.EmptyIsSkipped` | lane.go:204-206 | a frame of length zero anywhere between frames changes nothing and is not counted |
| `LaneLoops.FrameAead.Seal` | lane_crypto.go:79-83 | seals under the counter's nonce and steps the counter modulo 2^64 |
| `LaneLoops.FrameAead.Open` | lane_crypto.go:85-89 | opens under the counter's nonce and steps the counter even on failure |
| `LaneLoops.Flush` | lane.go:133-147 | writes exactly one encoded frame through the reused buffer, which is large enough for every payload the sender can build |
| `LaneLoops.PackNext` | lane.go:170-183 | one turn of the packing loop: skip a short packet, or flush if full and append |
| `LaneLoops.SendBatch` | lane.go:169-186 | the packing loop emits exactly the frames of the greedy packing |
| `LaneLoops.TunToSockBatch` | lane.go:124-188 | the batching sender emits exactly the stream of its bursts and advances the counter once per frame |
| `LaneLoops.TunToSock` | lane.go:79-117 | the simple sender emits one single frame per packet that is long enough |
| `LaneLoops.HandFrame` | lane.go:224-241 | hands the units of one opened frame to the TUN until done, malformed or refused for good |
| `LaneLoops.SockToTun` | lane.go:190-256 | the receiver hands over all that the stream carries, or exactly up to the write the TUN refuses for good |
| `Addr.NextAddr` | ippool.go:183-192 | the byte-carry loop adds one modulo 2^32 |
| `Addr.BroadcastIsLast` | ippool.go:194-200 | the or-ed mask gives the last address of the subnet |
| `AddrV6.CandidateKeepsNetwork` | ippool.go:211-224 | for every digest and prefix length up to 126 the derived bytes agree with the subnet on all network bits, partial bytes included |
| `AddrV6.CandidateInSubnet` | ippool.go:205-235 | the derived address lies in the subnet and is never the network address |
| `AddrV6.CandidateIs` | ippool.go:205-235 | the derived address is the network address plus the digest's first sixteen bytes, read least significant first, modulo the size of the subnet, with one in place of zero |
| `AddrV6.V6FromClientID` | ippool.go:205-235 | the byte loops compute that address |
| `Users.NewUserDb` | users.go:64-109 | succeeds if and only if names, keys and reservations are valid and apart, and then says exactly what the list says |
| `Users.AddReservations` | users.go:88-103 | records a user's reservations if and only if all are valid and none belongs to an earlier user |
| `Users.ConstructorAgrees` | users.go:159-183 | the owner map and the reservation lists agree in both directions |
| `Users.Slots.AcquireSlot` | users.go:130-145 | takes a slot if and only if the user exists and is not already at a positive limit, tells an unknown user from a full quota, and otherwise changes no counter |
| `Users.Slots.ReleaseSlot` | users.go:148-157 | drops a slot of a known user, never below zero |
| `AddrPool.NewPoolServes` | ippool.go:34-63 | a pool is made if and only if the subnet has two host addresses, which are not its network address nor an IPv4 broadcast; it starts sound and offers exactly the hosts that are not on the reserved list |
| `AddrPool.WalkIsLowest` | ippool.go:128-137 | the walk finds the lowest free address at or above its start and gives up exactly when there is none |
| `AddrPool.ExhaustedIff` | ippool.go:128-137 | the walk reports exhaustion if and only if no address of the whole subnet is free |
| `AddrPool.WalkLeavesIff` | ippool.go:129-129 | stepping from the network address ever leaves the subnet if and only if the prefix length is at least one |
| `AddrPool.WalkEndsIff` | ippool.go:128-137 | the walk meets a free address or the end of the subnet if and only if the pool is not an exhausted `/0` |
| `AddrPool.OverreachIff` | ippool.go:107-115 | a preference overrides a reservation it is not entitled to if and only if a nameless user meets a database and an unowned reserved address |
| `AddrPool.ChoiceFits` | ippool.go:99-149 | every address chosen is in the subnet and unused, and, unless a nameless user meets a database, if reserved then owned by the asking user |
| `AddrPool.AnswerIs` | ippool.go:95-149 | a client is answered its record; else its wish, if usable and reserved by nobody or by its own user; else the first usable address, by index, of its user's list; else the lowest free host or the candidate of the least free round of eight, and nothing exactly when there is none |
| `AddrPool.LeastRound` | ippool.go:140-149 | the IPv6 answer is the candidate of the least of eight rounds that is free, and none exactly when all eight are taken |
| `AddrPool.AllocateKeeps` | ippool.go:81-150 | allocation keeps the pool sound, answers with the recorded address and changes no other client's record |
| `AddrPool.RecordKeeps` | ippool.go:157-171 | claiming an address that is free or already one's own, holding no other, keeps the pool sound |
| `AddrPool.ReleaseKeeps` | ippool.go:174-181 | release keeps `used` equal to the recorded addresses |
| `AddrPool.ReleaseUndoesAllocate` | ippool.go:174-181 | releasing a fresh allocation restores the pool exactly |
| `AddrPool.RunKeepsPool` | ippool.go:81-181 | over every run with permitted claims `used` is the set of recorded addresses, no two clients share one, and all lie in the subnet |
| `PoolLoops.IpPool.AllocateFor` | ippool.go:81-150 | sticky, preference, own reservation, then walk, as the allocation function says |
| `PoolLoops.IpPool.FindReserved` | ippool.go:117-126 | the first usable reservation of the list |
| `PoolLoops.IpPool.Walk` | ippool.go:128-137 | wherever it ends, the loop over successors finds the lowest free address |
| `PoolLoops.IpPool.TryRounds` | ippool.go:140-149 | the first of eight derived candidates that is free |
| `PoolLoops.IpPool.Claim` | ippool.go:157-171 | records the address if it is of the pool's family |
| `PoolLoops.IpPool.Release` | ippool.go:174-181 | forgets a client's record and frees its address |
| `Routing.DstIsRead` | sessionpio.go:70-97 | the destination written in an IPv4 header (section 3.1 of RFC 791) or an IPv6 header (section 3 of RFC 8200) is the one read back, with or without a virtio header, whatever else the packet holds |
| `Routing.OnlyHeadersAreRead` | sessionpio.go:70-97 | whatever destination is read was written in such a header at that place; every other packet has none |
| `ControlSafety.StepKeeps` | multiclient_linux.go:164-456 | every step keeps rights, links, index and queues in order, for any rules that the allocator obeys on the key it is asked with |
| `ControlRuns.InvAlways` | multiclient_linux.go:164-456 | the same after every run of every interleaving |
| `ControlRuns.EveryScheduleRuns` | multiclient_linux.go:164-456 | every sequence of events is the schedule of some run, so what is proved of runs is proved of every schedule |
| `ControlRuns.RoutingSafety` | multiclient_linux.go:327-362 | in every interleaving, clashes included, each index entry points to a live session that was assigned the address, each queued packet has one of its session's own addresses as inner destination, and queues hold at most 256 |
| `ControlRuns.AuthorizeIff` | handshake.go:137-151 | with a list of users a key is accepted under a name if and only if a user on the list has both; without one, if and only if it is the peer key, which is set, and the name is empty |
| `ControlRuns.ReservationSafety` | handshake.go:320-337 | in every interleaving, every pool record lies in subnet and family and was preceded by a handshake of its client with a key of the database, or with the peer key where there is none; for a reserved address the key's user is its owner |
| `ControlRuns.ListedSafety` | handshake.go:320-337 | the same in terms of the list: the key is that of a listed user, and a reserved address is on that user's own list |
| `ControlRuns.NobodyElses` | server.go:155-178 | in every interleaving on a server's own pools, the network, broadcast and server addresses are on record for nobody unless the database gives them away, and an address the database reserves is on record only for a client that came with its owner's key |
| `ControlRuns.ServerPoolReserves` | server.go:155-178 | a server's pool reserves the network, broadcast and server addresses and every user's reservation, and starts empty |
| `ControlRuns.ConstructedConfig` | server.go:52-59 | a database made by its constructor from a non-empty list meets what the runs assume |
| `ControlOffers.OfferIs` | ippool.go:95-126 | in every interleaving an authorized handshake is offered, and put on record with, its client's recorded address, else its wish if the user may have it, else the first usable address of the user's list |
| `ControlOffers.OwnIsOffered` | ippool.go:117-126 | a listed user without a record or a wish is offered the first address of its list that is in the subnet and unused |
| `ControlOffers.ReservationHonoured` | ippool.go:117-126 | on a server's own pools, as long as no step has taken an address out of service, a listed user without a record or a wish is offered the first address of its list that lies in the subnet, whatever other clients do |
| `ControlOffers.WishIsOffered` | ippool.go:107-115 | on a server's own pools an authorized client without a record that asks for an unused, unreserved address of the subnet is offered it |
| `ControlLanes.LiveIff` | multiclient_linux.go:401-438 | in every interleaving, on the schedule alone: a session is live exactly as long as no shutdown has come and every collection found a lane still attached, or at most 90 seconds passed since it was made or a lane last came or went |
| `ControlLanes.CollectTakesIff` | multiclient_linux.go:401-420 | a collection leaves a session with a lane attached, and takes a live one without if and only if its making and its last lane event are more than 90 seconds past |
| `ControlLanes.LanesAreCounted` | multiclient_linux.go:246-259 | a session's counters are the lanes that came minus those that went, the lanes that came, and the time of the last such event |
| `ControlLanes.MadeByFinish` | multiclient_linux.go:286-303 | a session is made by finishing a handshake of a client that has none, with its client, user and addresses, and its lane count brought between 1 and 64 |
| `ControlLanes.EverySessionIsMade` | multiclient_linux.go:273-322 | every session of every moment was made by some earlier step of the run |
| `ControlQueues.RoutedIsQueued` | multiclient_linux.go:345-360 | in every interleaving a packet that a reader looked up and then sends goes to the live session that holds its destination: last in its queue if fewer than 256 wait and it has not been torn down since, dropped if 256 wait; no other queue changes |
| `ControlQueues.FirstInFirstOut` | multiclient_linux.go:354-360 | in every interleaving the packets taken from a session's queue, followed by those that wait, are those that were queued, in order |
| `ControlSticky.StickyAnswer` | ippool.go:95-97 | while a session lives, allocating for its client answers the same address and leaves the pool alone |
| `ControlSticky.StickyIff` | multiclient_linux.go:273-322 | a step breaks stickiness if and only if it is a release owed to a client that is live again |
| `ControlSticky.StickyAlways` | multiclient_linux.go:377-384 | with prompt releases every live session keeps its pool records however handshakes, aborts and acquisitions interleave |
| `ControlQuota.PayQuota` | users.go:148-157 | giving back a torn-down session's slot takes exactly one off a counter that is not zero and keeps all accounts balanced |
| `ControlQuota.QuotaConserved` | users.go:130-157 | in every interleaving each user's count is its sessions made minus those torn down that gave their slot back, and never exceeds a positive limit |
| `ControlQuota.FinishIff` | users.go:130-145 | in every interleaving a handshake with an assignment of a client without a session makes one unless its user is at a positive limit, counting sessions whose slot is not back; then and only then it is refused |
| `ControlQuota.ClosedOnce` | multiclient_linux.go:440-447 | in every interleaving a torn-down session stays closed for the rest of the run and no later step tears it down again |
| `ControlQuota.ReleasedOnce` | multiclient_linux.go:451-453 | in every interleaving a session's slot is given back only after its tear-down, from a counter that is not zero, and by no later step of the run again |
| `ControlPending.PromisedIff` | multiclient_linux.go:200-213 | a step takes an offered address from a pending handshake if and only if it is a release that takes effect, of a client with another handshake under way; a failed handshake releases only a client without a session whose id is not all-zero |
| `ControlPending.RunKeepsIff` | multiclient_linux.go:164-456 | a run keeps the records of all live sessions and pending handshakes at every moment if and only if none of its steps is a release of a client that is live again or being set up |
| `ControlPending.InterleavedSafety` | multiclient_linux.go:164-456 | in every run without such a step, however set-ups, aborts, collections and tear-downs interleave, no two live sessions share an address, the index is exactly the live sessions' addresses, and sessions and pending handshakes have theirs on record in sound pools |
| `ControlPending.PromptSafety` | multiclient_linux.go:273-322 | the same for prompt releases, where only releases of clients being set up are left to exclude |
| `ControlLeaks.NoLeakIff` | multiclient_linux.go:200-218 | a step leaves a pool record that no live session, pending handshake or owed release answers for if and only if it ends the last set-up behind the record by an abort under the all-zero id or by turning it away because no prefix length assigned differs from zero |
| `ControlLeaks.RunLeaksIff` | multiclient_linux.go:164-456 | in every interleaving, every record is answered for at every moment if and only if the run has no such step |
| `ControlLeaks.NoLeakAlways` | multiclient_linux.go:200-218 | in every interleaving on pools whose prefix lengths are not zero, unless a set-up of the all-zero id is aborted, every pool record is answered for by a live session, a pending handshake that was offered it, or a release still owed |
| `ControlLeaks.IdleIsClean` | multiclient_linux.go:364-384 | whenever a run without a step that leaves a record behind comes to rest, every pool record belongs to a live session, on any prefix lengths |
| `ControlUsed.FreeableIff` | multiclient_linux.go:306-318 | a step leaves a used address that is on record for nobody if and only if it makes a session whose claim replaces another used address that its client, and no other client, has on record |
| `ControlUsed.RunFreeableIff` | ippool.go:157-181 | in every interleaving, every used address is on record for somebody at every moment if and only if the run has no such step |
| `ControlUsed.LostForGood` | ippool.go:174-181 | an address that is used, on record for nobody and offered to nobody stays so for the rest of every run |
| `ControlUsed.RestIsExact` | multiclient_linux.go:364-384 | an undisturbed run that leaves no record behind and comes to rest has in use exactly the addresses on record for clients with a live session |
| `ControlSerial.CoarseSafety` | multiclient_linux.go:164-456 | in coarse steps no two live sessions share an address, session addresses are the pools' records, the index is exactly the live sessions' addresses, and between set-ups, where no prefix length is zero, every record belongs to a live session |
| `ControlRaces.AbortLeaksIff` | multiclient_linux.go:200-213 | an aborted set-up leaves a record behind if and only if the client id is all-zero |
| `ControlRaces.TearDownRace` | multiclient_linux.go:401-424 | at any moment of any run with a client that is due, reconnecting between its collection and its tear-down makes the tear-down take the record of its new session |
| `ControlRaces.TearDownRun` | multiclient_linux.go:440-456 | that race as a run from the start, for any client the quota does not stop |
| `ControlRaces.RefusalRun` | multiclient_linux.go:279-285 | a run from the start in which the release owed by a refused lane takes the record of another lane's session, for any client with one slot |
| `ControlRaces.ClashRun` | multiclient_linux.go:373-384 | a run from the start that ends with one address in two live sessions: a client's aborted second lane frees what its first was offered, and another client asks for it |
| `ControlRaces.StrandRun` | multiclient_linux.go:306-318 | a run from the start that comes to rest with an address in use, on record for nobody and offered to nobody: before that clash the first client asks for a third lane and is offered another address |
| `ControlRaces.ZeroPrefixRun` | multiclient_linux.go:214-218 | on pools whose prefix lengths are all zero, every client that is offered an address is turned away and its record stays, with nothing pending or owed |
| `ControlSample.ClashHappens` | multiclient_linux.go:306-318 | a concrete server, 10.0.0.1 with two users on 10.0.0.0/24 and the pool it builds for itself, on which two live sessions hold 10.0.0.2 |
| `ControlSample.LossHappens` | multiclient_linux.go:306-318 | the same server comes to rest with 10.0.0.3 in use and on record for nobody |
| `ControlSample.ZeroPrefixLeakHappens` | multiclient_linux.go:214-218 | a server on 0.0.0.0/0 comes to rest with a record and without a session |
| `ControlSample.LateReleasesHappen` | multiclient_linux.go:440-456 | the server on 10.0.0.0/24 reaches a live session without its record by a late tear-down and by a late refusal |
| `McStateLoops.McState.AcquireSession` | multiclient_linux.go:273-322 | existing session, quota refusal with release, or a new session entered in both maps and the pools |
| `McStateLoops.AcquireIsSteps` | multiclient_linux.go:279-285 | for a handshake with an assignment, the outcomes of that method are the `Finish` step, and over quota the `Finish` step followed by the release it owes |
| `McStateLoops.McState.ReleaseOrphan` | multiclient_linux.go:377-384 | releases a client's addresses unless it has a session |
| `McStateLoops.McState.TearDown` | multiclient_linux.go:440-456 | closes once, releases, gives the slot back |
| `McStateLoops.McState.UnlinkStale` | multiclient_linux.go:401-420 | the deleting loop, in any order, removes exactly the stale sessions and their addresses and lists them |
| `McStateLoops.McState.Collect` | multiclient_linux.go:401-424 | unlinks the stale sessions, then tears each down |
| `McStateLoops.SweepIsSteps` | multiclient_linux.go:421-423 | the tear-down loop is a close step and a slot step per victim |
| `McStateLoops.SweepSettles` | multiclient_linux.go:401-424 | a collection that starts with nothing owed ends with nothing owed |
| `RateLimitProofs.SourceUnobservable` | ratelimit.go:111-144 | if a bucket refills within an entry's lifetime and the source is not evicted before it has refilled, every answer to it is that of a limiter that keeps every bucket, whatever the others do |
| `RateLimitProofs.PruningUnobservable` | ratelimit.go:111-144 | if that goes for every source, all answers to every timed request sequence are |
| `RateLimitProofs.PruningShows` | ratelimit.go:137-144 | otherwise two volleys around the lifetime tell them apart |
| `RateLimitProofs.PruningUnobservableIff` | ratelimit.go:29-30 | pruning is invisible on all runs that evict only what has refilled if and only if `burst <= rate * ipEntryTTL` |
| `RateLimitProofs.WindowBound` | ratelimit.go:111-157 | in any window of length T of any run, full tables and floods included, a source is let in at most `burst + rate * T` times, and `burst` times more for each time in the window that pruning or eviction forgets it before its bucket has refilled |
| `RateLimitProofs.SparedLosesNothing` | ratelimit.go:137-157 | where a bucket refills within an entry's lifetime, a source that is not evicted before it has refilled is never forgotten too early, so the bound is `burst + rate * T` |
| `RateLimitExact.KeptIsExact` | ratelimit.go:134-134 | a limiter that keeps every bucket lets a request in if and only if in every window that ends with it the admissions of its source stay within `burst + rate * T` |
| `RateLimitExact.AnswersAreExact` | ratelimit.go:111-135 | so does the limiter itself for a source that is not evicted before it has refilled, where a bucket refills within an entry's lifetime |
| `RateLimitExact.RefusedIsOver` | ratelimit.go:111-157 | on every run, whatever is pruned or evicted, a request is refused only if admitting it would take its source over `burst + rate * T` in some window |
| `RateLimitExact.AgeBound` | ratelimit.go:119-121 | after every request of every run, whoever is on record was seen in the last 360 seconds |
| `RateLimitExact.StepTable` | ratelimit.go:119-133 | a request puts its source on record as seen now, and takes off record only what was unseen for more than 300 seconds, and that only when 60 seconds have passed since the last pruning, or, for a new source in a full table, an entry seen no later than any other |
| `RateLimitProofs.EvictsOldest` | ratelimit.go:146-157 | eviction removes exactly one entry, one with the smallest `seen`, in whatever order the map is visited |
| `RateLimitProofs.AlwaysBounded` | ratelimit.go:111-157 | with named sources the table never exceeds its bound on any run |
| `RateLimitProofs.EvictsNothingIff` | ratelimit.go:146-157 | for every table and visiting order an eviction removes nothing if and only if the unnamed source is visited last and strictly the oldest, and otherwise it removes exactly one entry |
| `RateLimitProofs.OverflowIff` | ratelimit.go:123-131 | a request takes the table over its bound if and only if it finds it full and the eviction removes nothing |
| `RateLimitProofs.UnnamedSourceOverflows` | ratelimit.go:146-157 | for every bound there is a run from the empty table that exceeds it, if the empty name can be a source |
| `RateLimitLoops.ConnLimiter.AllowIP` | ratelimit.go:111-135 | prunes when due, makes room, files the source and answers as the step functions say |
| `RateLimitLoops.ConnLimiter.GcLocked` | ratelimit.go:137-144 | the deleting loop removes exactly the entries unseen for longer than the lifetime |
| `RateLimitLoops.ConnLimiter.EvictOldestLocked` | ratelimit.go:146-157 | the scan evicts what the visiting order determines |
| `RateLimitLoops.OutstandingRelease` | ratelimit.go:162-173 | giving back an outstanding permit lowers the count by one |
| `RateLimitLoops.Semaphore.AcquireSlot` | ratelimit.go:162-173 | grants a permit if and only if the limiter is disabled or fewer than the capacity are outstanding |
| `RateLimitLoops.Semaphore.ReleaseSlot` | ratelimit.go:162-173 | gives a permit back once; a second call changes nothing |
| `Envelope.XorSplit` | obfs.go:93-128 | one pass over a keystream equals two passes that continue it |
| `Envelope.EnvelopeRoundTrip` | obfs.go:66-130 | for every key, salt, body and pad within limits, and whatever follows, the reader returns the body and consumes exactly the envelope |
| `Envelope.CutEnvelopeFails` | obfs.go:105-130 | an envelope cut short anywhere is refused |
| `Envelope.AcceptedIsEnvelope` | obfs.go:105-130 | whatever the reader accepts is an envelope of the body it returns, of at most 4096 bytes |
| `EnvelopeLoops.KeyStream.XorKeyStream` | obfs.go:93-93 | deciphers a buffer in place and moves the keystream position past it |
| `EnvelopeLoops.WriteObfMsg` | obfs.go:66-100 | builds the envelope in one buffer, or refuses a body over 4096 bytes |
| `EnvelopeLoops.ReadObfMsg` | obfs.go:105-130 | reads salt, header and remainder with two passes of one keystream |
| `Handshake.SlotRoundTrip` | handshake.go:70-100 | an address slot decodes to its address, with unspecified read as none |
| `Handshake.ClientRoundTrip` | handshake.go:160-182 | the client payload parses back |
| `Handshake.ServerRoundTrip` | handshake.go:184-219 | the server payload parses back, field by field |
| `Handshake.Agreement` | handshake.go:225-363 | whatever bytes the network delivers, if both sides finish over an ideal Noise exchange they agree on cipher, keys, lane count, USO and both families' address, prefix and peer; these are the exchange's keys, the client's lane count, USO only if both offered it, and what the server assigned to that user, key and wishes; and the key was authorized |
| `Handshake.Completes` | handshake.go:225-363 | an authorized client with the right cipher and an assignment, whose two messages are delivered, finishes and agrees, on the same terms, whatever follows its messages on the wire |
| `Handshake.AcceptIff` | handshake.go:281-363 | the server knows no client exactly when the first message cannot be read; otherwise it finishes if and only if the key is authorized, the payload parses and names its cipher, there is an assignment and the reply fits, and else names the key it rejects |
| `Handshake.IdealBox` | handshake.go:225-363 | one Noise exchange meets the assumptions of both theorems |
| `WireFormat.FrameLayout` | lane.go:133-147 | a frame is its type, two bytes of length with the more significant first, and the protected payload |
| `WireFormat.UnitLayout` | lane.go:181-182 | a unit of a batch is two bytes of length and the packet |
| `WireFormat.NonceLayout` | lane_crypto.go:79-83 | a nonce is the counter in eight bytes, least significant first, and four zero bytes |
| `WireFormat.EnvelopeLayout` | obfs.go:66-100 | an envelope is 16 bytes of salt and, under the keystream, body length, pad length, body and padding |
| `WireFormat.KeystreamFlips` | obfs.go:93-93 | a keystream flips exactly the bits of the data that are set in it |
| `WireFormat.SlotLayout` | handshake.go:68-84 | an address slot, byte by byte |
| `WireFormat.SlotReads` | handshake.go:86-101 | what any 17 bytes mean as a slot |
| `WireFormat.ClientLayout` | handshake.go:160-167 | the client payload, field by field |
| `WireFormat.ServerLayout` | handshake.go:184-195 | the server payload, field by field |
| `WireFormat.ClientReads` | handshake.go:169-182 | a client payload is read if and only if it has 38 bytes and version 7, and each field is where it was laid |
| `WireFormat.ServerReads` | handshake.go:197-219 | the same of the server payload and 72 bytes |

## Left out

- Noise, X25519, HKDF, AES-GCM, ChaCha20 and SHA-256 internals, and key secrecy: external libraries, replaced by parameters.
- `tun_linux.go`, `bbr_*.go`, `brutal_linux.go`, `tuneSocket`: ioctls and socket options; of the TUN only the `ReadBatch` contract is kept.
- `tproxy_*`, `tproxy-spoof`, `nft_*`, `netstack`: socket plumbing and text for external tools.
- `yaml_config.go`, `config.go` and the command: read files and flags, and copy them into the server's and the client's settings.
- `client.go`, `supervisor.go`, `metrics.go`: dial lanes and redial them after a delay, and count events for a dashboard; the single-client server loop in `supervisor.go` has no pools and no sessions.
- `ReloadUsers`: it replaces the counters and keeps the old reservations, so quota and reservation results are for a fixed database.
- PoolLoops.IpPool.Walk: on an exhausted IPv4 `/0`, where the source's loop never ends, the method is not to be called, and the functions say that no address is found.
- ControlRuns.IsRun: the two pools are released, or asked, for one client in one step, and a session is marked closed in the same step; in the source these are separate critical sections, so a handshake that falls between the two families' releases is not a run here.
- LaneLoops.SockToTun: the check for a frame longer than the buffer is not modelled, because a 16-bit length cannot exceed it; interrupted TUN reads, which are retried, and failed socket writes, which cut the stream, are not steps of their own.
- Users.NewUserDb: says whether the list is refused, not which message is printed.
- McStateLoops.McState.AcquireSession: the pools are values updated by the functions that `PoolLoops.IpPool` is proved to compute, not objects of that class, so aliasing of pool objects is not captured.
- RateLimit.Level: exact real arithmetic; the rounding of `rate.Limiter` to nanoseconds and floating point is not modelled.
