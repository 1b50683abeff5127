# RelayLoom native engine, modelled in Dafny

RelayLoom's Go engine (`native/`) carries signed content over unreliable links between devices and decides, on each
device, what may be shown to whom. This project models five parts of it and proves what they promise.

* **Transport.** A router floods packets over its links with bounded tables. Each link cuts packets into 2048-byte
  fragments, picks the next one to write with a three-priority scheduler, and puts arriving fragments together again.
  Modules `Packets`, `Scheduler`, `SchedulerProofs`, `LinkQueue`, `Reassembly`, `ReassemblyProofs`, `Links`,
  `LinkPair`, `SeenHistory`, `Flood`, `FloodRuns`, `Retention`, `Routers`.
* **Groups.** A creator signs a chain of membership epochs; every member keeps its own verified copy, notices forks,
  checks private snapshots up to a cursor, joins by consent and leaves for good. Content is admitted, held back or
  rejected against that chain, and a bounded ledger records admissions and final stops of sends.
  Modules `Groups`, `GroupProofs`, `Authority`, `AuthorityProofs`, `AuthorityRuns`, `Registries`, `Access`,
  `Memberships`, `AccessProofs`, `Verdicts`, `Ledger`, `StopSizes`, `StopCodec`, `StopCaches`, `LedgerProofs`, `Admissions`,
  `Holdings`, `Ledgers`, `Answers`, `OutboxRuns`, `Retries`, `AdmissionRuns`.
* **Canonical JSON.** A hand-written printer and decoder that keep lone UTF-16 surrogates and sort keys by UTF-16 code
  unit (grammar of section 7 of RFC 8259, UTF-8 of section 3 of RFC 3629, key order of section 3.2.3 of RFC 8785).
  Modules `Texts`, `Json`, `JsonProofs`, `JsonCodec`, `Grammar`, `Sentences`, `Shortest`, `Spellings`.
* **Stores.** A transactional protected store with a partitioned capacity, a chunked private document on top of it, the
  caches of one transaction, and the evicting content store. Modules `Groupstore`, `GroupstoreProofs`, `IndexSizes`,
  `Stores`, `Profiles`, `ProfileStores`, `Caches`, `ContentStore`.
* **Mutations.** The merge of edits and deletions of one object. Module `Mutations`.

## How it is modelled

Objects that the source updates in place are classes (`Links.Link`, `Routers.Router`, `Registries.Registry`,
`Ledgers.GroupLedger`, `JsonCodec.Parser`, `JsonCodec.Printer`, `Stores.Store`, `ContentStore.Store`,
`Caches.ReadCache`, `StopCaches.StopCache`, `Mutations.Table`). Their methods are proved equal to functions on values, and the theorems about
single steps, runs and several replicas are lemmas about those functions. Each section of the source that holds a mutex
is one atomic step. What each operation means is stated once more without the functions that specify it, in terms of
ranks, signatures, counts, lengths and the numbers of the source: see the lemmas whose names end in `Exactly`, `Means`
or `Works`. `dafny verify dfyconfig.toml` checks the whole project.

What comes from outside is a parameter: the time (monotone where runs are concerned), random identifiers and salts,
whether the store takes one more record (the `room` flags), whether a disk write succeeds, whether a proof on a page
could be decoded, the packet codec, and how a finite double is spelled. Cryptography is a record of functions,
`Groups.Crypto`: a hash that is injective on documents, a signature predicate, an identity check and a size limit; the
theorems that need injectivity say so. Addresses and nonces are numbers, so malformed ones cannot be written down;
where addresses are stored as 64 hexadecimal digits they are below 2^256, while digests are left unbounded so that
hashing can be injective. Reader lists, which the source keeps sorted and distinct, are sets. Counters and turn
numbers do not wrap. Strings are sequences of code points including lone halves of pairs; `Texts.BytesRead` and
`Texts.ReadBytes` show that this is one-to-one with their byte form.

Some promises hold in a sharper or a different form than one might expect:

* A priority with a due transfer at every selection is served within 9 data turns, and a due transfer that is not
  withdrawn within 577, whatever arrives meanwhile.
* Refusing a packet is not free, on a link or in the router's table: everything expendable has been shed by then. An
  SOS packet of legal size is always kept by the router.
* The size limit of canonical printing is exact for booleans, arrays and objects. A string, a number or null on its own
  is checked only while it is written, so its last bytes may exceed it. The key order is total only on texts without
  paired halves, which is what the decoder produces (`Texts.PairsAreNotOrdered` has the counterexample).
* Stops never run out of bytes: 256 of the longest kind fit. They run out of count exactly when a 257th operation would
  have to be stopped before another leaves the outbox (`LedgerProofs.OneTooMany`), because replacing the outbox
  reconciles before it retires; `Ledgers.RoomForAllStops` says when that cannot happen.
* An empty protected store fits its own limits exactly when the reserve leaves two bytes of the total.
* What a mutation displays converges; what it stores converges exactly when no event deletes or the latest one does.
* A header of the chain that names a snapshot hash whose stored snapshot does not belong to it makes the operation that
  looks it up fail; no operation ever saves a record that a later load would reject.

## Model

| member | source | states |
|---|---|---|
| SchedulerProofs.StepKeepsInv | native/transport/link.go:395-563 | selecting, finishing a write, dropping and queueing all keep the caps on half-sent transfers, the turn numbers and the one-frame-in-flight rule |
| SchedulerProofs.RunKeepsInv | native/transport/link.go:395-563 | the invariant holds after every run, however selections, acknowledgements, expiries, cancellations and arrivals interleave |
| SchedulerProofs.PartialLimits | native/transport/link.go:420-434 | in every such state at most 7 SOS, 5 normal, 5 bulk, 6 non-SOS and 8 transfers in all are half sent |
| SchedulerProofs.BeginKeepsCaps | native/transport/link.go:420-434 | starting the chosen transfer never breaks a cap, the one being started included |
| SchedulerProofs.WorkConserving | native/transport/link.go:409-435 | while any transfer is ready some transfer is due, with low power on and bulk left half sent too: caps and reserves never stall a link |
| SchedulerProofs.BeforeIsOrder | native/transport/link.go:436-454 | the serving order is irreflexive and transitive at fair and ordinary turns alike, so a first due transfer exists |
| SchedulerProofs.ChoiceGoesFirst | native/transport/link.go:436-454 | outside every fourth turn the transfer chosen is of the most urgent priority due, SOS before normal before bulk; at a fair turn of the priority served longest ago; and within its priority it is the one served longest ago, the older of two |
| SchedulerProofs.HeldBackExactly | native/transport/link.go:414-435 | a ready transfer is held back exactly when it is not half sent and seven SOS, six others or five of its priority are, or no slot of the eight is left once one is set aside for each other priority that could start |
| SchedulerProofs.ReadyIsSendable | native/transport/link.go:396-408 | only bulk in low power, and what was sent completely less than a retry interval ago, is not ready |
| SchedulerProofs.NotResentEarly | native/transport/link.go:403-407 | in no run is anything of a transfer put on the wire again within the retry interval after its last fragment was written |
| SchedulerProofs.SkippedTurnUsesPatience | native/transport/link.go:436-454 | a selection that passes over a priority with a due transfer strictly lowers a measure of at most 9 |
| SchedulerProofs.PriorityServedWithinNine | native/transport/link.go:436-558 | no run has nine selections in a row that all pass over a priority with a due transfer at each of them |
| SchedulerProofs.TransferServed | native/transport/link.go:395-454 | a transfer that is due at every selection and not withdrawn is passed over at most 576 times, whatever arrives |
| SchedulerProofs.StartedTransferProgresses | native/transport/link.go:395-454 | a half-sent transfer that is not withdrawn or held back for power has its next fragment sent within 577 selections, without assuming that it is due |
| Links.Link.Select | native/transport/link.go:395-454 | the loops pick a due transfer ahead of every other one due, by urgency or turn, then service, then age; and nothing exactly when no transfer could be put on the wire |
| Links.Link.DueTransfers | native/transport/link.go:414-435 | the filtered list holds exactly the transfers that the caps and reserves allow |
| Links.Link.Survey | native/transport/link.go:396-408 | one pass counts the half-sent transfers of each priority and lists exactly the ready ones |
| Links.Link.NextFrame | native/transport/link.go:486-525 | a turn of the writer puts an acknowledgement, the next fragment of a rightly chosen transfer, or nothing on the wire, and says when each; acknowledgements and data alternate |
| Links.BegunMeans | native/transport/link.go:507-520 | the fragment put on the wire is the next one, or the first again after the last, and only the first counts as another attempt |
| Links.Link.FinishFrame | native/transport/link.go:544-563 | a finished write moves the transfer and its priority on, or takes the acknowledgement off the control queue |
| Links.Link.Enqueue | native/transport/link.go:167-197 | offering a packet leaves exactly the specified queue, counts what was dropped, and keeps every counter equal to its table |
| Links.Link.Shed | native/transport/link.go:176-192 | the eviction loop removes one expendable transfer at a time until the packet fits or none is left |
| LinkQueue.ShedOutcome | native/transport/link.go:176-192 | only less urgent transfers that are not on the wire and not half sent go, each before any such transfer that stays |
| LinkQueue.ShedIsNeeded | native/transport/link.go:176-192 | shedding is never excessive: with the last victim put back the packet would not fit |
| LinkQueue.RefusalShedsEverythingExpendable | native/transport/link.go:176-192 | a refused packet has nevertheless cost every expendable transfer |
| LinkQueue.AdmittedExactly | native/transport/link.go:167-197 | a packet is admitted exactly when it is new and alive and would fit, in 64 slots and 16 MiB or without the SOS reserve, once all it may displace is gone; it costs nothing where there was room, and all of that where it is refused |
| LinkQueue.DisplacedInOrder | native/transport/link.go:176-192 | what is displaced is the least urgent, newest first, and with the last of it back the packet would not fit |
| LinkQueue.AdmissionKeepsBudget | native/transport/link.go:167-197 | whatever is admitted keeps 64 slots and 16 MiB in all, and 62 slots and 16 MiB less 64 KiB for traffic that is not SOS |
| LinkQueue.SOSReserve | native/transport/link.go:167-197 | while no SOS is queued, an SOS of at most 64 KiB is admitted and nothing is shed for it |
| Links.Link.Maintain | native/transport/link.go:146-166 | exactly the transfers past their deadline, the stale assemblies and the acknowledgement marks of a second ago go |
| Links.Link.RemoveTransfer | native/transport/link.go:109-116 | a transfer leaves the queue and its byte count, and no other does |
| Links.Link.Acknowledge | native/transport/link.go:198-209 | an acknowledgement is queued unless one is queued, one was sent within a second, or 64 are waiting, which alone counts as a loss |
| Links.AnsweredExactly | native/transport/link.go:198-209 | the control queue grows by this packet exactly when none of it is queued, none was sent within a second, and fewer than 64 wait |
| Links.Link.TakeAck | native/transport/link.go:319-325 | an acknowledgement takes exactly its packet off the queue |
| Links.Link.Close | native/transport/link.go:83-102 | a closed link has forgotten everything queued, half received or to be acknowledged |
| Links.Link.ReceivePart | native/transport/link.go:316-372 | a fragment is refused, recognised as already had, or put with its packet, exactly as specified, and the link's other tables change only by their deadlines |
| Links.Link.AddPart | native/transport/link.go:337-372 | the in-place assembly equals the specification, comparing counts of parts only |
| Reassembly.CountedIsFull | native/transport/link.go:366-369 | as many distinct indices as fragments, all in range, are all the indices: counting parts is enough |
| Reassembly.ReceiveKeepsInv | native/transport/link.go:337-372 | at most 8 assemblies, each within 6 MiB, all within 16 MiB, with byte counts equal to the parts held |
| ReassemblyProofs.FragmentsJoin | native/transport/link.go:29-30 | the fragments of a packet of 1 byte to 6 MiB, joined in index order, are the packet |
| ReassemblyProofs.FragmentArrives | native/transport/link.go:337-377 | with some fragments held, one more completes the packet with exactly its bytes if and only if none is missing |
| ReassemblyProofs.PacketRebuilt | native/transport/link.go:316-394 | fragments fed in any order, with repeats and with other packets in between, rebuild the packet when the last distinct one arrives and never earlier |
| ReassemblyProofs.MalformedExactly | native/transport/link.go:221-252 | legal fragments are at most 3072 of a packet, numbered below their count, 1 to 2048 bytes each and all but the last 2048; others leave the table alone |
| ReassemblyProofs.ContradictionExactly | native/transport/link.go:337-372 | a fragment drops its whole packet exactly when it disagrees in count or bytes with what is held of it |
| ReassemblyProofs.RefusedExactly | native/transport/link.go:337-372 | a fragment not held yet is refused exactly for a ninth packet, or past 6 MiB of its packet or 16 MiB in all, and then its packet is dropped |
| ReassemblyProofs.HeldExactly | native/transport/link.go:352-372 | an incomplete packet holds the new fragment and everything before; repeats change nothing |
| ReassemblyProofs.StaleExactly | native/transport/link.go:152-156 | a packet is given up after two minutes without a new fragment or an hour in all, and not before |
| ReassemblyProofs.DeadlinesCountFromArrivals | native/transport/link.go:337-372 | in every run those deadlines count from the arrival that opened the packet and the one that brought its latest fragment; repeats extend neither |
| LinkPair.StepKeepsInv | native/transport/link.go:316-563 | over one ordered link, the receiver holds of every packet exactly the fragments before the one coming next, and no more packets are open than the sender's caps allow |
| LinkPair.RunKeepsInv | native/transport/link.go:316-563 | this is kept by every run of sends, writes, queueing, shedding, acknowledgements and deliveries |
| LinkPair.FewBusy | native/transport/link.go:420-434 | the packets half sent, with the one just begun, are at most the 8 a receiver can hold |
| LinkPair.ReceiverNeverRefuses | native/transport/link.go:316-563 | from a fresh pair of ends, in every run, an arriving fragment is kept, or completes a packet with the bytes that were queued; it is never refused for room and never contradicts |
| SeenHistory.RunTracks | native/transport/router.go:278-316 | an entry stays until it expires or the memory is full, and everything younger was remembered after it |
| SeenHistory.RedeliveryNeedsManyOthers | native/transport/router.go:278-316 | between two deliveries of one packet at one router at least 4096 other packets were remembered |
| SeenHistory.SeenHappened | native/transport/router.go:278-316 | only what this router sent or delivered, and what is not past its deadline, counts as seen |
| SeenHistory.StillSeen | native/transport/router.go:278-316 | and until then, or until 4096 others were remembered, it does |
| SeenHistory.DroppedExactly | native/transport/router.go:278-316 | sweeping forgets exactly what is past its deadline, and asking at most the packet's own entry, if it is |
| Routers.Router.HasSeen | native/transport/router.go:278-289 | map and list answer and change together |
| Routers.Router.Remember | native/transport/router.go:290-300 | a packet not known goes to the young end and the oldest makes room |
| Routers.Router.SweepSeen | native/transport/router.go:301-316 | exactly the expired entries go, from map and list alike |
| Flood.ForwardingIsLegal | native/transport/router.go:581-593 | a forwarded copy has distinct hops starting at the source, and strictly fewer hops left |
| Flood.RunKeepsInv | native/transport/router.go:573-639 | in any network, every copy ever sent came along its own hops, each of which accepted the copy naming the hops before it |
| Flood.FloodFollowsSimplePaths | native/transport/router.go:573-709 | every copy travels a simple path of at most twelve routers from its source |
| Flood.PathsExactly | native/transport/router.go:573-639 | some run sends a copy along a path exactly when the path starts at the packet's source, repeats no router and is no longer than the packet's hop limit, at most twelve: the limit cuts no path short |
| FloodRuns.TakenAgain | native/transport/router.go:573-639 | over any run of a network of routers with their memories, a router takes a packet again with the same deadline only after remembering at least 4096 other packets |
| FloodRuns.FloodIsBounded | native/transport/router.go:573-639 | in a run in which no router remembers 4096 others, each takes every packet at most once, and there are never more relayed copies of a packet than routers that took it |
| Retention.RoomOutcome | native/transport/router.go:317-345 | making room takes only packets no more urgent, least urgent and oldest first, and stops as soon as the new one fits |
| Retention.RefusalKeepsOnlyMoreUrgent | native/transport/router.go:317-345 | a packet is refused only when everything left is more urgent, and then everything else has been given up |
| Retention.SOSDisplacesEverythingElse | native/transport/router.go:317-345 | an SOS of legal size is always kept |
| Retention.RoomCosts | native/transport/router.go:317-345 | there is room for a packet exactly when there would be once everything not more urgent is gone; all of that goes where it does not help, nothing where there was room |
| Retention.KeptExactly | native/transport/router.go:317-350 | what has expired goes; a packet still kept stays as first kept; a new one is kept exactly when it would fit without what is not more urgent, and nothing else comes in |
| Retention.DisplacedInOrder | native/transport/router.go:317-345 | what goes is the least urgent, oldest first, and no more than it takes |
| Routers.Router.Retain | native/transport/router.go:317-350 | the eviction loop ends in exactly the specified table, counting each packet lost; a packet already kept is returned as first kept |
| Routers.Router.Broadcast | native/transport/router.go:351-403 | every outcome of sending, in order of precedence, with the tables and every link's queue after it |
| Routers.Router.Receive | native/transport/router.go:573-639 | every outcome of an arriving packet in order of precedence; an accepted one is delivered once, remembered, and offered to every other link |
| Routers.Router.PassedOnMeans | native/transport/router.go:600-639 | an accepted packet spreads exactly while relaying is on, a hop is left and the copy is within 6 MiB: the copy names this router last, and every other open link with room queues it |
| Routers.Router.Arrive | native/transport/link.go:316-394 | a fragment that completes a packet delivers only the packet its bytes decode to, under the frame's identifier; table, queues and memory change exactly as accepting it says, or not at all; an acknowledgement is queued only for a packet accepted, seen before or already passed through here |
| Routers.Router.Next | native/transport/router.go:241-271 | deliveries come out oldest first and their bytes are given back |
| Routers.Router.SetRelay | native/transport/router.go:190-208 | turning relaying off withdraws exactly what is only relayed, from the table and from every queue |
| Routers.Router.CancelLocal | native/transport/router.go:221-240 | exactly the router's own matching packets leave the table and every queue |
| Routers.LeftExactly | native/transport/router.go:190-240 | what is left of table and queues is what others sent or does not match, or what is not only relayed, as it was |
| Routers.Router.Attach | native/transport/router.go:404-451 | a new link's queue is what comes of offering it, once each and in some order, everything kept that may be relayed; all of it where everything fits |
| Routers.Router.Detach | native/transport/link.go:83-102 | a closed link leaves the router and forgets everything |
| Routers.Router.Acknowledged | native/transport/link.go:316-325 | an acknowledgement removes that packet from that link and keeps the whole router's invariant |
| Routers.Router.Writes | native/transport/link.go:486-525 | a link's writer keeps the whole router's invariant and queues nothing |
| Routers.Router.Wrote | native/transport/link.go:544-563 | the second half of a turn keeps the whole router's invariant and queues nothing |
| Routers.Router.Limits | native/transport/router.go:24-34 | what the invariant kept by every step means: every byte counter equals its table and every table its limit, seen map and list are equally long, non-SOS traffic leaves the reserve, and with relaying off nothing relay-only is kept or queued |
| Groups.VerifyEpoch | native/groups/verify.go:31-60 | an epoch certificate passes exactly when roster, place, first roster, hash and signature are right; one that passes is under its own hash and the creator's signature |
| Groups.EpochExactly | native/groups/verify.go:24-60 | the same spelled out: anchor and epoch each under their own hash and the creator's signature, one of 1024 epochs, the last closed, a sorted roster of up to 64 with the creator, who is alone, with the anchor's card, on the first |
| Groups.InvitationExactly | native/groups/verify.go:61-77 | an invitation is for this card from this open epoch, under the creator's signature |
| Groups.ConsentExactly | native/groups/verify.go:78-97 | a consent is to follow this open epoch, under the signature of the card that is to follow |
| Groups.LeaveExactly | native/groups/verify.go:98-118 | a leave request is by a member with this card, not the creator, under the member's signature |
| Groups.VerifyEpochLink | native/groups/verify.go:183-209 | two epochs link exactly when the rules hold, and the kind is nonrestrictive exactly when both are open and nobody's card is dropped |
| Groups.LinkExactly | native/groups/verify.go:183-209 | a successor names its open parent by number and hash, and a closing one alters nothing else; nonrestrictive means open with nobody's card dropped |
| Groups.ClassifyEpochPath | native/groups/verify.go:210-228 | a path is accepted exactly when every step links, and restrictive once a step is |
| Groups.ValidateMembers | native/groups/verify.go:119-135 | the card list passes exactly when it is sorted, valid and of legal size, and the table built is exactly its cards |
| Groups.ValidateJoins | native/groups/verify.go:136-146 | the consent list passes exactly when it is sorted and each consent speaks for a card of the list |
| Groups.VerifySnapshot | native/groups/verify.go:150-182 | a private snapshot passes exactly when it is the one the epoch commits to |
| Groups.SnapshotExactly | native/groups/verify.go:119-182 | a private snapshot is the document whose hash the epoch signs, its cards the roster one by one, each consent in it signed with the key of a card in it, those of an open epoch all to its parent |
| Groups.MatchConsents | native/groups/verify.go:237-275 | the counting loop accepts exactly when the consents are those of the new or changed cards, each for this parent |
| Groups.VerifySnapshotTransition | native/groups/verify.go:237-275 | a transition passes exactly when link, snapshot and consents do, with its kind |
| Groups.TransitionExactly | native/groups/verify.go:237-275 | beyond link and snapshot, an open transition needs exactly that every card not on the parent's roster consented to this parent under its own signature, and that no other consent is there |
| GroupProofs.PathExactly | native/groups/verify.go:210-228 | a path is up to 1024 valid epochs numbered in a row, each naming the hash of the one before, none after a closed one |
| GroupProofs.NonrestrictivePaths | native/groups/verify.go:183-228 | a path is nonrestrictive exactly when it stays open and nobody, and nobody's card, ever drops off the roster between any two places |
| GroupProofs.ConsentsAreOnePerNewcomer | native/groups/verify.go:237-275 | in an open transition the consents and the new or changed cards are in bijection |
| GroupProofs.ConsentProvenance | native/groups/verify.go:119-275 | every card on a roster is the founder's, or asked at some epoch, under the card's own signature and in a consent to that epoch's parent, to be taken in, and has been on every roster since |
| AuthorityProofs.AttemptKeepsInv | native/groupauthority/observe.go:30-404 | every registry operation keeps the record invariant and only adds to the chain and the snapshots |
| AuthorityProofs.AppendKeepsInv | native/groupauthority/observe.go:30-102 | observing any epoch keeps the chain verified and linked from epoch 0, and evidence of a fork two certificates with one parent |
| AuthorityProofs.ObserveSnapshotKeepsInv | native/groupauthority/observe.go:283-367 | observing a snapshot keeps the invariant, the admission it may cause included |
| AuthorityProofs.CommitKeepsInv | native/groupauthority/manage.go:145-204 | committing a successor keeps the invariant |
| AuthorityProofs.LeaveKeepsInv | native/groupauthority/manage.go:233-278 | leaving keeps the invariant, with the fence it raises resting on a leave request for an epoch of the chain where it has one |
| AuthorityProofs.InvLoads | native/groupauthority/state.go:145-272 | a record with the invariant passes every check made when a record is loaded |
| AuthorityRuns.RunKeepsInv | native/groupauthority/observe.go:30-404 | from any reachable state on, every run keeps the invariant and only grows the chain and the snapshots |
| AuthorityRuns.EveryRecordLoads | native/groupauthority/state.go:107-314 | from creation or invitation on, no run stores a record that would fail to load, and its status can always be shown |
| Memberships.EverythingKeptIsSigned | native/groupauthority/observe.go:30-102 | whatever a registry is shown in a run, it keeps only epochs under the signature of its group's creator, each naming the one before, and calls the group forked only with two such epochs of one parent |
| AuthorityRuns.ActiveExactly | native/groupauthority/state.go:273-314 | the status is active exactly when the head is open, no leave stands, the local card is admitted and the cursor is at the head; the snapshot lookup then cannot fail |
| Memberships.StatusExactly | native/groupauthority/state.go:273-314 | each of the ten statuses is shown exactly under its own condition on the record, the cursor and the local card |
| AuthorityRuns.ActiveMeansVerified | native/groupauthority/state.go:273-304 | active implies a gap-free history: from the admitting epoch on, every header is open, linked and has the local card, and every private snapshot is kept and verified |
| Memberships.ActiveHistory | native/groupauthority/state.go:273-304 | for an active member every private snapshot since the admitting epoch is in store, is the one its epoch commits to, and is a proper step from the epoch before |
| AuthorityRuns.ReturnNeedsConsent | native/groupauthority/manage.go:122-144 | without admission and consent, an admission that appears later rests on a consent made by a later acceptance and carried by the admitting epoch's snapshot |
| AuthorityRuns.LeftStaysLeft | native/groupauthority/manage.go:233-278 | after leaving, with no later acceptance the status is never active again; with one, an active status rests on such a consent |
| AuthorityRuns.ForkedForEver | native/groupauthority/observe.go:34-60 | forked is absorbing under every operation: same evidence, same head, same chain, same status |
| AuthorityRuns.ClosedForEver | native/groupauthority/observe.go:61-101 | a closed head is never extended |
| AuthorityRuns.ComparableOrParted | native/groupauthority/observe.go:34-101 | two verified chains of one anchor are prefixes of one another or part for good at one first place |
| AuthorityRuns.DifferenceFreezes | native/groupauthority/observe.go:34-60 | a replica shown the other's epoch at the first difference freezes as forked on exactly that pair, whether or not there is room |
| AuthorityRuns.ForkAgreement | native/groupauthority/observe.go:34-101 | two unforked replicas are comparable, or either one's epoch at the parting freezes the other on the same two certificates |
| AuthorityRuns.PageTail | native/groupauthority/observe.go:145-203 | what follows the item that stops a page has no effect, and what goes before counts in full |
| AuthorityRuns.MalformedTailIsHarmless | native/groupauthority/observe.go:145-203 | a last item that cannot be decoded does not undo what the page before it established |
| AuthorityRuns.PageCounts | native/groupauthority/observe.go:145-203 | the accepted count of a page is exactly how far the head moved |
| Memberships.PageStopsAt | native/groupauthority/observe.go:145-203 | a page counts in full up to its first item that is neither adopted nor known, and reports exactly what became of that one: undecodable or invalid, without its parent, frozen on, or failed |
| Memberships.AppendExactly | native/groupauthority/observe.go:30-102 | an epoch is adopted exactly when it is valid, follows the head and finds room in an unfrozen group; the admission stands exactly while the card is listed; anything else changes at most why the group is frozen |
| Memberships.RetainedAgain | native/groupauthority/observe.go:34-60 | another certificate for a retained epoch is a repeat, out of place, invalid, or proof of a fork, in which case the group freezes on the two, whether or not there is room |
| Memberships.ForkWhileFull | native/groupauthority/observe.go:34-60 | so is another successor of the head than the one there was no room for |
| Memberships.LaterEpoch | native/groupauthority/observe.go:61-101 | a later certificate is out of order, not linked, without room, or adopted, each exactly as its number and parent say |
| Memberships.CursorStops | native/groupauthority/observe.go:259-282 | the cursor comes to rest before the first missing snapshot or at the head, with the title of the last one passed, and gives up only on a stored snapshot that is not its epoch's |
| Memberships.SnapshotTakenOnly | native/groupauthority/observe.go:283-367 | a snapshot is taken only for a retained epoch listing the card, only if it is that epoch's and a proper step, and while frozen only if waited for; then it is in store or the group freezes for want of room |
| Memberships.SnapshotWithoutRoom | native/groupauthority/observe.go:283-367 | and where there is no room for such a snapshot the group freezes on its epoch, with nothing else changed |
| Memberships.ResumingWorks | native/groupauthority/observe.go:368-404 | once there is room, a group frozen for want of it goes on from the very epoch it froze on |
| Memberships.InvitationRememberedExactly | native/groupauthority/manage.go:82-121 | an invitation replaces the one before exactly when it is for this group and card and the group goes on, and the earlier consent is forgotten |
| Memberships.AcceptedExactly | native/groupauthority/manage.go:122-144 | a consent counts exactly while the head is the open epoch that invited this card and does not list it |
| Memberships.JoiningWorks | native/groupauthority/manage.go:122-144 | an invited member who consents and is shown the successor with its snapshot is active, whatever else its registry holds |
| Memberships.OnlyTheCreator | native/groupauthority/manage.go:28-39 | whatever is committed or closed is by the creator's key, from the open head it names, and is then the head |
| Memberships.CommittingWorks | native/groupauthority/manage.go:145-204 | an active creator's valid successor is committed with its snapshot, and the creator stays active exactly while listed with the same card |
| Memberships.ClosingWorks | native/groupauthority/manage.go:205-232 | an active creator's valid closing epoch closes the group |
| Memberships.LeftExactly | native/groupauthority/manage.go:233-278 | leaving is refused only to the creator or for want of a signed request while listed on an open head; it clears membership, invitation and consent, and a second leave changes nothing about the first |
| Registries.Registry.Append | native/groupauthority/observe.go:30-102 | the method's branches equal the specified transition |
| Registries.Registry.ObservePage | native/groupauthority/observe.go:145-203 | the loop equals the specified page, and an error abandons the whole transaction |
| Registries.Registry.ApplyOwnConsent | native/groupauthority/observe.go:204-258 | a snapshot that carries the pending consent admits the local card, if it holds it and every later header does |
| Registries.Registry.AdvanceChecked | native/groupauthority/observe.go:259-282 | the cursor moves over exactly the next epochs whose snapshots are stored and pass |
| Registries.Registry.ObserveSnapshot | native/groupauthority/observe.go:283-367 | storing a snapshot, or freezing for want of room, with its follow-ups, or nothing at all |
| Registries.Registry.ResumeCapacity | native/groupauthority/observe.go:368-404 | a capacity freeze is retried from its own evidence |
| Registries.Registry.RememberInvitation | native/groupauthority/manage.go:82-121 | an invitation is remembered exactly when it verifies for this group and card and the group is neither frozen nor closed |
| Registries.Registry.Accept | native/groupauthority/manage.go:122-144 | a consent is recorded exactly when head, card, invitation and signed consent fit |
| Registries.Registry.Commit | native/groupauthority/manage.go:145-204 | a successor is committed with its snapshot, or the transaction is abandoned |
| Registries.Registry.Close | native/groupauthority/manage.go:205-232 | the creator's closing epoch is adopted, or the transaction is abandoned |
| Registries.Registry.Leave | native/groupauthority/manage.go:233-278 | leaving raises one fence and clears admission, cursor, invitation and consent |
| Registries.Registry.Status | native/groupauthority/state.go:273-314 | the status shown, in order of precedence |
| Access.IsCompatible | native/groupaccess/access.go:195-219 | the loop equals the walk along the chain from the epoch to the head |
| Access.Filter | native/groupaccess/access.go:334-343 | the filtered roster is exactly the cards among the readers, in order |
| Access.FilteredAscends | native/groupaccess/access.go:334-343 | of a roster sorted by identifier the filtered one is sorted, so it is the one such list |
| AccessProofs.CompatibleIsNonrestrictive | native/groupaccess/access.go:195-219 | compatible holds exactly when the chain from that epoch to the head classifies as nonrestrictive |
| AccessProofs.IncompatibleForEver | native/groupaccess/access.go:195-219 | compatibility once lost stays lost, whatever the chain grows by |
| AccessProofs.ReadersAreOnTheHead | native/groupaccess/access.go:295-381 | newly admitted content that is not historical is read only by members of the current head, and only while active |
| AccessProofs.ReadersExactly | native/groupaccess/access.go:333-359 | the readers of accepted content are the whole roster of its epoch, or exactly what that roster shares with its target's readers |
| Verdicts.AcceptedExactly | native/groupaccess/access.go:252-381 | content is accepted exactly when binding, envelope, epoch, target, author and audience are right, it agrees with its record where it has one, and otherwise, unless historical, the member is active and nobody was dropped since; lacking only that it is quarantined |
| Verdicts.AwaitingExactly | native/groupaccess/access.go:270-294 | content waits exactly when it is in order but its group, its epoch or that epoch's snapshot is not here |
| Verdicts.FailsExactly | native/groupaccess/access.go:270-310 | the decision fails exactly where the private snapshot it needs, of the epoch or else of the target's, is in store but is not its epoch's |
| Verdicts.OnlyTheEntitled | native/groupaccess/access.go:296-356 | only the author of a target edits or deletes it, only somebody else confirms it and only a message, and every author signs with a card of the publishing epoch's snapshot |
| Verdicts.AcceptedOnRoster | native/groupaccess/access.go:252-381 | under the registry's own chain that card is on the epoch's roster, and new content counts only while active and while the chain since only grew |
| Verdicts.CompatibleExactly | native/groupaccess/access.go:195-219 | compatible means that every later epoch is open and keeps everybody, with their cards |
| AccessProofs.AdmissionIsStable | native/groupaccess/access.go:252-381 | content once accepted is accepted again with the same context in every later state of the group: left, closed, forked or grown |
| AccessProofs.AdmissionOutlivesRuns | native/groupaccess/access.go:252-381 | the same over every run of registry operations |
| AdmissionRuns.RecordStays | native/groupledger/ledger.go:425-518 | a record that is kept through a run of considered contents is the same record throughout |
| AdmissionRuns.SafeIsRetained | native/groupledger/ledger.go:425-518 | a record that every step guards, or has as its own or its target's, is kept |
| AdmissionRuns.AdmittedForGood | native/groupaccess/access.go:252-381 | once the ledger has accepted a content, then after every registry run and every run of other contents it is accepted again with the same context, while its record and its target's are kept |
| Retries.RetryExactly | native/groupaccess/access.go:220-251 | a send is allowed again exactly while active, by a member of its epoch, with nobody dropped since; it is ruled out exactly where the group is over for the member, somebody else sent it, or somebody was dropped |
| Retries.OverExactly | native/groupaccess/access.go:220-251 | the reason given is that of the status |
| Ledgers.DecideIsFair | native/groupaccess/access.go:364-380 | the access decision admits content only under its own identifier and never against an earlier record |
| Admissions.ConsiderKeepsInv | native/groupledger/ledger.go:425-518 | considering keeps at most the allowed records, held contents and held bytes, and distinct observation numbers |
| Admissions.RecordsAreImmutable | native/groupledger/ledger.go:425-518 | an admission on record is never altered; it goes only from a full history, and then neither guarded nor concerned |
| Admissions.AcceptedIsRecorded | native/groupledger/ledger.go:425-518 | an accepted answer means that the context is on record and the content no longer held |
| Holdings.UndecidedIsHeld | native/groupledger/ledger.go:369-424 | content awaiting proof or quarantined is held, with its group, epoch, size, deadline and status, exactly while it fits, with what is held and unexpired, in 128 contents and 16 MiB; everything else unexpired stays; what finds no room is counted |
| Holdings.RefusalIsTraceless | native/groupledger/ledger.go:425-518 | invalid content, and content that is malformed or whose decision fails, leaves the book as it was |
| Holdings.AdmissionIsRecorded | native/groupledger/ledger.go:456-512 | a new admission is on record under the next number and not held any more; with 4096 on record the oldest of those neither guarded nor its target goes, and is counted |
| Holdings.AdmissionIsConfirmed | native/groupledger/ledger.go:509-511 | an admission on record already is accepted without another record |
| Holdings.AdmissionIsPutOff | native/groupledger/ledger.go:483-518 | an admission that finds no room is counted and held as quarantined; one that finds no number fails and changes nothing |
| Holdings.BookLimits | native/groupledger/ledger.go:325-368 | 4096 admissions, 128 contents held back and 16 MiB of them, whatever is considered |
| Holdings.LossesAddUp | native/groupledger/ledger.go:298-324 | losses add up and stop at the largest exact integer |
| Ledgers.GroupLedger.Consider | native/groupledger/ledger.go:425-518 | the method equals the step whose every outcome the lemmas of Holdings spell out; an error changes nothing |
| Ledgers.GroupLedger.RetainHeld | native/groupledger/ledger.go:369-424 | the method holds content back as Holdings.UndecidedIsHeld says, or refuses and counts it where there is no room |
| Ledgers.GroupLedger.ExpireHeld | native/groupledger/ledger.go:390-407 | expired held contents go and are counted |
| StopSizes.StopsFit | native/groupledger/ledger.go:549-571 | the canonical JSON of 256 stops of the longest kind is at most 128 KiB |
| LedgerProofs.FullExactly | native/groupledger/ledger.go:587-627 | reconciling fails for want of room exactly when 256 other operations are stopped and this one has to be |
| LedgerProofs.RoomWithinOutbox | native/groupledger/ledger.go:587-627 | with all stops and this entry among at most 256 operations it never does |
| LedgerProofs.OneTooMany | native/groupledger/ledger.go:587-627 | a 257th operation cannot be stopped: the concrete way in which it does |
| LedgerProofs.StopIsPermanent | native/groupledger/ledger.go:587-649 | whatever is reconciled or retired in between, an entry with a stop is answered with that stop, and nothing is written, until its operation leaves the outbox |
| Ledgers.GroupLedger.Stop | native/groupledger/ledger.go:572-586 | the stop of an operation is found if and only if there is one, and a malformed identifier is an error |
| Ledgers.GroupLedger.ReconcileRetry | native/groupledger/ledger.go:587-627 | the method equals the specified reconciliation of one entry |
| Answers.ReconcileExactly | native/groupledger/ledger.go:587-627 | a send with a stop is answered with it if it is for the same content, group and epoch; without one it gets one exactly when unfinished and ruled out for good, while fewer than 256 are on record |
| Answers.OperationExactly | native/groupledger/ledger.go:35 | operations are version 4 identifiers, character by character |
| Ledgers.GroupLedger.ReconcileOutbox | native/app/group_outbox.go:115-161 | reconciling a whole outbox succeeds exactly when outbox and ledger agree and all stops fit; then every entry that needs a stop has one, every entry is marked and every group entry answered from the resulting ledger; otherwise nothing changes |
| Answers.AnswersExactly | native/app/group_outbox.go:115-161 | an entry is marked stopped exactly where a stop is on record; its content may be offered exactly where there is none, its admission is on record and the group allows it; and it may be sent again exactly where besides a reader has not confirmed |
| Answers.NeededExactly | native/app/group_outbox.go:138-142 | a stop is needed exactly by unconfirmed sends, without one, to groups that rule them out for good |
| Answers.StopGivesReason | native/app/group_outbox.go:138-146 | the stop a send gets is for its content, group and epoch, and gives its group's reason |
| Answers.AgreementExactly | native/app/group_outbox.go:118-137 | an entry contradicts the ledger exactly through a stop for something else, a stop that is missing or should not be, or an admission of another message, to other readers or until another time |
| Ledgers.GroupLedger.RetireStops | native/groupledger/ledger.go:628-649 | exactly the stops of operations that left the outbox go, and are counted |
| LedgerProofs.RetainedInOrder | native/groupledger/ledger.go:628-649 | the stops that stay keep the order of their numbers |
| Ledgers.GroupLedger.Persist | native/app/node.go:243-288 | replacing the outbox reconciles first and retires afterwards, or changes nothing; stops whose operations stay are kept |
| Ledgers.RoomForAllStops | native/app/outbox.go:528-535 | while the stops belong to an outbox of at most 256 entries and no other group send is added, replacing it is never refused for room |
| OutboxRuns.NeverRefusedForRoom | native/app/node.go:243-288 | over any run of replacements, each as carried out by the ledger, the stops stay within the outbox; while the group sends before and after each are together at most 256, a replacement is refused exactly when the new outbox contradicts the ledger |
| Retries.AllowedMeansAdmissible | native/groupaccess/access.go:220-251 | a send is allowed again only while active, by a member of its epoch, and with readers who are all on the head |
| Retries.PartedIsFinal | native/groupaccess/access.go:220-251 | once a group has dropped somebody since the epoch of a send, or closed, every later state of the registry gives a final answer, whatever its status |
| Retries.PartedSendsStop | native/app/group_outbox.go:115-161 | reconciled with the answers of a registry, an unconfirmed group send to such an epoch has a stop or needs one |
| Texts.EncodeThenDecode | native/core/canonical.go:189-199 | the UTF-8 form of a code point, lone halves in three bytes, reads back as that code point; strictly unless it is a half |
| Texts.DecodeThenEncode | native/core/canonical.go:189-199 | bytes that read as a code point are its form: no overlong or out-of-range form is read |
| Texts.BytesRead | native/core/canonical.go:189-199 | the bytes of a string read back as the string |
| Texts.ReadBytes | native/core/canonical.go:189-199 | bytes that read as a string are its bytes |
| Texts.UnitsInjective | native/core/canonical.go:242-258 | strings without paired halves are told apart by their UTF-16 units |
| Texts.UnitsExactly | native/core/canonical.go:242-258 | a character is one unit below 0x10000 and its two halves above, and a text's units are its characters' in turn |
| Texts.IsLess | native/core/canonical.go:259-267 | the comparison loop is the lexicographic order of the units |
| Texts.LessExactly | native/core/canonical.go:259-267 | one text comes before another exactly when it has the smaller unit at the first difference or is the other's beginning |
| Texts.LessIsTotalOrder | native/core/canonical.go:259-267 | on such strings the key order is a strict total order |
| Texts.PairsAreNotOrdered | native/core/canonical.go:259-267 | on others it is not: a pair and the character it spells differ and neither precedes |
| JsonProofs.ValueReads | native/core/canonical.go:299-384 | the decoder, at any position, depth and node count within the limits, reads a printed value back and stops right behind it |
| JsonProofs.RoundTrip | native/core/canonical.go:272-286 | decoding what is printed gives the value back, for every value within depth, node and size limits whose strings have no paired halves; a number is the canonical spelling of its double |
| JsonProofs.PrintIsInjective | native/core/canonical.go:38-126 | two such values with one print are one value |
| JsonProofs.SortedIsUnique | native/core/canonical.go:97-98 | any increasing listing of the keys is the one printed, whatever order the map yields |
| JsonProofs.DecodedTextIsUnpaired | native/core/canonical.go:449-520 | no decoded string has a high half directly followed by a low one, escaped or not |
| JsonProofs.DecodedIsSound | native/core/canonical.go:299-384 | whatever decodes is within the limits and has the form the round trip asks for |
| JsonProofs.DecodedPrintsBack | native/core/canonical.go:272-286 | whatever decodes can be printed, numbers in their canonical spelling, and its print decodes to it again |
| Sentences.DecodesExactly | native/core/canonical.go:272-448 | the decoder accepts exactly the texts of the JSON grammar, stated declaratively with blanks, commas and repeated keys, within 24 levels, 100,000 values and the size asked for, and reads the value they spell |
| Shortest.PrintTextIsShortest | native/core/canonical.go:200-240 | no input that reads as a string is shorter than its canonical print |
| Shortest.PrintTextExactly | native/core/canonical.go:200-240 | and that print is the only one as short whose escapes have no upper-case digit |
| Shortest.PrintIsShortest | native/core/canonical.go:38-126 | where numbers are spelled no shorter than canonically, no input that decodes to a value is shorter than its canonical print |
| Shortest.PrintDecodesExactly | native/core/canonical.go:272-312 | a print decodes to its value exactly where nothing lies 25 levels down, there are at most 100,000 values and it is within the size asked for |
| JsonCodec.Parser.ParseValue | native/core/canonical.go:299-384 | the position-moving decoder equals the grammar, its failures included |
| JsonCodec.Parser.ParseText | native/core/canonical.go:449-520 | strings, with plain characters, escapes and pairs of escapes |
| JsonCodec.Parser.Number | native/core/canonical.go:399-440 | exactly the grammar's tokens of finite doubles are read, each as its canonical spelling |
| Grammar.NumberExactly | native/core/canonical.go:399-440 | a number is exactly an optional minus, digits without a needless zero, and perhaps a fraction and an exponent |
| JsonCodec.Parser.HexUnit | native/core/canonical.go:441-448 | four hexadecimal digits |
| Grammar.BlanksExactly | native/core/canonical.go:294-298 | blanks are spaces, tabs, carriage returns and newlines |
| Grammar.PlainExactly | native/core/canonical.go:449-470 | a character of a string as it stands is its shortest UTF-8 form, no control character and no lone half |
| Grammar.LettersExactly | native/core/canonical.go:478-492 | the eight escapes of one letter and what they stand for |
| Grammar.PairIsOneCharacter | native/core/canonical.go:493-505 | an escaped high half directly followed by an escaped low one is the one character they stand for |
| Grammar.UnitStandsAlone | native/core/canonical.go:493-514 | any other numeric escape is its unit, in either case of digits, and without four digits an error |
| Grammar.Utf8Exactly | native/core/canonical.go:189-199 | one byte below 0x80, two below 0x800, three below 0x10000 and four above, six bits in each later one |
| JsonCodec.Decoded | native/core/canonical.go:272-286 | the whole decoder: size limit, one value, nothing but space behind it |
| JsonCodec.Printer.AppendText | native/core/canonical.go:200-240 | a string is appended as its canonical print, which Shortest.PrintTextExactly shows to be its one shortest spelling, or refused only for size |
| JsonCodec.Printer.AppendValue | native/core/canonical.go:38-187 | a value is appended as its canonical print, a number as its canonical spelling, and refused only for depth or size |
| JsonCodec.SortKeys | native/core/canonical.go:97-98 | the keys come out in the one increasing order |
| JsonCodec.Canonical | native/core/canonical.go:30-37 | canonical bytes are the print; for booleans, arrays and objects they exist exactly within the depth and size limits |
| Groupstore.Account | native/groupstore/format.go:253-275 | the accounting loop accepts exactly what is within the limits on everything and the tighter ones on ordinary data |
| Stores.EmptyFits | native/groupstore/format.go:98-103 | legal limits admit an empty store exactly when the reserve leaves two bytes of the total |
| IndexSizes.EntryLength | native/groupstore/format.go:249-252 | an entry is accounted with the length of its canonical JSON |
| IndexSizes.IndexLength | native/groupstore/format.go:249-252 | and the index with that of its signed canonical JSON and the 61 bytes of its seal |
| IndexSizes.AccountedExactly | native/groupstore/format.go:253-275 | what fits, in lengths of those documents: index in 4 MiB and with all records in the total; ordinary list in 4 MiB less the index reserve and with ordinary records in the total less the reserve |
| IndexSizes.PutRefusedExactly | native/groupstore/store.go:448-479 | a put is turned away exactly for a key outside the pattern, more than 512 KiB, or want of room |
| IndexSizes.WrittenWhereFree | native/groupstore/store.go:480-513 | a put that fits is stored unless its random place is taken by another record, which fails the transaction for good; a delete is refused only for an illegal key |
| IndexSizes.DamageExactly | native/groupstore/store.go:419-447 | reading fails for good exactly where the record of an indexed key is gone, another's, of another revision or length, or without the digest the index gives |
| IndexSizes.CandidateExactly | native/groupstore/store.go:455-479 | it is measured by the next revision with everything under another key as it was and this record sealed |
| GroupstoreProofs.PutRefinesMap | native/groupstore/store.go:448-494 | a successful put changes one key of what readers see and one generation; one refused, for capacity too, leaves the transaction as it was |
| GroupstoreProofs.DeleteRefinesMap | native/groupstore/store.go:495-513 | a delete removes one key; one that finds nothing changes nothing |
| GroupstoreProofs.GetReadsMap | native/groupstore/store.go:419-447 | reading returns what the map holds and never meets a damaged record |
| GroupstoreProofs.DeletingFits | native/groupstore/format.go:253-275 | removing a record stays within every limit, even where the next revision takes one more digit |
| GroupstoreProofs.CommitAlwaysFits | native/groupstore/store.go:280-348 | a transaction whose operations succeeded always commits its map with one revision step if anything was written |
| GroupstoreProofs.PartsFitTheWhole | native/groupstore/format.go:249-275 | ordinary data within its part and checkpoints within their reserve are within the whole |
| GroupstoreProofs.CheckpointAlwaysFits | native/groupstore/store.go:448-494 | however full ordinary data is, a checkpoint within the byte and index reserves is stored |
| GroupstoreProofs.RunRefinesMap | native/groupstore/store.go:376-513 | any sequence of operations has the effect of those not refused on a plain map |
| GroupstoreProofs.TransactionRefinesMap | native/groupstore/store.go:280-348 | a transaction is all or nothing: committed exactly when the callback and every operation succeeded, and otherwise the disk is untouched |
| Stores.Store.Begin | native/groupstore/store.go:280-329 | a transaction starts exactly when none is active, the store is not poisoned and, to write, a revision is left; without one the store is poisoned |
| Stores.Store.Get | native/groupstore/store.go:419-447 | the method equals the specified read, damage included |
| Stores.Store.Put | native/groupstore/store.go:448-494 | the method equals the specified put and has its effect on the map |
| Stores.Store.Delete | native/groupstore/store.go:495-513 | the method equals the specified delete and has its effect on the map |
| Stores.Store.Abort | native/groupstore/store.go:388-397 | the first failure stays |
| Stores.Store.End | native/groupstore/store.go:291-348 | commit or drop, and poisoning exactly on an integrity failure |
| Profiles.ManifestDecodes | native/profilestate/state.go:33-46 | the canonical manifest decodes to the manifest it was made from |
| Profiles.ManifestsDiffer | native/profilestate/state.go:33-46 | two legal manifests with one canonical form are one |
| Profiles.PartKeysAscend | native/profilestate/state.go:31 | part names sort in the order of their numbers |
| Profiles.ReadAfterWrite | native/profilestate/state.go:47-137 | a document written is the document read, whatever was there before and however long |
| Profiles.DocumentExactly | native/profilestate/state.go:47-90 | a document is read exactly where its manifest, with its length and hash, and its parts of 512 KiB, and no other part, are there; and none exactly where neither manifest nor part is |
| ProfileStores.ReadManifest | native/profilestate/state.go:33-46 | the method decodes exactly canonical manifests |
| ProfileStores.Read | native/profilestate/state.go:47-90 | the chunk loop equals the specified document: absent, damaged or whole |
| ProfileStores.Write | native/profilestate/state.go:91-137 | every outcome of writing: refused, stale, unchanged, or exactly this document's parts and manifest with no other record touched |
| ProfileStores.WriteThenRead | native/profilestate/state.go:47-137 | after a write a read returns the bytes and their digest, and every other record is as it was |
| Caches.CachedReadsAreReads | native/groupauthority/state.go:107-144 | for any interleaving of writes and reads in a transaction, a read through the cache is a read of the store, and the cache stays within its limit |
| Caches.LatestAreHeld | native/groupauthority/read_cache.go:13-22 | of values read one after the other the cache holds the latest, as many as its limit |
| Caches.RememberedExactly | native/groupauthority/state.go:107-144 | a value read anew is remembered exactly where its record is small, and nothing of an earlier generation stays |
| Caches.FetchOnce | native/groupauthority/state.go:107-144 | and then not read again before the next write |
| Caches.WriteMovesOn | native/groupstore/store.go:490-513 | a write that changes anything starts a new generation |
| StopCodec.StopsDecode | native/groupledger/ledger.go:519-571 | the canonical bytes written for any storable list of stops, the empty one included, decode to that list, checks and all |
| StopCodec.DecodesExactly | native/groupledger/ledger.go:519-548 | decoding yields a list exactly when the bytes are its canonical form and it is well formed, of at most 256 stops with different operations; so two lists with one stored form are one |
| StopCodec.Decode | native/groupledger/ledger.go:182-214 | the method, loop by loop, is that decoder: JSON, fields, version, reasons, operations, and writing the list again to compare |
| StopCaches.StopReadsAreReads | native/groupledger/ledger.go:519-571 | for any interleaving of reads and writes of the stops with any other puts and deletes in one transaction, refused and failed ones included, every read through the stop cache is what decoding the store as it then is gives |
| StopCaches.ReadOnce | native/groupledger/ledger.go:519-548 | what was read once is not read again before the next write, and a failed read is not remembered |
| StopCaches.WrittenIsRead | native/groupledger/ledger.go:549-571 | a write of the stops that succeeds, by put or by delete, is what the next read and the store say |
| StopCaches.WrittenAsCheckpoint | native/groupledger/ledger.go:549-571 | the stops are one checkpoint record, which ordinary data cannot crowd out, and none without stops; a write touches nothing else |
| StopCaches.StopCache.Stops | native/groupledger/ledger.go:519-548 | the method equals the cached read, and a failed read leaves the cache alone |
| StopCaches.StopCache.WriteStops | native/groupledger/ledger.go:549-571 | the method equals the specified write: put, or delete of an empty list, and the cache follows only where that succeeded |
| Caches.ReadCache.Keep | native/groupauthority/read_cache.go:13-22 | the oldest value makes room for the newest |
| Caches.ReadCache.Read | native/groupauthority/state.go:107-144 | the method equals the specified cached read; a record that is too large is returned and not remembered |
| ContentStore.PlanExactly | native/core/store.go:272-311 | a plan exists exactly when the limits can be met without touching live pinned or reserved content |
| ContentStore.PlanIsLRU | native/core/store.go:272-311 | a plan takes everything expired and the shortest least-recently-used run of the rest that makes the limits hold |
| ContentStore.NoPlanExactly | native/core/store.go:272-311 | room cannot be made exactly where what is live and pinned or reserved is too much by itself |
| ContentStore.PlanTakes | native/core/store.go:272-311 | everything expired goes, and of what is neither pinned nor reserved the least recently used, by address among equals; nothing else |
| ContentStore.PlanStops | native/core/store.go:296-311 | and with the last of them back there would not be room |
| ContentStore.ReservedAfter | native/core/store.go:522-556 | the reserved set is the one asked for, or, after a failed write, its union with the old one |
| ContentStore.Store.Plan | native/core/store.go:272-311 | the loop computes the specified plan |
| ContentStore.Store.RemoveEntries | native/core/store.go:312-325 | where the disk refuses, what has expired went first and then the rest, least recently used first, up to the object refused |
| ContentStore.Store.Insert | native/core/store.go:345-398 | every outcome of admitting an object, write failures included; quota and count hold after all of them |
| ContentStore.Store.SetReservations | native/core/store.go:522-556 | every outcome of changing the reservations |
| ContentStore.Store.SetQuota | native/core/store.go:565-580 | every outcome of changing the quota |
| Mutations.Table.Record | native/app/node.go:690-706 | the method merges one event into one target's entry and reports whether anything changed |
| Mutations.DisplayConverges | native/app/node.go:859-868 | in whatever order and however often events arrive, the target is shown deleted exactly if one deletes it, and otherwise with the text of the latest |
| Mutations.ShownExactly | native/app/node.go:859-868 | the text shown is that of the event created last, of those the one with the greatest identifier, unless any event deletes |
| Mutations.ShownAlike | native/app/node.go:690-868 | so any two orders of the same events, repeats included, show the same |
| Mutations.SettledConverges | native/app/node.go:690-706 | with no deletion, or a deletion last, everything stored is the same in every order |
| Mutations.UnsettledDiverges | native/app/node.go:690-706 | otherwise two orders of the same events store different things |
| Mutations.ConvergesExactly | native/app/node.go:690-706 | so what is stored depends on the set of events alone exactly when none deletes or the latest does |

## Left out

- Cryptography and encodings: Ed25519, X25519, AES-GCM, scrypt, base64, DER; only what verification and accounting need of them is kept, as functions and sizes.
- SQLite, files, sockets, TLS, HTTP, goroutines and timers; a failed write is a parameter or a closed link.
- The rate limits, the line framing and the JSON form of frames in the read loop of a link; the packet codec is a parameter that yields packets with legal hops.
- The hook told about cancelled transfers, power-save callbacks, and network addresses and media of links.
- LinkPair.ReceiverNeverRefuses: does not cover expiry and cancellation of half-sent packets, or a receiver that forgets a packet it accepted; half-received packets left behind that way can fill the receiver's table.
- Routers.Router.Attach: the order in which kept packets are offered is that of a map, and is any order here.
- Links.Link.NextFrame: the retry interval and low power are inputs of each turn; when a turn is taken is not modelled.
- The operation journal that makes registry commands repeatable, and inviting, which only signs a certificate.
- AuthorityRuns.ForkAgreement: the evidence is the same two certificates on both sides, each replica naming its own first; the view of the evidence is not part of this model.
- Group synchronisation, notices, command dispatch, content and site validation: wiring, or long lists of single checks.
- Outbox scheduling: retry delays, attempts, previews, the limits on pending count and bytes; of an outbox entry only what the ledger looks at is kept.
- Ledgers.GroupLedger.ReconcileOutbox: the reservation and pinning of the content behind the entries is not part of this model.
- LedgerProofs.FullExactly: the store's own refusal of the record of stops is not joined to it; `GroupstoreProofs.CheckpointAlwaysFits` says when that cannot happen.
- Number formatting and reflection over Go structures: the canonical spelling of the double a token stands for is a parameter, known only to be a token that spells itself.
- Shortest.PrintIsShortest: where the canonical spelling of a number is longer than a token for it, as 1000 is than 1e3, a shorter input exists; the lemma therefore asks that no canonical spelling be longer than its token.
- Memberships.CommittingWorks: a creator with a pending consent of its own is not covered; with one, the commit may also fail for want of the creator's card in the snapshot.
- JsonProofs.RoundTrip: strings that are not valid loose UTF-8 in memory have no counterpart in the model.
- Stores.Store.Get: tampering with stored bytes appears only as a record that does not open or does not match its digest.
- Opening and recovering a store, the size of the database file, and the key listing apart from its order.
- The start-up scan of the content store, listing, pinning, reading with touch, and fingerprints of files.
- Profile migration, and everything of a node's state beyond outbox, stops and mutations.
- The TypeScript, Python, Java and Swift parts of the repository.
