# AnonGuard verification model

A Dafny model of the parts of AnonGuard whose correctness depends on whole runs rather than single calls:

- **Directory agreement.** Authorities freeze one document per five-minute epoch and journal it before release; clients combine signatures over equal digests, demand more than two thirds of the keys and keep a durable rollback record (`Directory`, `Encoding`, `Identity`, `Consensus`, `Votes`, `Agreement`, `ClientPool`, `ClientLoad`, `Convergence`).
- **Relay admission and anti-replay.** The authority's relay table under registration, eviction and gossip with registrations landing in between, and the nonce registry (`RelayTable`, `Reconciliation`, `Nonces`).
- **Path selection.** Circuit diversity, greedy middle filling, private bridge chains, guarded onion chains and the checks of the circuit handshake (`Address`, `Diversity`, `Paths`, `Onions`, `OnionFailures`, `Circuits`).
- **Bounded concurrent admission.** Token buckets, per-source admission with eviction, the tracker's rendezvous directory and the single-flight session cache (`Admission`, `Sources`, `Tracker`, `SessionCache`, `SessionReuse`).
- **Identity retirement.** Policy verification and the journal shared by concurrent starts (`Revocation`, `PolicyEncoding`, `Retirement`).
- **Evaluator sweeps.** Threshold calibration and the ranking statistic (`Sums`, `Groups`, `Ranking`, `Thresholds`).

`Prelude`, `Sorting` and `Folds` hold the shared vocabulary. `dafny verify dfyconfig.toml` checks everything.

## Conventions

- Code that updates state in place is a class or a method with loops. Each such method is proved equal to a specification function, or against a property stated outright, and the run-level lemmas reason about that function or property.
- A protocol is a step function over events and a run is any sequence of events, so interleavings, crashes, failed writes and clock jumps are all in the quantifier. A step that cannot happen changes nothing.
- Cryptography is ideal: a pin stands for the injective hash of a classical and a post-quantum key, a proof verifies only for the message it was made for, and a digest is modelled by the canonical content it commits to. `Encoding` and `PolicyEncoding` prove the byte-level facts behind the last point.
- An atomic write succeeds, or fails with either the old or the new file on disk.
- Clocks, random choices, shuffles, map iteration order, file contents and peers' answers are parameters or arbitrary choices.
- Scores, distances and rates are real numbers.

## Properties that hold only under a condition

- Merging equal-digest documents yields the union of voters exactly when no useful signature is masked by a held signature, under the same authority id, that does not verify (`Consensus.MergeUnion`, with `Consensus.MaskedVoteIsLost`). The same holds over a whole list of replies (`ClientPool.CombinedUnion`).
- A client's published epochs never go back provided each life initialises its guard state before its first load (`ClientLoad.RollbackSafe`). A load made before that call is forgotten by it (`ClientLoad.LoadBeforeInitRollsBack`). From any state, all such continuations are safe exactly when the record on disk, and in memory once read, covers what was last published (`ClientLoad.SafeForGoodExactly`); a single load is safe exactly when the record in memory does (`ClientLoad.LoadSafeExactly`).
- An onion chain starts at the recorded guard for every pool and shuffle exactly when the request does not ask for a minimum of one hop (`Onions.GuardedExactly`); such a request may be answered with the exit alone although a usable guard is recorded (`Onions.ExitAloneAnswer`). The gateway never makes one (`Onions.GatewayGuarded`).
- The onion builder takes its guard and one fitting exit as the shuffle offers them and never goes back, so it may return nothing although another choice would complete a chain (`OnionFailures.ShuffleDecides`). Some shuffle fails exactly when the bounds cannot be met, no guard need be found, or after some possible guard no exit fits or some fitting exit leaves too few hops (`OnionFailures.SomeOrderFailsExactly`). No guard need be found when no node may guard, or when an empty set may be filled with three nodes whose pins are unknown while others are known.

Where code and documentation disagree the model follows the code: retirement policies carry version 2, while docs/IDENTITY_RETIREMENT.md says version 1.

## Model

| member | source | states |
|---|---|---|
| `Agreement.Agreement` | src/mesh/consensus.rs:204-252 | In every run of honest authorities with crashes, failed writes and arbitrary clocks, with fewer than a third of the keys Byzantine, two documents for one epoch that both pass the quorum check at clients trusting the same keys have the same digest |
| `Agreement.QuorumsMeet` | src/mesh/directory_client.rs:19-22 | Two quorums above two thirds share an honest key |
| `Agreement.OneVotePerEpoch` | src/mesh/authority.rs:196-250 | An honest authority releases at most one digest per epoch over all its lives, even after old epochs are pruned |
| `Agreement.ReachableJournalReloads` | src/mesh/authority.rs:136-167 | Every journal left on disk by any run passes the authority's own start-up check |
| `Agreement.RunKeepsInv` | src/mesh/authority.rs:196-250 | Memory and journal always remember every released vote or are past its epoch |
| `Agreement.CallCases` | src/mesh/authority.rs:196-250 | A call changes nothing, repeats the vote held for its epoch, or records a vote for a new latest epoch in memory and journal or in the journal only |
| `Agreement.RecordKeepsInv` | src/mesh/authority.rs:237-249 | Recording with pruning keeps the invariant, whether or not the write reached memory |
| `Agreement.GenuineLater` | src/mesh/authority.rs:671-689 | A document whose honest signatures were released stays genuine in every later state |
| `Agreement.ReleasedWereElectable` | src/mesh/authority.rs:196-250 | Over all lives, everything held or released was made by one of the calls, for its epoch, of exactly the relays electable then |
| `Agreement.NoRetiredReleased` | src/mesh/authority.rs:206-214 | No call of any run releases a document that lists an identity retired by its policy, not even one read back from the journal |
| `Agreement.RetiredNeverReleased` | src/mesh/authority.rs:206-231 | An identity that every policy of a run retires is in no released digest |
| `Agreement.LivesFollowJournal` | src/mesh/authority.rs:136-167 | A crash loses the memory and nothing else; a restart reads the whole journal back |
| `Agreement.LateVoteReturns` | src/mesh/authority.rs:206-249 | A vote whose write failed late is what any later call in its epoch gets after a restart, whatever relays that call has |
| `Agreement.NetworkIsAuthorities` | src/mesh/authority.rs:196-250 | In any run of the network each honest authority is where its own events alone lead it |
| `Convergence.SameViewSameDigest` | src/mesh/authority.rs:226-236 | Authorities that vote for an epoch from the same electable relays, in any order, sign the same digest |
| `Convergence.VotesMakeQuorum` | src/mesh/pool.rs:244-269 | When enough trusted authorities with unrelated keys voted for one digest, a client that gets their votes in any order has a quorum for it |
| `Votes.DirectoryAuthority.FrozenView` | src/mesh/authority.rs:196-250 | The method equals the freezing function in reply, memory and journal for every write outcome; it succeeds exactly under the written-out conditions, its document lists no retired relay, and a new one lists exactly the electable relays it was given; tables of own votes stay so |
| `Votes.FreezeMeaning` | src/mesh/authority.rs:196-250 | A call succeeds if and only if the clock is not behind, and the held vote is usable and free of retired relays or a new one fits, is usable and reaches the disk; a new document lists exactly the relays that verify, are not retired and are at most 7200 s old |
| `Votes.FreezeRecords` | src/mesh/authority.rs:237-249 | What a call does to memory and journal: a new document beside every vote of the last hour, or nothing, or the journal alone after a late failure |
| `Votes.FailsLate` | src/mesh/authority.rs:241-247 | A write that fails late leaves the new vote in the journal, of exactly the electable relays, with nothing released |
| `Votes.FreezeRefusals` | src/mesh/authority.rs:203-247 | Each refusal means what it says |
| `Votes.DirectoryAuthority.constructor` | src/mesh/authority.rs:136-185 | Any journal that passes the reload check is the table in memory; for a journal the authority wrote itself the tables are its own votes |
| `Votes.FreezeKeepsOwn` | src/mesh/authority.rs:196-250 | Every stored vote is the signer's own, for a multiple of 300, within one hour of every other |
| `Votes.AtMostThirteen` | src/mesh/authority.rs:152-155 | At most 13 epochs are ever retained |
| `Votes.LoadJournal` | src/mesh/authority.rs:152-167 | A persisted list is accepted exactly when it has at most 13 documents, each valid under the own key, with distinct epochs; the table then holds exactly those documents |
| `Votes.ReloadCheck` | src/mesh/authority.rs:158-162 | The check of one persisted document decides exactly its four conditions |
| `Votes.JournalReloads` | src/mesh/authority.rs:136-167 | Any table the authority can write passes the reload check in whatever order it is listed |
| `Votes.ListsDetermine` | src/mesh/authority.rs:158-167 | A persisted list determines the table it is read into |
| `Encoding.ConsensusBytesMeaning` | src/mesh/consensus.rs:154-188 | With distinct node ids, the hashed bytes of two documents are equal exactly when the windows are equal and the relays agree up to order, ignoring proofs |
| `Encoding.ConsensusBytesCanonical` | src/mesh/consensus.rs:154-188 | For every relay list, equal hashed bytes mean equal canonical contents and conversely |
| `Encoding.RelayPrefix` | src/mesh/consensus.rs:164-182 | One relay's encoding is self-delimiting and determines every field but the proof |
| `Encoding.RelayListInjective` | src/mesh/consensus.rs:164-182 | A concatenation of relay encodings determines the list |
| `Encoding.SigningBytesInjective` | src/mesh/consensus.rs:54-68 | The bytes a relay signs are equal exactly when every signed field is equal |
| `Encoding.ComputeDigestInput` | src/mesh/consensus.rs:154-183 | Feeding the hasher field by field over the sorted relays yields the canonical encoding |
| `Encoding.ComputeSigningBytes` | src/mesh/consensus.rs:54-68 | Filling the buffer field by field yields the signing encoding |
| `Encoding.FeedRelay` | src/mesh/consensus.rs:164-182 | One turn of the hashing loop appends exactly one relay's encoding |
| `Directory.CanonicalMeaning` | src/mesh/consensus.rs:154-188 | With distinct ids, sorting makes the digest depend on the window and the set of relays only |
| `Identity.OwnDescriptorVerifies` | src/mesh/consensus.rs:79-117 | A well-formed descriptor signed with its own key verifies |
| `Identity.VerifiedIsAuthentic` | src/mesh/consensus.rs:79-117 | A proof verifies for one descriptor only, whose pin is that of the key that made it; its name and port are legal |
| `Encoding.RelayLayout` | src/mesh/consensus.rs:164-182 | Where each field stands in the encoding of a relay |
| `Encoding.DocumentLayout` | src/mesh/consensus.rs:154-183 | The encoding of a document is its tag, its window and its relays in order of their ids |
| `Encoding.BigEndian` | src/mesh/consensus.rs:158-180 | Integers are written most significant byte first |
| `Consensus.VerifyQuorum` | src/mesh/consensus.rs:204-252 | Accepts exactly when the threshold is positive, the time is in the window, the distinct trusted keys with a verifying signature reach the threshold and no two share a component; order, repeats and id aliases do not matter |
| `Consensus.CountVoters` | src/mesh/consensus.rs:220-249 | The loop counts the distinct voting keys, and stops early exactly when two of them share a component |
| `Consensus.MergeSignaturesFrom` | src/mesh/consensus.rs:278-295 | With equal digests the held signatures stay in front and exactly those of the other document under ids not held are added; otherwise nothing changes; the count is the number added |
| `Consensus.MergeVoters` | src/mesh/consensus.rs:278-295 | Exactly which voters a merge yields |
| `Consensus.MergeUnion` | src/mesh/consensus.rs:278-295 | A merge yields the union of voters if and only if no useful vote is masked |
| `Consensus.MaskedVoteIsLost` | src/mesh/consensus.rs:286-293 | A worthless signature under an authority's id keeps that authority's genuine vote out |
| `Consensus.MergeKeepsContent` | src/mesh/consensus.rs:278-295 | A merge never changes what the document says |
| `Consensus.DistinctValues` | src/mesh/pool.rs:239-243 | Counting distinct key values decides whether the authorities' keys are pairwise distinct |
| `ClientPool.Combine` | src/mesh/pool.rs:244-265 | Eligible documents are merged digest by digest |
| `ClientPool.ContributesExactly` | src/mesh/pool.rs:249-257 | A document counts if and only if it has at most 512 relays and 16 signatures and its window includes now |
| `ClientPool.CombinedIsOk` | src/mesh/pool.rs:244-265 | Over a whole list of replies: which snapshots exist, and that each holds exactly the signatures brought by the first contributing document with their id |
| `ClientPool.CombinedVoters` | src/mesh/pool.rs:244-265 | The voters of a combined snapshot are exactly the keys that verify in the first contributing document with their id |
| `ClientPool.CombinedUnion` | src/mesh/pool.rs:244-265 | They are the union of all votes for the digest if and only if nothing is masked |
| `ClientPool.QuorateExactly` | src/mesh/pool.rs:244-269 | Exactly when a list of replies reaches quorum for a digest |
| `ClientPool.QuorateDocuments` | src/mesh/pool.rs:266-269 | The candidates are exactly the snapshots with a quorum |
| `ClientPool.Select` | src/mesh/pool.rs:266-278 | Returns the unique newest quorum snapshot, or reports exactly that none exists, or that two differ for the newest epoch |
| `ClientPool.CheckEndpoints` | src/mesh/pool.rs:293-302 | Accepts exactly when relays at one endpoint have one pin |
| `ClientPool.StageRelays` | src/mesh/pool.rs:304-343 | Succeeds exactly when all relays are pairwise distinct in id, pin, both components and endpoint, and stages exactly the relays not retired; a second relay at a staged endpoint cannot occur |
| `ClientPool.AdmitRelays` | src/mesh/pool.rs:288-351 | A snapshot's relays are admitted exactly when they are nonempty, verified, pairwise separate and not all retired; the named refusals mean what they say |
| `ClientPool.PublishedPool` | src/mesh/pool.rs:304-365 | A published pool has nodes and pins at the same endpoints, distinct nonzero pins and no retired identity |
| `ClientPool.PublishedNodes` | src/mesh/pool.rs:304-343 | Published are exactly the relays not retired: a live node with the relay's address and exit flag, and its pin |
| `ClientPool.FrozenDocumentAcceptable` | src/mesh/pool.rs:288-343 | A document newly frozen from any reachable relay table is acceptable to a client if and only if some relay in it is not retired for that client |
| `ClientLoad.ProxyPool.LoadFromMultiConsensus` | src/mesh/pool.rs:229-365 | Succeeds exactly when a chosen, acceptable, recordable, non-rollback document exists; then publishes exactly its relays; a failure changes nothing published, and the record only if its write failed |
| `ClientLoad.ProxyPool.LoadChosen` | src/mesh/pool.rs:279-365 | The rollback test, relay admission and publication for the selected document, both directions |
| `ClientLoad.ProxyPool.Publish` | src/mesh/pool.rs:344-365 | The record is persisted before anything is published, and a failed write publishes nothing |
| `ClientLoad.ProxyPool.InitGuardState` | src/mesh/pool.rs:160-189 | Reads the durable record once; an unreadable one publishes nothing; a later call succeeds only for the same path and changes nothing |
| `ClientLoad.ProxyPool.constructor` | src/mesh/pool.rs:139-153 | A new pool is empty and has not read its record |
| `ClientLoad.PublishedExactly` | src/mesh/pool.rs:279-287 | A snapshot is published if and only if it is newer than the record or the same, and its record, if it has a path, was written; what memory and disk hold then |
| `ClientLoad.ReadOnce` | src/mesh/pool.rs:160-189 | The record is read from disk the first time and never again in one life |
| `ClientLoad.Choose` | src/mesh/pool.rs:236-278 | The choice is the only document that can be chosen, and each refusal names its cause |
| `ClientLoad.RollbackSafe` | src/mesh/pool.rs:279-287 | Over loads, failed persists and restarts, published epochs never decrease and equal epochs carry equal digests |
| `ClientLoad.LoadSafeExactly` | src/mesh/pool.rs:279-287 | A load is safe against every offered snapshot if and only if the record in memory is at least the last published snapshot |
| `ClientLoad.SafeForGoodExactly` | src/mesh/pool.rs:160-189 | Every later run whose lives initialise first is free of rollback if and only if the record on disk, and in memory once read, is at least the last published snapshot |
| `ClientLoad.LoadBeforeInitRollsBack` | src/mesh/pool.rs:160-189 | A run in which a load before initialisation lets an older snapshot be published afterwards |
| `ClientLoad.ClientsAgree` | src/mesh/pool.rs:236-278 | Snapshots that reach quorum for one epoch at any two clients, at different points of a run, have the same digest |
| `ClientLoad.NeverConflicting` | src/mesh/pool.rs:274-278 | The refusal for two quorum snapshots of one epoch is unreachable |
| `ClientLoad.ClientsPublishAlike` | src/mesh/pool.rs:236-365 | Two clients that accept the same epoch under the same retirement policy publish identical nodes and pins |
| `ClientLoad.SamePool` | src/mesh/pool.rs:288-365 | Equal digests publish equal pools |
| `ClientLoad.NewDirectoryClient` | src/mesh/directory_client.rs:18-61 | Accepts exactly 1 to 16 well-formed authorities, pairwise distinct in identity, address and key, with a quorum above two thirds and at most their number |
| `ClientLoad.BindAuthorities` | src/mesh/directory_client.rs:29-53 | The loop accepts exactly well-formed, pairwise distinct endpoints and binds each identity to its key |
| `ClientLoad.WellFormedExactly` | src/mesh/directory_client.rs:29-45 | Which authority entries are well formed |
| `ClientLoad.ConfiguredClientIsSafe` | src/mesh/directory_client.rs:18-61 | A configured client meets the conditions of the agreement theorem |
| `RelayTable.RunKeepsInv` | src/mesh/authority.rs:432-551 | At every point of every run with reconciliations in flight the table has at most 512 relays, none retired, pairwise distinct in pin, both components and endpoint |
| `RelayTable.PinFixedWhileListed` | src/mesh/authority.rs:523-547 | While a node stays listed its pin is fixed and its timestamp never decreases |
| `RelayTable.NoRegistrationReplay` | src/mesh/authority.rs:257-314 | No run with any clocks, evictions and gossip registers one (node, timestamp, nonce) proof twice |
| `RelayTable.RegistrationIsAttempt` | src/mesh/authority.rs:257-306 | A registration is one attempt at the nonce registry, and succeeds exactly when that attempt is admitted |
| `RelayTable.FrozenDocumentSeparate` | src/mesh/authority.rs:196-250 | A document frozen from a reachable table passes every duplicate check and is never refused for capacity |
| `RelayTable.NextKeepsInv` | src/mesh/authority.rs:257-551 | Each registration, eviction, gossip merge and write-back keeps the invariant and only advances listed nodes |
| `Reconciliation.RelayDirectory.RegisterRelay` | src/mesh/authority.rs:257-314 | The method equals the registration function in table, nonce registry and error, and keeps the invariant |
| `RelayTable.RegisterCases` | src/mesh/authority.rs:257-314 | A registration leaves the table alone or adds an admissible, conflict-free, strictly newer descriptor |
| `Reconciliation.RelayDirectory.MergePeerList` | src/mesh/authority.rs:459-500 | Merging one peer's list equals folding the gossip step; it forgets no node, rolls none back, learns only sound offers, and learns every sound offer that nothing in the copy or the list stands in the way of |
| `Reconciliation.RelayDirectory.WriteBackLocal` | src/mesh/authority.rs:519-551 | In whatever iteration order, the copy is merged back without rolling any node back, every relay of it that the live table has a place for is known there afterwards, and the result lists the live table |
| `Reconciliation.ConflictsExactly` | src/mesh/authority.rs:24-37 | On verified relays the conflict test decides exactly that some other node shares a pin, a key component or an endpoint |
| `Reconciliation.GossipExactly` | src/mesh/authority.rs:462-500 | An offer replaces its node's entry if and only if it is sound, the copy takes it and no registration as recent is listed; nothing else changes |
| `Reconciliation.MergeAdvances` | src/mesh/authority.rs:459-500 | A merged list forgets no node and rolls none back |
| `Reconciliation.MergeLearns` | src/mesh/authority.rs:459-500 | Every entry is an old one or comes from a sound offer |
| `Reconciliation.TakenIsKnown` | src/mesh/authority.rs:459-500 | A sound offer that the copy takes when its turn comes is known from then on |
| `Reconciliation.UnopposedIsKnown` | src/mesh/authority.rs:459-500 | A sound offer that nothing in the copy or the list stands in the way of leaves its node listed, by a registration no older |
| `Reconciliation.CommitExactly` | src/mesh/authority.rs:523-547 | A reconciled descriptor is written back if and only if the table takes it and lists no registration as recent |
| `Reconciliation.WelcomeIsKnown` | src/mesh/authority.rs:519-547 | Whatever the order, a reconciled relay that the live table has a place for is known there afterwards |
| `Reconciliation.OfferReachesTable` | src/mesh/authority.rs:432-551 | From a peer's list, through any events in between, to the live table: such an offer arrives |
| `Reconciliation.BeginCopies` | src/mesh/authority.rs:433-437 | A reconciliation starts from the whole live table |
| `Reconciliation.EvictedExactly` | src/mesh/authority.rs:317-335 | An eviction removes exactly the relays older than two hours, the periodic one also those exactly two hours old |
| `Reconciliation.RegisteredExactly` | src/mesh/authority.rs:257-314 | A registration succeeds if and only if its offer is sound, the table takes it as strictly newer, and its nonce is new, fits and is not behind the last purge |
| `Reconciliation.RegisterRefusals` | src/mesh/authority.rs:257-306 | Each refusal of a registration means what it says |
| `Reconciliation.RelayDirectory.WriteBackOne` | src/mesh/authority.rs:523-547 | One descriptor is written back only if it conflicts with nothing, matches the pin, fits, and is newer |
| `Reconciliation.RelayDirectory.CommitLocal` | src/mesh/authority.rs:521-547 | The loop visits every entry of the copy once and applies the write-back step to each |
| `Reconciliation.RelayDirectory.ListValues` | src/mesh/authority.rs:549-551 | The listing holds each live relay exactly once |
| `Reconciliation.RelayDirectory.constructor` | src/mesh/authority.rs:67-91 | A new directory is empty and valid |
| `RelayTable.WriteBackOk` | src/mesh/authority.rs:521-547 | Writing a well-formed copy back to a table that moved on keeps the invariant |
| `Nonces.NoReplay` | src/mesh/sybil.rs:99-171 | Over any sequence of attempts, with clocks that may go back, one proof is never admitted twice |
| `Nonces.RetentionIsExact` | src/mesh/sybil.rs:115-123 | The registry is replay-safe if and only if records live for two full drift windows |
| `Nonces.NonceRegistry.CheckAndRecord` | src/mesh/sybil.rs:99-134 | The method equals the observation function, and never grows the map past its bound |
| `Nonces.NonceRegistry.constructor` | src/mesh/sybil.rs:80-87 | A new registry is empty |
| `Nonces.SpentStays` | src/mesh/sybil.rs:99-134 | A spent proof stays spent through any attempt and purge, and is never admitted |
| `Nonces.ObserveExactly` | src/mesh/sybil.rs:99-134 | A nonce is refused if and only if the name is empty or too long, the clock is behind the last purge, the nonce is still remembered, or 100 000 are |
| `Nonces.FirstProofAdmitted` | src/mesh/sybil.rs:99-171 | In any run, a checked attempt with a new nonce and the latest clock so far is admitted while there is room |
| `Diversity.ValidateCircuitDiversity` | src/mesh/sybil.rs:246-328 | Accepts exactly the circuits whose hosts are addresses of pairwise different classes; a refusal names the first host that breaks this, and is a duplicate, no address, or of a class that is taken, as it says |
| `Diversity.DiverseInsert` | src/mesh/sybil.rs:246-328 | A host may join anywhere in a diverse circuit exactly when it has a prefix that is not taken |
| `Address.V4Class` | src/mesh/sybil.rs:262-268 | IPv4 addresses share a class if and only if their first two octets agree |
| `Address.EmbeddedClass` | src/mesh/sybil.rs:273-313 | A mapped, compatible, 6to4, Teredo or NAT64 address is in the class of the IPv4 address it carries |
| `Address.NativeClass` | src/mesh/sybil.rs:314-320 | Any other IPv6 address shares a class exactly with others of its first four octets |
| `Paths.FillMiddles` | src/mesh/pool.rs:592-603 | The loop computes the greedy selection |
| `Paths.GreedyMeaning` | src/mesh/pool.rs:592-603 | The greedy selection takes candidates in order, keeps the chain diverse with its exit, and stops short of the limit only when every candidate is used or blocked |
| `Paths.GreedyMaximum` | src/mesh/pool.rs:592-603 | No other diverse choice of middles between the same ends is longer than the greedy one |
| `Paths.CheckFits` | src/mesh/pool.rs:583-591 | Diversity is decided when enforced and ignored otherwise |
| `Paths.FitsDrop` | src/mesh/pool.rs:604-609 | Truncating before the exit keeps the whole chain diverse |
| `Circuits.SelectBridgeChain` | src/mesh/pool.rs:576-612 | For its entry, returns nothing exactly when no exit and enough non-exit candidates form a diverse chain of at least the minimum length; otherwise such a chain within the bounds |
| `Circuits.TryExits` | src/mesh/pool.rs:581-611 | The loop over the exits fails only when no chain ending in any of them is long enough |
| `Circuits.BridgeChainFor` | src/mesh/pool.rs:581-609 | For one exit, fails only when no chain ending in it is long enough |
| `Circuits.NoLongerBridgeChain` | src/mesh/pool.rs:592-603 | No chain ending in an exit has more middles than the greedy selection for it |
| `Circuits.CircuitPlanner.GetPrivateBridgeChain` | src/mesh/pool.rs:506-612 | Exactly when an entry is found, which recorded binding it is, what becomes of the guard set, and the completeness of the chain for that entry |
| `Circuits.CircuitPlanner.PickEntry` | src/mesh/pool.rs:529-558 | An empty guard set is filled from three bindings only if it can be saved; the entry serves the earliest recorded guard under its own pin and is not cooling down |
| `Circuits.CircuitPlanner.FindBinding` | src/mesh/pool.rs:543-551 | The first recorded guard that any binding serves, or none exactly when there is none |
| `Circuits.CircuitPlanner.BridgeCandidates` | src/mesh/pool.rs:559-575 | The candidates are exactly the live, pinned nodes that share neither pin nor host with a binding |
| `Circuits.EligibleHopExactly` | src/mesh/pool.rs:559-575 | A hop may follow a bridge if and only if it is alive, has a known pin, and shares neither pin nor host with any binding |
| `Circuits.NoneServesExactly` | src/mesh/pool.rs:543-551 | No entry is found if and only if no binding is recorded as a guard under its own identity without cooling down |
| `Circuits.NewBridgeGuards` | src/mesh/pool.rs:529-541 | The guard set is filled once and only if it can be saved, with the first three bindings and identities bound to them |
| `Circuits.CircuitPlanner.GetOnionChain` | src/mesh/pool.rs:616-785 | The result and the guard set afterwards are exactly one of the possible answers for the healthy nodes in some order; an expired directory yields nothing and changes nothing; every hop is alive and not cooling down, and every chain is sound |
| `Circuits.CircuitPlanner.AnswerOnion` | src/mesh/pool.rs:648-785 | The builder on the healthy nodes gives exactly one of the possible answers and its guard set |
| `Circuits.CircuitPlanner.ChainThroughGuard` | src/mesh/pool.rs:691-785 | The guard set left behind and the answer through the guard found, or nothing exactly when no node serves as a guard |
| `Circuits.CircuitPlanner.EnsureGuards` | src/mesh/pool.rs:696-719 | The guard set is filled once, from allowed middles, and only if it can be saved |
| `Onions.CompleteChain` | src/mesh/pool.rs:744-785 | The result is exactly one of the possible completions: exit reserved first, greedy middles, any kept length from the minimum up |
| `Onions.FindGuard` | src/mesh/pool.rs:720-739 | The first pool node that serves as the first recorded guard that any node serves as, or none exactly when there is none |
| `Onions.FirstFitting` | src/mesh/pool.rs:746-758 | The first exit in the shuffle that fits |
| `Onions.Shuffle` | src/mesh/pool.rs:682-687 | A shuffled pool lists each node of the table once |
| `Onions.FinishedOnion` | src/mesh/pool.rs:779-785 | Random truncation keeps length, distinctness, diversity and, from two hops on, the guard |
| `Onions.AnswersSound` | src/mesh/pool.rs:616-785 | Every possible nonempty answer is within the bounds, has its only exit last, distinct endpoints, whole-chain diversity, and from two hops on starts at the earliest recorded, pinned and allowed guard |
| `Onions.GuardIsPinned` | src/mesh/pool.rs:720-739 | The first hop of a chain of two or more has the pin recorded for a guard, among the demanded ones; or is the recorded endpoint while no pin is known |
| `Onions.HealthyExactly` | src/mesh/pool.rs:630-643 | A node is considered if and only if it is alive and its pin, if known, is not cooling down |
| `Onions.ThroughGuardSound` | src/mesh/pool.rs:740-785 | Every completed chain through a guard is sound, and from two hops on starts at that guard |
| `Onions.ExitAloneSound` | src/mesh/pool.rs:744-785 | When one hop is all that is considered, the answer is a sound chain of the exit alone |
| `Onions.GuardedExactly` | src/mesh/pool.rs:616-785 | For every request: all nonempty answers, over every pool, guard set and shuffle, start at the guard if and only if the request is not an acceptable one with a minimum of one hop |
| `Onions.ExitAloneAnswer` | src/mesh/pool.rs:778-784 | A pool with a recorded guard and a compatible exit for which a request with a minimum of one hop may be answered with the exit alone |
| `Onions.GatewayGuarded` | src/gateway/server.rs:564-573 | The bounds the gateway passes, raised to three, always give guarded chains |
| `Onions.FailsExactly` | src/mesh/pool.rs:744-777 | For a given shuffle, completion fails exactly when no exit fits or the first that fits leaves no diverse choice of middles that is long enough |
| `OnionFailures.OrderFailsExactly` | src/mesh/pool.rs:720-777 | For one shuffle and the guard found in it, the builder returns nothing exactly when no exit fits after the guard or the first that fits leaves too few hops |
| `OnionFailures.NoneSeededExactly` | src/mesh/pool.rs:696-739 | A newly filled guard set yields no guard exactly when none of its nodes can serve: pins are known, but not for them |
| `OnionFailures.FailureHasCause` | src/mesh/pool.rs:691-777 | A shuffle that fails shows one of the causes |
| `OnionFailures.GuardlessOrder` | src/mesh/pool.rs:696-739 | Some shuffle leaves the builder without a guard when no node may guard, or when three nodes that cannot serve may fill the empty set |
| `OnionFailures.UnluckyFrontFails` | src/mesh/pool.rs:744-777 | A shuffle that offers a possible guard and an unlucky exit first fails |
| `OnionFailures.SomeOrderFailsExactly` | src/mesh/pool.rs:647-777 | For every request, pool and guard set: some shuffle makes the builder return nothing if and only if the bounds cannot be met, no guard need be found, or after some possible guard no exit fits or some fitting exit leaves too few hops |
| `OnionFailures.SomeOrderSucceedsExactly` | src/mesh/pool.rs:616-785 | For requests of two hops or more, some shuffle yields a chain if and only if the pool holds one within the bounds from some possible guard to an exit |
| `OnionFailures.NewGuardSet` | src/mesh/pool.rs:696-719 | The guard set is filled once and only if it can be saved, with the first three allowed middles of the shuffle and their known pins |
| `Onions.GuardsUntouched` | src/mesh/pool.rs:647-692 | A call refused for its bounds, or with no hop before the exit, leaves the guard set alone |
| `OnionFailures.ShuffleDecides` | src/mesh/pool.rs:744-777 | A pool for which one shuffle yields nothing and another a full chain |
| `Circuits.OnionChainPassesHandshake` | src/gateway/server.rs:1322-1348 | On a directory-loaded, unexpired pool every onion chain of 3 to 8 hops passes the handshake's checks; after expiry none does |
| `Circuits.BridgeChainPassesHandshake` | src/gateway/server.rs:1322-1348 | A private bridge chain passes them too, with the entry's own pin in front |
| `Circuits.HandshakeExactly` | src/gateway/server.rs:1322-1348 | Accepted are exactly 3 to 8 hops at different addresses whose pins are all known and different |
| `Circuits.PinsFor` | src/mesh/pool.rs:379-391 | Each hop gets its recorded pin, and zero when it is unknown or the directory has expired |
| `Admission.RateSinceCreation` | src/mesh/admission.rs:31-50 | Successful takes since creation never exceed the burst plus one per full refill period |
| `Admission.RateInWindow` | src/mesh/admission.rs:31-50 | In any window, whatever came before, takes never exceed the burst plus one per refill period plus one |
| `Admission.SpendBound` | src/mesh/admission.rs:31-50 | Spent plus remaining tokens never exceed the burst plus earned credit |
| `Admission.AvailableThenTake` | src/mesh/tracker.rs:210-221 | A take at the instant of a successful test never refuses |
| `Admission.RefillLeavesRemainder` | src/mesh/admission.rs:31-43 | A refill leaves less than one period unaccounted and is idempotent at one instant |
| `Admission.RefillExactly` | src/mesh/admission.rs:31-43 | A refill credits one token per full period up to the burst and advances the clock by those periods; a clock that went back changes nothing |
| `Admission.IdlePeriodsCredited` | src/mesh/admission.rs:31-43 | After k full periods the bucket holds at least the smaller of the burst and its tokens plus k |
| `Admission.SpendConserves` | src/mesh/admission.rs:31-50 | While no refill reaches the burst, spent plus remaining tokens equal the starting tokens plus the periods accounted for |
| `Admission.RefusedIsSpent` | src/mesh/admission.rs:44-50 | While no refill reaches the burst, a take is refused only when every earned token is spent |
| `Admission.RefusedSinceFull` | src/mesh/admission.rs:31-50 | In any run, a refused take means that every token held and earned since the start, or since a refill to the full burst, is spent |
| `Admission.BurstServed` | src/mesh/admission.rs:22-50 | Of k takes at the instant of creation exactly the first burst succeed |
| `Admission.TestsAreFree` | src/mesh/admission.rs:31-43 | A test spends nothing |
| `Admission.TokenBucket.Available` | src/mesh/admission.rs:31-43 | The refilled bucket: its tokens plus one per full period, up to the burst, and whether it holds a token |
| `Admission.TokenBucket.TakeToken` | src/mesh/admission.rs:44-50 | The bucket after the take, which succeeds exactly when a token is held or earned |
| `Admission.TokenBucket.constructor` | src/mesh/admission.rs:22-30 | A new bucket is full |
| `Sources.EvictionUnobservable` | src/mesh/admission.rs:91-120 | After any run in time order the next attempt is decided as by a table that never forgets, except for refusals while 4096 groups are all live or recent |
| `Sources.SourceRate` | src/mesh/admission.rs:31-120 | Over any run with any evictions a group starts at most 64 times plus once per 83.334 ms |
| `Sources.IdleStartsAsNew` | src/mesh/admission.rs:91-97 | After 120 s without permits a forgotten source starts exactly as a new one |
| `Sources.AdmitSimulates` | src/mesh/admission.rs:98-120 | One attempt keeps the real and the reference table in step and is decided alike |
| `Sources.Run` | src/mesh/admission.rs:84-120 | Every run keeps both tables in step, with at most 4096 groups |
| `Sources.StartOk` | src/mesh/admission.rs:113-118 | A bucket's last refill never passes the last admission |
| `Sources.StartExactly` | src/mesh/admission.rs:108-119 | A start succeeds if and only if fewer than 4 permits are out and a token is held or earned; it takes one of each, a refusal neither |
| `Sources.AdmitExactly` | src/mesh/admission.rs:98-112 | When an attempt sweeps, when it is refused for lack of room, and that it leaves the other groups alone |
| `Sources.SweepExactly` | src/mesh/admission.rs:91-97 | A sweep keeps exactly the groups with permits out or seen within 120 s, and plans the next one |
| `Sources.PermitsConserved` | src/mesh/admission.rs:98-120 | Over any run with any evictions, the permits out are the starts less the returns, and at most 4 |
| `Sources.WaitingGroupServed` | src/mesh/admission.rs:98-120 | After any run, a group with fewer than 4 permits out that has not tried for 83.334 ms is admitted unless the table is full |
| `Sources.SameGroup` | src/mesh/admission.rs:57-70 | Two addresses share a budget if and only if they are one IPv4 address, plain or mapped, or other IPv6 addresses with the same first 8 octets |
| `Sources.SourceAdmission.Admit` | src/mesh/admission.rs:98-120 | The method equals the admission function in table, sweep time and decision |
| `Sources.SourceAdmission.StartSource` | src/mesh/admission.rs:108-119 | A slot is taken before a token, and a refused start keeps no slot |
| `Sources.SourceAdmission.SweepSources` | src/mesh/admission.rs:91-97 | Exactly the groups with permits or seen within 120 s stay |
| `Sources.SourceAdmission.ReturnSlot` | src/mesh/tracker.rs:231-233 | A returned permit frees its slot and no credit |
| `Sources.SourceAdmission.constructor` | src/mesh/admission.rs:85-90 | A new table is empty |
| `Sources.AdmitConnection` | src/mesh/tracker.rs:210-221 | Admitted exactly when both budgets allow; a refused source spends no shared credit, and an exhausted shared budget touches no source |
| `Tracker.HandoffsSafe` | src/mesh/tracker.rs:320-396 | In every interleaving a relay goes to at most one client and a client gets at most one relay, only for the node and token the relay registered |
| `Tracker.DirectoryBounded` | src/mesh/tracker.rs:320-396 | At most 3 waiters to a node and 128 in all; no more entries than live tasks; an entry without waiters has a live task that will clean it up |
| `Tracker.WaitersDistinct` | src/mesh/tracker.rs:325-341 | Two waiters are always two tasks |
| `Tracker.ReplyFits` | src/mesh/tracker.rs:397-413 | In every reachable state the listing is nonempty and within the control limit |
| `Tracker.ReplyMeaning` | src/mesh/tracker.rs:397-413 | In every reachable state the reply is EMPTY exactly when no node has a waiter, and otherwise splits at newlines into exactly the listed nodes |
| `Tracker.RegisterExactly` | src/mesh/tracker.rs:325-339 | A relay is registered if and only if its node is new or has its token, and fewer than 3 wait; it then waits last and nothing else changes |
| `Tracker.AuthorisedWaits` | src/mesh/tracker.rs:320-341 | A new task with a permit, an authorised token and a free place waits in the directory |
| `Tracker.WaiterStays` | src/mesh/tracker.rs:320-396 | A waiter stays until a client takes it or a task of its node with its id cleans up |
| `Tracker.RendezvousCompletes` | src/mesh/tracker.rs:369-396 | A client with the token of a node where a relay waits gets the last relay to have registered |
| `Tracker.GivenUpGetsNothing` | src/mesh/tracker.rs:380-396 | A client that gave up before it was served never gets a relay, whatever happens |
| `Tracker.TaskEnds` | src/mesh/tracker.rs:341-367 | A task that stops waiting and cleans up is gone, with every slot under its id |
| `Tracker.RequestsOnce` | src/mesh/tracker.rs:369-384 | A client asks once, and its request goes to a task only if that task waited under its node and token |
| `Tracker.ValidNodeExactly` | src/mesh/tracker.rs:79-87 | A node name is 64 lower-case hexadecimal digits |
| `Tracker.CleanedExactly` | src/mesh/tracker.rs:359-367 | A cleanup removes the waiters of its node with its id and no other, and the entry exactly when none is left |
| `Tracker.RunKeepsInv` | src/mesh/tracker.rs:320-396 | The directory invariant holds after any events, random id collisions included |
| `Tracker.CleanUpKeepsInv` | src/mesh/tracker.rs:359-367 | Cleanup never strands an entry, even when ids coincide |
| `Tracker.ConnectKeepsInv` | src/mesh/tracker.rs:369-384 | A claim asks exactly the waiter it removed |
| `Tracker.RegisterKeepsInv` | src/mesh/tracker.rs:320-339 | A registration keeps the bounds and the invariant |
| `Tracker.RendezvousDirectory.RegisterWaiter` | src/mesh/tracker.rs:325-339 | A waiter is added exactly for a matching token and a free place; refusals change nothing |
| `Tracker.RendezvousDirectory.ClaimWaiter` | src/mesh/tracker.rs:370-376 | The last waiter is removed exactly for a matching token |
| `Tracker.RendezvousDirectory.RemoveWaiter` | src/mesh/tracker.rs:360-366 | Slots with the id go, and an emptied entry with them |
| `Tracker.RendezvousDirectory.ListNodes` | src/mesh/tracker.rs:398-413 | The listing is sorted and names exactly the nodes with a waiter, once each |
| `Tracker.RendezvousDirectory.constructor` | src/mesh/tracker.rs:181 | A new directory is empty |
| `SessionCache.SingleFlight` | src/gateway/session_cache.rs:19-51 | In every interleaving at most `maximum` contexts are reserved, at most one initialiser runs per context, and a context being initialised keeps its reservation |
| `SessionCache.AnswersCurrent` | src/gateway/session_cache.rs:29-50 | Every answer comes from an initialiser of the caller's own context; one that predates the caller's lock is a session the caller found alive, never a failure |
| `SessionCache.DoneForGood` | src/gateway/session_cache.rs:45-50 | A finished cell never changes, so sharers get the same answer |
| `SessionCache.RunKeepsInv` | src/gateway/session_cache.rs:19-51 | The cache invariant holds after any events |
| `SessionCache.PrunedOk` | src/gateway/session_cache.rs:33-36 | Pruning never drops a cell that a caller is still waiting for |
| `SessionCache.LookUpKeeps` | src/gateway/session_cache.rs:33-43 | A reservation outlives a lookup if and only if its cell is a session found alive or is unfinished and held by a call in progress |
| `SessionCache.LookUpExactly` | src/gateway/session_cache.rs:37-44 | The caller joins the cell kept for its context, or gets a new empty one while there is room, or nothing |
| `SessionReuse.LiveSessionShared` | src/gateway/session_cache.rs:29-50 | In every run, from when a session is ready until a lookup finds it dead, its context keeps it, runs no initialiser, and every call that looks up and returns meanwhile gets it |
| `SessionReuse.AnswerWasProduced` | src/gateway/session_cache.rs:45-50 | Every answer is what an initialiser of that run produced |
| `SessionReuse.FinishServes` | src/gateway/session_cache.rs:45-50 | A successful initialiser leaves its session reserved for its context |
| `SessionReuse.DoneReturns` | src/gateway/session_cache.rs:48-50 | A call whose cell is done returns what the cell holds |
| `SessionReuse.EmptyProceeds` | src/gateway/session_cache.rs:45-50 | A call whose cell is empty fills it and gets its own result |
| `SessionReuse.WaiterProceeds` | src/gateway/session_cache.rs:45-50 | A waiting call shares the result, or may fill the cell itself when the initialising call is cancelled |
| `SessionCache.Cache.GetSlot` | src/gateway/session_cache.rs:29-44 | The locked section equals the reservation step: live and pending reservations stay, a context among them is joined, another gets a new cell exactly when there is room |
| `SessionCache.Cache.constructor` | src/gateway/session_cache.rs:12-18 | A new cache is empty with its limit |
| `Revocation.VerifyPolicy` | src/core/revocation.rs:115-158 | Accepts exactly well-shaped policies for the exact, proper authority set whose approving signatures alias no component and come from a quorum above two thirds |
| `Revocation.PolicyDigestMeaning` | src/core/revocation.rs:80-94 | Two policies have one digest if and only if version, generation, authority set and the retired identities up to order all agree |
| `Revocation.SignaturesDoNotMove` | src/core/revocation.rs:115-158 | Signatures made for one policy approve no policy with other terms |
| `Revocation.ApprovalIsForTheseTerms` | src/core/revocation.rs:115-158 | With fewer dishonest keys than the quorum, an approved policy retires exactly what some honest authority signed for |
| `PolicyEncoding.PolicyBytesMeaning` | src/core/revocation.rs:80-94 | The hashed bytes of two policies are equal if and only if version, generation, authority set and the retired identities up to order are equal |
| `PolicyEncoding.PolicyLayout` | src/core/revocation.rs:80-94 | Where each field stands in the encoding of a policy |
| `PolicyEncoding.AuthoritySetMeaning` | src/core/revocation.rs:25-37 | The hashed bytes of two authority sets are equal if and only if they bind the same ids to the same keys |
| `PolicyEncoding.ComputePolicyInput` | src/core/revocation.rs:80-94 | Feeding the hasher field by field yields the policy encoding |
| `PolicyEncoding.ComputeAuthoritySetInput` | src/core/revocation.rs:25-37 | Feeding the hasher in order of ids yields the authority set encoding |
| `Revocation.CountSigners` | src/core/revocation.rs:135-152 | The loop counts distinct signing keys and refuses exactly aliased or repeated signers |
| `Revocation.ValidateShape` | src/core/revocation.rs:54-78 | Decides exactly the version, generation, size, distinctness and signature-shape conditions |
| `Revocation.CheckIdentities` | src/core/revocation.rs:62-68 | Accepts exactly nonzero, pairwise distinct identities |
| `Retirement.CommitsCumulative` | src/core/revocation.rs:242-279 | Over any interleaving of starts, crashes and failed writes committed generations never decrease, equal generations carry equal digests, no identity is dropped, each record has the approval of more than two thirds of distinct keys, and each can be read back |
| `Retirement.OneSetPerGeneration` | src/core/revocation.rs:245-267 | Over any interleaving, equal committed generations retire the same identities |
| `Retirement.EnrolledStartProceeds` | src/core/revocation.rs:182-279 | In any world with the lock free, a start with a policy that runs through does exactly what the sequential form does and leaves the lock free |
| `Retirement.BareStartProceeds` | src/core/revocation.rs:182-206 | A start without a policy succeeds if and only if there is no record and no lock |
| `Retirement.StaleLockBlocks` | src/core/revocation.rs:190-212 | A killed start leaves its lock, which stops every start with a policy until it is removed while no start runs |
| `Retirement.StartWritesOnce` | src/core/revocation.rs:208-279 | A start reads the record once and writes once |
| `Retirement.StartsCumulative` | src/core/revocation.rs:182-279 | A start that succeeds after enrolment carries a policy and returns its own record's set, a superset of every set committed before; one without a policy began before any record |
| `Retirement.RunKeepsInv` | src/core/revocation.rs:182-279 | The lock admits one start with a policy at a time, and what it read stays current until it writes |
| `Retirement.CommitExtends` | src/core/revocation.rs:245-279 | A record admissible after the last one succeeds all earlier ones |
| `Retirement.RetirementState.LoadAndCommit` | src/core/revocation.rs:182-279 | Undisturbed, a start returns and writes exactly what the lock, the journal and the policy file allow, unreadable files included, and leaves the lock as it found it |
| `Retirement.RetirementState.CheckAndWrite` | src/core/revocation.rs:208-279 | Under the lock the journal is replaced exactly for an admissible policy and a write that reaches the disk |
| `Retirement.RetirementState.CheckRecord` | src/core/revocation.rs:245-267 | Accepts exactly a well-formed record that the policy succeeds |
| `Ranking.RankingStatistic` | eval/evaluate_protocol_detection.py:94-110 | The grouped linear pass equals the sum over all positive/reference pairs of 1 for greater and 1/2 for a tie, divided by the number of pairs |
| `Ranking.SumFavorable` | eval/evaluate_protocol_detection.py:99-109 | The pass over a sorted list computes the pair sum |
| `Ranking.GroupShare` | eval/evaluate_protocol_detection.py:102-108 | A tied group earns its positives times the negatives below plus half its own |
| `Ranking.CountGroup` | eval/evaluate_protocol_detection.py:103-107 | The inner loop takes exactly one tied group and counts its classes |
| `Ranking.PermutedSame` | eval/evaluate_protocol_detection.py:96-98 | The statistic does not depend on the order of the samples |
| `Thresholds.CalibrateDetector` | eval/evaluate_protocol_detection.py:77-91 | The threshold meets the false-positive limit, no real threshold that meets it has more true positives, and none with as many has fewer false positives |
| `Thresholds.CalibrateAttack` | eval/evaluate_open_world.py:61-77 | The same for correct identifications and background false alarms |
| `Thresholds.Sweep` | eval/evaluate_protocol_detection.py:80-91 | One sweep over group boundaries finds the optimum over all real thresholds, from a sentinel that rejects everything |
| `Thresholds.TakeGroup` | eval/evaluate_protocol_detection.py:85-88 | Equal values move together |
| `Thresholds.BestNext` | eval/evaluate_protocol_detection.py:89-90 | The test after each group keeps the earliest best boundary |
| `Thresholds.BestIsOptimal` | eval/evaluate_protocol_detection.py:77-91 | The best boundary is optimal against every real threshold |
| `Thresholds.DetectorCounts` | eval/evaluate_protocol_detection.py:62-66 | The sweep counts what `counts` reports |
| `Thresholds.VisitCounts` | eval/evaluate_open_world.py:25-30 | The sweep counts what `metrics` reports |
| `Thresholds.ScoreInRange` | eval/evaluate_protocol_detection.py:48-58 | A detector score lies between 0 and 1, so the sentinel above 1 rejects all |
| `Thresholds.ScoreMeaning` | eval/evaluate_protocol_detection.py:48-58 | A score is above one half exactly when the reference is the farther of the two, and is its share of both distances |
| `Thresholds.BackgroundVisits` | eval/evaluate_open_world.py:25-30 | The rate is taken over exactly the visits outside the monitored pages |

## Left out

- Real cryptography, hashing and TLS exporters: ideal assumptions stand in their place, as listed under Conventions.
- Text syntax of hosts, URLs and addresses: a host is an address with a spelling or another name, and a parsed endpoint is a host and port; `ProxyNode::parse` failures are not modelled.
- Clocks at or beyond 2^63 seconds: times are unbounded naturals, so additions such as epoch plus 600 never wrap.
- The part of `generate_consensus` that gathers co-signatures from peers: documents in the agreement theorem carry arbitrary genuine signatures, which covers whatever it gathers.
- `require_exit_at_last == false` in onion chain selection: only the form with an exit required last is modelled.
- `OnionFailures.SomeOrderFailsExactly`: an empty guard set is taken to carry no identities, as in every state the program writes; a guard file edited by hand could.
- `OnionFailures.SomeOrderSucceedsExactly`: under the same assumption, and for requests of two hops or more, because a request of one hop may be answered without a guard.
- Asynchronous time-outs: a time-out is a step that may happen at any moment, with no bound on when.
- The tracker's proof-of-work and challenge exchange before a relay registers: the nonce registry covers replay; the challenge is cryptography.
- Rounding in the evaluators, and their Wilson intervals, feature scaling and nearest-neighbour scores apart from the range of a score.
- `sign` of a retirement policy appends one signature, `with_transports` binds endpoints one to one, `refresh` fetches documents and passes them to the load, and proxy files, `get_random_chain` and `get_next` serve pools without a directory: each is a single call that no run-level property here depends on.
- Gateway socket plumbing, multipath routing, morphing, chaffing, kernel and firewall rules, browser isolation, packaging, capture and setup scripts.
